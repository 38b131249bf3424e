# nvr launcher, modelled in Dafny

nvr opens files in a Neovim server. It takes a server name from `--server-name` or from the
environment variable NVIM_LISTEN_ADDRESS. It asks that server for its version to see whether
the server is alive. Then it either attaches to the server (`nvim --server NAME --remote FILES`)
or starts a new editor listening on the name (`EDITOR... --listen NAME FILES`). With `--no-start`
and no live server it exits instead. File arguments are made absolute. Arguments that start
with `+`, such as `+10`, are editor commands and are passed through unchanged.

The model has two modules:

- `PyStr` (`pystr.dfy`) models the Python `str` operations the launcher uses: `split` on a
  one-character separator, with empty tokens kept, and `startswith`. The launcher never calls
  `join`; `Join` is there to state the round-trip of `split(' ')`, and the module proves that
  each of `Join` and `Split` undoes the other.
- `NvrCmd` (`nvr_cmd.dfy`) models `get_server_name`, the probe command of `find_server`,
  `get_editor_cmdline`, `norm_addition_args` and `main` after argument parsing.
  - The pure function `Command` is the specification of a run. It ends either with an exit
    status (`Exit`) or with the command line passed to `subprocess.run` (`Ok`).
  - The method `Launch` follows `main` step by step. It sets the `start_server` flag, then
    appends to the command line and extends it. It is proved equal to `Command`.

The outside world is given to the model as parameters:

- `listenAddress: Option<string>` is the environment lookup.
- `probe: seq<string> -> bool` says whether running a given command exits with status zero.
  The model applies it to the probe command line itself, so the lemmas also state which
  command gets probed.
- `resolve: string -> string` is `pathlib.Path(p).resolve().as_posix()`. Nothing is assumed
  about it.

Three details of `cmd.py` the model keeps:

- The editor string is split on single spaces, with Python `split(' ')` semantics. It is not
  split on all whitespace.
- A missing `nvim` binary during the probe is not treated as "no server". `find_server` only
  catches `CalledProcessError`, so the error propagates out of the probe.
- Normalisation is not claimed to be idempotent. `NvrCmd.NormIdempotentIfResolveIs` proves it
  only on the condition that `resolve` is idempotent.

## Model

| member | source | states |
|---|---|---|
| PyStr.Split | src/nvr/cmd.py:78-79 | `str.split(' ')`: the token count is the number of separators plus one, empty tokens included; no token contains the separator |
| PyStr.JoinSplit | src/nvr/cmd.py:78-79 | joining the split tokens with the separator gives back the original string |
| PyStr.SplitJoin | src/nvr/cmd.py:78-79 | splitting the join of a non-empty list of separator-free tokens gives back the list |
| NvrCmd.GetServerName | src/nvr/cmd.py:56-64 | a truthy `--server-name` wins; if it is absent or empty, the environment value is used, even an empty one; with neither, the run exits with status 1, and only in that case |
| NvrCmd.ServerNameSource | src/nvr/cmd.py:56-64 | a resolved name is the flag's value or the environment's; an empty name can only come from the environment |
| NvrCmd.FlagShadowsEnvironment | src/nvr/cmd.py:57-58 | when the flag is truthy, the environment does not affect the name |
| NvrCmd.Decide | src/nvr/cmd.py:99-106 | attach if and only if the probe succeeds; exit 2 if and only if the probe fails under `--no-start`; start if and only if the probe fails without it |
| NvrCmd.GetEditorCmdline | src/nvr/cmd.py:78-79 | the tokens join back with `' '` to the editor string; no token contains a space; there is one more token than there are spaces |
| NvrCmd.EditorCmdlineFromTokens | src/nvr/cmd.py:78-79 | every non-empty list of space-free tokens comes from exactly one editor string, the one that joins them with spaces |
| NvrCmd.NormAdditionArgs | src/nvr/cmd.py:82-86 | same length and order as the input; an argument starting with `+` stays unchanged; every other argument becomes `resolve` of itself |
| NvrCmd.NormAppend | src/nvr/cmd.py:82-86 | normalisation works argument by argument: normalising a concatenation gives the concatenation of the normalised parts |
| NvrCmd.NormKeepsEditorCommands | src/nvr/cmd.py:84-85 | a list made only of `+` arguments comes out unchanged |
| NvrCmd.NormIdempotentIfResolveIs | src/nvr/cmd.py:82-86 | normalising twice equals normalising once, provided `resolve` is idempotent |
| NvrCmd.Launch | src/nvr/cmd.py:97-116 | `main`'s step-by-step flag update, appends and extend reach exactly the outcome given by `Command` |
| NvrCmd.UnresolvedServerExits | src/nvr/cmd.py:56-64 | with no truthy flag and no environment value, the run ends with status 1 whatever any probe or path resolution would return, so no command is probed or run |
| NvrCmd.AttachWhenProbeSucceeds | src/nvr/cmd.py:99-116 | if the probe succeeds, the command is `["nvim", "--server", name, "--remote"]` followed by the normalised arguments, and changing `--editor` does not change it |
| NvrCmd.AbortWhenNoStart | src/nvr/cmd.py:101-104 | if the probe fails and `--no-start` is given, the run ends with status 2 |
| NvrCmd.StartWhenProbeFails | src/nvr/cmd.py:101-116 | if the probe fails without `--no-start`, the command is the split editor string, then `["--listen", name]`, then the normalised arguments |
| NvrCmd.ExitStatuses | src/nvr/cmd.py:56-106 | a `sys.exit` ends the run with status 1 or 2; `sys.exit(1)` happens exactly when no server name is found |
| NvrCmd.CommandLayout | src/nvr/cmd.py:108-116 | the normalised arguments form the tail of the command. Before them comes `--server name --remote` after `nvim` when attaching, or `--listen name` after the editor's tokens when starting |
| NvrCmd.ModeFlagsShape | src/nvr/cmd.py:110-114 | the server name directly follows the mode flag; the flag is `--server` exactly when attaching and `--listen` exactly when starting; a third flag, `--remote`, is appended exactly when attaching |
| NvrCmd.ProbeTargetsAttachedServer | src/nvr/cmd.py:68 | the probe command is five elements long. It starts with the same `nvim --server name` that attaching uses and ends with `--remote-expr version` |
| NvrCmd.ExampleStart | src/nvr/cmd.py:108-116 | editor `nvim`, name `/tmp/nvsock`, failed probe, file `a.txt` gives `nvim --listen /tmp/nvsock /abs/path/a.txt` |
| NvrCmd.ExampleAttach | src/nvr/cmd.py:108-116 | default options, name taken from the environment, live server, arguments `+10 a.txt` gives `nvim --server /tmp/nvsock --remote +10 /abs/path/a.txt` |

## Left out

- `parse_arguments` (argparse, `--version`) is a library wrapper. Its result is the record `Config`, and `DefaultConfig` holds the defaults.
- The debug level and logging (lines 92-95 and the `logging` calls) have no effect on behaviour.
- Running processes is left out. This covers the probe's `subprocess.run` (line 71) and the final `subprocess.run(..., check=True)` (line 119). The probe's outcome is the parameter `probe`. The model stops at the command line handed to the final run, so the child's exit status, and the `CalledProcessError` that `check=True` raises for a non-zero one, are not modelled.
- An exception from the probe other than `CalledProcessError` is not modelled. A missing `nvim` binary is one example: it propagates and ends the run with a traceback.
- Errors raised by path resolution are not modelled, because `resolve` is total.
- The exceptions left out above (a non-zero child under `check=True`, a missing `nvim` at the probe, a failing path resolution) also end the process with status 1, through Python's uncaught-exception exit. The model's `Exit` stands only for the two `sys.exit` calls (lines 64 and 104).
- `norm_addition_args` returns a lazy `map`, so `resolve` runs during the `extend` at line 116, after the probe. The model's `resolve` is a pure function, so when it runs makes no difference to the result.
- ModeFlagsShape: states the `--remote` and mode-flag facts about the flags the launcher appends, not about the whole command prefix. The reason is that an editor string or server name may itself contain the token `--remote` or `--listen`.
- The imports of `datetime`, `queue`, `re` and `multiprocessing` are unused and play no role.
