/**
 * The launcher of nvr: resolve the server name, probe the server, decide
 * whether to attach to it or start a new editor listening on it, and build
 * the command line that is finally executed.
 *
 * Process execution, the environment and the filesystem are parameters:
 * - `listenAddress` is the value of NVIM_LISTEN_ADDRESS, if set;
 * - `probe(cmd)` is whether running `cmd` exits with status zero;
 * - `resolve(p)` is `pathlib.Path(p).resolve().as_posix()`.
 */
module NvrCmd {
  import opened PyStr

  datatype Option<T> = None | Some(value: T)

  /** A value, or the status the run ends with through `sys.exit`. */
  datatype Result<T> = Ok(value: T) | Exit(status: int)

  /** The parsed command line. */
  datatype Config = Config(
    debug: nat,                  // -d/--debug, counted
    serverName: Option<string>,  // --server-name, None when absent
    noStart: bool,               // --no-start
    editor: string,              // --editor
    additionArgs: seq<string>)   // the <file> positionals

  /** Whether the final command connects to a running server or starts one. */
  datatype Mode = Attach | Start

  /** The editor binary used for the probe and for attaching. */
  const Nvim: string := "nvim"

  /** The value of `--editor` when it is not given. */
  const DefaultEditor: string := "nvim"

  /** The configuration argparse produces when no option is given. */
  function DefaultConfig(files: seq<string>): Config
  {
    Config(0, None, false, DefaultEditor, files)
  }

  /** Python truthiness of an optional string: present and non-empty. */
  predicate Truthy(s: Option<string>)
  {
    s.Some? && s.value != ""
  }

  /**
   * `get_server_name`: a truthy `--server-name` wins; otherwise the
   * environment's value is used as it is, even when empty; with neither the
   * run exits with status 1.
   */
  function GetServerName(serverName: Option<string>, listenAddress: Option<string>): (r: Result<string>)
    ensures Truthy(serverName) ==> r == Ok(serverName.value)
    ensures !Truthy(serverName) && listenAddress.Some? ==> r == Ok(listenAddress.value)
    ensures r.Exit? <==> !Truthy(serverName) && listenAddress.None?
    ensures r.Exit? ==> r.status == 1
  {
    if Truthy(serverName) then Ok(serverName.value)
    else if listenAddress.Some? then Ok(listenAddress.value)
    else Exit(1)
  }

  /** The command `find_server` runs to check that a server answers. */
  function ProbeCommand(serverName: string): (cmd: seq<string>)
  {
    [Nvim, "--server", serverName, "--remote-expr", "version"]
  }

  /**
   * The decision of `main`: a server that answers is attached to; when it
   * does not answer, `--no-start` ends the run with status 2 and otherwise a
   * new server is started.
   */
  function Decide(probeOk: bool, noStart: bool): (r: Result<Mode>)
    ensures r == Ok(Attach) <==> probeOk
    ensures r == Ok(Start) <==> !probeOk && !noStart
    ensures r == Exit(2) <==> !probeOk && noStart
  {
    var startServer := !probeOk;
    if startServer && noStart then Exit(2)
    else Ok(if startServer then Start else Attach)
  }

  /** `get_editor_cmdline`: the editor string split on single spaces. */
  function GetEditorCmdline(editor: string): (r: seq<string>)
    ensures Join(r, ' ') == editor
    ensures forall i :: 0 <= i < |r| ==> ' ' !in r[i]
    ensures |r| == Count(editor, ' ') + 1
  {
    JoinSplit(editor, ' ');
    Split(editor, ' ')
  }

  /** A `+`-prefixed argument is an editor command such as `+10`. */
  predicate IsEditorCommand(arg: string)
  {
    StartsWith(arg, "+")
  }

  /** The lambda of `norm_addition_args`, applied to one argument. */
  function NormArg(arg: string, resolve: string -> string): string
  {
    if IsEditorCommand(arg) then arg else resolve(arg)
  }

  /**
   * `norm_addition_args`: same length and order as the input; editor
   * commands pass through, every other argument is resolved as a path.
   */
  function NormAdditionArgs(args: seq<string>, resolve: string -> string): (r: seq<string>)
    ensures |r| == |args|
    ensures forall i :: 0 <= i < |args| && IsEditorCommand(args[i]) ==> r[i] == args[i]
    ensures forall i :: 0 <= i < |args| && !IsEditorCommand(args[i]) ==> r[i] == resolve(args[i])
  {
    if args == [] then []
    else [NormArg(args[0], resolve)] + NormAdditionArgs(args[1..], resolve)
  }

  /** The start of the final command line: the program and its own arguments. */
  function BaseCommand(mode: Mode, editor: string): seq<string>
  {
    match mode
    case Start => GetEditorCmdline(editor)
    case Attach => [Nvim]
  }

  /** The flags the launcher appends after the base command. */
  function ModeFlags(mode: Mode, serverName: string): seq<string>
  {
    match mode
    case Start => ["--listen", serverName]
    case Attach => ["--server", serverName, "--remote"]
  }

  /**
   * What a run of `main` ends with: an exit status, or the command line
   * handed to `subprocess.run`.
   */
  function Command(cfg: Config, listenAddress: Option<string>,
                   probe: seq<string> -> bool, resolve: string -> string): Result<seq<string>>
  {
    match GetServerName(cfg.serverName, listenAddress)
    case Exit(status) => Exit(status)
    case Ok(serverName) =>
      match Decide(probe(ProbeCommand(serverName)), cfg.noStart)
      case Exit(status) => Exit(status)
      case Ok(mode) =>
        Ok(BaseCommand(mode, cfg.editor) + ModeFlags(mode, serverName)
           + NormAdditionArgs(cfg.additionArgs, resolve))
  }

  /**
   * `main` after argument parsing, step by step: the `start_server` flag is
   * set by the probe, then the command line is grown by appends and one
   * extend.
   */
  method Launch(cfg: Config, listenAddress: Option<string>,
                probe: seq<string> -> bool, resolve: string -> string)
    returns (r: Result<seq<string>>)
    ensures r == Command(cfg, listenAddress, probe, resolve)
  {
    var name := GetServerName(cfg.serverName, listenAddress);
    if name.Exit? {
      return Exit(name.status);
    }
    var serverName := name.value;

    var startServer := false;
    if !probe(ProbeCommand(serverName)) {
      if cfg.noStart {
        return Exit(2);
      }
      startServer := true;
    }

    var cmdLine := if startServer then GetEditorCmdline(cfg.editor) else [Nvim];
    cmdLine := cmdLine + [if startServer then "--listen" else "--server"];
    cmdLine := cmdLine + [serverName];
    if !startServer {
      cmdLine := cmdLine + ["--remote"];
    }
    ghost var mode := if startServer then Start else Attach;
    assert cmdLine == BaseCommand(mode, cfg.editor) + ModeFlags(mode, serverName);
    cmdLine := cmdLine + NormAdditionArgs(cfg.additionArgs, resolve);
    return Ok(cmdLine);
  }

  // ---------------------------------------------------------------------
  // Server name

  /** A resolved name is the flag's value or the environment's; an empty flag never wins. */
  lemma ServerNameSource(serverName: Option<string>, listenAddress: Option<string>)
    requires GetServerName(serverName, listenAddress).Ok?
    ensures var name := GetServerName(serverName, listenAddress).value;
      Some(name) == serverName || Some(name) == listenAddress
    ensures GetServerName(serverName, listenAddress).value == "" ==> listenAddress == Some("")
  {
  }

  /** The environment is only consulted when the flag is not truthy. */
  lemma FlagShadowsEnvironment(serverName: Option<string>, env1: Option<string>, env2: Option<string>)
    requires Truthy(serverName)
    ensures GetServerName(serverName, env1) == GetServerName(serverName, env2)
  {
  }

  // ---------------------------------------------------------------------
  // The run

  /**
   * Without a truthy flag and without the environment variable the run ends
   * with status 1 whatever the probe or the filesystem would say: nothing is
   * probed and nothing is executed.
   */
  lemma UnresolvedServerExits(cfg: Config, listenAddress: Option<string>,
                              probe: seq<string> -> bool, resolve: string -> string)
    requires !Truthy(cfg.serverName) && listenAddress.None?
    ensures Command(cfg, listenAddress, probe, resolve) == Exit(1)
  {
  }

  /** A server that answers its probe is attached to, with `--remote`; `--editor` plays no part. */
  lemma AttachWhenProbeSucceeds(cfg: Config, listenAddress: Option<string>,
                                probe: seq<string> -> bool, resolve: string -> string,
                                serverName: string, editor: string)
    requires GetServerName(cfg.serverName, listenAddress) == Ok(serverName)
    requires probe(ProbeCommand(serverName))
    ensures Command(cfg, listenAddress, probe, resolve)
         == Ok([Nvim, "--server", serverName, "--remote"] + NormAdditionArgs(cfg.additionArgs, resolve))
    ensures Command(cfg.(editor := editor), listenAddress, probe, resolve)
         == Command(cfg, listenAddress, probe, resolve)
  {
    assert [Nvim] + ModeFlags(Attach, serverName) == [Nvim, "--server", serverName, "--remote"];
  }

  /** A server that does not answer, under `--no-start`, ends the run with status 2. */
  lemma AbortWhenNoStart(cfg: Config, listenAddress: Option<string>,
                         probe: seq<string> -> bool, resolve: string -> string,
                         serverName: string)
    requires GetServerName(cfg.serverName, listenAddress) == Ok(serverName)
    requires !probe(ProbeCommand(serverName)) && cfg.noStart
    ensures Command(cfg, listenAddress, probe, resolve) == Exit(2)
  {
  }

  /** A server that does not answer, without `--no-start`, is started from the editor string. */
  lemma StartWhenProbeFails(cfg: Config, listenAddress: Option<string>,
                            probe: seq<string> -> bool, resolve: string -> string,
                            serverName: string)
    requires GetServerName(cfg.serverName, listenAddress) == Ok(serverName)
    requires !probe(ProbeCommand(serverName)) && !cfg.noStart
    ensures Command(cfg, listenAddress, probe, resolve)
         == Ok(Split(cfg.editor, ' ') + ["--listen", serverName] + NormAdditionArgs(cfg.additionArgs, resolve))
  {
  }

  /** A `sys.exit` ends the run with status 1 or 2; `sys.exit(1)` happens exactly when no name is found. */
  lemma ExitStatuses(cfg: Config, listenAddress: Option<string>,
                     probe: seq<string> -> bool, resolve: string -> string)
    requires Command(cfg, listenAddress, probe, resolve).Exit?
    ensures var status := Command(cfg, listenAddress, probe, resolve).status;
      (status == 1 <==> GetServerName(cfg.serverName, listenAddress).Exit?)
      && (status == 1 || status == 2)
  {
  }

  /**
   * Reading the final command from its end: the normalised arguments are
   * its tail; just before them stands `--remote` in attach mode, and before
   * that the server name directly after the mode flag (`--server` when
   * attaching, `--listen` when starting).
   */
  lemma CommandLayout(cfg: Config, listenAddress: Option<string>,
                      probe: seq<string> -> bool, resolve: string -> string)
    requires Command(cfg, listenAddress, probe, resolve).Ok?
    ensures var cmd := Command(cfg, listenAddress, probe, resolve).value;
      var serverName := GetServerName(cfg.serverName, listenAddress).value;
      var attach := probe(ProbeCommand(serverName));
      var k := |cmd| - |cfg.additionArgs|;
      k >= 3
      && cmd[k..] == NormAdditionArgs(cfg.additionArgs, resolve)
      && (attach ==> cmd[..k] == [Nvim, "--server", serverName, "--remote"])
      && (!attach ==> cmd[..k - 2] == GetEditorCmdline(cfg.editor)
                      && cmd[k - 2] == "--listen" && cmd[k - 1] == serverName)
  {
    var serverName := GetServerName(cfg.serverName, listenAddress).value;
    var mode := Decide(probe(ProbeCommand(serverName)), cfg.noStart).value;
    var base, flags := BaseCommand(mode, cfg.editor), ModeFlags(mode, serverName);
    var norm := NormAdditionArgs(cfg.additionArgs, resolve);
    var cmd := base + flags + norm;
    assert Command(cfg, listenAddress, probe, resolve).value == cmd;
    assert cmd[|base + flags|..] == norm;
    assert cmd[..|base + flags|] == base + flags;
  }

  /** `--remote` is appended exactly in attach mode, and the server name always follows the mode flag. */
  lemma ModeFlagsShape(mode: Mode, serverName: string)
    ensures var f := ModeFlags(mode, serverName);
      |f| >= 2 && f[1] == serverName
      && (f[0] == "--server" <==> mode == Attach)
      && (f[0] == "--listen" <==> mode == Start)
      && (|f| == 3 && f[2] == "--remote" <==> mode == Attach)
  {
  }

  /** The probe asks about the same server, through the same binary and flag, that attaching connects to. */
  lemma ProbeTargetsAttachedServer(serverName: string)
    ensures ProbeCommand(serverName)[..3] == BaseCommand(Attach, "") + ModeFlags(Attach, serverName)[..2]
    ensures |ProbeCommand(serverName)| == 5 && ProbeCommand(serverName)[3..] == ["--remote-expr", "version"]
  {
  }

  // ---------------------------------------------------------------------
  // Editor string and argument normalisation

  /**
   * Every non-empty list of space-free tokens is what exactly one editor
   * string splits into: the string that joins them with spaces.
   */
  lemma EditorCmdlineFromTokens(tokens: seq<string>)
    requires |tokens| >= 1
    requires forall i :: 0 <= i < |tokens| ==> ' ' !in tokens[i]
    ensures GetEditorCmdline(Join(tokens, ' ')) == tokens
    ensures forall editor :: GetEditorCmdline(editor) == tokens ==> editor == Join(tokens, ' ')
  {
    SplitJoin(tokens, ' ');
  }

  /** Normalising a concatenation normalises each part. */
  lemma {:induction false} NormAppend(a: seq<string>, b: seq<string>, resolve: string -> string)
    ensures NormAdditionArgs(a + b, resolve) == NormAdditionArgs(a, resolve) + NormAdditionArgs(b, resolve)
  {
    if a != [] {
      assert (a + b)[1..] == a[1..] + b;
      NormAppend(a[1..], b, resolve);
    }
  }

  /** Arguments that are all editor commands are left as they are. */
  lemma {:induction false} NormKeepsEditorCommands(args: seq<string>, resolve: string -> string)
    requires forall i :: 0 <= i < |args| ==> IsEditorCommand(args[i])
    ensures NormAdditionArgs(args, resolve) == args
  {
    if args != [] {
      NormKeepsEditorCommands(args[1..], resolve);
    }
  }

  /**
   * Normalising twice is normalising once if path resolution is itself
   * idempotent; nothing in the launcher establishes that.
   */
  lemma {:induction false} NormIdempotentIfResolveIs(args: seq<string>, resolve: string -> string)
    requires forall p :: resolve(resolve(p)) == resolve(p)
    ensures NormAdditionArgs(NormAdditionArgs(args, resolve), resolve) == NormAdditionArgs(args, resolve)
  {
    if args != [] {
      NormIdempotentIfResolveIs(args[1..], resolve);
      var once := NormAdditionArgs(args, resolve);
      assert once[1..] == NormAdditionArgs(args[1..], resolve);
    }
  }

  // ---------------------------------------------------------------------
  // Two runs

  /** Start mode with editor `nvim` and one file. */
  lemma ExampleStart(probe: seq<string> -> bool, resolve: string -> string)
    requires !probe(ProbeCommand("/tmp/nvsock"))
    requires resolve("a.txt") == "/abs/path/a.txt"
    ensures Command(Config(0, Some("/tmp/nvsock"), false, "nvim", ["a.txt"]), None, probe, resolve)
         == Ok(["nvim", "--listen", "/tmp/nvsock", "/abs/path/a.txt"])
  {
    var cfg := Config(0, Some("/tmp/nvsock"), false, "nvim", ["a.txt"]);
    SplitNoSeparator("nvim", ' ');
    assert "a.txt"[..1] == "a";
    assert NormAdditionArgs(["a.txt"], resolve) == ["/abs/path/a.txt"];
    StartWhenProbeFails(cfg, None, probe, resolve, "/tmp/nvsock");
    assert ["nvim"] + ["--listen", "/tmp/nvsock"] + ["/abs/path/a.txt"]
        == ["nvim", "--listen", "/tmp/nvsock", "/abs/path/a.txt"];
  }

  /** Attach mode with an editor command and one file, the name taken from the environment. */
  lemma ExampleAttach(probe: seq<string> -> bool, resolve: string -> string)
    requires probe(ProbeCommand("/tmp/nvsock"))
    requires resolve("a.txt") == "/abs/path/a.txt"
    ensures Command(DefaultConfig(["+10", "a.txt"]), Some("/tmp/nvsock"), probe, resolve)
         == Ok(["nvim", "--server", "/tmp/nvsock", "--remote", "+10", "/abs/path/a.txt"])
  {
    assert "+10"[..1] == "+" && "a.txt"[..1] == "a";
    assert NormAdditionArgs(["+10", "a.txt"], resolve) == ["+10", "/abs/path/a.txt"];
    AttachWhenProbeSucceeds(DefaultConfig(["+10", "a.txt"]), Some("/tmp/nvsock"), probe, resolve,
                            "/tmp/nvsock", DefaultEditor);
    assert [Nvim, "--server", "/tmp/nvsock", "--remote"] + ["+10", "/abs/path/a.txt"]
        == ["nvim", "--server", "/tmp/nvsock", "--remote", "+10", "/abs/path/a.txt"];
  }
}
