/**
 * The child-process supervisor: `runCommand` merges the launcher's environment into the
 * command, starts the emulator and waits for it; `signal_handler` kills the running child
 * on an interrupt.
 */
module Supervisor {
  import opened Wrappers
  import opened Host

  /** The command a generator builds: its `array` (the argument vector) and an environment to add. */
  class Command {
    var argv: seq<string>
    var env: map<string, string>

    constructor (argv: seq<string>, env: map<string, string>)
      ensures this.argv == argv && this.env == env
    {
      this.argv := argv;
      this.env := env;
    }
  }

  /** How waiting for the child ends. */
  datatype WaitOutcome =
    | Exited(code: int)   // `communicate` returned; `returncode` is `code`
    | BrokenPipe          // `communicate` raised BrokenPipeError
    | WaitFailed          // `communicate` raised anything else

  /** What the operating system does with a launch. */
  datatype ChildWorld = ChildWorld(launchFails: bool, wait: WaitOutcome)

  /** `command.env.update(os.environ)`: every key of both, the launcher's environment winning. */
  function MergeEnv(env: map<string, string>, environ: map<string, string>): (merged: map<string, string>)
    ensures merged.Keys == env.Keys + environ.Keys
    ensures forall k :: k in environ ==> merged[k] == environ[k]
    ensures forall k :: k in env && k !in environ ==> merged[k] == env[k]
  {
    env + environ
  }

  /** The exit code reported: the child's, or -1 when waiting raised. */
  function ExitCode(w: WaitOutcome): int {
    if w.Exited? then w.code else -1
  }

  /** `runCommand(command)` (lines 411-436), for a command `argv` with environment `env`. */
  function RunSpec(argv: seq<string>, env: map<string, string>, environ: map<string, string>, c: ChildWorld,
                   m: Machine): Step<Result<int, Failure>>
  {
    var merged := MergeEnv(env, environ);
    if argv == [] then
      Step(Ok(-1), [], m)
    else if c.launchFails then
      Step(Err(LaunchFailed), [Launch(argv, merged, false)], m)
    else
      Step(Ok(ExitCode(c.wait)), [Launch(argv, merged, true)], m.(proc := Some(Child(argv, merged))))
  }

  method RunCommand(h: Host, cmd: Command, environ: map<string, string>, c: ChildWorld) returns (r: Result<int, Failure>)
    modifies h, cmd
    ensures cmd.argv == old(cmd.argv) && cmd.env == MergeEnv(old(cmd.env), environ)
    ensures var s := RunSpec(old(cmd.argv), old(cmd.env), environ, c, old(h.State()));
      r == s.result && h.State() == s.machine && h.trace == old(h.trace) + s.events
  {
    cmd.env := cmd.env + environ;
    var exitcode := -1;
    if cmd.argv == [] {
      return Ok(exitcode);
    }
    var launched := h.Launch(cmd.argv, cmd.env, c.launchFails);
    if !launched {
      return Err(LaunchFailed);
    }
    match c.wait {
      case Exited(code) => exitcode := code;
      case BrokenPipe =>
      case WaitFailed =>
    }
    r := Ok(exitcode);
  }

  /** `signal_handler`: what it does to the machine in state `m`. */
  function SignalEvents(m: Machine): seq<Event> {
    if m.proc.Some? then [Kill(m.proc.value)] else []
  }

  method SignalHandler(h: Host)
    modifies h
    ensures h.State() == old(h.State())
    ensures h.trace == old(h.trace) + SignalEvents(old(h.State()))
  {
    if h.proc.Some? {
      h.Record(Event.Kill(h.proc.value));
    }
  }

  /**
   * A command is started exactly when its argument vector is not empty, with the merged
   * environment; the global `proc` then names it unless starting it raised, and nothing
   * else in the machine changes.
   */
  lemma RunLaunchesOnce(argv: seq<string>, env: map<string, string>, environ: map<string, string>, c: ChildWorld,
                        m: Machine)
    ensures var s := RunSpec(argv, env, environ, c, m);
      (argv == [] <==> s.events == []) &&
      (argv != [] ==> s.events == [Launch(argv, MergeEnv(env, environ), !c.launchFails)]) &&
      s.machine.nodes == m.nodes && s.machine.mounts == m.mounts && s.machine.mode == m.mode &&
      (s.machine.proc != m.proc ==>
        s.machine.proc == Some(Child(argv, MergeEnv(env, environ))) && argv != [] && !c.launchFails)
  {
  }

  /**
   * The launcher reports the child's exit code when waiting for it returned, and -1 when
   * there is nothing to run or waiting raised; a child that cannot be started raises.
   */
  lemma RunExitCode(argv: seq<string>, env: map<string, string>, environ: map<string, string>, c: ChildWorld,
                    m: Machine)
    ensures var r := RunSpec(argv, env, environ, c, m).result;
      (r.Err? <==> argv != [] && c.launchFails) &&
      (r.Err? ==> r.error == LaunchFailed) &&
      (argv != [] && !c.launchFails && c.wait.Exited? ==> r == Ok(c.wait.code)) &&
      (argv == [] || !c.wait.Exited? ==> r.Ok? ==> r.value == -1)
  {
  }

  /** The launcher's environment overrides a key the command sets itself. */
  lemma EnvironOverridesCommand(env: map<string, string>, environ: map<string, string>, k: string)
    requires k in env && k in environ && env[k] != environ[k]
    ensures MergeEnv(env, environ)[k] != env[k]
  {
  }

  /**
   * An interrupt kills the child started by the last launch, and does nothing when no
   * child was ever started.
   */
  lemma SignalKillsLaunchedChild(argv: seq<string>, env: map<string, string>, environ: map<string, string>,
                                 c: ChildWorld, m: Machine)
    requires m.proc.None?
    ensures var s := RunSpec(argv, env, environ, c, m);
      (SignalEvents(s.machine) != [] <==> argv != [] && !c.launchFails) &&
      (SignalEvents(s.machine) != [] ==> SignalEvents(s.machine) == [Kill(Child(argv, MergeEnv(env, environ)))])
  {
  }
}
