/**
 * The machine the launcher runs on, reduced to what the launcher touches: directories and
 * mounts under the squashfs root, the display mode, the child-process handle (the global
 * `proc`), and a trace of every side-effecting call to a collaborator (`mount`, `umount`,
 * `videoMode`, `Evmapy`, hook scripts, `bezelsUtil`, `subprocess`).
 */
module Host {
  import opened Wrappers

  /** A path's entry: a plain file, or a directory with the names it lists. */
  datatype Node = File | Dir(entries: set<string>)

  /** A display resolution as `videoMode.getCurrentResolution` reports it. */
  datatype Resolution = Resolution(width: int, height: int)

  /** A launched child process: its argument vector and environment. */
  datatype Child = Child(argv: seq<string>, env: map<string, string>)

  /** The image work of `bezelsUtil`. */
  datatype ImageOp =
    | Resize(src: string, dst: string, width: int, height: int)
    | Tattoo(src: string, dst: string)

  /** The exceptions that can escape a launcher operation. */
  datatype Failure =
    | SetupFailed                    // controller or emulator configuration loading raised
    | MissingSetting(key: string)    // `system.config[key]` raised KeyError
    | UnknownBackend(name: string)   // `generators[name]` raised KeyError
    | MkdirFailed(path: string)
    | MountFailed(archive: string)
    | UmountFailed(mountPoint: string)
    | RmdirFailed(path: string)
    | ModeChangeFailed(mode: string)
    | InputMapperFailed              // `Evmapy.start` raised
    | GenerateFailed                 // the generator's `generate` raised
    | DivisionByZero                 // a zero height or width in `getHudBezel`
    | TattooFailed                   // `bezelsUtil.tatooImage` raised
    | LaunchFailed                   // `subprocess.Popen` raised
    | HookFailed(root: string, phase: string)  // a hook script below `root` could not be executed

  /** One call to a side-effecting collaborator, with what it reported. */
  datatype Event =
    | Mkdir(path: string, ok: bool)
    | Rmdir(path: string, ok: bool)
    | Mount(archive: string, mountPoint: string, status: int)
    | Umount(mountPoint: string, status: int)
    | EnableMouse
    | MakeExecutable(path: string)
    | MaxResolution(mode: string)
    | ChangeMode(mode: string, ok: bool)
    | Hooks(root: string, phase: string, args: seq<string>, calls: multiset<string>, ok: bool)
    | InputMapperStart(system: string, emulator: string, core: string, rom: string, ok: bool)
    | InputMapperStop
    | Chdir(dir: string)
    | ImageWork(op: ImageOp, ok: bool)
    | WriteFile(path: string, text: string)
    | Launch(argv: seq<string>, env: map<string, string>, ok: bool)
    | Kill(child: Child)

  /** The machine state as a value. */
  datatype Machine = Machine(
    nodes: map<string, Node>,
    mounts: map<string, set<string>>,   // mount point -> the entries of the mounted archive
    mode: string,                       // the current display mode
    proc: Option<Child>)                // the global `proc`

  /** The outcome of a specified operation: its result, the calls it made and the new state. */
  datatype Step<T> = Step(result: T, events: seq<Event>, machine: Machine)

  /** What `os.listdir(path)` reports: a mounted archive shadows the directory below it. */
  function Listing(m: Machine, path: string): set<string> {
    if path in m.mounts then m.mounts[path]
    else if path in m.nodes && m.nodes[path].Dir? then m.nodes[path].entries
    else {}
  }

  predicate IsDir(m: Machine, path: string) {
    path in m.nodes && m.nodes[path].Dir?
  }

  /** `os.path.exists(dir + "/" + name)` for a directory `dir`. */
  predicate ChildExists(m: Machine, dir: string, name: string) {
    name == "." || name == ".." || name in Listing(m, dir)
  }

  /** `os.mkdir(path)` succeeds when nothing exists at `path` (parents are taken to exist). */
  predicate MkdirOk(m: Machine, path: string) {
    path !in m.nodes
  }

  function AfterMkdir(m: Machine, path: string): Machine {
    if MkdirOk(m, path) then m.(nodes := m.nodes[path := Dir({})]) else m
  }

  /** `os.rmdir(path)` succeeds on an empty directory that is not a mount point. */
  predicate RmdirOk(m: Machine, path: string) {
    IsDir(m, path) && path !in m.mounts && m.nodes[path].entries == {}
  }

  function AfterRmdir(m: Machine, path: string): Machine {
    if RmdirOk(m, path) then m.(nodes := m.nodes - {path}) else m
  }

  /** A mount or umount with exit status 0 takes effect; any other status changes nothing. */
  function AfterMount(m: Machine, mountPoint: string, status: int, archive: set<string>): Machine {
    if status == 0 then m.(mounts := m.mounts[mountPoint := archive]) else m
  }

  function AfterUmount(m: Machine, mountPoint: string, status: int): Machine {
    if status == 0 then m.(mounts := m.mounts - {mountPoint}) else m
  }

  /** Every mount point is a directory. */
  predicate Coherent(m: Machine) {
    forall p :: p in m.mounts ==> IsDir(m, p)
  }

  /** The machine, updated in place by the launcher's calls. */
  class Host {
    var nodes: map<string, Node>
    var mounts: map<string, set<string>>
    var mode: string
    var proc: Option<Child>
    ghost var trace: seq<Event>

    function State(): Machine
      reads this
    {
      Machine(nodes, mounts, mode, proc)
    }

    constructor (m: Machine)
      ensures State() == m && trace == []
    {
      nodes, mounts, mode, proc := m.nodes, m.mounts, m.mode, m.proc;
      trace := [];
    }

    /** A call whose only effect the model keeps is the call itself. */
    method Record(e: Event)
      modifies this
      ensures State() == old(State())
      ensures trace == old(trace) + [e]
    {
      trace := trace + [e];
    }

    /** Calls whose only effects the model keeps are the calls themselves. */
    method RecordAll(es: seq<Event>)
      modifies this
      ensures State() == old(State())
      ensures trace == old(trace) + es
    {
      trace := trace + es;
    }

    method Mkdir(path: string) returns (ok: bool)
      modifies this
      ensures ok == MkdirOk(old(State()), path)
      ensures State() == AfterMkdir(old(State()), path)
      ensures trace == old(trace) + [Event.Mkdir(path, ok)]
    {
      ok := path !in nodes;
      if ok {
        nodes := nodes[path := Dir({})];
      }
      trace := trace + [Event.Mkdir(path, ok)];
    }

    method Rmdir(path: string) returns (ok: bool)
      modifies this
      ensures ok == RmdirOk(old(State()), path)
      ensures State() == AfterRmdir(old(State()), path)
      ensures trace == old(trace) + [Event.Rmdir(path, ok)]
    {
      ok := path in nodes && nodes[path].Dir? && path !in mounts && nodes[path].entries == {};
      if ok {
        nodes := nodes - {path};
      }
      trace := trace + [Event.Rmdir(path, ok)];
    }

    /** `subprocess.call(["mount", archive, mountPoint])`, whose exit status is `status`. */
    method Mount(archive: string, mountPoint: string, status: int, contents: set<string>)
      modifies this
      ensures State() == AfterMount(old(State()), mountPoint, status, contents)
      ensures trace == old(trace) + [Event.Mount(archive, mountPoint, status)]
    {
      if status == 0 {
        mounts := mounts[mountPoint := contents];
      }
      trace := trace + [Event.Mount(archive, mountPoint, status)];
    }

    /** `subprocess.call(["umount", mountPoint])`, whose exit status is `status`. */
    method Umount(mountPoint: string, status: int)
      modifies this
      ensures State() == AfterUmount(old(State()), mountPoint, status)
      ensures trace == old(trace) + [Event.Umount(mountPoint, status)]
    {
      if status == 0 {
        mounts := mounts - {mountPoint};
      }
      trace := trace + [Event.Umount(mountPoint, status)];
    }

    /** `videoMode.minTomaxResolution()`, which switches to `maxMode`. */
    method MaxResolution(maxMode: string)
      modifies this
      ensures State() == old(State()).(mode := maxMode)
      ensures trace == old(trace) + [Event.MaxResolution(maxMode)]
    {
      mode := maxMode;
      trace := trace + [Event.MaxResolution(maxMode)];
    }

    /** `videoMode.changeMode(target)`; when it raises the mode stays as it was. */
    method ChangeMode(target: string, fails: bool) returns (ok: bool)
      modifies this
      ensures ok == !fails
      ensures State() == if ok then old(State()).(mode := target) else old(State())
      ensures trace == old(trace) + [Event.ChangeMode(target, ok)]
    {
      ok := !fails;
      if ok {
        mode := target;
      }
      trace := trace + [Event.ChangeMode(target, ok)];
    }

    /** `subprocess.Popen(argv, env=env, ...)`, which sets the global `proc` unless it raises. */
    method Launch(argv: seq<string>, env: map<string, string>, fails: bool) returns (ok: bool)
      modifies this
      ensures ok == !fails
      ensures State() == if ok then old(State()).(proc := Some(Child(argv, env))) else old(State())
      ensures trace == old(trace) + [Event.Launch(argv, env, ok)]
    {
      ok := !fails;
      if ok {
        proc := Some(Child(argv, env));
      }
      trace := trace + [Event.Launch(argv, env, ok)];
    }
  }
}
