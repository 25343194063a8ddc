/**
 * The session orchestrator: `main` mounts a `.squashfs` rom around `start_rom`, and
 * `start_rom` prepares the machine, negotiates the video mode, runs the hook scripts,
 * the input mapper and the emulator, and restores the video mode on the way out.
 *
 * Every collaborator is an oracle in `World`; every call to one is an `Event` in the trace.
 */
module Session {
  import opened Wrappers
  import opened Host
  import Paths
  import HookTree = Hooks
  import GeneratorImporter
  import Squashfs
  import Bezel
  import HudConfig
  import Supervisor

  const SystemScripts: string := "/usr/share/batocera/configgen/scripts"
  const UserScripts: string := "/userdata/system/scripts"
  const ExtraDir: string := "/userdata/system/switch/extra"
  const SwitchDir: string := "/userdata/system/switch"
  const HudConfigPath: string := "/var/run/hud.config"

  /** The command-line arguments `start_rom` reads. */
  datatype Args = Args(
    system: string,              // -system
    rom: string,                 // -rom
    emulator: Option<string>,    // -emulator
    core: Option<string>,        // -core
    systemName: Option<string>)  // -systemname

  /** The settings of `system.config` the launcher reads (`None`: the key is missing). */
  datatype Settings = Settings(
    emulator: Option<string>,
    core: Option<string>,
    videomode: Option<string>,
    resolutionIsReversed: bool,  // set, and true
    hudSupport: bool,            // 'hud_support' set, and true
    hud: Option<string>,
    hudCustom: Option<string>,
    bezel: Option<string>,
    bezelTattoo: Option<string>)

  /** What `videoMode` reports and does. */
  datatype Display = Display(
    maxMode: string,             // the mode `minTomaxResolution` switches to
    resolution: Resolution,      // `getCurrentResolution()` once the mode is set
    changeFails: bool,           // `changeMode(wantedGameMode)` raises
    restoreFails: bool)          // `changeMode(systemMode)` raises

  /** The answers of the generator chosen for the emulator. */
  datatype Backend = Backend(
    resolutionMode: string,                // getResolutionMode(config)
    executionDirectory: Option<string>,    // executionDirectory(config, rom)
    command: Option<Child>,                // generate(...); `None` when it raises
    supportsInternalBezels: bool,
    hasInternalMangoHUDCall: bool,
    ingameRatio: real)                     // getInGameRatio(...)

  /** What `bezelsUtil` and the bezel info file report. */
  datatype BezelWorld = BezelWorld(
    files: Option<Bezel.BezelFiles>,
    infoFile: Option<map<string, real>>,
    pngSize: Bezel.Size,
    resizeFails: bool,
    tattooFails: bool)

  /**
   * Which launcher runs: the code as it stands, or the code with the three defects of its
   * HUD set-up corrected (the info file of a bezel read, the game information read, and
   * no core passed when none is set).
   */
  datatype Revision = AsWritten | Corrected

  /** Everything outside the launcher that a session consults, and the launcher revision. */
  datatype World = World(
    revision: Revision,
    setupFails: bool,                        // loading the controllers or the configuration raises
    settings: Settings,                      // `system.config` as loaded
    display: Display,
    backend: Backend,
    bezels: BezelWorld,
    gameDoc: Option<HudConfig.GameDoc>,      // the game information document, when it parses
    systemScripts: Option<seq<HookTree.Entry>>,      // the script trees as listed for gameStart
    userScripts: Option<seq<HookTree.Entry>>,
    systemStopScripts: Option<seq<HookTree.Entry>>,  // and as listed again for gameStop
    userStopScripts: Option<seq<HookTree.Entry>>,
    inputMapperFails: bool,                  // `Evmapy.start` raises
    environ: map<string, string>,            // `os.environ`
    child: Supervisor.ChildWorld,
    mount: Squashfs.MountWorld)

  /** The launcher's own table of backends (lines 25-30). */
  const LauncherGenerators: map<string, GeneratorImporter.GeneratorKind> := map[
    "yuzu" := GeneratorImporter.YuzuMainline,
    "yuzu-early-access" := GeneratorImporter.YuzuMainline,
    "ryujinx" := GeneratorImporter.RyujinxMainline,
    "ryujinx-avalonia" := GeneratorImporter.RyujinxMainline
  ]

  /** Lines 119-124: `-emulator` and `-core` override the configuration. */
  function ApplyOverrides(st: Settings, a: Args): Settings {
    st.(emulator := if a.emulator.Some? then a.emulator else st.emulator,
        core := if a.core.Some? then a.core else st.core)
  }

  /** Lines 179-181: the core, "" when none is configured. */
  function EffectiveCore(st: Settings): string {
    st.core.GetOr("")
  }

  /** Lines 136-139: enable the mouse pointer and make the switch tools executable. */
  const PrepEvents: seq<Event> := [EnableMouse, MakeExecutable(ExtraDir), MakeExecutable(SwitchDir)]

  /** The outcome of the video-mode negotiation: the `resolutionChanged` flag and the game resolution. */
  datatype Negotiation = Negotiation(changed: bool, resolution: Result<Resolution, Failure>)

  /** Lines 166-170: the resolution, swapped when the panel is mounted rotated. */
  function GameResolution(st: Settings, d: Display): Resolution {
    if st.resolutionIsReversed then Resolution(d.resolution.height, d.resolution.width) else d.resolution
  }

  /** Lines 145-170: lower to the best mode when the mode is automatic, then switch to the wanted mode. */
  function NegotiateSpec(st: Settings, wanted: string, d: Display, m: Machine): Step<Negotiation> {
    if st.videomode.None? then
      Step(Negotiation(false, Err(MissingSetting("videomode"))), [], m)
    else
      var auto := st.videomode.value == "" || st.videomode.value == "default";
      var m1 := if auto then m.(mode := d.maxMode) else m;
      var e1 := if auto then [MaxResolution(d.maxMode)] else [];
      var changed := auto && d.maxMode != m.mode;
      if wanted != "default" && wanted != m1.mode then
        if d.changeFails then
          Step(Negotiation(changed, Err(ModeChangeFailed(wanted))), e1 + [ChangeMode(wanted, false)], m1)
        else
          Step(Negotiation(true, Ok(GameResolution(st, d))), e1 + [ChangeMode(wanted, true)], m1.(mode := wanted))
      else
        Step(Negotiation(changed, Ok(GameResolution(st, d))), e1, m1)
  }

  /** The question `getHudBezel` answers, for the game resolution `res`. */
  function BezelQueryOf(st: Settings, res: Resolution, w: World): Bezel.BezelQuery {
    Bezel.BezelQuery(st.bezel, st.bezelTattoo, w.backend.supportsInternalBezels, w.bezels.files,
      w.bezels.infoFile, w.bezels.pngSize, res, w.backend.ingameRatio, w.bezels.resizeFails, w.bezels.tattooFails)
  }

  /** Line 203: `getHudBezel` in the revision that runs. */
  function HudBezelOf(w: World, q: Bezel.BezelQuery): Bezel.BezelRun {
    if w.revision.AsWritten? then Bezel.HudBezelAsWritten(q) else Bezel.HudBezel(q)
  }

  /** Line 205: `extractGameInfosFromXml` in the revision that runs. */
  function GameInfosOf(w: World): map<string, Option<string>> {
    if w.revision.AsWritten? then HudConfig.GameInfosAsWritten(w.gameDoc) else HudConfig.GameInfos(w.gameDoc)
  }

  /** Line 207: the core handed to `getHudConfig` in the revision that runs. */
  function HudCoreOf(w: World, st: Settings): Option<string> {
    if w.revision.AsWritten? then HudConfig.HudCoreAsWritten(EffectiveCore(st)) else HudConfig.HudCore(EffectiveCore(st))
  }

  /** Line 204: a HUD mode other than "" and "none" is configured. */
  predicate HudWanted(hud: Option<string>) {
    hud.Some? && hud.value != "" && hud.value != "none"
  }

  /** Lines 206-212: the command once the HUD is configured. */
  function WithMangoHud(cmd: Child, internalCall: bool): Child {
    Child(if internalCall then cmd.argv else ["mangohud"] + cmd.argv,
          cmd.env["MANGOHUD_DLSYM" := "1"]["MANGOHUD_CONFIGFILE" := HudConfigPath])
  }

  /** What the HUD set-up does: the command to run (or an exception) and the calls made. */
  datatype HudRun = HudRun(command: Result<Child, Failure>, events: seq<Event>)

  /** Lines 202-212: the HUD set-up for the command `cmd`. */
  function HudSpec(a: Args, st: Settings, emulator: string, res: Resolution, w: World, cmd: Child): HudRun {
    if !st.hudSupport then HudRun(Ok(cmd), [])
    else
      var bz := HudBezelOf(w, BezelQueryOf(st, res, w));
      if bz.result.Err? then HudRun(Err(bz.result.error), bz.events)
      else if HudWanted(st.hud) || bz.result.value.Some? then
        var text := HudConfig.HudConfigText(st.hud, st.hudCustom, a.systemName, emulator,
          HudCoreOf(w, st), GameInfosOf(w), bz.result.value);
        HudRun(Ok(WithMangoHud(cmd, w.backend.hasInternalMangoHUDCall)), bz.events + [WriteFile(HudConfigPath, text)])
      else HudRun(Ok(cmd), bz.events)
  }

  /** Lines 193-216: the input mapper brackets building and running the command. */
  function InnerSpec(a: Args, st: Settings, emulator: string, romConfiguration: string, res: Resolution,
                     w: World, m: Machine): Step<Result<int, Failure>>
  {
    var started := InputMapperStart(a.system, emulator, EffectiveCore(st), romConfiguration, !w.inputMapperFails);
    if w.inputMapperFails then
      Step(Err(InputMapperFailed), [started, InputMapperStop], m)
    else
      var chdir := ChdirEvents(w.backend);
      if w.backend.command.None? then
        Step(Err(GenerateFailed), [started] + chdir + [InputMapperStop], m)
      else
        var run := LaunchSpec(a, st, emulator, res, w, w.backend.command.value, m);
        Step(run.result, [started] + chdir + run.events + [InputMapperStop], run.machine)
  }

  /** Line 199: the generator may ask to run from its own directory. */
  function ChdirEvents(b: Backend): seq<Event> {
    if b.executionDirectory.Some? then [Chdir(b.executionDirectory.value)] else []
  }

  /** Lines 202-214: configure the HUD for the generated command `cmd`, then run it. */
  function LaunchSpec(a: Args, st: Settings, emulator: string, res: Resolution, w: World, cmd: Child,
                      m: Machine): Step<Result<int, Failure>>
  {
    var hud := HudSpec(a, st, emulator, res, w, cmd);
    if hud.command.Err? then Step(Err(hud.command.error), hud.events, m)
    else
      var run := Supervisor.RunSpec(hud.command.value.argv, hud.command.value.env, w.environ, w.child, m);
      Step(run.result, hud.events + run.events, run.machine)
  }

  /** One `callExternalScripts(root, phase, args)` call: the scripts it ran, and whether it raised. */
  function HookEvent(root: string, phase: string, args: seq<string>, tree: Option<seq<HookTree.Entry>>): Event {
    var run := HookTree.HookRun(root, tree);
    Event.Hooks(root, phase, args, run.calls, !run.failed)
  }

  /** What two `callExternalScripts` calls in a row did: the exception that escaped, if any, and the calls. */
  datatype HookPairRun = HookPairRun(result: Result<(), Failure>, events: seq<Event>)

  /** Lines 189-190 and 219-220: two hook walks in a row; an exception in the first skips the second. */
  function HookPairSpec(phase: string, args: seq<string>, first: string, firstTree: Option<seq<HookTree.Entry>>,
                        second: string, secondTree: Option<seq<HookTree.Entry>>): HookPairRun
  {
    var e1 := HookEvent(first, phase, args, firstTree);
    if !e1.ok then HookPairRun(Err(HookFailed(first, phase)), [e1])
    else
      var e2 := HookEvent(second, phase, args, secondTree);
      HookPairRun(if e2.ok then Ok(()) else Err(HookFailed(second, phase)), [e1, e2])
  }

  /** The arguments the hook scripts get after the phase name. */
  function HookArgs(a: Args, st: Settings, emulator: string, rom: string): seq<string> {
    [a.system, emulator, EffectiveCore(st), rom]
  }

  /**
   * Lines 188-220: the gameStart hooks, the emulator run, and the gameStop hooks when
   * nothing raised. A hook that raises ends the phase: the exception escapes `start_rom`.
   */
  function GameSpec(a: Args, st: Settings, emulator: string, rom: string, romConfiguration: string, res: Resolution,
                    w: World, m: Machine): Step<Result<int, Failure>>
  {
    var args := HookArgs(a, st, emulator, rom);
    var starts := HookPairSpec("gameStart", args, SystemScripts, w.systemScripts, UserScripts, w.userScripts);
    if starts.result.Err? then Step(Err(starts.result.error), starts.events, m)
    else
      var inner := InnerSpec(a, st, emulator, romConfiguration, res, w, m);
      if inner.result.Err? then Step(inner.result, starts.events + inner.events, inner.machine)
      else
        var stops := HookPairSpec("gameStop", args, UserScripts, w.userStopScripts, SystemScripts, w.systemStopScripts);
        Step(if stops.result.Err? then Err(stops.result.error) else inner.result,
             starts.events + inner.events + stops.events, inner.machine)
  }

  /** Lines 222-228: switch back to `systemMode` when the mode was changed, swallowing a failure. */
  function RestoreSpec(changed: bool, systemMode: string, d: Display, m: Machine): Step<()> {
    if !changed then Step((), [], m)
    else Step((), [ChangeMode(systemMode, !d.restoreFails)], if d.restoreFails then m else m.(mode := systemMode))
  }

  /** `start_rom(args, maxnbplayers, rom, romConfiguration)` (lines 95-230). */
  function StartRomSpec(a: Args, rom: string, romConfiguration: string, w: World, m: Machine): Step<Result<int, Failure>> {
    if w.setupFails then Step(Err(SetupFailed), [], m)
    else
      var st := ApplyOverrides(w.settings, a);
      if st.emulator.None? then Step(Err(MissingSetting("emulator")), PrepEvents, m)
      else if st.emulator.value !in LauncherGenerators then Step(Err(UnknownBackend(st.emulator.value)), PrepEvents, m)
      else
        var p := PlaySpec(a, st, st.emulator.value, rom, romConfiguration, w, m);
        Step(p.result, PrepEvents + p.events, p.machine)
  }

  /**
   * Lines 142-228 once the backend is known: negotiate the mode, play the game, and
   * restore the mode the session started in whatever happened.
   */
  function PlaySpec(a: Args, st: Settings, emulator: string, rom: string, romConfiguration: string, w: World,
                    m: Machine): Step<Result<int, Failure>>
  {
    var n := NegotiateSpec(st, w.backend.resolutionMode, w.display, m);
    var g := match n.result.resolution
      case Ok(res) => GameSpec(a, st, emulator, rom, romConfiguration, res, w, n.machine)
      case Err(e) => Step(Err(e), [], n.machine);
    var r := RestoreSpec(n.result.changed, m.mode, w.display, g.machine);
    Step(g.result, n.events + g.events + r.events, r.machine)
  }

  /** `main(args, maxnbplayers)` (lines 80-94). */
  function MainSpec(a: Args, w: World, m: Machine): Step<Result<int, Failure>> {
    if !Paths.IsSquashfsRom(a.rom) then StartRomSpec(a, a.rom, a.rom, w, m)
    else
      var b := Squashfs.BeginSpec(a.rom, w.mount, m);
      match b.result
      case Err(e) => Step(Err(e), b.events, b.machine)
      case Ok(begun) =>
        var s := MountedSpec(a, begun, w, b.machine);
        Step(s.result, b.events + s.events, s.machine)
  }

  /** Lines 88-91: run the rom `squashfs_begin` chose, then unmount when it mounted. */
  function MountedSpec(a: Args, begun: Squashfs.Begun, w: World, m: Machine): Step<Result<int, Failure>> {
    var s := StartRomSpec(a, begun.rom, a.rom, w, m);
    if begun.needEnd && begun.mountPoint.Some? then
      var e := Squashfs.EndSpec(begun.mountPoint.value, w.mount, s.machine);
      Step(if e.result.Err? then Err(e.result.error) else s.result, s.events + e.events, e.machine)
    else s
  }

  /** Lines 472-481: the process exit status, -1 when `main` raised. */
  function ExitStatus(r: Result<int, Failure>): int {
    if r.Ok? then r.value else -1
  }

  /** Lines 145-170 on the machine: the mode negotiation, recording each `videoMode` call. */
  method Negotiate(h: Host, st: Settings, wanted: string, d: Display) returns (n: Negotiation)
    modifies h
    ensures var s := NegotiateSpec(st, wanted, d, old(h.State()));
      n == s.result && h.State() == s.machine && h.trace == old(h.trace) + s.events
  {
    if st.videomode.None? {
      return Negotiation(false, Err(MissingSetting("videomode")));
    }
    var systemMode := h.mode;
    var changed := false;
    var newSystemMode := systemMode;
    if st.videomode.value == "" || st.videomode.value == "default" {
      h.MaxResolution(d.maxMode);
      newSystemMode := h.mode;
      if newSystemMode != systemMode {
        changed := true;
      }
    }
    if wanted != "default" && wanted != newSystemMode {
      var ok := h.ChangeMode(wanted, d.changeFails);
      if !ok {
        return Negotiation(changed, Err(ModeChangeFailed(wanted)));
      }
      changed := true;
    }
    var res := d.resolution;
    if st.resolutionIsReversed {
      res := Resolution(res.height, res.width);
    }
    n := Negotiation(changed, Ok(res));
  }

  /** Lines 202-212 on the machine: configure the HUD, editing the command in place. */
  method SetupHud(h: Host, cmd: Supervisor.Command, a: Args, st: Settings, emulator: string, res: Resolution, w: World)
    returns (r: Result<(), Failure>)
    modifies h, cmd
    ensures var s := HudSpec(a, st, emulator, res, w, Child(old(cmd.argv), old(cmd.env)));
      h.State() == old(h.State()) && h.trace == old(h.trace) + s.events &&
      (if s.command.Ok? then r.Ok? && Child(cmd.argv, cmd.env) == s.command.value else r == Err(s.command.error))
  {
    if !st.hudSupport {
      return Ok(());
    }
    var bz := HudBezelOf(w, BezelQueryOf(st, res, w));
    h.RecordAll(bz.events);
    if bz.result.Err? {
      return Err(bz.result.error);
    }
    if HudWanted(st.hud) || bz.result.value.Some? {
      cmd.env := cmd.env["MANGOHUD_DLSYM" := "1"];
      var text := HudConfig.HudConfigText(st.hud, st.hudCustom, a.systemName, emulator,
        HudCoreOf(w, st), GameInfosOf(w), bz.result.value);
      h.Record(Event.WriteFile(HudConfigPath, text));
      cmd.env := cmd.env["MANGOHUD_CONFIGFILE" := HudConfigPath];
      if !w.backend.hasInternalMangoHUDCall {
        cmd.argv := ["mangohud"] + cmd.argv;
      }
    }
    r := Ok(());
  }

  /** Lines 193-216 on the machine: the input mapper around building and running the command. */
  method Inner(h: Host, a: Args, st: Settings, emulator: string, romConfiguration: string, res: Resolution, w: World)
    returns (r: Result<int, Failure>)
    modifies h
    ensures var s := InnerSpec(a, st, emulator, romConfiguration, res, w, old(h.State()));
      r == s.result && h.State() == s.machine && h.trace == old(h.trace) + s.events
  {
    var started := Event.InputMapperStart(a.system, emulator, EffectiveCore(st), romConfiguration, !w.inputMapperFails);
    if w.inputMapperFails {
      h.RecordAll([started, InputMapperStop]);
      return Err(InputMapperFailed);
    }
    var prefix := [started] + ChdirEvents(w.backend);
    h.RecordAll(prefix);
    if w.backend.command.None? {
      h.Record(Event.InputMapperStop);
      return Err(GenerateFailed);
    }
    ghost var t := h.trace;
    r := Launch(h, a, st, emulator, res, w, w.backend.command.value);
    ghost var ran := h.trace;
    h.Record(Event.InputMapperStop);
    Concat3(old(h.trace), prefix, ran[|t|..], [InputMapperStop]);
  }

  /** Lines 202-214 on the machine: the generated command becomes a `Command` the HUD set-up edits. */
  method Launch(h: Host, a: Args, st: Settings, emulator: string, res: Resolution, w: World, generated: Child)
    returns (r: Result<int, Failure>)
    modifies h
    ensures var s := LaunchSpec(a, st, emulator, res, w, generated, old(h.State()));
      r == s.result && h.State() == s.machine && h.trace == old(h.trace) + s.events
  {
    var cmd := new Supervisor.Command(generated.argv, generated.env);
    var hud := SetupHud(h, cmd, a, st, emulator, res, w);
    if hud.Err? {
      return Err(hud.error);
    }
    r := Supervisor.RunCommand(h, cmd, w.environ, w.child);
  }

  /** One `callExternalScripts` call, recorded with the scripts it ran; `ok` is false when it raised. */
  method RunHooks(h: Host, root: string, phase: string, args: seq<string>, tree: Option<seq<HookTree.Entry>>)
    returns (ok: bool)
    modifies h
    ensures ok == HookEvent(root, phase, args, tree).ok
    ensures ok <==> tree.None? || HookTree.Runnable(tree.value)
    ensures h.State() == old(h.State())
    ensures h.trace == old(h.trace) + [HookEvent(root, phase, args, tree)]
  {
    var run := HookTree.CallExternalScripts(root, tree);
    h.Record(Event.Hooks(root, phase, args, run.calls, !run.failed));
    ok := !run.failed;
  }

  /** Two `callExternalScripts` calls in a row, as the launcher makes them around the game. */
  method RunHookPair(h: Host, phase: string, args: seq<string>, first: string, firstTree: Option<seq<HookTree.Entry>>,
                     second: string, secondTree: Option<seq<HookTree.Entry>>) returns (r: Result<(), Failure>)
    modifies h
    ensures var s := HookPairSpec(phase, args, first, firstTree, second, secondTree);
      r == s.result && h.State() == old(h.State()) && h.trace == old(h.trace) + s.events
  {
    var ok := RunHooks(h, first, phase, args, firstTree);
    if !ok {
      return Err(HookFailed(first, phase));
    }
    ok := RunHooks(h, second, phase, args, secondTree);
    r := if ok then Ok(()) else Err(HookFailed(second, phase));
  }

  /** Lines 188-220 on the machine. */
  method Game(h: Host, a: Args, st: Settings, emulator: string, rom: string, romConfiguration: string,
              res: Resolution, w: World) returns (r: Result<int, Failure>)
    modifies h
    ensures var s := GameSpec(a, st, emulator, rom, romConfiguration, res, w, old(h.State()));
      r == s.result && h.State() == s.machine && h.trace == old(h.trace) + s.events
  {
    var args := HookArgs(a, st, emulator, rom);
    var started := RunHookPair(h, "gameStart", args, SystemScripts, w.systemScripts, UserScripts, w.userScripts);
    if started.Err? {
      return Err(started.error);
    }
    ghost var begun := h.trace;
    r := Inner(h, a, st, emulator, romConfiguration, res, w);
    if r.Err? {
      AppendAssoc(old(h.trace), begun[|old(h.trace)|..], h.trace[|begun|..]);
      return;
    }
    ghost var ran := h.trace;
    var stopped := RunHookPair(h, "gameStop", args, UserScripts, w.userStopScripts, SystemScripts, w.systemStopScripts);
    if stopped.Err? {
      r := Err(stopped.error);
    }
    Concat3(old(h.trace), begun[|old(h.trace)|..], ran[|begun|..], h.trace[|ran|..]);
  }

  /** `start_rom` on the machine (lines 95-230). */
  method StartRom(h: Host, a: Args, rom: string, romConfiguration: string, w: World) returns (r: Result<int, Failure>)
    modifies h
    ensures var s := StartRomSpec(a, rom, romConfiguration, w, old(h.State()));
      r == s.result && h.State() == s.machine && h.trace == old(h.trace) + s.events
  {
    if w.setupFails {
      return Err(SetupFailed);
    }
    var st := ApplyOverrides(w.settings, a);
    h.RecordAll(PrepEvents);
    if st.emulator.None? {
      return Err(MissingSetting("emulator"));
    }
    var emulator := st.emulator.value;
    if emulator !in LauncherGenerators {
      return Err(UnknownBackend(emulator));
    }
    ghost var t := h.trace;
    r := Play(h, a, st, emulator, rom, romConfiguration, w);
    AppendAssoc(old(h.trace), PrepEvents, h.trace[|t|..]);
  }

  /** Lines 142-228 on the machine. */
  method Play(h: Host, a: Args, st: Settings, emulator: string, rom: string, romConfiguration: string, w: World)
    returns (r: Result<int, Failure>)
    modifies h
    ensures var s := PlaySpec(a, st, emulator, rom, romConfiguration, w, old(h.State()));
      r == s.result && h.State() == s.machine && h.trace == old(h.trace) + s.events
  {
    var systemMode := h.mode;
    var n := Negotiate(h, st, w.backend.resolutionMode, w.display);
    ghost var negotiated := h.trace;
    if n.resolution.Ok? {
      r := Game(h, a, st, emulator, rom, romConfiguration, n.resolution.value, w);
    } else {
      r := Err(n.resolution.error);
    }
    ghost var played := h.trace;
    // always restore the mode, ignoring a failure
    if n.changed {
      var _ := h.ChangeMode(systemMode, w.display.restoreFails);
    }
    Concat3(old(h.trace), negotiated[|old(h.trace)|..], played[|negotiated|..], h.trace[|played|..]);
  }

  /** `main` on the machine (lines 80-94). */
  method RunMain(h: Host, a: Args, w: World) returns (r: Result<int, Failure>)
    modifies h
    ensures var s := MainSpec(a, w, old(h.State()));
      r == s.result && h.State() == s.machine && h.trace == old(h.trace) + s.events
  {
    if !Paths.IsSquashfsRom(a.rom) {
      r := StartRom(h, a, a.rom, a.rom, w);
      return;
    }
    var b := Squashfs.SquashfsBegin(h, a.rom, w.mount);
    if b.Err? {
      return Err(b.error);
    }
    ghost var begun := h.trace;
    r := Mounted(h, a, b.value, w);
    AppendAssoc(old(h.trace), begun[|old(h.trace)|..], h.trace[|begun|..]);
  }

  /** Lines 88-91 on the machine. */
  method Mounted(h: Host, a: Args, begun: Squashfs.Begun, w: World) returns (r: Result<int, Failure>)
    modifies h
    ensures var s := MountedSpec(a, begun, w, old(h.State()));
      r == s.result && h.State() == s.machine && h.trace == old(h.trace) + s.events
  {
    r := StartRom(h, a, begun.rom, a.rom, w);
    if begun.needEnd && begun.mountPoint.Some? {
      var e := Squashfs.SquashfsEnd(h, begun.mountPoint.value, w.mount);
      if e.Err? {
        r := Err(e.error);
      }
    }
  }

  lemma AppendAssoc(t: seq<Event>, x: seq<Event>, y: seq<Event>)
    ensures t + (x + y) == t + x + y
  {
  }

  lemma Concat3(t: seq<Event>, x: seq<Event>, y: seq<Event>, z: seq<Event>)
    ensures t + (x + y + z) == t + x + y + z
  {
  }

  // ---------------------------------------------------------------------------------
  // What a session does and does not touch

  /** A call that neither creates nor removes a directory, and neither mounts nor unmounts. */
  predicate KeepsFiles(e: Event) {
    !e.Mkdir? && !e.Rmdir? && !e.Mount? && !e.Umount?
  }

  /**
   * The step leaves directories and mounts as they were, makes no call that could change
   * them, and a value it returns is the emulator's exit code or -1.
   */
  predicate Confined(s: Step<Result<int, Failure>>, m: Machine, w: World) {
    s.machine.nodes == m.nodes && s.machine.mounts == m.mounts &&
    (forall e :: e in s.events ==> KeepsFiles(e)) &&
    (s.result.Ok? ==> s.result.value == -1 || w.child.wait == Supervisor.Exited(s.result.value))
  }

  /** Configuring the HUD and running the command changes at most the child handle. */
  lemma LaunchConfined(a: Args, st: Settings, emulator: string, res: Resolution, w: World, cmd: Child, m: Machine)
    ensures Confined(LaunchSpec(a, st, emulator, res, w, cmd, m), m, w)
    ensures LaunchSpec(a, st, emulator, res, w, cmd, m).machine.mode == m.mode
  {
    var hud := HudSpec(a, st, emulator, res, w, cmd);
    assert forall e :: e in hud.events ==> KeepsFiles(e);
    if hud.command.Ok? {
      var c := hud.command.value;
      Supervisor.RunLaunchesOnce(c.argv, c.env, w.environ, w.child, m);
      Supervisor.RunExitCode(c.argv, c.env, w.environ, w.child, m);
    }
  }

  lemma InnerConfined(a: Args, st: Settings, emulator: string, romConfiguration: string, res: Resolution,
                      w: World, m: Machine)
    ensures Confined(InnerSpec(a, st, emulator, romConfiguration, res, w, m), m, w)
    ensures InnerSpec(a, st, emulator, romConfiguration, res, w, m).machine.mode == m.mode
  {
    if !w.inputMapperFails && w.backend.command.Some? {
      LaunchConfined(a, st, emulator, res, w, w.backend.command.value, m);
    }
  }

  lemma GameConfined(a: Args, st: Settings, emulator: string, rom: string, romConfiguration: string,
                     res: Resolution, w: World, m: Machine)
    ensures Confined(GameSpec(a, st, emulator, rom, romConfiguration, res, w, m), m, w)
    ensures GameSpec(a, st, emulator, rom, romConfiguration, res, w, m).machine.mode == m.mode
  {
    InnerConfined(a, st, emulator, romConfiguration, res, w, m);
  }

  /**
   * The `resolutionChanged` flag is only left false when the mode is still the one the
   * session started in, so skipping the restore is safe; the negotiation calls nothing
   * but the display, and touches nothing but the mode.
   */
  lemma NegotiationFlag(st: Settings, wanted: string, d: Display, m: Machine)
    ensures var n := NegotiateSpec(st, wanted, d, m);
      (!n.result.changed ==> n.machine.mode == m.mode) &&
      (st.videomode.None? ==> !n.result.changed) &&
      (st.videomode.Some? ==>
        var auto := st.videomode.value == "" || st.videomode.value == "default";
        var newMode := if auto then d.maxMode else m.mode;
        (n.result.changed <==>
          (auto && d.maxMode != m.mode) || (wanted != "default" && wanted != newMode && !d.changeFails))) &&
      n.machine == m.(mode := n.machine.mode) &&
      (forall e :: e in n.events ==> e.MaxResolution? || e.ChangeMode?) &&
      (n.result.resolution.Ok? ==> n.result.resolution.value == GameResolution(st, d))
  {
  }

  lemma PlayConfined(a: Args, st: Settings, emulator: string, rom: string, romConfiguration: string, w: World,
                     m: Machine)
    ensures Confined(PlaySpec(a, st, emulator, rom, romConfiguration, w, m), m, w)
  {
    var n := NegotiateSpec(st, w.backend.resolutionMode, w.display, m);
    NegotiationFlag(st, w.backend.resolutionMode, w.display, m);
    if n.result.resolution.Ok? {
      GameConfined(a, st, emulator, rom, romConfiguration, n.result.resolution.value, w, n.machine);
    }
  }

  /**
   * `start_rom` always gives the display back in the mode it found it in, unless switching
   * back raised (an error the launcher swallows); the switch back is attempted exactly when
   * the negotiation recorded a change.
   */
  lemma {:induction false} ModeRestored(a: Args, st: Settings, emulator: string, rom: string, romConfiguration: string,
                                        w: World, m: Machine)
    ensures var n := NegotiateSpec(st, w.backend.resolutionMode, w.display, m);
      var p := PlaySpec(a, st, emulator, rom, romConfiguration, w, m);
      (!w.display.restoreFails ==> p.machine.mode == m.mode) &&
      (w.display.restoreFails && n.result.changed ==> p.machine.mode == n.machine.mode) &&
      (n.result.changed <==> |p.events| > 0 && p.events[|p.events| - 1] == ChangeMode(m.mode, !w.display.restoreFails))
  {
    var n := NegotiateSpec(st, w.backend.resolutionMode, w.display, m);
    NegotiationFlag(st, w.backend.resolutionMode, w.display, m);
    var g := match n.result.resolution
      case Ok(res) => GameSpec(a, st, emulator, rom, romConfiguration, res, w, n.machine)
      case Err(e) => Step(Err(e), [], n.machine);
    if n.result.resolution.Ok? {
      var res := n.result.resolution.value;
      GameConfined(a, st, emulator, rom, romConfiguration, res, w, n.machine);
      GameEndsWithoutModeCall(a, st, emulator, rom, romConfiguration, res, w, n.machine);
    }
    assert g.machine.mode == n.machine.mode;
    var p := PlaySpec(a, st, emulator, rom, romConfiguration, w, m);
    if !n.result.changed {
      assert p.events == n.events + g.events;
      if |g.events| > 0 {
        assert p.events[|p.events| - 1] == g.events[|g.events| - 1];
      } else {
        assert p.events == n.events;
        NegotiationLastCall(st, w.backend.resolutionMode, w.display, m);
      }
    }
  }

  /** The last call of the game phase, when it makes any, is not a display call. */
  lemma GameEndsWithoutModeCall(a: Args, st: Settings, emulator: string, rom: string, romConfiguration: string,
                                res: Resolution, w: World, m: Machine)
    ensures var g := GameSpec(a, st, emulator, rom, romConfiguration, res, w, m);
      |g.events| > 0 && !g.events[|g.events| - 1].ChangeMode?
  {
    var inner := InnerSpec(a, st, emulator, romConfiguration, res, w, m);
    InnerBracketed(a, st, emulator, romConfiguration, res, w, m);
  }

  /** A negotiation that leaves the flag unset never ends by switching to the session's own mode. */
  lemma NegotiationLastCall(st: Settings, wanted: string, d: Display, m: Machine)
    requires !NegotiateSpec(st, wanted, d, m).result.changed
    ensures var n := NegotiateSpec(st, wanted, d, m);
      n.events == [] || !(n.events[|n.events| - 1].ChangeMode? && n.events[|n.events| - 1].mode == m.mode)
  {
  }

  // ---------------------------------------------------------------------------------
  // The input mapper, the hooks and the command

  /**
   * Once the input mapper is started it is stopped exactly once, as the very last call,
   * whatever fails in between; nothing in between starts or stops it, or runs hooks.
   */
  lemma InnerBracketed(a: Args, st: Settings, emulator: string, romConfiguration: string, res: Resolution,
                       w: World, m: Machine)
    ensures var s := InnerSpec(a, st, emulator, romConfiguration, res, w, m);
      |s.events| >= 2 &&
      s.events[0] == InputMapperStart(a.system, emulator, EffectiveCore(st), romConfiguration, !w.inputMapperFails) &&
      s.events[|s.events| - 1] == InputMapperStop &&
      (w.inputMapperFails ==> s.result == Err(InputMapperFailed) && |s.events| == 2) &&
      forall i :: 0 < i < |s.events| - 1 ==>
        !s.events[i].InputMapperStart? && s.events[i] != InputMapperStop && !s.events[i].Hooks?
  {
    var middle := InnerMiddle(a, st, emulator, romConfiguration, res, w, m);
    Between(InputMapperStart(a.system, emulator, EffectiveCore(st), romConfiguration, !w.inputMapperFails),
            middle, InputMapperStop);
  }

  /** The calls made while the input mapper runs. */
  lemma InnerMiddle(a: Args, st: Settings, emulator: string, romConfiguration: string, res: Resolution,
                    w: World, m: Machine) returns (middle: seq<Event>)
    ensures InnerSpec(a, st, emulator, romConfiguration, res, w, m).events ==
      [InputMapperStart(a.system, emulator, EffectiveCore(st), romConfiguration, !w.inputMapperFails)] +
      middle + [InputMapperStop]
    ensures w.inputMapperFails ==> middle == []
    ensures forall e :: e in middle ==> e.Chdir? || e.ImageWork? || e.WriteFile? || e.Launch?
  {
    if w.inputMapperFails {
      middle := [];
    } else if w.backend.command.None? {
      middle := ChdirEvents(w.backend);
    } else {
      var run := LaunchSpec(a, st, emulator, res, w, w.backend.command.value, m);
      LaunchCalls(a, st, emulator, res, w, w.backend.command.value, m);
      var chdir := ChdirEvents(w.backend);
      middle := chdir + run.events;
      var started := InputMapperStart(a.system, emulator, EffectiveCore(st), romConfiguration, true);
      assert [started] + chdir + run.events + [InputMapperStop] == [started] + middle + [InputMapperStop];
      forall e | e in middle
        ensures e.Chdir? || e.ImageWork? || e.WriteFile? || e.Launch?
      {
        assert e in chdir || e in run.events;
      }
    }
  }

  lemma Between(first: Event, middle: seq<Event>, last: Event)
    ensures var es := [first] + middle + [last];
      |es| == |middle| + 2 && es[0] == first && es[|es| - 1] == last &&
      forall i :: 0 < i < |es| - 1 ==> es[i] in middle
  {
    var es := [first] + middle + [last];
    forall i | 0 < i < |es| - 1
      ensures es[i] in middle
    {
      assert es[i] == middle[i - 1];
    }
  }

  /** Between generating the command and waiting for it, only images, the HUD file and the child are touched. */
  lemma LaunchCalls(a: Args, st: Settings, emulator: string, res: Resolution, w: World, cmd: Child, m: Machine)
    ensures forall e :: e in LaunchSpec(a, st, emulator, res, w, cmd, m).events ==>
      e.ImageWork? || e.WriteFile? || e.Launch?
  {
    var hud := HudSpec(a, st, emulator, res, w, cmd);
    if hud.command.Ok? {
      var c := hud.command.value;
      Supervisor.RunLaunchesOnce(c.argv, c.env, w.environ, w.child, m);
    }
  }

  /**
   * The gameStart hooks run first, system scripts before user scripts, and the user
   * scripts only when the system scripts raised nothing; the gameStop hooks run last, in
   * the reverse order, and only when nothing raised before them.
   */
  lemma HookOrder(a: Args, st: Settings, emulator: string, rom: string, romConfiguration: string,
                  res: Resolution, w: World, m: Machine)
    ensures var g := GameSpec(a, st, emulator, rom, romConfiguration, res, w, m);
      var args := HookArgs(a, st, emulator, rom);
      var sys := HookEvent(SystemScripts, "gameStart", args, w.systemScripts);
      var usr := HookEvent(UserScripts, "gameStart", args, w.userScripts);
      |g.events| >= 1 && g.events[0] == sys &&
      (sys.ok ==> |g.events| >= 2 && g.events[1] == usr) &&
      (g.result.Ok? ==>
        |g.events| >= 4 &&
        g.events[|g.events| - 2] == HookEvent(UserScripts, "gameStop", args, w.userStopScripts) &&
        g.events[|g.events| - 1] == HookEvent(SystemScripts, "gameStop", args, w.systemStopScripts)) &&
      (InnerSpec(a, st, emulator, romConfiguration, res, w, m).result.Err? ==>
        forall e :: e in g.events && e.Hooks? ==> e.phase == "gameStart")
  {
    var inner := InnerSpec(a, st, emulator, romConfiguration, res, w, m);
    var middle := InnerMiddle(a, st, emulator, romConfiguration, res, w, m);
    assert forall e :: e in inner.events ==> !e.Hooks?;
    var args := HookArgs(a, st, emulator, rom);
    var starts := HookPairSpec("gameStart", args, SystemScripts, w.systemScripts, UserScripts, w.userScripts);
    var g := GameSpec(a, st, emulator, rom, romConfiguration, res, w, m);
    if starts.result.Ok? {
      assert |inner.events| >= 2;
      if inner.result.Err? {
        assert g.events == starts.events + inner.events;
      }
    }
  }

  /**
   * A gameStart hook that cannot be executed ends the game phase with its exception:
   * neither the input mapper nor the emulator is started, nothing but the hooks is
   * called, and the user scripts are skipped when a system script raised.
   */
  lemma StartHookFailureSkipsGame(a: Args, st: Settings, emulator: string, rom: string, romConfiguration: string,
                                  res: Resolution, w: World, m: Machine)
    requires var args := HookArgs(a, st, emulator, rom);
      !HookEvent(SystemScripts, "gameStart", args, w.systemScripts).ok ||
      !HookEvent(UserScripts, "gameStart", args, w.userScripts).ok
    ensures var g := GameSpec(a, st, emulator, rom, romConfiguration, res, w, m);
      var args := HookArgs(a, st, emulator, rom);
      g.machine == m &&
      (forall e :: e in g.events ==> e.Hooks? && e.phase == "gameStart") &&
      g.result == (if !HookEvent(SystemScripts, "gameStart", args, w.systemScripts).ok
                   then Err(HookFailed(SystemScripts, "gameStart")) else Err(HookFailed(UserScripts, "gameStart"))) &&
      |g.events| == (if !HookEvent(SystemScripts, "gameStart", args, w.systemScripts).ok then 1 else 2)
  {
  }

  /**
   * A gameStop hook that cannot be executed turns a finished game into an exception, so
   * `main` reports -1 instead of the emulator's exit code.
   */
  lemma StopHookFailureRaises(a: Args, st: Settings, emulator: string, rom: string, romConfiguration: string,
                              res: Resolution, w: World, m: Machine)
    requires var args := HookArgs(a, st, emulator, rom);
      HookEvent(SystemScripts, "gameStart", args, w.systemScripts).ok &&
      HookEvent(UserScripts, "gameStart", args, w.userScripts).ok
    requires InnerSpec(a, st, emulator, romConfiguration, res, w, m).result.Ok?
    ensures var g := GameSpec(a, st, emulator, rom, romConfiguration, res, w, m);
      var args := HookArgs(a, st, emulator, rom);
      var usr := HookEvent(UserScripts, "gameStop", args, w.userStopScripts);
      var sys := HookEvent(SystemScripts, "gameStop", args, w.systemStopScripts);
      (g.result.Ok? <==> usr.ok && sys.ok) &&
      (!usr.ok ==>
        g.result == Err(HookFailed(UserScripts, "gameStop")) &&
        forall e :: e in g.events && e.Hooks? && e.phase == "gameStop" ==> e == usr) &&
      (usr.ok && !sys.ok ==> g.result == Err(HookFailed(SystemScripts, "gameStop"))) &&
      (g.result.Ok? ==> g.result == InnerSpec(a, st, emulator, romConfiguration, res, w, m).result)
  {
    var middle := InnerMiddle(a, st, emulator, romConfiguration, res, w, m);
  }

  lemma StartRomConfined(a: Args, rom: string, romConfiguration: string, w: World, m: Machine)
    ensures Confined(StartRomSpec(a, rom, romConfiguration, w, m), m, w)
  {
    var st := ApplyOverrides(w.settings, a);
    if !w.setupFails && st.emulator.Some? && st.emulator.value in LauncherGenerators {
      PlayConfined(a, st, st.emulator.value, rom, romConfiguration, w, m);
    }
  }

  /**
   * The HUD set-up leaves the command alone without HUD support; otherwise it keeps the
   * command's own arguments and environment, adding only the two MangoHud variables and,
   * unless the emulator loads MangoHud itself, a leading `mangohud`; and the command is
   * changed exactly when the configuration file has been written.
   */
  lemma HudCommand(a: Args, st: Settings, emulator: string, res: Resolution, w: World, cmd: Child)
    ensures var hud := HudSpec(a, st, emulator, res, w, cmd);
      (!st.hudSupport ==> hud == HudRun(Ok(cmd), [])) &&
      (hud.command.Ok? ==>
        var c := hud.command.value;
        var written := |hud.events| > 0 && hud.events[|hud.events| - 1].WriteFile?;
        (written ==>
          (hud.events[|hud.events| - 1].path == HudConfigPath &&
           c.env["MANGOHUD_DLSYM"] == "1" && c.env["MANGOHUD_CONFIGFILE"] == HudConfigPath &&
           c.env.Keys == cmd.env.Keys + {"MANGOHUD_DLSYM", "MANGOHUD_CONFIGFILE"} &&
           c.argv == (if w.backend.hasInternalMangoHUDCall then cmd.argv else ["mangohud"] + cmd.argv))) &&
        (!written ==> c == cmd) &&
        (forall k :: k in cmd.env && k != "MANGOHUD_DLSYM" && k != "MANGOHUD_CONFIGFILE" ==> c.env[k] == cmd.env[k]) &&
        (st.hudSupport && HudWanted(st.hud) ==> written)) &&
      (var bz := HudBezelOf(w, BezelQueryOf(st, res, w));
        var written := |hud.events| > 0 && hud.events[|hud.events| - 1].WriteFile?;
        (written <==> st.hudSupport && bz.result.Ok? && (HudWanted(st.hud) || bz.result.value.Some?)) &&
        (written ==>
          hud.events[|hud.events| - 1].text ==
          HudConfig.HudConfigText(st.hud, st.hudCustom, a.systemName, emulator, HudCoreOf(w, st), GameInfosOf(w),
                                  bz.result.value)))
  {
    var bz := HudBezelOf(w, BezelQueryOf(st, res, w));
    assert |bz.events| > 0 ==> bz.events[|bz.events| - 1] in bz.events;
  }

  /**
   * Whatever the generator and the HUD set-up put in the environment, the launcher's own
   * environment wins in the child it starts, the MangoHud variables included.
   */
  lemma EnvironWinsAtLaunch(a: Args, st: Settings, emulator: string, res: Resolution, w: World, cmd: Child,
                            m: Machine)
    ensures forall e :: e in LaunchSpec(a, st, emulator, res, w, cmd, m).events && e.Launch? ==>
      forall k :: k in w.environ ==> k in e.env && e.env[k] == w.environ[k]
  {
    LaunchCalls(a, st, emulator, res, w, cmd, m);
    var hud := HudSpec(a, st, emulator, res, w, cmd);
    if hud.command.Ok? {
      var c := hud.command.value;
      Supervisor.RunLaunchesOnce(c.argv, c.env, w.environ, w.child, m);
    }
  }

  // ---------------------------------------------------------------------------------
  // The archive around the session

  /** A rom that is not a `.squashfs` archive is run as it is, and nothing is mounted. */
  lemma PlainRomNeverMounts(a: Args, w: World, m: Machine)
    requires !Paths.IsSquashfsRom(a.rom)
    ensures var s := MainSpec(a, w, m);
      s == StartRomSpec(a, a.rom, a.rom, w, m) &&
      s.machine.nodes == m.nodes && s.machine.mounts == m.mounts &&
      forall e :: e in s.events ==> KeepsFiles(e)
  {
    StartRomConfined(a, a.rom, a.rom, w, m);
  }

  lemma BeginNeverUnmounts(rom: string, w: Squashfs.MountWorld, m: Machine)
    ensures forall e :: e in Squashfs.BeginSpec(rom, w, m).events ==> !e.Umount?
  {
  }

  /**
   * `main` unmounts exactly when `squashfs_begin` mounted the archive, whatever `start_rom`
   * did, and then only after every call `start_rom` made: the unmount of the archive's
   * mount point follows the whole session.
   */
  lemma UnmountsIffMounted(a: Args, w: World, m: Machine)
    requires Paths.IsSquashfsRom(a.rom)
    ensures var b := Squashfs.BeginSpec(a.rom, w.mount, m);
      var s := MainSpec(a, w, m);
      ((exists e :: e in s.events && e.Umount?) <==> b.result.Ok? && b.result.value.needEnd) &&
      (b.result.Ok? && b.result.value.needEnd ==>
        var mp := Squashfs.MountPointOf(a.rom);
        var run := StartRomSpec(a, b.result.value.rom, a.rom, w, b.machine);
        var e := Squashfs.EndSpec(mp, w.mount, run.machine);
        s.events == b.events + run.events + e.events && e.events[0] == Umount(mp, w.mount.umountStatus))
  {
    var b := Squashfs.BeginSpec(a.rom, w.mount, m);
    BeginNeverUnmounts(a.rom, w.mount, m);
    if b.result.Ok? {
      var begun := b.result.value;
      var run := StartRomSpec(a, begun.rom, a.rom, w, b.machine);
      StartRomConfined(a, begun.rom, a.rom, w, b.machine);
      assert forall e :: e in run.events ==> !e.Umount?;
      if begun.needEnd {
        Squashfs.BeginSingleFileShortcut(a.rom, w.mount, m);
        var e := Squashfs.EndSpec(Squashfs.MountPointOf(a.rom), w.mount, run.machine);
        assert e.events[0] in MainSpec(a, w, m).events;
      }
    }
  }

  /** `squashfs_end` depends on the machine's directories and mounts only. */
  lemma EndOnFiles(mountPoint: string, w: Squashfs.MountWorld, x: Machine, y: Machine)
    requires x.nodes == y.nodes && x.mounts == y.mounts
    ensures var ex := Squashfs.EndSpec(mountPoint, w, x);
      var ey := Squashfs.EndSpec(mountPoint, w, y);
      ex.result == ey.result && ex.events == ey.events &&
      ex.machine.nodes == ey.machine.nodes && ex.machine.mounts == ey.machine.mounts
  {
  }

  /**
   * Launching a `.squashfs` rom whose mount point is free or holds a stale empty
   * directory, when mount and umount succeed, gives back the machine's directories and
   * mounts as they were (the squashfs root aside, and the stale directory removed)
   * whatever the session did, and reports what `start_rom` reported.
   */
  lemma MountRoundTrip(a: Args, w: World, m: Machine)
    requires Paths.IsSquashfsRom(a.rom)
    requires Squashfs.MountPointOf(a.rom) !in m.mounts
    requires Squashfs.MountPointOf(a.rom) !in m.nodes || RmdirOk(Squashfs.WithRoot(m), Squashfs.MountPointOf(a.rom))
    requires w.mount.mountStatus == 0 && w.mount.umountStatus == 0
    ensures var b := Squashfs.BeginSpec(a.rom, w.mount, m);
      var s := MainSpec(a, w, m);
      b.result.Ok? &&
      s.result == StartRomSpec(a, b.result.value.rom, a.rom, w, b.machine).result &&
      s.machine.nodes == Squashfs.WithRoot(m).nodes - {Squashfs.MountPointOf(a.rom)} && s.machine.mounts == m.mounts
  {
    var mp := Squashfs.MountPointOf(a.rom);
    Squashfs.BeginEndRoundTrip(a.rom, w.mount, m);
    var b := Squashfs.BeginSpec(a.rom, w.mount, m);
    var run := StartRomSpec(a, b.result.value.rom, a.rom, w, b.machine);
    StartRomConfined(a, b.result.value.rom, a.rom, w, b.machine);
    EndOnFiles(mp, w.mount, run.machine, b.machine);
  }

  /**
   * An emulator the launcher has no backend for is reported only after the archive has
   * been mounted, and the archive is still unmounted; a failing unmount hides the error.
   */
  lemma UnknownEmulatorAfterMount(a: Args, w: World, m: Machine)
    requires Paths.IsSquashfsRom(a.rom)
    requires Squashfs.MountPointOf(a.rom) !in m.mounts
    requires Squashfs.MountPointOf(a.rom) !in m.nodes || RmdirOk(Squashfs.WithRoot(m), Squashfs.MountPointOf(a.rom))
    requires w.mount.mountStatus == 0 && !w.setupFails
    requires ApplyOverrides(w.settings, a).emulator.Some?
    requires ApplyOverrides(w.settings, a).emulator.value !in LauncherGenerators
    ensures var s := MainSpec(a, w, m);
      var mp := Squashfs.MountPointOf(a.rom);
      Mount(a.rom, mp, 0) in s.events && Umount(mp, w.mount.umountStatus) in s.events &&
      s.result == if w.mount.umountStatus == 0 then Err(UnknownBackend(ApplyOverrides(w.settings, a).emulator.value))
                  else Err(UmountFailed(mp))
  {
    var mp := Squashfs.MountPointOf(a.rom);
    var b := Squashfs.BeginSpec(a.rom, w.mount, m);
    Squashfs.BeginEndRoundTrip(a.rom, w.mount.(umountStatus := 0), m);
    assert b.result.Ok? && b.result.value.needEnd && b.result.value.mountPoint == Some(mp);
    assert Mount(a.rom, mp, 0) in b.events;
    var run := StartRomSpec(a, b.result.value.rom, a.rom, w, b.machine);
    assert run.machine == b.machine;
    if w.mount.umountStatus == 0 {
      Squashfs.BeginEndRoundTrip(a.rom, w.mount, m);
    }
  }

  /** The process exits with the emulator's exit code or with -1. */
  lemma ExitCodeOrigin(a: Args, w: World, m: Machine)
    ensures var code := ExitStatus(MainSpec(a, w, m).result);
      code == -1 || w.child.wait == Supervisor.Exited(code)
  {
    if !Paths.IsSquashfsRom(a.rom) {
      StartRomConfined(a, a.rom, a.rom, w, m);
    } else {
      var b := Squashfs.BeginSpec(a.rom, w.mount, m);
      if b.result.Ok? {
        StartRomConfined(a, b.result.value.rom, a.rom, w, b.machine);
      }
    }
  }

  /**
   * The launcher dispatches on its own table, not on `getGenerator`: the two accept
   * different emulator names.
   */
  lemma LauncherTableDiffers()
    ensures "yuzu" in LauncherGenerators && GeneratorImporter.GetGenerator("yuzu").Err?
    ensures "eden" !in LauncherGenerators && GeneratorImporter.GetGenerator("eden") == Ok(GeneratorImporter.Eden)
  {
    GeneratorImporter.GetGeneratorIsLookup("yuzu");
    GeneratorImporter.GetGeneratorIsLookup("eden");
  }
}
