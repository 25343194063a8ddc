# batocera-switch launcher core, modelled in Dafny

This project models the emulator launcher of batocera-switch. The launcher is the Python
program that the front-end calls to start a Nintendo Switch game:

- `main` mounts a `.squashfs` rom archive under `/var/run/squashfs` (`squashfs_begin`), runs
  the game, and unmounts the archive again (`squashfs_end`).
- `start_rom` does the work of one session. It enables the mouse pointer and makes the
  switch tools executable. It then negotiates the video mode and runs the `gameStart` hook
  scripts (`callExternalScripts`). Next it starts the input mapper, asks the backend
  generator for a command, and sets up the MangoHUD overlay (`getHudBezel`, `getHudConfig`).
  It runs the emulator and waits for it (`runCommand`), stops the input mapper, runs the
  `gameStop` hooks, and finally switches the display back to the mode it found.
- `signal_handler` kills the running emulator on an interrupt.
- `getGenerator` is the backend registry of `GeneratorImporter.py`.

The machine is modelled in two forms:

- The value `Host.Machine`: directories, mounts, the display mode and the global child
  handle `proc`.
- The class `Host.Host`, which the launcher's methods update in place. It also keeps a
  ghost trace of every call made to a collaborator: `mount`, `umount`, `videoMode`, the
  input mapper, the hook scripts, the image tools, the HUD file and `subprocess`.

Each operation has two parts:

- A specification function, named `…Spec`, that returns a `Step`: the result, the calls
  made, and the new machine.
- A method proved against that function.

The lemmas then state what the launcher promises about those functions. Everything
outside the launcher is an oracle value, such as `Session.World`, `Squashfs.MountWorld`
or `Supervisor.ChildWorld`. This covers the configuration, the display, the generator's
answers, the image tools, the script directories, the environment, and how the child
process ends.

Files:

- `wrappers.dfy`: `Option` and `Result`.
- `paths.dfy`: `basename`, the extension test, the `[:-9]` slice.
- `generator_importer.dfy`: `getGenerator`.
- `host.dfy`: the machine.
- `hooks.dfy`: `callExternalScripts`.
- `squashfs.dfy`: mount and unmount.
- `bezel.dfy`: `getHudBezel`.
- `hud_config.dfy`: `getHudConfig`, `hudConfig_protectStr` and `extractGameInfosFromXml`.
- `supervisor.dfy`: `runCommand` and `signal_handler`.
- `session.dfy`: `main` and `start_rom`.

`Session.World` carries the launcher revision. With `AsWritten` the session runs the code as
it stands, including the three defects under "## Findings"; with `Corrected` it runs the
intended definitions. Every session lemma holds for both revisions.

Where the launcher's documentation and its code differ, the model follows the code:

- `start_rom` picks the backend from the launcher's own table (lines 25-30), not from
  `getGenerator`. That table accepts `yuzu`, `yuzu-early-access`, `ryujinx` and
  `ryujinx-avalonia`. An unknown emulator raises only after the archive has been mounted
  and after the mouse and `chmod` calls (`Session.UnknownEmulatorAfterMount`).
- `runCommand` calls `command.env.update(os.environ)`, so the launcher's environment wins
  over the variables the command sets (`Supervisor.EnvironOverridesCommand`).
- A failing `bezelsUtil.tatooImage` is not caught, so it propagates. A failing resize
  degrades to "no bezel" (`Bezel.ImageChoice`).
- A non-empty directory already at the mount point is run as the rom, without mounting
  (`Squashfs.BeginReusesBusyDirectory`).
- An exception from `squashfs_end` replaces the result of `start_rom`
  (`Session.UnknownEmulatorAfterMount`).
- A hook script that cannot be executed makes `subprocess.call` raise. That exception is not
  caught: it ends the walk, skips the rest of the game, and leaves `start_rom` after the
  display mode is restored (`Session.StartHookFailureSkipsGame`,
  `Session.StopHookFailureRaises`).

## Model

| member | source | states |
|---|---|---|
| Paths.Basename | system/switch/configgen/switchlauncher_old.py:34 | the base name holds no '/' and is the tail of the path |
| Paths.BasenameAfterSlash | system/switch/configgen/switchlauncher_old.py:34 | the base name is the whole path, or the text after a '/' |
| Paths.Extension | system/switch/configgen/switchlauncher_old.py:82 | the extension `splitext` reports holds no '.' and no '/' |
| Paths.ExtensionRule | system/switch/configgen/switchlauncher_old.py:82 | `splitext`'s rule: a non-empty extension is the text after the base name's last '.', and some character before that dot is not a '.'; the extension is empty exactly when the last dot ends the name, has only dots before it, or is missing |
| Paths.LowerCases | system/switch/configgen/switchlauncher_old.py:82 | lower-casing keeps the length, leaves no capital letter and keeps every other character in place |
| Paths.LowerSquashfs | system/switch/configgen/switchlauncher_old.py:82-83 | the extension test accepts exactly the 8-character texts that spell "squashfs" in any mix of letter cases |
| Paths.DropLastPrefix | system/switch/configgen/switchlauncher_old.py:34 | `s[:-n]` is the prefix of s that is n characters shorter, or empty when s is shorter than n |
| Paths.SquashfsStem | system/switch/configgen/switchlauncher_old.py:82-83 | for every rom that `main` mounts, `[:-9]` cuts exactly the dot and the 8-letter extension; the stem is a non-empty single path component and is neither "." nor ".." |
| GeneratorImporter.RunChain | system/switch/configgen/GeneratorImporter.py:11-32 | the chain returns a generator exactly when some branch names the emulator; it returns the first such branch's generator and constructs only that one; when no branch matches, nothing is constructed |
| GeneratorImporter.GetGenerator | system/switch/configgen/GeneratorImporter.py:11-32 | a generator returned is registered under exactly that name; the "no generator found for emulator" error comes exactly when no branch names the emulator |
| GeneratorImporter.ChainIsMembership | system/switch/configgen/GeneratorImporter.py:11-32 | over distinct names, the chain returns k exactly when the branch (name, k) is present |
| GeneratorImporter.ChainOrderIrrelevant | system/switch/configgen/GeneratorImporter.py:8-9 | reordering distinct branches changes no dispatch and no construction |
| GeneratorImporter.GetGeneratorIsLookup | system/switch/configgen/GeneratorImporter.py:11-32 | `getGenerator` is an exact-name lookup in the five-entry registry; any other name gives the "no generator found" error |
| GeneratorImporter.GetGeneratorRoundTrip | system/switch/configgen/GeneratorImporter.py:13-30 | registry names and generators correspond one to one, in both directions |
| GeneratorImporter.NearMissesRejected | system/switch/configgen/GeneratorImporter.py:32 | "yuzu", "ryujinx", "Eden", "YUZU-EA" and "" are rejected |
| Host.Host.Mkdir | system/switch/configgen/switchlauncher_old.py:50 | `os.mkdir` succeeds exactly when nothing exists at the path, and then adds an empty directory |
| Host.Host.Rmdir | system/switch/configgen/switchlauncher_old.py:44 | `os.rmdir` succeeds exactly on an empty directory that is not mounted, and then removes it |
| Host.Host.Mount | system/switch/configgen/switchlauncher_old.py:51 | a mount with status 0 shows the archive's entries at the mount point; any other status changes nothing |
| Host.Host.Umount | system/switch/configgen/switchlauncher_old.py:72 | an umount with status 0 removes the mount; any other status changes nothing |
| Host.Host.MaxResolution | system/switch/configgen/switchlauncher_old.py:153 | the display switches to the best mode; nothing else changes |
| Host.Host.ChangeMode | system/switch/configgen/switchlauncher_old.py:162 | the mode becomes the target unless the call raises |
| Host.Host.Launch | system/switch/configgen/switchlauncher_old.py:421 | `proc` names the new child unless `Popen` raises |
| Hooks.CallExternalScripts | system/switch/configgen/switchlauncher_old.py:356-366 | nothing is called when the folder is not a directory; otherwise the walk raises exactly when some executable script below it cannot be executed, and the scripts called are those of the reference walk `HookCalls`, or some of them when it raised |
| Hooks.Walk | system/switch/configgen/switchlauncher_old.py:360-366 | the listing loop calls the scripts of each entry in turn and stops at the first entry that raises, as `ListRun` specifies |
| Hooks.WalkEntry | system/switch/configgen/switchlauncher_old.py:361-366 | an entry runs the walk of its sub-folder, or calls itself when it is executable; an executable that cannot be executed raises |
| Hooks.ListCallsPermutation | system/switch/configgen/switchlauncher_old.py:360 | the scripts called do not depend on the order in which `os.listdir` reports entries |
| Hooks.CallsBelow | system/switch/configgen/switchlauncher_old.py:362-366 | every script called lies below the folder walked |
| Hooks.NonExecutableIgnored | system/switch/configgen/switchlauncher_old.py:364 | a file without execute permission is never called and never raises; adding one changes nothing |
| Hooks.ExecutableCalled | system/switch/configgen/switchlauncher_old.py:364-366 | an executable file that runs is called once, with its joined path, unless an entry before it raised |
| Hooks.SubFolderWalked | system/switch/configgen/switchlauncher_old.py:361-362 | a sub-directory adds the calls of its own walk, and its exception escapes |
| Hooks.ExecFailureEndsWalk | system/switch/configgen/switchlauncher_old.py:366 | a script that cannot be executed raises: the entries listed after it are never called |
| Hooks.ListRunAgainstCalls | system/switch/configgen/switchlauncher_old.py:356-366 | the walk raises exactly when some executable script below the folder cannot be executed; it calls a part of the reference calls, and all of them when it does not raise |
| Hooks.RunOrderFree | system/switch/configgen/switchlauncher_old.py:360 | whether the walk raises does not depend on the order of `os.listdir`, and a walk that does not raise calls the same scripts in any order |
| Squashfs.SquashfsBegin | system/switch/configgen/switchlauncher_old.py:32-66 | the result, the new machine and the calls are those of `BeginSpec` |
| Squashfs.MountFresh | system/switch/configgen/switchlauncher_old.py:49-66 | the result, the new machine and the calls are those of `FreshMount` |
| Squashfs.SquashfsEnd | system/switch/configgen/switchlauncher_old.py:68-78 | the result, the new machine and the calls are those of `EndSpec` |
| Squashfs.BeginReusesBusyDirectory | system/switch/configgen/switchlauncher_old.py:39-47 | a mount point that cannot be removed is returned as the rom with need_end false; nothing is mounted and the directory stays |
| Squashfs.BeginMountFailureCleansUp | system/switch/configgen/switchlauncher_old.py:51-58 | a failed mount leaves the mounts as they were; when it raises, the fresh mount point has already been removed |
| Squashfs.FreshMountShortcut | system/switch/configgen/switchlauncher_old.py:60-66 | after a fresh mount, the rom is the single inner file exactly when the archive holds only that name; otherwise it is the mount point, which stays mounted |
| Squashfs.BeginSingleFileShortcut | system/switch/configgen/switchlauncher_old.py:60-66 | when need_end is set, the mount point is returned and mounted; the rom is the inner file exactly when the archive holds only the file named like it, else the mount point |
| Squashfs.EndFailureKeepsDirectory | system/switch/configgen/switchlauncher_old.py:72-75 | a failed umount raises before any `rmdir` and changes nothing |
| Squashfs.BeginEndRoundTrip | system/switch/configgen/switchlauncher_old.py:32-78 | mounting and then unmounting, at a mount point that is free or holds a stale empty directory, leaves no mount-point directory and no mount: the machine is as before, apart from the squashfs root and the stale directory, which is gone |
| Squashfs.FreshMountRoundTrip | system/switch/configgen/switchlauncher_old.py:49-78 | a fresh mount at a free mount point, then `squashfs_end`, succeeds and gives back the machine as it was |
| Bezel.SidesFitCases | system/switch/configgen/switchlauncher_old.py:298-319 | the four side gates reduce to one check per side, on the info's inset or the default one |
| Bezel.Fits | system/switch/configgen/switchlauncher_old.py:270-319 | the gate chain accepts exactly when no height or width it divides by is zero and the ratio, top, bottom, left and right gates all pass; its only exception is a division by zero |
| Bezel.ChooseImage | system/switch/configgen/switchlauncher_old.py:321-338 | at most two image calls; no bezel exactly when a needed resize fails; a failed tattoo is the only exception; the image shown is the tattooed copy, the resized copy or the original |
| Bezel.HudBezelWith | system/switch/configgen/switchlauncher_old.py:231-339 | a bezel that is unset, "none", drawn by the backend, without files or rejected by a gate is not shown and no image work is done; a bezel shown passed every gate; only the image tools are called, at most twice |
| Bezel.HudBezelAsWritten | system/switch/configgen/switchlauncher_old.py:253-260 | as written, a bezel shown passed the gates without any info |
| Bezel.HudBezel | system/switch/configgen/switchlauncher_old.py:253-260 | with the info file read, a bezel shown passed the gates on the info file's values |
| Bezel.RatioGateCross | system/switch/configgen/switchlauncher_old.py:274-280 | the ratio gate rejects exactly when the ratios differ by more than 0.01, stated without division |
| Bezel.CoverGateCross | system/switch/configgen/switchlauncher_old.py:284-289 | a top or bottom gate rejects exactly when the border exceeds 5% of the bezel height |
| Bezel.SideGateCross | system/switch/configgen/switchlauncher_old.py:298-319 | a side gate rejects exactly when the inset is off by more than 5% of the picture width |
| Bezel.FitsIffCompatible | system/switch/configgen/switchlauncher_old.py:270-319 | for positive heights and ratio, the gate chain accepts exactly the bezels of the order-free reference `Compatible` |
| Bezel.DefaultInsetGate | system/switch/configgen/switchlauncher_old.py:298-312 | without side info, the side gates pass exactly when the in-game ratio is within 10% of itself from 4:3 |
| Bezel.DefaultInsetExamples | system/switch/configgen/switchlauncher_old.py:300-301 | without side info, a 4:3 game passes the side gates and a 16:9 game fails them |
| Bezel.ImageChoice | system/switch/configgen/switchlauncher_old.py:321-338 | for a bezel that passed the gates on any info: the image shown is the tattooed copy when a tattoo is asked for, else the resized copy when the sizes differ, else the original; a resize happens exactly when the sizes differ; a failed resize gives no bezel; a failed tattoo raises |
| Bezel.RatioBoundaryPasses | system/switch/configgen/switchlauncher_old.py:278 | the ratio comparison is strict: a difference of exactly 0.01 passes |
| Bezel.AsWrittenIgnoresInfoFile | system/switch/configgen/switchlauncher_old.py:253-258 | as written, the outcome is the same as for a bezel without an info file |
| Bezel.TopCoverRejected | system/switch/configgen/switchlauncher_old.py:284-286 | with the info file read, a top border over 5% is never shown |
| Bezel.InfoFileCounterexample | system/switch/configgen/switchlauncher_old.py:255 | a bezel with a 50% top border is shown as written and rejected once the info file is read |
| HudConfig.GameInfos | system/switch/configgen/switchlauncher_old.py:340-355 | the infos hold "name" and "thumbnail" exactly when the document has those elements, with their texts; a document that does not parse gives none |
| HudConfig.ProtectStr | system/switch/configgen/switchlauncher_old.py:368-371 | a missing text becomes the empty text, and a present one is kept |
| HudConfig.ReplaceUnchanged | system/switch/configgen/switchlauncher_old.py:405-408 | `str.replace` changes nothing when the text replaces itself or does not occur |
| HudConfig.ReplaceSameLength | system/switch/configgen/switchlauncher_old.py:405-408 | `str.replace` with a replacement as long as the text keeps the length |
| HudConfig.HudConfigText | system/switch/configgen/switchlauncher_old.py:373-410 | without a `hud` setting the text is the prefix and the hidden background; a text without '%' passes through the placeholder replacements unchanged |
| HudConfig.ReplacePieces | system/switch/configgen/switchlauncher_old.py:405-408 | replacing one placeholder in the text of a well-formed template replaces exactly its pieces |
| HudConfig.RenderTemplate | system/switch/configgen/switchlauncher_old.py:405-408 | the four replacements in order equal the all-at-once rendering of the template, when the first three values hold no '%' |
| HudConfig.RenderWithPrefix | system/switch/configgen/switchlauncher_old.py:374-408 | the background-image lines pass through the replacements unchanged |
| HudConfig.PerfPiecesShape | system/switch/configgen/switchlauncher_old.py:397 | the "perf" text is a well-formed template and renders as head, game, system, label, counters |
| HudConfig.GamePiecesShape | system/switch/configgen/switchlauncher_old.py:399 | the "game" text is a well-formed template and renders as head, thumbnail, game, system, label |
| HudConfig.PerfModeText | system/switch/configgen/switchlauncher_old.py:396-397 | the "perf" configuration is the prefix, then the game name, system name and emulator label on their own lines, then the counters |
| HudConfig.GameModeText | system/switch/configgen/switchlauncher_old.py:398-399 | the "game" configuration is the prefix, then the thumbnail, game name, system name and emulator label |
| HudConfig.GameModeWithoutInfos | system/switch/configgen/switchlauncher_old.py:388-393 | missing values are written as empty text |
| HudConfig.CustomModeText | system/switch/configgen/switchlauncher_old.py:400-401 | a "custom" text without placeholders is written as the user's text with `\n` escapes turned into line breaks |
| HudConfig.CustomTemplateText | system/switch/configgen/switchlauncher_old.py:400-408 | a "custom" text whose unescaped form splits into literal text and the four placeholders, with no '%' in the literal text and every placeholder ending its line or the text, has every placeholder replaced by its value, after the prefix (a text such as `%GAMENAME% (%SYSTEMNAME%)` is outside this lemma) |
| HudConfig.EscapedNewline | system/switch/configgen/switchlauncher_old.py:401 | an escaped `\n` becomes a line break |
| HudConfig.HiddenBackground | system/switch/configgen/switchlauncher_old.py:379-403 | without a `hud` setting, or for an unknown mode, only the background is hidden |
| HudConfig.BezelPrefix | system/switch/configgen/switchlauncher_old.py:376-377 | a bezel image only adds its two lines in front, in every mode; an empty bezel adds nothing |
| HudConfig.SubstitutionOrder | system/switch/configgen/switchlauncher_old.py:405-408 | the replacements run in sequence: a system name equal to the game-name placeholder is replaced by the game name |
| HudConfig.NoSecondPass | system/switch/configgen/switchlauncher_old.py:405-408 | a game name equal to the system-name placeholder is not replaced again |
| HudConfig.EmulatorLabelShape | system/switch/configgen/switchlauncher_old.py:384-386 | the label starts with the emulator, and names the core exactly when one is given that differs from it |
| HudConfig.EmptyCoreLabel | system/switch/configgen/switchlauncher_old.py:207 | as written, no core gives the label "emulator/"; with no core passed, the label is the emulator alone |
| HudConfig.HudCoreLabel | system/switch/configgen/switchlauncher_old.py:384-386 | with the intended core argument, the label names a core exactly when one is set and differs from the emulator |
| HudConfig.GameNameShown | system/switch/configgen/switchlauncher_old.py:340-355 | as written, the game name is always empty; as intended, it is the document's text |
| HudConfig.GameNameLost | system/switch/configgen/switchlauncher_old.py:344 | a document naming "Zelda" shows no name as written, and "Zelda" as intended |
| Supervisor.MergeEnv | system/switch/configgen/switchlauncher_old.py:414 | the merged environment has the keys of both; the launcher's values win, and the command's other values are kept |
| Supervisor.RunCommand | system/switch/configgen/switchlauncher_old.py:411-436 | the command's environment becomes the merge; the result, the machine and the calls are those of `RunSpec` |
| Supervisor.SignalHandler | system/switch/configgen/switchlauncher_old.py:438-443 | the handler kills the child named by `proc`, and does nothing without one |
| Supervisor.RunLaunchesOnce | system/switch/configgen/switchlauncher_old.py:419-423 | a command is started exactly when its argument vector is not empty, once, with the merged environment; only `proc` can change |
| Supervisor.RunExitCode | system/switch/configgen/switchlauncher_old.py:419-436 | the result is the child's exit code when waiting returns, and -1 when there is nothing to run or waiting raised; a failed start raises |
| Supervisor.EnvironOverridesCommand | system/switch/configgen/switchlauncher_old.py:414 | a key set by both the command and the launcher gets the launcher's value |
| Supervisor.SignalKillsLaunchedChild | system/switch/configgen/switchlauncher_old.py:438-446 | after a run, an interrupt kills exactly the child that was started, and nothing when none was |
| Session.Negotiate | system/switch/configgen/switchlauncher_old.py:145-170 | the flag, the resolution, the machine and the calls are those of `NegotiateSpec` |
| Session.SetupHud | system/switch/configgen/switchlauncher_old.py:202-212 | the command is edited in place into the one `HudSpec` gives, or the exception is returned; the machine is unchanged |
| Session.Launch | system/switch/configgen/switchlauncher_old.py:200-214 | the result, the machine and the calls are those of `LaunchSpec`, in the revision the world selects |
| Session.Inner | system/switch/configgen/switchlauncher_old.py:193-216 | the result, the machine and the calls are those of `InnerSpec`, in the revision the world selects |
| Session.RunHooks | system/switch/configgen/switchlauncher_old.py:189 | one hook walk is recorded with what it called; it raises exactly when a script below the folder cannot be executed |
| Session.RunHookPair | system/switch/configgen/switchlauncher_old.py:189-190 | two hook walks in order; when the first raises, the second does not run and its exception is returned |
| Session.Game | system/switch/configgen/switchlauncher_old.py:188-220 | the result, the machine and the calls are those of `GameSpec`, where a hook exception skips the rest of the game |
| Session.Play | system/switch/configgen/switchlauncher_old.py:141-229 | the result, the machine and the calls are those of `PlaySpec`; the mode is restored after a hook exception too |
| Session.StartRom | system/switch/configgen/switchlauncher_old.py:95-230 | the result, the machine and the calls are those of `StartRomSpec` |
| Session.Mounted | system/switch/configgen/switchlauncher_old.py:86-92 | the result, the machine and the calls are those of `MountedSpec` |
| Session.RunMain | system/switch/configgen/switchlauncher_old.py:80-94 | the result, the machine and the calls are those of `MainSpec` |
| Session.LaunchConfined | system/switch/configgen/switchlauncher_old.py:202-214 | setting up the HUD and running the command touch no directory, mount or mode; a value returned is the exit code or -1 |
| Session.InnerConfined | system/switch/configgen/switchlauncher_old.py:193-216 | the emulator phase touches no directory, mount or mode |
| Session.GameConfined | system/switch/configgen/switchlauncher_old.py:188-220 | the hooks and the emulator phase touch no directory, mount or mode |
| Session.NegotiationFlag | system/switch/configgen/switchlauncher_old.py:145-170 | `resolutionChanged` is set exactly when `minTomaxResolution` moved the display off its original mode or the switch to a wanted mode other than "default" and the current one succeeded, and never without a video mode setting; an unset flag means the original mode; the negotiation changes only the mode, calls only the display, and reports the (possibly swapped) resolution |
| Session.PlayConfined | system/switch/configgen/switchlauncher_old.py:142-229 | a session touches no directory or mount, and returns the exit code or -1 |
| Session.ModeRestored | system/switch/configgen/switchlauncher_old.py:222-228 | the display ends in its original mode unless switching back raised; the switch back is the last call exactly when the mode was changed |
| Session.InnerBracketed | system/switch/configgen/switchlauncher_old.py:193-216 | the input mapper is started first and stopped last, exactly once, whatever fails in between, and no hook runs in between |
| Session.HookOrder | system/switch/configgen/switchlauncher_old.py:188-220 | the system gameStart hooks come first and the user ones second when the first did not raise; on success the user and then the system gameStop hooks come last; when the emulator phase raised, no gameStop hook runs |
| Session.StartHookFailureSkipsGame | system/switch/configgen/switchlauncher_old.py:188-194 | a gameStart hook that raises skips the input mapper, the emulator and the gameStop hooks: the machine is unchanged, only gameStart hooks ran, and their exception is the result |
| Session.StopHookFailureRaises | system/switch/configgen/switchlauncher_old.py:218-220 | after a finished game, the result is the exit code exactly when both gameStop hooks ran without raising; a user hook that raises skips the system hooks |
| Session.StartRomConfined | system/switch/configgen/switchlauncher_old.py:95-230 | `start_rom` touches no directory or mount, and returns the exit code or -1 |
| Session.HudCommand | system/switch/configgen/switchlauncher_old.py:202-212 | the config file is written, and the command changed, exactly when HUD support is on, `getHudBezel` returned, and a HUD mode is configured or a bezel is shown; the text written is `getHudConfig`'s for that bezel, core and game infos; the set-up adds only the two MangoHud variables and, without an internal call, a leading `mangohud` |
| Session.EnvironWinsAtLaunch | system/switch/configgen/switchlauncher_old.py:206-214 | the child is started with the launcher's environment winning over the command and the HUD variables |
| Session.PlainRomNeverMounts | system/switch/configgen/switchlauncher_old.py:93-94 | a rom that is not an archive runs as it is, and no directory or mount changes (the save directory aside, which is not modelled) |
| Session.BeginNeverUnmounts | system/switch/configgen/switchlauncher_old.py:32-66 | `squashfs_begin` never unmounts |
| Session.UnmountsIffMounted | system/switch/configgen/switchlauncher_old.py:84-92 | `main` unmounts exactly when `squashfs_begin` mounted, and only after every call of the session |
| Session.EndOnFiles | system/switch/configgen/switchlauncher_old.py:68-78 | `squashfs_end` depends only on directories and mounts |
| Session.MountRoundTrip | system/switch/configgen/switchlauncher_old.py:80-92 | with a free mount point, or a stale empty directory there, and successful mount and umount, `main` leaves directories and mounts as they were, apart from the squashfs root and the removed stale directory (the save directory aside, which is not modelled), and reports what `start_rom` reported |
| Session.UnknownEmulatorAfterMount | system/switch/configgen/switchlauncher_old.py:86-91 | an emulator without a backend is reported only after the archive was mounted, and the archive is still unmounted; a failed umount replaces the error |
| Session.ExitCodeOrigin | system/switch/configgen/switchlauncher_old.py:474-482 | the process exits with the emulator's exit code or -1 |
| Session.LauncherTableDiffers | system/switch/configgen/switchlauncher_old.py:25-30 | the launcher's table and `getGenerator` accept different emulator names |

## Left out

- Argument parsing, the controller inputs, and loading the controller and emulator configuration (lines 97-116, 449-474) are not modelled. Only their outcome is kept: a flag that they raised, and the settings read.
- Logging and the masked copy of the settings (lines 125-134) are not modelled. They have no effect on the outcome.
- Creating the save directory (lines 173-176) is not modelled. It is the only directory a session creates outside the squashfs root, so `Session.PlayConfined`, `Session.StartRomConfined`, `Session.PlainRomNeverMounts` and `Session.MountRoundTrip` hold only because it is left out: each says that no other directory changes.
- `effectiveRom` for a `None` rom (lines 182-186) is not modelled, because `main` always passes a rom.
- The generator's answers are oracle values in `Session.Backend`: the resolution mode, the execution directory, the command, internal bezels, the internal MangoHUD call and the in-game ratio. Its own code is not part of this model.
- The answers of `bezelsUtil` are oracle values: the bezel files, the image size, and resize and tattoo failure. The image files themselves are not modelled.
- `videoMode` is reduced to the current mode and to the mode that `minTomaxResolution` selects. `getCurrentResolution` is an oracle value.
- Session.NegotiateSpec: when `changeMode` raises, the mode is assumed unchanged. The source cannot say what a failed switch leaves behind.
- Hook scripts are reduced to the multiset of paths called, and to whether one of them could not be executed. Their exit statuses are ignored by the source. Their order follows `os.listdir`, which is arbitrary, so the model does not say which scripts ran before the one that raised.
- The script directories are listed separately for gameStart and for gameStop, because `os.listdir` reads them again. What a script does to them in between is not modelled.
- `os.chdir`, the HUD file write, `Evmapy.stop`, `unclutter-remote` and `chmod` are recorded as calls that never fail. A failure of any of them is not modelled.
- Creating the squashfs root is assumed to succeed whenever it is missing. Parent directories are taken to exist.
- Symbolic links, permissions other than the execute bit, and files that change concurrently are not modelled.
- Bezel.HudBezel: sizes and ratios are exact reals, not floating point. A comparison at a boundary can therefore differ from Python (`Bezel.RatioBoundaryPasses`). A non-numeric value in the info file, which makes Python raise, is not modelled.
- Paths.LowerCases: `Lower` lower-cases ASCII letters only. No other character lower-cases to a letter of "squashfs", so the extension test is unaffected.
- GeneratorImporter.GetGenerator returns the kind of generator. The imports and constructors it runs are not part of this model, and their failures are not modelled.
- The interrupt is modelled as a separate operation on the machine (`Supervisor.SignalHandler`). Its interleaving with a running session, and registering it (line 447), are not modelled.
- The child's output, its decoding (lines 427-428) and `time.sleep` (line 480) are not modelled. A failure in `communicate` is covered by `WaitFailed`.
- The operating system truncates the exit status to 8 bits (line 482). This is not modelled: `Session.ExitStatus` is the full integer.

## Findings

| source | as written | input that shows it | evidently intended | confidence | as-written member | corrected member |
|---|---|---|---|---|---|---|
| system/switch/configgen/switchlauncher_old.py:255 | `json` is never imported. `json.load` raises `NameError`, the bare `except` swallows it, and the info is always `{}`, so the top, bottom and side insets of an info file are ignored | a 1920x1080 bezel whose info file gives `"top": 540`, with a 1920x1080 screen and a 4:3 game | read the info file, so a bezel covering half the picture is rejected | high (not executed) | Bezel.InfoFileCounterexample | Bezel.TopCoverRejected |
| system/switch/configgen/switchlauncher_old.py:344 | `ET` is never imported. `ET.parse` raises `NameError`, the outer `except` swallows it, and the game infos are always empty | a game-information document whose `./game/name` is "Zelda" | the HUD shows "Zelda" as the game name | high (not executed) | HudConfig.GameNameLost | HudConfig.GameNameShown |
| system/switch/configgen/switchlauncher_old.py:207 | `effectiveCore` is "" when no core is set. It is passed as `core`, and `"" != emulator`, so the label becomes "emulator/" | emulator "yuzu" with no core configured | the label is "yuzu" | medium (not executed) | HudConfig.EmptyCoreLabel | HudConfig.HudCoreLabel |

The session runs either half of each row: `Session.HudBezelOf`, `Session.GameInfosOf` and `Session.HudCoreOf` pick `Bezel.HudBezelAsWritten`, `HudConfig.GameInfosAsWritten` and `HudConfig.HudCoreAsWritten` when `World.revision` is `AsWritten`, and `Bezel.HudBezel`, `HudConfig.GameInfos` and `HudConfig.HudCore` when it is `Corrected`.
