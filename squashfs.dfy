/**
 * The archive mount manager: `squashfs_begin` mounts a `.squashfs` rom under
 * /var/run/squashfs and says what to run, `squashfs_end` unmounts it and removes the
 * mount point.
 */
module Squashfs {
  import opened Wrappers
  import opened Paths
  import opened Host

  const SquashfsRoot: string := "/var/run/squashfs"

  /** The mount point of an archive: its base name without the last nine characters. */
  function MountPointOf(rom: string): string {
    SquashfsRoot + "/" + Stem(rom)
  }

  /** The answers of `mount`/`umount` for one archive: exit statuses and the archive's root entries. */
  datatype MountWorld = MountWorld(mountStatus: int, archive: set<string>, umountStatus: int)

  /** What `squashfs_begin` returns: `(need_end, rommountpoint, rom)`. */
  datatype Begun = Begun(needEnd: bool, mountPoint: Option<string>, rom: string)

  /** Lines 36-37: the squashfs root is created when missing. */
  function RootEvents(m: Machine): seq<Event> {
    if SquashfsRoot in m.nodes then [] else [Mkdir(SquashfsRoot, true)]
  }

  function WithRoot(m: Machine): Machine {
    if SquashfsRoot in m.nodes then m else AfterMkdir(m, SquashfsRoot)
  }

  /** Lines 50-66: create the mount point, mount, and pick the single-file shortcut. */
  function FreshMount(rom: string, w: MountWorld, m: Machine): Step<Result<Begun, Failure>> {
    var mp := MountPointOf(rom);
    if !MkdirOk(m, mp) then
      Step(Err(MkdirFailed(mp)), [Mkdir(mp, false)], m)
    else
      var mounted := AfterMount(AfterMkdir(m, mp), mp, w.mountStatus, w.archive);
      var events := [Mkdir(mp, true), Mount(rom, mp, w.mountStatus)];
      if w.mountStatus != 0 then
        Step(Err(MountFailed(rom)), events + [Rmdir(mp, RmdirOk(mounted, mp))], AfterRmdir(mounted, mp))
      else if |Listing(mounted, mp)| == 1 && ChildExists(mounted, mp, Stem(rom)) then
        Step(Ok(Begun(true, Some(mp), mp + "/" + Stem(rom))), events, mounted)
      else
        Step(Ok(Begun(true, Some(mp), mp)), events, mounted)
  }

  /** Runs `s` after the calls `before`. */
  function After<T>(before: seq<Event>, s: Step<T>): Step<T> {
    Step(s.result, before + s.events, s.machine)
  }

  /** `squashfs_begin(rom)` (lines 32-66). */
  function BeginSpec(rom: string, w: MountWorld, m: Machine): Step<Result<Begun, Failure>> {
    var mp := MountPointOf(rom);
    var m0 := WithRoot(m);
    if IsDir(m0, mp) then
      if RmdirOk(m0, mp) then
        After(RootEvents(m) + [Rmdir(mp, true)], FreshMount(rom, w, AfterRmdir(m0, mp)))
      else
        Step(Ok(Begun(false, None, mp)), RootEvents(m) + [Rmdir(mp, false)], m0)
    else
      After(RootEvents(m), FreshMount(rom, w, m0))
  }

  /** `squashfs_end(mountPoint)` (lines 68-78). */
  function EndSpec(mountPoint: string, w: MountWorld, m: Machine): Step<Result<(), Failure>> {
    if w.umountStatus != 0 then
      Step(Err(UmountFailed(mountPoint)), [Umount(mountPoint, w.umountStatus)], m)
    else
      var unmounted := AfterUmount(m, mountPoint, 0);
      var ok := RmdirOk(unmounted, mountPoint);
      Step(if ok then Ok(()) else Err(RmdirFailed(mountPoint)),
           [Umount(mountPoint, 0), Rmdir(mountPoint, ok)],
           AfterRmdir(unmounted, mountPoint))
  }

  method SquashfsBegin(h: Host, rom: string, w: MountWorld) returns (r: Result<Begun, Failure>)
    modifies h
    ensures var s := BeginSpec(rom, w, old(h.State()));
      r == s.result && h.State() == s.machine && h.trace == old(h.trace) + s.events
  {
    var mp := MountPointOf(rom);
    if SquashfsRoot !in h.nodes {
      var _ := h.Mkdir(SquashfsRoot);
    }
    // first, try to clean a stale empty directory left by a crash
    if mp in h.nodes && h.nodes[mp].Dir? {
      var removed := h.Rmdir(mp);
      if !removed {
        return Ok(Begun(false, None, mp));
      }
    }
    r := MountFresh(h, rom, w);
  }

  method MountFresh(h: Host, rom: string, w: MountWorld) returns (r: Result<Begun, Failure>)
    modifies h
    ensures var s := FreshMount(rom, w, old(h.State()));
      r == s.result && h.State() == s.machine && h.trace == old(h.trace) + s.events
  {
    var mp := MountPointOf(rom);
    var created := h.Mkdir(mp);
    if !created {
      return Err(MkdirFailed(mp));
    }
    h.Mount(rom, mp, w.mountStatus, w.archive);
    if w.mountStatus != 0 {
      var _ := h.Rmdir(mp);
      return Err(MountFailed(rom));
    }
    if |Listing(h.State(), mp)| == 1 && ChildExists(h.State(), mp, Stem(rom)) {
      return Ok(Begun(true, Some(mp), mp + "/" + Stem(rom)));
    }
    return Ok(Begun(true, Some(mp), mp));
  }

  method SquashfsEnd(h: Host, mountPoint: string, w: MountWorld) returns (r: Result<(), Failure>)
    modifies h
    ensures var s := EndSpec(mountPoint, w, old(h.State()));
      r == s.result && h.State() == s.machine && h.trace == old(h.trace) + s.events
  {
    h.Umount(mountPoint, w.umountStatus);
    if w.umountStatus != 0 {
      return Err(UmountFailed(mountPoint));
    }
    var removed := h.Rmdir(mountPoint);
    r := if removed then Ok(()) else Err(RmdirFailed(mountPoint));
  }

  /**
   * A directory already at the mount point that `rmdir` cannot remove (it lists entries,
   * or is itself mounted) is reused as it is: nothing is mounted, the caller runs the
   * directory and must not unmount it.
   */
  lemma BeginReusesBusyDirectory(rom: string, w: MountWorld, m: Machine)
    requires IsDir(m, MountPointOf(rom)) && !RmdirOk(m, MountPointOf(rom))
    ensures var s := BeginSpec(rom, w, m);
      s.result == Ok(Begun(false, None, MountPointOf(rom))) &&
      s.machine.mounts == m.mounts && MountPointOf(rom) in s.machine.nodes &&
      forall e :: e in s.events ==> !e.Mount?
  {
    var mp := MountPointOf(rom);
    if SquashfsRoot != mp {
      assert IsDir(WithRoot(m), mp) && !RmdirOk(WithRoot(m), mp);
    }
  }

  /**
   * When `mount` reports a non-zero status nothing gets mounted, and the exception is
   * raised only after the freshly created mount point has been removed again.
   */
  lemma BeginMountFailureCleansUp(rom: string, w: MountWorld, m: Machine)
    requires Coherent(m)
    requires w.mountStatus != 0
    ensures var s := BeginSpec(rom, w, m);
      s.machine.mounts == m.mounts && (s.result.Ok? ==> !s.result.value.needEnd)
    ensures var s := BeginSpec(rom, w, m);
      s.result == Err(MountFailed(rom)) ==>
        MountPointOf(rom) !in s.machine.nodes && Rmdir(MountPointOf(rom), true) in s.events
  {
    var mp := MountPointOf(rom);
    var m0 := WithRoot(m);
    var base := if IsDir(m0, mp) && RmdirOk(m0, mp) then AfterRmdir(m0, mp) else m0;
    if !(IsDir(m0, mp) && !RmdirOk(m0, mp)) && MkdirOk(base, mp) {
      assert mp !in base.mounts;
      var mounted := AfterMount(AfterMkdir(base, mp), mp, w.mountStatus, w.archive);
      assert RmdirOk(mounted, mp);
    }
  }

  /** Sets of one element. */
  lemma SingletonSet(s: set<string>, x: string)
    ensures (|s| == 1 && x in s) <==> s == {x}
  {
    if |s| == 1 && x in s {
      assert |s - {x}| == 0;
      assert s - {x} == {};
    }
  }

  /** The single-file shortcut of a fresh mount, for a stem that is a real entry name. */
  lemma FreshMountShortcut(rom: string, w: MountWorld, m: Machine)
    requires Stem(rom) != "." && Stem(rom) != ".."
    requires FreshMount(rom, w, m).result.Ok?
    ensures var b := FreshMount(rom, w, m).result.value;
      var mp := MountPointOf(rom);
      b.needEnd && b.mountPoint == Some(mp) &&
      mp in FreshMount(rom, w, m).machine.mounts &&
      (b.rom == mp + "/" + Stem(rom) <==> w.archive == {Stem(rom)}) &&
      (b.rom != mp + "/" + Stem(rom) ==> b.rom == mp)
  {
    var mp := MountPointOf(rom);
    var mounted := AfterMount(AfterMkdir(m, mp), mp, w.mountStatus, w.archive);
    assert Listing(mounted, mp) == w.archive;
    SingletonSet(w.archive, Stem(rom));
    assert mp != mp + "/" + Stem(rom) by {
      assert |mp + "/" + Stem(rom)| > |mp|;
    }
  }

  /**
   * After a successful mount of a `.squashfs` rom the rom to run is the single file inside
   * the archive exactly when the archive holds that one entry, named like the archive;
   * otherwise it is the mount point itself. Either way the caller must unmount.
   */
  lemma BeginSingleFileShortcut(rom: string, w: MountWorld, m: Machine)
    requires IsSquashfsRom(rom)
    requires BeginSpec(rom, w, m).result.Ok?
    requires BeginSpec(rom, w, m).result.value.needEnd
    ensures var b := BeginSpec(rom, w, m).result.value;
      var mp := MountPointOf(rom);
      b.mountPoint == Some(mp) &&
      mp in BeginSpec(rom, w, m).machine.mounts &&
      (b.rom == mp + "/" + Stem(rom) <==> w.archive == {Stem(rom)}) &&
      (b.rom != mp + "/" + Stem(rom) ==> b.rom == mp)
  {
    SquashfsStem(rom);
    var mp := MountPointOf(rom);
    var m0 := WithRoot(m);
    if IsDir(m0, mp) {
      FreshMountShortcut(rom, w, AfterRmdir(m0, mp));
    } else {
      FreshMountShortcut(rom, w, m0);
    }
  }

  /** `squashfs_end` raises on a failed `umount` before touching the directory. */
  lemma EndFailureKeepsDirectory(mountPoint: string, w: MountWorld, m: Machine)
    requires w.umountStatus != 0
    ensures EndSpec(mountPoint, w, m).result == Err(UmountFailed(mountPoint))
    ensures EndSpec(mountPoint, w, m).machine == m
    ensures forall e :: e in EndSpec(mountPoint, w, m).events ==> !e.Rmdir?
  {
  }

  /**
   * Mounting then unmounting a `.squashfs` rom leaves no mount-point directory and no
   * mount behind, whether the mount point was free or held a stale empty directory that
   * `squashfs_begin` removes first: the machine is as before, except that the squashfs
   * root now exists and the stale directory is gone.
   */
  lemma BeginEndRoundTrip(rom: string, w: MountWorld, m: Machine)
    requires IsSquashfsRom(rom)
    requires MountPointOf(rom) !in m.mounts
    requires MountPointOf(rom) !in m.nodes || RmdirOk(WithRoot(m), MountPointOf(rom))
    requires w.mountStatus == 0 && w.umountStatus == 0
    ensures var b := BeginSpec(rom, w, m);
      b.result.Ok? && b.result.value.needEnd && b.result.value.mountPoint == Some(MountPointOf(rom)) &&
      var e := EndSpec(MountPointOf(rom), w, b.machine);
      e.result == Ok(()) && e.machine == WithRoot(m).(nodes := WithRoot(m).nodes - {MountPointOf(rom)}) &&
      MountPointOf(rom) !in e.machine.nodes && MountPointOf(rom) !in e.machine.mounts
  {
    var mp := MountPointOf(rom);
    SquashfsStem(rom);
    assert mp != SquashfsRoot by {
      assert |mp| > |SquashfsRoot|;
    }
    var m0 := WithRoot(m);
    var m1 := m0.(nodes := m0.nodes - {mp});
    if mp in m.nodes {
      assert IsDir(m0, mp) && RmdirOk(m0, mp);
      assert AfterRmdir(m0, mp) == m1;
    } else {
      assert !IsDir(m0, mp) && m0.nodes - {mp} == m0.nodes;
    }
    FreshMountRoundTrip(rom, w, m1);
  }

  /** A fresh mount at a free mount point, then `squashfs_end`, gives back the machine. */
  lemma FreshMountRoundTrip(rom: string, w: MountWorld, m: Machine)
    requires MountPointOf(rom) !in m.nodes && MountPointOf(rom) !in m.mounts
    requires w.mountStatus == 0 && w.umountStatus == 0
    ensures var f := FreshMount(rom, w, m);
      f.result.Ok? && f.result.value.needEnd && f.result.value.mountPoint == Some(MountPointOf(rom)) &&
      var e := EndSpec(MountPointOf(rom), w, f.machine);
      e.result == Ok(()) && e.machine == m
  {
    var mp := MountPointOf(rom);
    var mounted := AfterMount(AfterMkdir(m, mp), mp, 0, w.archive);
    var unmounted := AfterUmount(mounted, mp, 0);
    assert unmounted == AfterMkdir(m, mp);
    assert RmdirOk(unmounted, mp);
    assert AfterRmdir(unmounted, mp).nodes == m.nodes;
  }
}
