/**
 * `callExternalScripts(folder, event, args)`: walk a script directory tree and call every
 * executable file found in it with `[path, event] + args`. The order in which
 * `os.listdir` reports entries is arbitrary, so the calls of one walk are a multiset of
 * script paths. A script the kernel refuses to execute (no interpreter line, a `noexec`
 * mount) makes `subprocess.call` raise, and the exception ends the walk.
 */
module Hooks {
  import opened Wrappers

  /**
   * A directory entry: a file (with its execute permission, and whether executing it
   * raises) or a sub-directory.
   */
  datatype Entry =
    | Script(name: string, executable: bool, execFails: bool)
    | Folder(name: string, children: seq<Entry>)

  /** `os.path.join(folder, name)` for a folder path without a trailing '/'. */
  function Join(folder: string, name: string): string {
    folder + "/" + name
  }

  /** The scripts the walk calls for one entry of `folder`, when no call raises. */
  function EntryCalls(folder: string, e: Entry): multiset<string>
    decreases e
  {
    match e
    case Script(name, executable, _) => if executable then multiset{Join(folder, name)} else multiset{}
    case Folder(name, children) => ListCalls(Join(folder, name), children)
  }

  /** The scripts the walk calls for the entries `cs` listed in `folder`, when no call raises. */
  function ListCalls(folder: string, cs: seq<Entry>): multiset<string>
    decreases cs
  {
    if cs == [] then multiset{} else EntryCalls(folder, cs[0]) + ListCalls(folder, cs[1..])
  }

  /**
   * The scripts a walk of `root` calls when no call raises, where `tree` is the listing of
   * `root` (`None` when `root` is not a directory).
   */
  function HookCalls(root: string, tree: Option<seq<Entry>>): multiset<string> {
    match tree
    case None => multiset{}
    case Some(cs) => ListCalls(root, cs)
  }

  /** No script below the entry would raise when the walk calls it. */
  predicate EntryRunnable(e: Entry)
    decreases e
  {
    match e
    case Script(_, executable, execFails) => !(executable && execFails)
    case Folder(_, children) => Runnable(children)
  }

  predicate Runnable(cs: seq<Entry>)
    decreases cs
  {
    forall e :: e in cs ==> EntryRunnable(e)
  }

  /** What a walk did: the scripts it ran, and whether a call raised and ended it. */
  datatype Run = Run(calls: multiset<string>, failed: bool)

  /** The walk of one entry of `folder`, in listing order. */
  function EntryRun(folder: string, e: Entry): Run
    decreases e
  {
    match e
    case Script(name, executable, execFails) =>
      if !executable then Run(multiset{}, false)
      else if execFails then Run(multiset{}, true)
      else Run(multiset{Join(folder, name)}, false)
    case Folder(name, children) => ListRun(Join(folder, name), children)
  }

  /** The walk of the entries `cs` of `folder`, in listing order, up to the first call that raises. */
  function ListRun(folder: string, cs: seq<Entry>): Run
    decreases cs
  {
    if cs == [] then Run(multiset{}, false)
    else
      var first := EntryRun(folder, cs[0]);
      if first.failed then first
      else
        var rest := ListRun(folder, cs[1..]);
        Run(first.calls + rest.calls, rest.failed)
  }

  /** `callExternalScripts(root, event, args)` where `tree` is the listing of `root`. */
  function HookRun(root: string, tree: Option<seq<Entry>>): Run {
    match tree
    case None => Run(multiset{}, false)
    case Some(cs) => ListRun(root, cs)
  }

  lemma {:induction false} ListCallsAppend(folder: string, a: seq<Entry>, b: seq<Entry>)
    ensures ListCalls(folder, a + b) == ListCalls(folder, a) + ListCalls(folder, b)
    decreases a
  {
    if a == [] {
      assert a + b == b;
    } else {
      assert (a + b)[1..] == a[1..] + b;
      ListCallsAppend(folder, a[1..], b);
    }
  }

  /** Taking one entry out of a listing takes out its calls. */
  lemma RemoveEntry(folder: string, b: seq<Entry>, k: int)
    requires 0 <= k < |b|
    ensures ListCalls(folder, b) == EntryCalls(folder, b[k]) + ListCalls(folder, b[..k] + b[k + 1..])
    ensures multiset(b[..k] + b[k + 1..]) == multiset(b) - multiset{b[k]}
  {
    assert b == b[..k] + ([b[k]] + b[k + 1..]);
    ListCallsAppend(folder, b[..k], [b[k]] + b[k + 1..]);
    ListCallsAppend(folder, b[..k], b[k + 1..]);
    assert ([b[k]] + b[k + 1..])[1..] == b[k + 1..];
    assert multiset(b) == multiset(b[..k]) + multiset{b[k]} + multiset(b[k + 1..]);
  }

  /** The calls do not depend on the order in which the directory is listed. */
  lemma {:induction false} ListCallsPermutation(folder: string, a: seq<Entry>, b: seq<Entry>)
    requires multiset(a) == multiset(b)
    ensures ListCalls(folder, a) == ListCalls(folder, b)
    decreases |a|
  {
    if a != [] {
      assert a[0] in multiset(a);
      var k :| 0 <= k < |b| && b[k] == a[0];
      var rest := b[..k] + b[k + 1..];
      RemoveEntry(folder, b, k);
      MultisetTail(a);
      ListCallsPermutation(folder, a[1..], rest);
      assert ListCalls(folder, a) == EntryCalls(folder, a[0]) + ListCalls(folder, a[1..]);
    }
  }

  lemma MultisetTail(a: seq<Entry>)
    requires a != []
    ensures multiset(a[1..]) == multiset(a) - multiset{a[0]}
  {
    assert a == [a[0]] + a[1..];
  }

  /** Every script called lies below the folder walked. */
  lemma {:induction false} CallsBelow(folder: string, cs: seq<Entry>, p: string)
    requires p in ListCalls(folder, cs)
    ensures |p| >= |folder| + 1 && p[..|folder| + 1] == folder + "/"
    decreases cs
  {
    if cs != [] {
      if p in EntryCalls(folder, cs[0]) {
        match cs[0]
        case Script(name, executable, _) =>
          assert p == folder + "/" + name;
          assert p[..|folder| + 1] == folder + "/";
        case Folder(name, children) =>
          CallsBelow(Join(folder, name), children, p);
          assert p[..|folder| + 1] == p[..|Join(folder, name)| + 1][..|folder| + 1];
      } else {
        CallsBelow(folder, cs[1..], p);
      }
    }
  }

  /** A file without execute permission is never called; adding one changes nothing. */
  lemma NonExecutableIgnored(folder: string, cs: seq<Entry>, name: string, execFails: bool)
    ensures ListRun(folder, cs + [Script(name, false, execFails)]) == ListRun(folder, cs)
  {
    ListRunAppend(folder, cs, [Script(name, false, execFails)]);
  }

  /** An executable file directly in the folder is called once, after the entries listed before it. */
  lemma ExecutableCalled(folder: string, cs: seq<Entry>, name: string)
    ensures var r := ListRun(folder, cs);
      ListRun(folder, cs + [Script(name, true, false)]) ==
        if r.failed then r else Run(r.calls + multiset{Join(folder, name)}, false)
  {
    ListRunAppend(folder, cs, [Script(name, true, false)]);
  }

  /** A sub-directory contributes the run of its own walk. */
  lemma SubFolderWalked(folder: string, cs: seq<Entry>, name: string, children: seq<Entry>)
    ensures var r := ListRun(folder, cs);
      var sub := ListRun(Join(folder, name), children);
      ListRun(folder, cs + [Folder(name, children)]) == if r.failed then r else Run(r.calls + sub.calls, sub.failed)
  {
    ListRunAppend(folder, cs, [Folder(name, children)]);
  }

  /**
   * A script whose execution raises ends the walk: the scripts listed after it are never
   * called, and the exception escapes.
   */
  lemma ExecFailureEndsWalk(folder: string, cs: seq<Entry>, name: string, more: seq<Entry>)
    ensures var r := ListRun(folder, cs);
      ListRun(folder, cs + [Script(name, true, true)] + more) == Run(r.calls, true)
  {
    ListRunAppend(folder, cs + [Script(name, true, true)], more);
    ListRunAppend(folder, cs, [Script(name, true, true)]);
  }

  /** Running the entries of two listings one after the other. */
  lemma {:induction false} ListRunAppend(folder: string, a: seq<Entry>, b: seq<Entry>)
    ensures var ra := ListRun(folder, a);
      var rb := ListRun(folder, b);
      ListRun(folder, a + b) == if ra.failed then ra else Run(ra.calls + rb.calls, rb.failed)
    decreases a
  {
    if a == [] {
      assert a + b == b;
    } else {
      assert (a + b)[0] == a[0];
      assert (a + b)[1..] == a[1..] + b;
      ListRunAppend(folder, a[1..], b);
    }
  }

  lemma RunnableCons(cs: seq<Entry>)
    requires cs != []
    ensures Runnable(cs) <==> EntryRunnable(cs[0]) && Runnable(cs[1..])
  {
    assert cs == [cs[0]] + cs[1..];
    assert forall e :: e in cs <==> e == cs[0] || e in cs[1..];
  }

  /**
   * The walk against the reference calls: it raises exactly when some executable script
   * below the entry cannot be executed; the scripts it ran are among the reference calls,
   * and are all of them when nothing raised.
   */
  lemma {:induction false} EntryRunAgainstCalls(folder: string, e: Entry)
    ensures EntryRun(folder, e).failed <==> !EntryRunnable(e)
    ensures EntryRun(folder, e).calls <= EntryCalls(folder, e)
    ensures EntryRunnable(e) ==> EntryRun(folder, e).calls == EntryCalls(folder, e)
    decreases e
  {
    match e
    case Script(name, executable, execFails) =>
    case Folder(name, children) =>
      ListRunAgainstCalls(Join(folder, name), children);
  }

  lemma {:induction false} ListRunAgainstCalls(folder: string, cs: seq<Entry>)
    ensures ListRun(folder, cs).failed <==> !Runnable(cs)
    ensures ListRun(folder, cs).calls <= ListCalls(folder, cs)
    ensures Runnable(cs) ==> ListRun(folder, cs).calls == ListCalls(folder, cs)
    decreases cs
  {
    if cs != [] {
      RunnableCons(cs);
      EntryRunAgainstCalls(folder, cs[0]);
      if !EntryRun(folder, cs[0]).failed {
        ListRunAgainstCalls(folder, cs[1..]);
      }
    }
  }

  /**
   * The listing order decides nothing when no call raises: whether the walk raises does
   * not depend on it, and a walk that does not raise calls the same scripts in any order.
   */
  lemma RunOrderFree(folder: string, a: seq<Entry>, b: seq<Entry>)
    requires multiset(a) == multiset(b)
    ensures ListRun(folder, a).failed == ListRun(folder, b).failed
    ensures !ListRun(folder, a).failed ==> ListRun(folder, a) == ListRun(folder, b)
  {
    assert forall e :: e in a <==> e in multiset(a);
    assert forall e :: e in b <==> e in multiset(b);
    ListRunAgainstCalls(folder, a);
    ListRunAgainstCalls(folder, b);
    ListCallsPermutation(folder, a, b);
  }

  /** The walk of one entry of `folder`. */
  method WalkEntry(folder: string, e: Entry) returns (r: Run)
    ensures r == EntryRun(folder, e)
    decreases e
  {
    match e {
      case Folder(name, children) =>
        r := Walk(Join(folder, name), children);
      case Script(name, executable, execFails) =>
        if !executable {
          r := Run(multiset{}, false);
        } else if execFails {
          r := Run(multiset{}, true);  // `subprocess.call` raises
        } else {
          r := Run(multiset{Join(folder, name)}, false);
        }
    }
  }

  /** The walk itself: the listing loop of one folder, left by the first exception. */
  method Walk(folder: string, cs: seq<Entry>) returns (r: Run)
    ensures r == ListRun(folder, cs)
    decreases cs
  {
    var calls := multiset{};
    var i := 0;
    while i < |cs|
      invariant 0 <= i <= |cs|
      invariant Run(calls, false) == ListRun(folder, cs[..i])
    {
      var sub := WalkEntry(folder, cs[i]);
      ListRunAppend(folder, cs[..i], [cs[i]]);
      assert cs[..i + 1] == cs[..i] + [cs[i]];
      assert ListRun(folder, [cs[i]]) == EntryRun(folder, cs[i]) by {
        assert [cs[i]][1..] == [];
      }
      if sub.failed {
        ListRunAppend(folder, cs[..i + 1], cs[i + 1..]);
        assert cs[..i + 1] + cs[i + 1..] == cs;
        return Run(calls + sub.calls, true);
      }
      calls := calls + sub.calls;
      i := i + 1;
    }
    assert cs[..i] == cs;
    r := Run(calls, false);
  }

  /**
   * `callExternalScripts(root, event, args)`: nothing when `root` is not a directory;
   * otherwise it raises exactly when some executable script below `root` cannot be
   * executed, and the scripts it ran are the reference calls, or some of them when it raised.
   */
  method CallExternalScripts(root: string, tree: Option<seq<Entry>>) returns (r: Run)
    ensures r == HookRun(root, tree)
    ensures tree.None? ==> r == Run(multiset{}, false)
    ensures r.failed <==> tree.Some? && !Runnable(tree.value)
    ensures r.calls <= HookCalls(root, tree)
    ensures !r.failed ==> r.calls == HookCalls(root, tree)
  {
    if tree.None? {
      return Run(multiset{}, false);
    }
    ListRunAgainstCalls(root, tree.value);
    r := Walk(root, tree.value);
  }
}
