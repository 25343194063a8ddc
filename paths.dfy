/**
 * The path arithmetic the launcher relies on: `os.path.basename`, the extension test of
 * `main` (`os.path.splitext(rom)[1][1:].lower()`) and the `[:-9]` slice that turns an
 * archive name into its mount-point name.
 */
module Paths {

  /** Python's `str.rfind` for one character: the last index of `c` in `s`, or -1. */
  function LastIndex(s: string, c: char): (r: int)
    ensures -1 <= r < |s|
    ensures r >= 0 ==> s[r] == c
    ensures forall k :: r < k < |s| ==> s[k] != c
  {
    if s == [] then -1
    else if s[|s| - 1] == c then |s| - 1
    else LastIndex(s[..|s| - 1], c)
  }

  /** `os.path.basename`: everything after the last '/'. */
  function Basename(p: string): (r: string)
    ensures '/' !in r
    ensures |r| <= |p| && r == p[|p| - |r|..]
  {
    p[LastIndex(p, '/') + 1..]
  }

  /** The base name is the whole path, or what follows a '/'. */
  lemma BasenameAfterSlash(p: string)
    ensures var r := Basename(p); |r| == |p| || p[|p| - |r| - 1] == '/'
  {
  }

  predicate AllDots(s: string) {
    forall k :: 0 <= k < |s| ==> s[k] == '.'
  }

  /**
   * The extension `splitext` reports for `p`, without its dot: the text after the last
   * '.' of the base name, provided some character before that dot is not a dot itself
   * (a leading run of dots, as in ".bashrc", never starts an extension).
   */
  function Extension(p: string): (r: string)
    ensures '.' !in r && '/' !in r
  {
    var b := Basename(p);
    var i := LastIndex(b, '.');
    if i >= 0 && !AllDots(b[..i]) then b[i + 1..] else ""
  }

  /**
   * `splitext`'s rule: a non-empty extension is what follows the last '.' of the base
   * name, and that dot has some character other than '.' before it; the extension is
   * empty exactly when the last dot ends the name, has only dots before it, or is missing.
   */
  lemma ExtensionRule(p: string)
    ensures var b := Basename(p);
      var r := Extension(p);
      (r != "" ==> |r| < |b| && b == b[..|b| - |r| - 1] + "." + r && !AllDots(b[..|b| - |r| - 1])) &&
      (r == "" ==> forall i :: 0 <= i < |b| && b[i] == '.' && '.' !in b[i + 1..] ==> i == |b| - 1 || AllDots(b[..i]))
  {
    var b := Basename(p);
    var li := LastIndex(b, '.');
    if Extension(p) != "" {
      ExtensionSplit(b, li);
    } else {
      forall i | 0 <= i < |b| && b[i] == '.' && '.' !in b[i + 1..]
        ensures i == |b| - 1 || AllDots(b[..i])
      {
        assert li == i;
      }
    }
  }

  /** Cutting a name at a dot and putting the dot back gives the name. */
  lemma ExtensionSplit(b: string, i: int)
    requires 0 <= i < |b| && b[i] == '.'
    ensures b == b[..i] + "." + b[i + 1..]
  {
    assert b[..i] + "." + b[i + 1..] == b[..i] + b[i..];
  }

  function LowerChar(c: char): char {
    if 'A' <= c <= 'Z' then (c as int + 32) as char else c
  }

  /**
   * `str.lower` on the ASCII letters. Python lower-cases other scripts too, but no
   * non-ASCII character lower-cases to a letter of "squashfs", so the extension test
   * below decides the same way.
   */
  function Lower(s: string): (r: string)
    ensures |r| == |s|
  {
    seq(|s|, k requires 0 <= k < |s| => LowerChar(s[k]))
  }

  /** The result holds no capital letter, and every other character is kept in place. */
  lemma LowerCases(s: string)
    ensures forall k :: 0 <= k < |s| ==> !('A' <= Lower(s)[k] <= 'Z')
    ensures forall k :: 0 <= k < |s| && !('A' <= s[k] <= 'Z') ==> Lower(s)[k] == s[k]
  {
    forall k | 0 <= k < |s|
      ensures Lower(s)[k] == LowerChar(s[k])
    {
    }
  }

  /** The extension test accepts "squashfs" in any mix of letter cases, and nothing else. */
  lemma LowerSquashfs(s: string)
    ensures Lower(s) == "squashfs" <==>
      |s| == 8 && forall k :: 0 <= k < 8 ==> s[k] == "squashfs"[k] || s[k] == "SQUASHFS"[k]
  {
    var u, l := "SQUASHFS", "squashfs";
    assert forall k :: 0 <= k < 8 ==> u[k] as int + 32 == l[k] as int && 'A' <= u[k] <= 'Z';
    if Lower(s) == l {
      forall k | 0 <= k < 8
        ensures s[k] == l[k] || s[k] == u[k]
      {
        assert Lower(s)[k] == LowerChar(s[k]);
      }
    }
    if |s| == 8 && forall k :: 0 <= k < 8 ==> s[k] == l[k] || s[k] == u[k] {
      forall k | 0 <= k < 8
        ensures Lower(s)[k] == l[k]
      {
        assert Lower(s)[k] == LowerChar(s[k]);
      }
    }
  }

  /** The test `main` makes before mounting (switchlauncher_old.py line 82-83). */
  predicate IsSquashfsRom(rom: string) {
    Lower(Extension(rom)) == "squashfs"
  }

  /** Python's `s[:-n]` for a positive `n`: drop the last `n` characters, or everything. */
  function DropLast(s: string, n: nat): string
    requires n > 0
  {
    if |s| >= n then s[..|s| - n] else ""
  }

  /** The result is the prefix of `s` that is `n` characters shorter, or empty when `s` is shorter than that. */
  lemma DropLastPrefix(s: string, n: nat)
    requires n > 0
    ensures DropLast(s, n) <= s
    ensures |DropLast(s, n)| == if |s| >= n then |s| - n else 0
  {
  }

  /** `os.path.basename(rom)[:-9]`, the name under which an archive is mounted. */
  function Stem(rom: string): string {
    DropLast(Basename(rom), 9)
  }

  /**
   * For every rom `main` mounts, cutting nine characters off the base name cuts exactly
   * ".squashfs" (in any letter case): the stem is the base name without its extension,
   * it is a single path component, and it is neither "." nor "..".
   */
  lemma SquashfsStem(rom: string)
    requires IsSquashfsRom(rom)
    ensures Basename(rom) == Stem(rom) + "." + Extension(rom)
    ensures |Extension(rom)| == 8
    ensures Stem(rom) != [] && '/' !in Stem(rom)
    ensures !AllDots(Stem(rom)) && Stem(rom) != "." && Stem(rom) != ".."
  {
    var b := Basename(rom);
    var i := LastIndex(b, '.');
    assert |Lower(Extension(rom))| == 8;
    assert i >= 0 && !AllDots(b[..i]);
    assert Extension(rom) == b[i + 1..];
    assert |b| - 9 == i;
    assert Stem(rom) == b[..i];
    assert b == b[..i] + "." + b[i + 1..] by {
      assert b[i] == '.';
    }
    assert AllDots(".") && AllDots("..");
  }
}
