/**
 * The POSIX path functions the converter relies on, as Python's posixpath
 * module defines them over `str`: `rfind`, `splitext`, `basename` and a
 * two-argument `join`.  The separator is '/', the extension separator '.'.
 *
 * The functions carry only cheap postconditions; what they mean is stated
 * by the lemmas after them, to be called where a proof needs it.
 */
module PosixPath {

  type Path = string

  const Sep: char := '/'
  const ExtSep: char := '.'

  /** True when `suffix` is a final segment of `s`. */
  predicate EndsWith(s: string, suffix: string) {
    |suffix| <= |s| && s[|s| - |suffix|..] == suffix
  }

  /** A string ends with whatever was appended to it. */
  lemma EndsWithAppend(s: string, t: string)
    ensures EndsWith(s + t, t)
  {
    assert (s + t)[|s|..] == t;
  }

  /** A suffix of a suffix is a suffix. */
  lemma EndsWithTrans(a: string, b: string, c: string)
    requires EndsWith(a, b) && EndsWith(b, c)
    ensures EndsWith(a, c)
  {
    assert a[|a| - |c|..] == a[|a| - |b|..][|b| - |c|..];
  }

  /** A string that ends in a non-empty suffix ends in the suffix's last character. */
  lemma EndsWithLast(s: string, suffix: string)
    requires |suffix| > 0 && EndsWith(s, suffix)
    ensures s[|s| - 1] == suffix[|suffix| - 1]
  {
    assert s[|s| - |suffix|..][|suffix| - 1] == s[|s| - 1];
  }

  /** True when every character of `s` is the extension separator (also when `s` is empty). */
  predicate AllDots(s: string) {
    forall i :: 0 <= i < |s| ==> s[i] == ExtSep
  }

  // ---------------------------------------------------------------------
  // str.rfind
  // ---------------------------------------------------------------------

  /** The index of the last occurrence of `c` among the first `n` characters of `s`, or -1. */
  function LastIndexBefore(s: string, c: char, n: nat): (r: int)
    requires n <= |s|
    ensures -1 <= r < n
  {
    if n == 0 then -1
    else if s[n - 1] == c then n - 1
    else LastIndexBefore(s, c, n - 1)
  }

  /** `str.rfind` for one character. */
  function RFind(s: string, c: char): (r: int)
    ensures -1 <= r < |s|
  {
    LastIndexBefore(s, c, |s|)
  }

  /** True when `k` is the index of the last `c` in `s`, or -1 when `s` holds no `c`. */
  predicate IsLastIndex(s: string, c: char, k: int) {
    && -1 <= k < |s|
    && (k >= 0 ==> s[k] == c)
    && forall j :: k < j < |s| ==> s[j] != c
  }

  lemma {:induction false} LastIndexBeforeIsLast(s: string, c: char, n: nat)
    requires n <= |s|
    ensures var r := LastIndexBefore(s, c, n);
      (r >= 0 ==> s[r] == c) && forall j :: r < j < n ==> s[j] != c
  {
    if n > 0 && s[n - 1] != c {
      LastIndexBeforeIsLast(s, c, n - 1);
    }
  }

  /** `rfind` returns exactly the index of the last occurrence, or -1 when there is none. */
  lemma RFindSpec(s: string, c: char, k: int)
    ensures RFind(s, c) == k <==> IsLastIndex(s, c, k)
  {
    LastIndexBeforeIsLast(s, c, |s|);
  }

  lemma RFindIsLast(s: string, c: char)
    ensures IsLastIndex(s, c, RFind(s, c))
  {
    RFindSpec(s, c, RFind(s, c));
  }

  lemma RFindUnique(s: string, c: char, k: int)
    requires IsLastIndex(s, c, k)
    ensures RFind(s, c) == k
  {
    RFindSpec(s, c, k);
  }

  // ---------------------------------------------------------------------
  // os.path.splitext and os.path.basename
  // ---------------------------------------------------------------------

  /**
   * Where `os.path.splitext` cuts `p`: at the last '.', provided that dot lies
   * in the last component and is preceded there by something other than
   * dots; otherwise at the end, leaving an empty extension.
   */
  function ExtStart(p: Path): (k: nat)
    ensures RFind(p, Sep) < k <= |p|
  {
    var sepIndex := RFind(p, Sep);
    var dotIndex := RFind(p, ExtSep);
    if dotIndex > sepIndex && !AllDots(p[sepIndex + 1..dotIndex]) then dotIndex else |p|
  }

  /** `os.path.splitext`: the root and the extension. */
  function SplitExt(p: Path): (r: (Path, string))
    ensures r.0 + r.1 == p
  {
    var k := ExtStart(p);
    (p[..k], p[k..])
  }

  /** `os.path.basename`: everything after the last '/'. */
  function Basename(p: Path): (r: Path)
    ensures |r| <= |p|
  {
    p[RFind(p, Sep) + 1..]
  }

  /** A cut before the end is at a '.', and neither '.' nor '/' follows it. */
  lemma ExtStartShape(p: Path)
    ensures var k := ExtStart(p);
      k < |p| ==> p[k] == ExtSep && forall j :: k < j < |p| ==> p[j] != ExtSep && p[j] != Sep
  {
    RFindIsLast(p, Sep);
    RFindIsLast(p, ExtSep);
  }

  /** An extension is empty, or a '.' followed by neither '.' nor '/'. */
  lemma SplitExtShape(p: Path)
    ensures var e := SplitExt(p).1;
      e == [] || (e[0] == ExtSep && Sep !in e && ExtSep !in e[1..])
  {
    var k := ExtStart(p);
    var e := p[k..];
    ExtStartShape(p);
    if k < |p| {
      assert e[0] == ExtSep;
      assert Sep !in e by {
        forall j | 0 <= j < |e| ensures e[j] != Sep {
          assert e[j] == p[k + j];
          if j == 0 { assert p[k] == ExtSep; } else { assert k < k + j < |p|; }
        }
      }
      assert ExtSep !in e[1..] by {
        forall j | 0 <= j < |e| - 1 ensures e[1..][j] != ExtSep {
          assert e[1..][j] == p[k + 1 + j];
          assert k < k + 1 + j < |p|;
        }
      }
    }
  }

  /** The basename is the longest final segment without a '/'. */
  lemma BasenameSpec(p: Path)
    ensures var r := Basename(p);
      && Sep !in r
      && EndsWith(p, r)
      && (|r| < |p| ==> p[|p| - |r| - 1] == Sep)
  {
    RFindIsLast(p, Sep);
  }

  /** The cut `splitext` makes in a path is the cut it makes in the path's basename, shifted. */
  lemma ExtStartOfBasename(p: Path)
    ensures ExtStart(Basename(p)) == ExtStart(p) - (RFind(p, Sep) + 1)
  {
    var s := RFind(p, Sep);
    var d := RFind(p, ExtSep);
    var name := Basename(p);
    var d' := if d > s then d - s - 1 else -1;
    assert RFind(name, Sep) == -1 && RFind(name, ExtSep) == d' by {
      SameLastIndicesInBasename(p);
    }
    if d > s {
      assert name[0..d'] == p[s + 1..d];
    }
  }

  /** Within the basename no '/' remains, and the last '.' is the path's own last '.', shifted. */
  lemma SameLastIndicesInBasename(p: Path)
    ensures var s := RFind(p, Sep);
      var d := RFind(p, ExtSep);
      && RFind(Basename(p), Sep) == -1
      && RFind(Basename(p), ExtSep) == if d > s then d - s - 1 else -1
  {
    var s := RFind(p, Sep);
    var d := RFind(p, ExtSep);
    var name := Basename(p);
    RFindIsLast(p, Sep);
    RFindIsLast(p, ExtSep);
    assert forall j :: 0 <= j < |name| ==> name[j] == p[s + 1 + j];
    RFindUnique(name, Sep, -1);
    if d <= s && s >= 0 { assert p[s] == Sep; }
    RFindUnique(name, ExtSep, if d > s then d - s - 1 else -1);
  }

  /**
   * `splitext` looks only at the last component: the extension of a path is
   * that of its basename, and the basename of its root is the root of its
   * basename.
   */
  lemma SplitExtOfBasename(p: Path)
    ensures SplitExt(p).1 == SplitExt(Basename(p)).1
    ensures Basename(SplitExt(p).0) == SplitExt(Basename(p)).0
  {
    var s := RFind(p, Sep);
    var k := ExtStart(p);
    var name := Basename(p);
    assert ExtStart(name) == k - s - 1 by { ExtStartOfBasename(p); }
    assert name == p[s + 1..];
    assert p[k..] == name[k - s - 1..];
    assert RFind(p[..k], Sep) == s by {
      RFindIsLast(p, Sep);
      LastIndexInPrefix(p, Sep, s, k);
      RFindUnique(p[..k], Sep, s);
    }
    assert p[..k][s + 1..] == name[..k - s - 1];
  }

  /** Cutting a string after its last `c` keeps that `c` the last one. */
  lemma LastIndexInPrefix(s: string, c: char, k: int, n: nat)
    requires IsLastIndex(s, c, k) && k < n <= |s|
    ensures IsLastIndex(s[..n], c, k)
  {
    assert forall j :: k < j < n ==> s[..n][j] == s[j];
  }

  /**
   * Exactly when `splitext` yields a given extension `e` (a '.' followed by
   * neither '.' nor '/'): the basename ends with `e`, and what precedes `e`
   * in the basename is not made of dots alone (which also excludes it being
   * empty).
   */
  lemma SplitExtIs(p: Path, e: string)
    requires |e| > 0 && e[0] == ExtSep && Sep !in e && ExtSep !in e[1..]
    ensures SplitExt(p).1 == e <==>
      EndsWith(Basename(p), e) && !AllDots(Basename(p)[..|Basename(p)| - |e|])
  {
    var name := Basename(p);
    if EndsWith(name, e) && !AllDots(name[..|name| - |e|]) {
      SplitExtIsWhenNameEndsWith(p, e);
    }
    if SplitExt(p).1 == e {
      SplitExtIsOnlyWhenNameEndsWith(p, e);
    }
  }

  lemma SplitExtIsOnlyWhenNameEndsWith(p: Path, e: string)
    requires |e| > 0 && SplitExt(p).1 == e
    ensures EndsWith(Basename(p), e) && !AllDots(Basename(p)[..|Basename(p)| - |e|])
  {
    var name := Basename(p);
    var s := RFind(p, Sep);
    var k := ExtStart(p);
    assert name == p[s + 1..];
    assert k < |p| && p[k..] == e;
    assert name[|name| - |e|..] == p[k..];
    assert p[s + 1..k] == name[..|name| - |e|];
  }

  lemma SplitExtIsWhenNameEndsWith(p: Path, e: string)
    requires |e| > 0 && e[0] == ExtSep && Sep !in e && ExtSep !in e[1..]
    requires EndsWith(Basename(p), e) && !AllDots(Basename(p)[..|Basename(p)| - |e|])
    ensures SplitExt(p).1 == e
  {
    var s := RFind(p, Sep);
    var name := Basename(p);
    var q := |p| - |e|;
    assert name == p[s + 1..];
    assert p[q..] == e;
    assert RFind(p, ExtSep) == q by {
      forall j | q < j < |p| ensures p[j] != ExtSep {
        assert p[j] == e[1..][j - q - 1];
      }
      RFindUnique(p, ExtSep, q);
    }
    assert s < q by { RFindIsLast(p, Sep); }
    assert p[s + 1..q] == name[..|name| - |e|];
  }

  /** A basename without any '.' has no extension: the whole path is the root. */
  lemma NoDotNoExtension(p: Path)
    requires ExtSep !in Basename(p)
    ensures SplitExt(p) == (p, [])
  {
    var s := RFind(p, Sep);
    var d := RFind(p, ExtSep);
    assert d <= s by { RFindIsLast(p, ExtSep); }
    assert ExtStart(p) == |p|;
    assert p[..|p|] == p;
  }

  /** A path without any '/' is its own basename. */
  lemma BasenameOfSepFree(p: Path)
    requires Sep !in p
    ensures Basename(p) == p
  {
    RFindUnique(p, Sep, -1);
  }

  // ---------------------------------------------------------------------
  // os.path.join
  // ---------------------------------------------------------------------

  /** True when `p` is absolute, so that `join` restarts from it. */
  predicate IsAbs(p: Path) {
    |p| > 0 && p[0] == Sep
  }

  /**
   * The directory part `join(a, b)` keeps in front of a relative `b`: `a`
   * itself when it is empty or already ends in '/', else `a` and one '/'.
   */
  function DirPrefix(a: Path): (r: Path)
    ensures |r| >= |a| && r[..|a|] == a
    ensures r == [] || r[|r| - 1] == Sep
  {
    if a == [] || a[|a| - 1] == Sep then a else a + [Sep]
  }

  /** `os.path.join(a, b)`. */
  function Join(a: Path, b: Path): (r: Path)
  {
    if IsAbs(b) then b
    else if a == [] || a[|a| - 1] == Sep then a + b
    else a + [Sep] + b
  }

  /**
   * `join` gives `b` itself when it is absolute, and otherwise `b` after the
   * directory `a` with exactly one '/' between them; either way it ends in `b`.
   */
  lemma JoinSpec(a: Path, b: Path)
    ensures EndsWith(Join(a, b), b)
    ensures IsAbs(b) ==> Join(a, b) == b
    ensures !IsAbs(b) ==> Join(a, b) == DirPrefix(a) + b
  {
  }

  /** The last `c` of `b`, or the end of `pre` when `b` has none and `pre` ends in `c`, is the last `c` of `pre + b`. */
  lemma LastIndexInAppend(pre: string, b: string, c: char, t: int)
    requires IsLastIndex(b, c, t)
    requires t >= 0 || pre == [] || pre[|pre| - 1] == c
    ensures IsLastIndex(pre + b, c, |pre| + t)
  {
    var r := pre + b;
    var k := |pre| + t;
    if t >= 0 {
      assert r[k] == b[t];
    } else if k >= 0 {
      assert r[k] == pre[|pre| - 1];
    }
    forall j | k < j < |r| ensures r[j] != c {
      assert r[j] == b[j - |pre|];
    }
  }

  /** Appending a path to a directory part that ends in '/' keeps the path's basename. */
  lemma BasenameAfterDirectory(pre: Path, b: Path)
    requires pre == [] || pre[|pre| - 1] == Sep
    ensures Basename(pre + b) == Basename(b)
  {
    var t := RFind(b, Sep);
    RFindIsLast(b, Sep);
    LastIndexInAppend(pre, b, Sep, t);
    RFindUnique(pre + b, Sep, |pre| + t);
    assert (pre + b)[|pre| + t + 1..] == b[t + 1..];
  }

  /** `join` never changes the basename of its second argument. */
  lemma BasenameOfJoin(a: Path, b: Path)
    ensures Basename(Join(a, b)) == Basename(b)
  {
    JoinSpec(a, b);
    if !IsAbs(b) {
      BasenameAfterDirectory(DirPrefix(a), b);
    }
  }
}
