/** Names and paths: the order directory indexes are sorted by, and how a path splits into components. */
module FsNames {

  /** The byte-wise comparison of two names: -1, 0 or 1. */
  function Compare(a: string, b: string): (r: int)
    decreases |a|
  {
    if a == [] && b == [] then 0
    else if a == [] then -1
    else if b == [] then 1
    else if a[0] < b[0] then -1
    else if a[0] > b[0] then 1
    else Compare(a[1..], b[1..])
  }

  predicate Less(a: string, b: string)
  {
    Compare(a, b) < 0
  }

  lemma {:induction false} CompareZero(a: string, b: string)
    ensures Compare(a, b) == 0 <==> a == b
  {
    if a != [] && b != [] && a[0] == b[0] {
      CompareZero(a[1..], b[1..]);
      assert a == [a[0]] + a[1..] && b == [b[0]] + b[1..];
    }
  }

  lemma {:induction false} CompareFlips(a: string, b: string)
    ensures Compare(a, b) == -Compare(b, a)
  {
    if a != [] && b != [] && a[0] == b[0] {
      CompareFlips(a[1..], b[1..]);
    }
  }

  lemma {:induction false} LessTransitive(a: string, b: string, c: string)
    requires Compare(a, b) <= 0 && Compare(b, c) <= 0
    ensures Compare(a, c) <= 0
    ensures Compare(a, b) < 0 || Compare(b, c) < 0 ==> Compare(a, c) < 0
  {
    if a != [] && b != [] && c != [] && a[0] == b[0] == c[0] {
      LessTransitive(a[1..], b[1..], c[1..]);
    }
  }

  /** a sorts before b: it is a proper beginning of b, or smaller at the first place where they differ. */
  predicate SortsBefore(a: string, b: string, k: nat)
  {
    k <= |a| && k < |b| && a[..k] == b[..k] && (k == |a| || a[k] < b[k])
  }

  lemma {:induction false} LessIff(a: string, b: string)
    ensures Less(a, b) <==> exists k: nat :: SortsBefore(a, b, k)
  {
    if a != [] && b != [] && a[0] == b[0] {
      LessIff(a[1..], b[1..]);
      assert a == [a[0]] + a[1..] && b == [b[0]] + b[1..];
      if k: nat :| SortsBefore(a[1..], b[1..], k) {
        assert SortsBefore(a, b, k + 1);
      }
      if k: nat :| SortsBefore(a, b, k) {
        assert k > 0;
        assert a[1..][..k - 1] == a[..k][1..];
        assert SortsBefore(a[1..], b[1..], k - 1);
      }
    } else if Less(a, b) {
      assert SortsBefore(a, b, 0);
    }
  }

  /** Length of the leading run of non-slash characters. */
  function NameLength(p: string): (r: nat)
    ensures r <= |p|
    ensures r < |p| ==> p[r] == '/'
    ensures p != [] && p[0] != '/' ==> r > 0
  {
    if p == [] || p[0] == '/' then 0 else 1 + NameLength(p[1..])
  }

  function SkipSlashes(p: string): (r: string)
    ensures |r| <= |p| && (r != [] ==> r[0] != '/')
  {
    if p != [] && p[0] == '/' then SkipSlashes(p[1..]) else p
  }

  /** The components of a path; repeated slashes separate as one does. */
  function Split(p: string): (r: seq<string>)
    decreases |p|
  {
    var s := SkipSlashes(p);
    if s == [] then [] else [s[..NameLength(s)]] + Split(s[NameLength(s)..])
  }

  predicate EndsInSlash(p: string)
  {
    p != [] && p[|p| - 1] == '/'
  }

  /** A slash follows the last component. */
  predicate Trailing(p: string)
  {
    Split(p) != [] && EndsInSlash(p)
  }

  lemma {:induction false} SkipKeepsEnd(p: string)
    ensures SkipSlashes(p) != [] ==> EndsInSlash(SkipSlashes(p)) == EndsInSlash(p)
    ensures p != [] && SkipSlashes(p) == [] ==> EndsInSlash(p)
  {
    if p != [] && p[0] == '/' {
      SkipKeepsEnd(p[1..]);
    }
  }

  lemma {:induction false} NameHasNoSlash(p: string, i: nat)
    requires i < NameLength(p)
    ensures p[i] != '/'
  {
    if i > 0 { NameHasNoSlash(p[1..], i - 1); }
  }

  /** What is left of a path after its first component. */
  function Rest(p: string): (r: string)
    requires SkipSlashes(p) != []
    ensures |r| < |p|
  {
    var s := SkipSlashes(p);
    s[NameLength(s)..]
  }

  function FirstName(p: string): (r: string)
    requires SkipSlashes(p) != []
    ensures r != []
  {
    var s := SkipSlashes(p);
    s[..NameLength(s)]
  }

  /** The last component is the one with nothing behind it, or with nothing but slashes. */
  lemma TrailingStep(p: string)
    requires SkipSlashes(p) != []
    ensures Split(p) == [FirstName(p)] + Split(Rest(p))
    ensures Rest(p) == [] ==> Split(p) == [FirstName(p)] && !Trailing(p)
    ensures Rest(p) != [] && Split(Rest(p)) == [] ==> Trailing(p)
    ensures Split(Rest(p)) != [] ==> Trailing(p) == Trailing(Rest(p))
  {
    var s := SkipSlashes(p);
    var n := NameLength(s);
    SkipKeepsEnd(p);
    if Rest(p) == [] {
      NameHasNoSlash(s, n - 1);
    } else {
      SkipKeepsEnd(Rest(p));
      assert s[|s| - 1] == Rest(p)[|Rest(p)| - 1];
    }
  }

  // ----- paths put together

  function Slashes(n: nat): (r: string)
    ensures |r| == n && forall k :: 0 <= k < n ==> r[k] == '/'
  {
    seq(n, _ => '/')
  }

  lemma {:induction false} SlashesSkipped(n: nat, s: string)
    requires s != [] && s[0] != '/'
    ensures SkipSlashes(Slashes(n) + s) == s
  {
    if n > 0 {
      assert (Slashes(n) + s)[1..] == Slashes(n - 1) + s;
      SlashesSkipped(n - 1, s);
    } else {
      assert Slashes(0) + s == s;
    }
  }

  /** Names with at least one slash before each, except perhaps the first, and any number behind the last. */
  function Joined(names: seq<string>, gaps: seq<nat>, tail: nat): (r: string)
    requires |names| == |gaps|
  {
    if names == [] then Slashes(tail)
    else Slashes(gaps[0]) + (names[0] + Joined(names[1..], gaps[1..], tail))
  }

  predicate Name(s: string)
  {
    s != [] && '/' !in s
  }

  lemma {:induction false} NameEnds(name: string, rest: string)
    requires '/' !in name && (rest != [] ==> rest[0] == '/')
    ensures NameLength(name + rest) == |name|
  {
    if name != [] {
      assert (name + rest)[1..] == name[1..] + rest;
      assert name[0] in name;
      NameEnds(name[1..], rest);
    } else {
      assert name + rest == rest;
    }
  }

  lemma {:induction false} OnlySlashes(n: nat)
    ensures Split(Slashes(n)) == []
  {
    if n > 0 {
      assert Slashes(n)[1..] == Slashes(n - 1);
      OnlySlashes(n - 1);
    }
  }

  /** The components of a path are the names it was put together from, whatever the number of slashes. */
  lemma {:induction false} SplitJoined(names: seq<string>, gaps: seq<nat>, tail: nat)
    requires |names| == |gaps| && forall i :: 0 <= i < |names| ==> Name(names[i])
    requires forall i :: 0 < i < |gaps| ==> gaps[i] > 0
    ensures Split(Joined(names, gaps, tail)) == names
    decreases |names|
  {
    if names == [] {
      OnlySlashes(tail);
    } else {
      var rest := Joined(names[1..], gaps[1..], tail);
      var s := names[0] + rest;
      assert Name(names[0]) && names[0][0] in names[0];
      SlashesSkipped(gaps[0], s);
      RestStarts(names[1..], gaps[1..], tail);
      NameEnds(names[0], rest);
      assert s[..|names[0]|] == names[0] && s[|names[0]|..] == rest;
      SplitJoined(names[1..], gaps[1..], tail);
    }
  }

  lemma RestStarts(names: seq<string>, gaps: seq<nat>, tail: nat)
    requires |names| == |gaps| && (names != [] ==> gaps[0] > 0)
    ensures Joined(names, gaps, tail) != [] ==> Joined(names, gaps, tail)[0] == '/'
  {
  }

  /** Every path is put together so, from its components. */
  lemma {:induction false} JoinedSplit(p: string) returns (gaps: seq<nat>, tail: nat)
    ensures |gaps| == |Split(p)| && p == Joined(Split(p), gaps, tail)
    ensures forall i :: 0 <= i < |gaps| ==> Name(Split(p)[i]) && (i > 0 ==> gaps[i] > 0)
    ensures p != [] && p[0] == '/' && gaps != [] ==> gaps[0] > 0
    decreases |p|
  {
    var n := SlashCount(p);
    var s := SkipSlashes(p);
    if s == [] {
      gaps, tail := [], n;
    } else {
      var more;
      more, tail := JoinedSplit(Rest(p));
      gaps := [n] + more;
      FirstIsName(s);
      assert s == FirstName(p) + Rest(p);
    }
  }

  lemma FirstIsName(s: string)
    requires s != [] && s[0] != '/'
    ensures Name(s[..NameLength(s)])
  {
    forall i | 0 <= i < NameLength(s) ensures s[i] != '/' { NameHasNoSlash(s, i); }
  }

  lemma {:induction false} SlashCount(p: string) returns (n: nat)
    ensures p == Slashes(n) + SkipSlashes(p) && (p != [] && p[0] == '/' ==> n > 0)
  {
    n := 0;
    if p != [] && p[0] == '/' {
      var m := SlashCount(p[1..]);
      n := m + 1;
      assert Slashes(n) == ['/'] + Slashes(m);
      assert p == ['/'] + p[1..];
    }
  }
}
