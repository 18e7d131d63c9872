/** A model of the parts of Python's pathlib the organizer relies on.
    A path is its sequence of components; `root / "a" / "b"` is `root + ["a", "b"]`. */
module Paths {

  type Path = seq<string>

  /** `str.rfind`: the index of the last occurrence of `c` in `s`, or -1. */
  function RFind(s: string, c: char): (r: int)
    ensures -1 <= r < |s|
    ensures r == -1 <==> c !in s
    ensures r >= 0 ==> s[r] == c && c !in s[r + 1..]
  {
    if s == [] then -1
    else if s[|s| - 1] == c then |s| - 1
    else
      assert s == s[..|s| - 1] + [s[|s| - 1]];
      RFind(s[..|s| - 1], c)
  }

  /** `PurePath.name`: the final component ("" for the empty path). */
  function Name(p: Path): (r: string)
    ensures p != [] ==> r == p[|p| - 1]
  {
    if p == [] then "" else p[|p| - 1]
  }

  /** `PurePath.parent`: the path without its final component. */
  function Parent(p: Path): (r: Path)
    ensures p != [] ==> |r| == |p| - 1 && r == p[..|r|]
    ensures p != [] ==> r + [Name(p)] == p
  {
    if p == [] then [] else p[..|p| - 1]
  }

  /** pathlib splits a name at its last dot only when that dot is neither
      the first nor the last character. */
  predicate HasSuffix(name: string)
  {
    var i := RFind(name, '.');
    0 < i < |name| - 1
  }

  /** `PurePath.suffix` of a name: a tail of the name that, when not empty,
      starts at the name's last dot. */
  function Suffix(name: string): (r: string)
    ensures |r| <= |name| && r == name[|name| - |r|..]
    ensures r != "" ==> r[0] == '.' && RFind(name, '.') == |name| - |r|
    ensures r != "" <==> 0 < RFind(name, '.') < |name| - 1
  {
    if HasSuffix(name) then name[RFind(name, '.')..] else ""
  }

  /** `PurePath.stem` of a name: a prefix of the name, all of it when there
      is no suffix. */
  function Stem(name: string): (r: string)
    ensures |r| <= |name| && r == name[..|r|]
    ensures !HasSuffix(name) ==> r == name
  {
    if HasSuffix(name) then name[..RFind(name, '.')] else name
  }

  /** What pathlib promises of the split: stem and suffix put back together
      give the name, a suffix is a dot followed by at least one character and
      no further dot, and the stem is never empty when there is a suffix. */
  lemma StemSuffixSplit(name: string)
    ensures Stem(name) + Suffix(name) == name
    ensures Suffix(name) == "" || (|Suffix(name)| >= 2 && Suffix(name)[0] == '.' && '.' !in Suffix(name)[1..])
    ensures Suffix(name) != "" ==> Stem(name) != ""
  {
    if HasSuffix(name) {
      var i := RFind(name, '.');
      assert name[i..][1..] == name[i + 1..];
    }
  }

  /** A name whose only dot is its first character (".bashrc") has no suffix. */
  lemma LeadingDotHasNoSuffix(name: string)
    requires |name| > 0 && name[0] == '.' && '.' !in name[1..]
    ensures Suffix(name) == "" && Stem(name) == name
  {
  }

  /** ASCII `str.lower` on one character. */
  function LowerChar(c: char): (r: char)
    ensures 'A' <= c <= 'Z' || r == c
    ensures !('A' <= r <= 'Z')
    ensures SameLetterIgnoringCase(r, c)
  {
    if 'A' <= c <= 'Z' then (c as int - 'A' as int + 'a' as int) as char else c
  }

  /** `str.lower`, restricted to ASCII letters. */
  function Lower(s: string): (r: string)
    ensures |r| == |s|
    ensures forall i :: 0 <= i < |s| ==> r[i] == LowerChar(s[i])
    ensures SameIgnoringCase(r, s)
    ensures forall i :: 0 <= i < |r| ==> !('A' <= r[i] <= 'Z')
  {
    seq(|s|, i requires 0 <= i < |s| => LowerChar(s[i]))
  }

  /** Two characters that are equal, or the same ASCII letter in the two cases. */
  predicate SameLetterIgnoringCase(a: char, b: char)
  {
    a == b
    || ('a' <= a <= 'z' && b as int == a as int - 32)
    || ('a' <= b <= 'z' && a as int == b as int - 32)
  }

  predicate SameIgnoringCase(s: string, t: string)
  {
    |s| == |t| && forall i :: 0 <= i < |s| ==> SameLetterIgnoringCase(s[i], t[i])
  }

  /** Strings that differ only in the case of their letters lower-case alike. */
  lemma LowerIgnoresCase(s: string, t: string)
    requires SameIgnoringCase(s, t)
    ensures Lower(s) == Lower(t)
  {
    assert forall i :: 0 <= i < |s| ==> Lower(s)[i] == Lower(t)[i];
  }

  /** `str(path)`: the components joined by "/", "." for the empty path. */
  function PathString(p: Path): (r: string)
    ensures |r| >= |Name(p)|
  {
    if p == [] then "."
    else if |p| == 1 then p[0]
    else PathString(p[..|p| - 1]) + "/" + p[|p| - 1]
  }

  /** `str(path)` ends with the path's name, and for a path of two or more
      components a "/" separates that name from the rest. */
  lemma PathStringEndsWithName(p: Path)
    ensures var r := PathString(p);
      && (p == [] ==> r == ".")
      && r[|r| - |Name(p)|..] == Name(p)
      && (|p| >= 2 ==> |r| > |Name(p)| && r[|r| - |Name(p)| - 1] == '/')
  {
    if |p| >= 2 {
      var front := PathString(p[..|p| - 1]) + "/";
      assert PathString(p) == front + Name(p);
    }
  }

  /** `str(p / q)` is `str(p)`, a "/", and `str(q)`: every component appears,
      in order, separated by "/". */
  lemma {:induction false} PathStringConcat(p: Path, q: Path)
    requires p != [] && q != []
    ensures PathString(p + q) == PathString(p) + "/" + PathString(q)
    decreases |q|
  {
    var front, last := q[..|q| - 1], q[|q| - 1];
    assert PathString(p + q) == PathString(p + front) + "/" + last by {
      assert p + q == (p + front) + [last];
      PathStringSnoc(p + front, last);
    }
    if front == [] {
      assert p + front == p;
    } else {
      assert PathString(q) == PathString(front) + "/" + last by {
        assert q == front + [last];
        PathStringSnoc(front, last);
      }
      PathStringConcat(p, front);
      JoinAssociates(PathString(p + q), PathString(p + front), PathString(p),
                     PathString(front), PathString(q), last);
    }
  }

  /** Joining with "/" associates: if `whole` is `init/last`, `init` is
      `a/b` and `tail` is `b/last`, then `whole` is `a/tail`. */
  lemma JoinAssociates(whole: string, init: string, a: string, b: string, tail: string, last: string)
    requires whole == init + "/" + last && init == a + "/" + b && tail == b + "/" + last
    ensures whole == a + "/" + tail
  {
  }

  /** Appending one component appends "/" and that component. */
  lemma PathStringSnoc(p: Path, n: string)
    requires p != []
    ensures PathString(p + [n]) == PathString(p) + "/" + n
  {
    assert (p + [n])[..|p|] == p;
  }
}
