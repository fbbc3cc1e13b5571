/** The Python string operations the reconciler uses on rows and records:
    `split`/`rsplit` on a single space, `rstrip('.')`, the padding of
    `str.format` width specifiers, and the ordering `<` of strings. */
module Strings {
  import opened Records
  import opened Lists

  /** `" ".join(f)`: the fields with one space between neighbours. */
  function JoinSpaces(f: seq<string>): string {
    if f == [] then ""
    else if |f| == 1 then f[0]
    else f[0] + " " + JoinSpaces(f[1..])
  }

  /** `s.split(' ', 1)`: cut at the first single space, if there is one. */
  function Split1(s: string): (f: seq<string>)
    ensures 1 <= |f| <= 2
    ensures JoinSpaces(f) == s
    ensures ' ' !in f[0]
  {
    match IndexOf(s, ' ')
    case None => [s]
    case Some(a) =>
      assert s == s[..a] + " " + s[a + 1..];
      JoinTwo(s[..a], s[a + 1..]);
      [s[..a], s[a + 1..]]
  }

  /** `s.split(' ', 2)`: cut at the first two single spaces.  Every field but
      the last is free of spaces, the fields joined back give `s`, and there
      are fewer than three fields only when no space was left to cut at;
      consecutive spaces give empty fields. */
  function Split2(s: string): (f: seq<string>)
    ensures 1 <= |f| <= 3
    ensures JoinSpaces(f) == s
    ensures forall k :: 0 <= k < |f| - 1 ==> ' ' !in f[k]
    ensures |f| < 3 ==> ' ' !in f[|f| - 1]
  {
    var head := Split1(s);
    if |head| == 1 then head
    else
      var tail := Split1(head[1]);
      JoinCons(head[0], tail);
      [head[0]] + tail
  }

  lemma JoinCons(a: string, f: seq<string>)
    requires f != []
    ensures JoinSpaces([a] + f) == a + " " + JoinSpaces(f)
  {
    assert ([a] + f)[1..] == f;
  }

  lemma JoinTwo(a: string, b: string)
    ensures JoinSpaces([a, b]) == a + " " + b
  {
    assert [a, b][1..] == [b];
  }

  /** `s.rsplit(' ', 1)`: cut at the last single space.  The fields joined
      back give `s` and the last field is free of spaces. */
  function RSplit1(s: string): (f: seq<string>)
    ensures 1 <= |f| <= 2
    ensures JoinSpaces(f) == s
    ensures ' ' !in f[|f| - 1]
  {
    match LastIndexOf(s, ' ')
    case None => [s]
    case Some(k) =>
      assert s == s[..k] + " " + s[k + 1..];
      JoinTwo(s[..k], s[k + 1..]);
      [s[..k], s[k + 1..]]
  }

  /** `s.rstrip('.')`: `s` without all of its trailing dots. */
  function RStripDots(s: string): (r: string)
    ensures |r| <= |s| && r == s[..|r|]
    ensures r == [] || r[|r| - 1] != '.'
    ensures forall k :: |r| <= k < |s| ==> s[k] == '.'
  {
    if s != [] && s[|s| - 1] == '.' then RStripDots(s[..|s| - 1]) else s
  }

  function Spaces(n: nat): (r: string)
    ensures |r| == n && forall k :: 0 <= k < n ==> r[k] == ' '
  {
    seq(n, _ => ' ')
  }

  /** `'{:>w}'.format(s)`: `s` right-aligned in a column of width `w`. */
  function PadLeft(s: string, w: nat): (r: string)
    ensures |r| == if |s| < w then w else |s|
    ensures r == Spaces(|r| - |s|) + s
  {
    if |s| < w then Spaces(w - |s|) + s else s
  }

  /** `'{:w}'.format(s)` for a string: `s` left-aligned in a column of width `w`. */
  function PadRight(s: string, w: nat): (r: string)
    ensures |r| == if |s| < w then w else |s|
    ensures r == s + Spaces(|r| - |s|)
  {
    if |s| < w then s + Spaces(w - |s|) else s
  }

  /** Python's `a <= b` on strings: lexicographic by character, a proper
      prefix coming first. */
  predicate StrLe(a: string, b: string)
    decreases |a|
  {
    a == [] || (b != [] && (a[0] < b[0] || (a[0] == b[0] && StrLe(a[1..], b[1..]))))
  }

  /** Python's `a < b` on strings. */
  predicate StrLt(a: string, b: string) {
    StrLe(a, b) && a != b
  }

  lemma {:induction false} StrLeTotal(a: string, b: string)
    ensures StrLe(a, b) || StrLe(b, a)
    decreases |a|
  {
    if a != [] && b != [] && a[0] == b[0] {
      StrLeTotal(a[1..], b[1..]);
    }
  }

  lemma {:induction false} StrLeTransitive(a: string, b: string, c: string)
    ensures StrLe(a, b) && StrLe(b, c) ==> StrLe(a, c)
    decreases |a|
  {
    if a != [] && b != [] && c != [] {
      StrLeTransitive(a[1..], b[1..], c[1..]);
    }
  }

  lemma {:induction false} StrLeAntisymmetric(a: string, b: string)
    ensures StrLe(a, b) && StrLe(b, a) ==> a == b
    decreases |a|
  {
    if a != [] && b != [] {
      StrLeAntisymmetric(a[1..], b[1..]);
      assert a == [a[0]] + a[1..] && b == [b[0]] + b[1..];
    }
  }
}
