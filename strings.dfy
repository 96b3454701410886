/** The string operations the Python code uses: `str.split` (with the search for
    the first separator it makes), `os.path.basename` and `str()` of a non-negative
    integer; `Join` is the inverse of `Split`, used to state its round trips. */
module Strings {

  datatype Option<+T> = None | Some(value: T)

  /** All elements of `s` are different. */
  predicate Distinct<T(==)>(s: seq<T>) {
    forall i, j :: 0 <= i < j < |s| ==> s[i] != s[j]
  }

  /** Position of the first `c` in `s`, where `s.split(c, 1)` cuts; None when there is no `c`. */
  function IndexOf(s: string, c: char): (r: Option<nat>)
    ensures r.None? <==> c !in s
    ensures r.Some? ==> r.value < |s| && s[r.value] == c && c !in s[..r.value]
  {
    if s == [] then None
    else if s[0] == c then Some(0)
    else
      match IndexOf(s[1..], c)
      case None =>
        assert s == [s[0]] + s[1..];
        None
      case Some(i) =>
        assert s[..i + 1] == [s[0]] + s[1..][..i];
        Some(i + 1)
  }

  /** The first occurrence is unique: any `c` with no `c` before it is the one `IndexOf` finds. */
  lemma IndexOfIsFirst(s: string, c: char, k: nat)
    requires k < |s| && s[k] == c && c !in s[..k]
    ensures IndexOf(s, c) == Some(k)
  {
    assert s[k] in s;
  }

  /** The parts with one `c` between neighbours: the inverse of `Split`. */
  function Join(parts: seq<string>, c: char): string
  {
    if |parts| == 0 then ""
    else if |parts| == 1 then parts[0]
    else parts[0] + [c] + Join(parts[1..], c)
  }

  /** A join ends with its last part, preceded by `c` when there are several parts. */
  lemma {:induction false} JoinLast(parts: seq<string>, c: char)
    requires |parts| >= 1
    ensures var s, last := Join(parts, c), parts[|parts| - 1];
      && |last| <= |s| && s[|s| - |last|..] == last
      && (|parts| == 1 || (|last| < |s| && s[|s| - |last| - 1] == c))
  {
    if |parts| > 1 {
      var s, last, rest := Join(parts, c), parts[|parts| - 1], Join(parts[1..], c);
      JoinLast(parts[1..], c);
      assert s == parts[0] + [c] + rest;
      assert s[|s| - |rest|..] == rest;
      assert rest[|rest| - |last|..] == last;
      if |parts| == 2 {
        assert s[|s| - |last| - 1] == c;
      } else {
        assert s[|s| - |last| - 1] == rest[|rest| - |last| - 1];
      }
    }
  }

  /** `s.split(c)`: the pieces between the occurrences of `c`; joining them gives `s` back. */
  function Split(s: string, c: char): (parts: seq<string>)
    ensures |parts| >= 1
    ensures forall k :: 0 <= k < |parts| ==> c !in parts[k]
    ensures parts[0] <= s
    ensures Join(parts, c) == s
    decreases |s|
  {
    match IndexOf(s, c)
    case None => [s]
    case Some(i) =>
      var rest := Split(s[i + 1..], c);
      assert s == s[..i] + [c] + s[i + 1..];
      [s[..i]] + rest
  }

  /** The other round trip: splitting a join of `c`-free parts gives the parts back. */
  lemma {:induction false} SplitOfJoin(parts: seq<string>, c: char)
    requires |parts| >= 1
    requires forall k :: 0 <= k < |parts| ==> c !in parts[k]
    ensures Split(Join(parts, c), c) == parts
  {
    if |parts| > 1 {
      var s := Join(parts, c);
      var n := |parts[0]|;
      assert s == parts[0] + [c] + Join(parts[1..], c);
      assert s[..n] == parts[0];
      IndexOfIsFirst(s, c, n);
      assert s[n + 1..] == Join(parts[1..], c);
      SplitOfJoin(parts[1..], c);
      assert parts == [parts[0]] + parts[1..];
    }
  }

  /** `os.path.basename(p)`: the text after the last `/`, or all of `p` when it has none. */
  function Basename(p: string): (b: string)
    ensures '/' !in b
    ensures |b| <= |p| && p[|p| - |b|..] == b
    ensures |b| == |p| || p[|p| - |b| - 1] == '/'
  {
    var parts := Split(p, '/');
    JoinLast(parts, '/');
    parts[|parts| - 1]
  }

  /** `os.path.basename(p).split(".")[0]`: the file name up to its first dot. */
  function Stem(p: string): (stem: string)
    ensures stem <= Basename(p)
    ensures '.' !in stem && '/' !in stem
    ensures stem == Basename(p) || (|stem| < |Basename(p)| && Basename(p)[|stem|] == '.')
  {
    var parts := Split(Basename(p), '.');
    var stem := parts[0];
    assert forall k :: 0 <= k < |stem| ==> stem[k] == Basename(p)[k];
    assert |parts| > 1 ==> Basename(p) == stem + ['.'] + Join(parts[1..], '.');
    stem
  }

  predicate IsDigits(s: string) {
    forall k :: 0 <= k < |s| ==> '0' <= s[k] <= '9'
  }

  function DigitChar(d: nat): (ch: char)
    requires d < 10
    ensures '0' <= ch <= '9'
  {
    ('0' as int + d) as char
  }

  function DigitValue(ch: char): (d: nat)
    requires '0' <= ch <= '9'
    ensures d < 10
  {
    ch as int - '0' as int
  }

  /** `str(n)` for a non-negative integer: its decimal digits. */
  function NatToString(n: nat): (s: string)
    ensures |s| >= 1 && IsDigits(s)
    ensures s[0] == '0' ==> n == 0
  {
    if n < 10 then [DigitChar(n)] else NatToString(n / 10) + [DigitChar(n % 10)]
  }

  /** The value of a string of decimal digits (Python's `int(s)`). */
  function DigitsValue(s: string): nat
    requires IsDigits(s)
  {
    if s == [] then 0 else DigitsValue(s[..|s| - 1]) * 10 + DigitValue(s[|s| - 1])
  }

  lemma {:induction false} DigitsValueOfNatToString(n: nat)
    ensures DigitsValue(NatToString(n)) == n
  {
    if n >= 10 {
      var s := NatToString(n);
      assert s[..|s| - 1] == NatToString(n / 10);
      DigitsValueOfNatToString(n / 10);
    }
  }

  /** Different numbers have different renderings. */
  lemma NatToStringInjective(i: nat, j: nat)
    requires NatToString(i) == NatToString(j)
    ensures i == j
  {
    DigitsValueOfNatToString(i);
    DigitsValueOfNatToString(j);
  }
}
