/** Python string operations used by the services: `str.strip`, `str.split`,
    `str.upper`/`str.lower` (ASCII letters only), `startswith`, `endswith`, `in`,
    and `str(int)`. */
module Text {

  /** The characters for which Python's `str.isspace()` holds. */
  predicate IsSpace(c: char) {
    || c == ' '
    || ('\t' <= c <= '\r')
    || ('\U{001C}' <= c <= '\U{001F}')
    || c == '\U{0085}' || c == '\U{00A0}' || c == '\U{1680}'
    || ('\U{2000}' <= c <= '\U{200A}')
    || c == '\U{2028}' || c == '\U{2029}' || c == '\U{202F}'
    || c == '\U{205F}' || c == '\U{3000}'
  }

  /** Drops the leading characters satisfying `drop`. */
  function TrimLeft(s: string, drop: char -> bool): (r: string)
    ensures |r| <= |s| && r == s[|s| - |r|..]
    ensures forall i :: 0 <= i < |s| - |r| ==> drop(s[i])
    ensures |r| > 0 ==> !drop(r[0])
  {
    if |s| > 0 && drop(s[0]) then TrimLeft(s[1..], drop) else s
  }

  /** Drops the trailing characters satisfying `drop`. */
  function TrimRight(s: string, drop: char -> bool): (r: string)
    ensures |r| <= |s| && r == s[..|r|]
    ensures forall i :: |r| <= i < |s| ==> drop(s[i])
    ensures |r| > 0 ==> !drop(r[|r| - 1])
  {
    if |s| > 0 && drop(s[|s| - 1]) then TrimRight(s[..|s| - 1], drop) else s
  }

  /** `s.strip(chars)`: both ends, every character of the set. */
  function StripBy(s: string, drop: char -> bool): string {
    TrimRight(TrimLeft(s, drop), drop)
  }

  /** `s.strip()` with no argument. */
  function Strip(s: string): string {
    StripBy(s, IsSpace)
  }

  lemma StripByShape(s: string, drop: char -> bool)
    ensures var r := StripBy(s, drop);
      |r| > 0 ==> !drop(r[0]) && !drop(r[|r| - 1])
  {
    var l := TrimLeft(s, drop);
    var r := TrimRight(l, drop);
    assert StripBy(s, drop) == r;
    if |r| > 0 {
      assert r == l[..|r|] && |l| > 0;
      assert r[0] == l[0];
      assert !drop(l[0]) && !drop(r[|r| - 1]);
    }
  }

  /** Stripping twice strips nothing more. */
  lemma StripByIdempotent(s: string, drop: char -> bool)
    ensures StripBy(StripBy(s, drop), drop) == StripBy(s, drop)
  {
    var r := StripBy(s, drop);
    StripByShape(s, drop);
    assert TrimLeft(r, drop) == r;
    assert TrimRight(r, drop) == r;
  }

  lemma StripIdempotent(s: string)
    ensures Strip(Strip(s)) == Strip(s)
  {
    StripByIdempotent(s, IsSpace);
  }

  /** The result of `strip()` neither starts nor ends with white space. */
  lemma StripEnds(s: string)
    ensures var r := Strip(s); |r| > 0 ==> !IsSpace(r[0]) && !IsSpace(r[|r| - 1])
  {
    StripByShape(s, IsSpace);
  }

  /** A string with no space at either end is its own `strip()`. */
  lemma StripUnchanged(s: string)
    requires |s| > 0 ==> !IsSpace(s[0]) && !IsSpace(s[|s| - 1])
    ensures Strip(s) == s
  {
    assert TrimLeft(s, IsSpace) == s;
    assert TrimRight(s, IsSpace) == s;
  }

  function UpperChar(c: char): char {
    if 'a' <= c <= 'z' then (c as int - 32) as char else c
  }

  function LowerChar(c: char): char {
    if 'A' <= c <= 'Z' then (c as int + 32) as char else c
  }

  /** `s.upper()`, restricted to the ASCII letters. */
  function Upper(s: string): (r: string)
    ensures |r| == |s|
    ensures forall i :: 0 <= i < |s| ==> r[i] == UpperChar(s[i])
  {
    seq(|s|, i requires 0 <= i < |s| => UpperChar(s[i]))
  }

  /** `s.lower()`, restricted to the ASCII letters. */
  function Lower(s: string): (r: string)
    ensures |r| == |s|
    ensures forall i :: 0 <= i < |s| ==> r[i] == LowerChar(s[i])
  {
    seq(|s|, i requires 0 <= i < |s| => LowerChar(s[i]))
  }

  lemma UpperIdempotent(s: string)
    ensures Upper(Upper(s)) == Upper(s)
  {
  }

  /** Upper-casing never turns a non-space into a space, so it commutes with `strip()`. */
  lemma UpperKeepsSpaces(c: char)
    ensures IsSpace(UpperChar(c)) <==> IsSpace(c)
  {
  }

  function StartsWith(s: string, p: string): bool {
    |p| <= |s| && s[..|p|] == p
  }

  function EndsWith(s: string, p: string): bool {
    |p| <= |s| && s[|s| - |p|..] == p
  }

  /** Python's `t in s` on strings. */
  function Contains(s: string, t: string): (b: bool)
    decreases |s|
  {
    StartsWith(s, t) || (|s| > 0 && Contains(s[1..], t))
  }

  lemma {:induction false} ContainsAt(s: string, t: string, k: nat)
    requires k + |t| <= |s| && s[k..k + |t|] == t
    ensures Contains(s, t)
  {
    if k > 0 {
      assert s[1..][k - 1..k - 1 + |t|] == t;
      ContainsAt(s[1..], t, k - 1);
    }
  }

  lemma {:induction false} ContainsWitness(s: string, t: string) returns (k: nat)
    requires Contains(s, t)
    ensures k + |t| <= |s| && s[k..k + |t|] == t
    decreases |s|
  {
    if StartsWith(s, t) {
      k := 0;
    } else {
      var k' := ContainsWitness(s[1..], t);
      k := k' + 1;
      assert s[k..k + |t|] == s[1..][k'..k' + |t|];
    }
  }

  /** A suffix is a substring. */
  lemma EndsWithContains(s: string, t: string)
    requires EndsWith(s, t)
    ensures Contains(s, t)
  {
    ContainsAt(s, t, |s| - |t|);
  }

  /** Python's `s.replace(a, b)` for one character by one character. */
  function ReplaceChar(s: string, a: char, b: char): (r: string)
    ensures |r| == |s|
    ensures forall i :: 0 <= i < |s| ==> r[i] == (if s[i] == a then b else s[i])
  {
    seq(|s|, i requires 0 <= i < |s| => if s[i] == a then b else s[i])
  }

  /** The pieces between the separator characters, empty pieces included:
      Python's `s.split(sep)` when `isSep` is one character. */
  function SplitWhere(s: string, isSep: char -> bool): (r: seq<string>)
    ensures |r| >= 1
    ensures forall k :: 0 <= k < |r| ==> forall i :: 0 <= i < |r[k]| ==> !isSep(r[k][i])
  {
    if s == [] then [""]
    else
      var rest := SplitWhere(s[1..], isSep);
      if isSep(s[0]) then [""] + rest
      else [[s[0]] + rest[0]] + rest[1..]
  }

  /** A piece free of separators splits to itself. */
  lemma {:induction false} SplitNone(a: string, sep: char)
    requires sep !in a
    ensures Split(a, sep) == [a]
  {
    if a != [] {
      SplitNone(a[1..], sep);
      assert [a[0]] + a[1..] == a;
    }
  }

  /** A leading piece free of separators, then a separator: the piece comes
      first, then the pieces of the rest. */
  lemma {:induction false} SplitFront(a: string, sep: char, rest: string)
    requires sep !in a
    ensures Split(a + [sep] + rest, sep) == [a] + Split(rest, sep)
  {
    var s := a + [sep] + rest;
    if a == [] {
      assert s[0] == sep && s[1..] == rest;
    } else {
      assert s[0] == a[0] && s[1..] == a[1..] + [sep] + rest;
      SplitFront(a[1..], sep, rest);
      assert [a[0]] + a[1..] == a;
    }
  }

  lemma {:induction false} SplitWhereNoSep(a: string, isSep: char -> bool)
    requires forall i :: 0 <= i < |a| ==> !isSep(a[i])
    ensures SplitWhere(a, isSep) == [a]
  {
    if a != [] {
      SplitWhereNoSep(a[1..], isSep);
      assert [a[0]] + a[1..] == a;
    }
  }

  lemma {:induction false} SplitWhereFront(a: string, c: char, rest: string, isSep: char -> bool)
    requires isSep(c)
    requires forall i :: 0 <= i < |a| ==> !isSep(a[i])
    ensures SplitWhere(a + [c] + rest, isSep) == [a] + SplitWhere(rest, isSep)
  {
    var s := a + [c] + rest;
    if a == [] {
      assert s[0] == c && s[1..] == rest;
    } else {
      assert s[0] == a[0] && s[1..] == a[1..] + [c] + rest;
      SplitWhereFront(a[1..], c, rest, isSep);
      assert [a[0]] + a[1..] == a;
    }
  }

  /** A character absent from the text is absent from every piece. */
  lemma {:induction false} SplitWhereKeepsOut(s: string, isSep: char -> bool, c: char)
    requires c !in s
    ensures forall k :: 0 <= k < |SplitWhere(s, isSep)| ==> c !in SplitWhere(s, isSep)[k]
  {
    if s != [] {
      SplitWhereKeepsOut(s[1..], isSep, c);
      var rest := SplitWhere(s[1..], isSep);
      if !isSep(s[0]) {
        assert c !in [s[0]] + rest[0];
      }
    }
  }

  /** A word, then a space: the word comes first, then the words of the rest. */
  lemma WordsFront(a: string, c: char, rest: string)
    requires a != [] && IsSpace(c)
    requires forall i :: 0 <= i < |a| ==> !IsSpace(a[i])
    ensures Words(a + [c] + rest) == [a] + Words(rest)
  {
    SplitWhereFront(a, c, rest, IsSpace);
    var x := SplitWhere(rest, IsSpace);
    assert ([a] + x)[1..] == x;
  }

  /** A non-empty text with no space is one word. */
  lemma WordsOne(a: string)
    requires a != []
    requires forall i :: 0 <= i < |a| ==> !IsSpace(a[i])
    ensures Words(a) == [a]
  {
    SplitWhereNoSep(a, IsSpace);
    assert [a][1..] == [];
  }

  /** Stripping adds no character. */
  lemma StripKeepsOut(s: string, c: char)
    requires c !in s
    ensures c !in Strip(s)
  {
    var l := TrimLeft(s, IsSpace);
    var r := TrimRight(l, IsSpace);
    forall i | 0 <= i < |r|
      ensures r[i] != c
    {
      assert r[i] == l[i] == s[|s| - |l| + i];
    }
  }

  /** `strip(chars)` removes one stripped character on each side of a text
      whose own ends are kept. */
  lemma StripByWrapped(x: string, l: char, r: char, drop: char -> bool)
    requires drop(l) && drop(r)
    requires |x| > 0 && !drop(x[0]) && !drop(x[|x| - 1])
    ensures StripBy([l] + x + [r], drop) == x
  {
    var s := [l] + x + [r];
    assert s[1..] == x + [r];
    assert TrimLeft(x + [r], drop) == x + [r];
    assert (x + [r])[..|x|] == x;
    assert TrimRight(x, drop) == x;
  }

  /** A stripped, non-empty text after one leading space strips back to itself. */
  lemma StripAfterSpace(b: string)
    requires |b| > 0 && Strip(b) == b
    ensures Strip([' '] + b) == b
  {
    StripEnds(b);
    assert ([' '] + b)[1..] == b;
    assert TrimLeft(b, IsSpace) == b;
    assert TrimRight(b, IsSpace) == b;
  }

  /** Python's `s.split(sep)`. */
  function Split(s: string, sep: char): seq<string> {
    SplitWhere(s, c => c == sep)
  }

  function NonEmpty(r: seq<string>): (w: seq<string>)
    ensures |w| <= |r|
    ensures forall k :: 0 <= k < |w| ==> w[k] != [] && w[k] in r
    ensures forall k :: 0 <= k < |r| && r[k] != [] ==> r[k] in w
  {
    if r == [] then []
    else if r[0] == [] then NonEmpty(r[1..])
    else [r[0]] + NonEmpty(r[1..])
  }

  /** Python's `s.split()`: the maximal runs of non-space characters. */
  function Words(s: string): (w: seq<string>)
    ensures forall k :: 0 <= k < |w| ==> w[k] != [] && forall i :: 0 <= i < |w[k]| ==> !IsSpace(w[k][i])
  {
    NonEmpty(SplitWhere(s, IsSpace))
  }

  predicate IsDigit(c: char) {
    '0' <= c <= '9'
  }

  function DigitValue(c: char): nat
    requires IsDigit(c)
  {
    c as int - '0' as int
  }

  /** The number a non-empty run of ASCII digits denotes. */
  function DigitsValue(d: string): nat
    requires forall i :: 0 <= i < |d| ==> IsDigit(d[i])
  {
    if d == [] then 0 else DigitsValue(d[..|d| - 1]) * 10 + DigitValue(d[|d| - 1])
  }

  /** `str(n)` for a natural number. */
  function NatToDecimal(n: nat): (d: string)
    ensures |d| > 0
    ensures forall i :: 0 <= i < |d| ==> IsDigit(d[i])
    ensures DigitsValue(d) == n
  {
    var last := ['0' + (n % 10) as char];
    if n < 10 then last
    else
      var front := NatToDecimal(n / 10);
      var d := front + last;
      assert d[..|d| - 1] == front;
      d
  }

  /** `str(i)` for an integer. */
  function IntToDecimal(i: int): string {
    if i < 0 then "-" + NatToDecimal(-i) else NatToDecimal(i)
  }
}
