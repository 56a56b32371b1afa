/** The string operations of the Rust standard library that the source relies on.
    A `char` is one Unicode scalar value, exactly as in Rust. */
module Text {
  import opened Wrappers

  /** Unicode White_Space, the set that `str::trim` removes. */
  predicate IsSpace(c: char) {
    || '\U{9}' <= c <= '\U{D}'
    || c == ' '
    || c == '\U{85}'
    || c == '\U{A0}'
    || c == '\U{1680}'
    || '\U{2000}' <= c <= '\U{200A}'
    || c == '\U{2028}'
    || c == '\U{2029}'
    || c == '\U{202F}'
    || c == '\U{205F}'
    || c == '\U{3000}'
  }

  predicate AllSpace(s: string) {
    forall i :: 0 <= i < |s| ==> IsSpace(s[i])
  }

  /** A non-empty string that `Trim` leaves alone. */
  predicate Tight(s: string) {
    s != [] && !IsSpace(s[0]) && !IsSpace(s[|s| - 1])
  }

  predicate Free(s: string, c: char) {
    forall i :: 0 <= i < |s| ==> s[i] != c
  }

  function TrimStart(s: string): (r: string)
    ensures |r| <= |s|
  {
    if s != [] && IsSpace(s[0]) then TrimStart(s[1..]) else s
  }

  function TrimEnd(s: string): (r: string)
    ensures |r| <= |s|
  {
    if s != [] && IsSpace(s[|s| - 1]) then TrimEnd(s[..|s| - 1]) else s
  }

  function Trim(s: string): (r: string)
    ensures |r| <= |s|
  {
    TrimEnd(TrimStart(s))
  }

  predicate StartsWith(s: string, prefix: string) {
    |prefix| <= |s| && s[..|prefix|] == prefix
  }

  predicate OccursAt(s: string, part: string, i: nat) {
    i + |part| <= |s| && s[i..i + |part|] == part
  }

  predicate Contains(s: string, part: string) {
    exists i | 0 <= i <= |s| :: OccursAt(s, part, i)
  }

  /** `trim_start_matches` with a string pattern: strips every leading copy. */
  function TrimStartMatches(s: string, prefix: string): string
    requires prefix != []
    decreases |s|
  {
    if StartsWith(s, prefix) then TrimStartMatches(s[|prefix|..], prefix) else s
  }

  lemma {:induction false} TrimStartPadded(l: string, s: string)
    requires AllSpace(l)
    requires s == [] || !IsSpace(s[0])
    ensures TrimStart(l + s) == s
  {
    if l == [] {
      assert l + s == s;
    } else {
      assert (l + s)[1..] == l[1..] + s;
      TrimStartPadded(l[1..], s);
    }
  }

  lemma {:induction false} TrimEndPadded(s: string, r: string)
    requires AllSpace(r)
    requires s == [] || !IsSpace(s[|s| - 1])
    ensures TrimEnd(s + r) == s
  {
    if r == [] {
      assert s + r == s;
    } else {
      assert (s + r)[..|s + r| - 1] == s + r[..|r| - 1];
      TrimEndPadded(s, r[..|r| - 1]);
    }
  }

  lemma TrimPadded(l: string, s: string, r: string)
    requires AllSpace(l) && AllSpace(r) && Tight(s)
    ensures Trim(l + s + r) == s
  {
    assert l + s + r == l + (s + r);
    TrimStartPadded(l, s + r);
    TrimEndPadded(s, r);
  }

  lemma TrimBlank(s: string)
    requires AllSpace(s)
    ensures Trim(s) == []
  {
    TrimStartPadded(s, []);
    assert s + [] == s;
  }

  // ---------- splitting and numbers ----------

  function FirstIndex(s: string, c: char): (i: nat)
    requires !Free(s, c)
    ensures i < |s| && s[i] == c && Free(s[..i], c)
  {
    if s[0] == c then 0
    else
      assert s[1..][0..] == s[1..];
      assert !Free(s[1..], c) by {
        var k :| 0 <= k < |s| && s[k] == c;
        assert s[1..][k - 1] == c;
      }
      1 + FirstIndex(s[1..], c)
  }

  /** The pieces between the separators, at least one. */
  function Split(s: string, c: char): (pieces: seq<string>)
    ensures |pieces| >= 1
    ensures forall k :: 0 <= k < |pieces| ==> Free(pieces[k], c)
  {
    if Free(s, c) then [s]
    else
      var i := FirstIndex(s, c);
      [s[..i]] + Split(s[i + 1..], c)
  }

  lemma SplitStep(p: string, c: char, rest: string)
    requires Free(p, c)
    ensures Split(p + [c] + rest, c) == [p] + Split(rest, c)
  {
    var s := p + [c] + rest;
    assert s[|p|] == c;
    var i := FirstIndex(s, c);
    assert s[..|p|] == p;
    assert forall k :: 0 <= k < |p| ==> s[k] == p[k] != c;
    assert s[..i] == p && s[i + 1..] == rest;
  }

  predicate IsDigit(c: char) {
    '0' <= c <= '9'
  }

  function DigitValue(c: char): nat
    requires IsDigit(c)
  {
    c as int - '0' as int
  }

  predicate AllDigits(s: string) {
    forall i :: 0 <= i < |s| ==> IsDigit(s[i])
  }

  function NumberOf(s: string): nat
    requires AllDigits(s)
  {
    if s == [] then 0 else 10 * NumberOf(s[..|s| - 1]) + DigitValue(s[|s| - 1])
  }

  /** `str::parse` for an integer type with bounds lo..hi; a minus sign is read only by
      signed types. */
  function ParseInt(s: string, lo: int, hi: int): Option<int> {
    var negative := lo < 0 && s != [] && s[0] == '-';
    var digits := if s != [] && (negative || s[0] == '+') then s[1..] else s;
    if digits == [] || !AllDigits(digits) then None
    else
      var n: int := if negative then 0 - NumberOf(digits) else NumberOf(digits);
      if lo <= n <= hi then Some(n) else None
  }

  function Power10(n: nat): nat {
    if n == 0 then 1 else 10 * Power10(n - 1)
  }

  lemma {:induction false} NumberBelowPower(s: string)
    requires AllDigits(s)
    ensures NumberOf(s) < Power10(|s|)
  {
    if s != [] {
      NumberBelowPower(s[..|s| - 1]);
    }
  }

  lemma Power10Monotone(m: nat, n: nat)
    requires m <= n
    ensures Power10(m) <= Power10(n)
  {
  }

  // ---------- printing numbers ----------

  function DigitChar(n: nat): char
    requires n < 10
  {
    '0' + n as char
  }

  function Decimal(n: nat): string {
    if n < 10 then [DigitChar(n)] else Decimal(n / 10) + [DigitChar(n % 10)]
  }

  function IntText(i: int): string {
    if i < 0 then "-" + Decimal(-i) else Decimal(i)
  }

  lemma {:induction false} DecimalReadsBack(n: nat)
    ensures Decimal(n) != [] && AllDigits(Decimal(n)) && NumberOf(Decimal(n)) == n
  {
    if n >= 10 {
      DecimalReadsBack(n / 10);
      assert Decimal(n)[..|Decimal(n)| - 1] == Decimal(n / 10);
    } else {
      assert Decimal(n)[..0] == [];
    }
  }

  /** Printing an integer and parsing it back gives the integer, unless it is out of range. */
  lemma ParseIntText(i: int, lo: int, hi: int)
    requires lo < 0
    ensures ParseInt(IntText(i), lo, hi) == if lo <= i <= hi then Some(i) else None
  {
    var digits := Decimal(if i < 0 then -i else i);
    DecimalReadsBack(if i < 0 then -i else i);
    assert IsDigit(digits[0]);
    if i < 0 {
      assert IntText(i)[1..] == digits;
    }
  }

  lemma TrimTight(s: string)
    requires Tight(s)
    ensures Trim(s) == s
  {
    TrimPadded([], s, []);
    assert [] + s + [] == s;
  }

  // ---------- names apart from the space around them ----------

  /** The same name, with any space around it on either side. */
  ghost predicate SameName(a: string, b: string) {
    exists name: string, l: string, r: string, l': string, r': string ::
      Tight(name) && Surrounds(a, l, name, r) && Surrounds(b, l', name, r')
  }

  predicate Surrounds(s: string, l: string, name: string, r: string) {
    AllSpace(l) && AllSpace(r) && s == l + name + r
  }

  lemma {:induction false} TrimStartLeaves(s: string) returns (l: string)
    ensures AllSpace(l) && s == l + TrimStart(s)
    ensures TrimStart(s) == [] || !IsSpace(TrimStart(s)[0])
  {
    hide IsSpace;
    if s != [] && IsSpace(s[0]) {
      var rest := TrimStartLeaves(s[1..]);
      l := [s[0]] + rest;
      assert s == [s[0]] + s[1..];
    } else {
      l := [];
    }
  }

  lemma {:induction false} TrimEndLeaves(s: string) returns (r: string)
    ensures AllSpace(r) && s == TrimEnd(s) + r
    ensures TrimEnd(s) == [] || !IsSpace(TrimEnd(s)[|TrimEnd(s)| - 1])
  {
    hide IsSpace;
    if s != [] && IsSpace(s[|s| - 1]) {
      var rest := TrimEndLeaves(s[..|s| - 1]);
      r := rest + [s[|s| - 1]];
      assert s == s[..|s| - 1] + [s[|s| - 1]];
    } else {
      r := [];
    }
  }

  /** What trimming takes off is space, and what it leaves is tight or nothing. */
  lemma TrimLeaves(s: string) returns (l: string, r: string)
    ensures Surrounds(s, l, Trim(s), r)
    ensures Trim(s) == [] || Tight(Trim(s))
  {
    l := TrimStartLeaves(s);
    r := TrimEndLeaves(TrimStart(s));
    var m := TrimStart(s);
    assert s == l + (Trim(s) + r);
    if Trim(s) != [] {
      assert Trim(s)[0] == m[0];
    }
  }

  /** Two strings trim to one name exactly if they are that name with space around it. */
  lemma TrimmingFindsNames(a: string, b: string)
    ensures SameName(a, b) <==> Trim(a) != [] && Trim(a) == Trim(b)
  {
    hide Trim, Surrounds;
    if SameName(a, b) {
      var name: string, l: string, r: string, l': string, r': string :|
        Tight(name) && Surrounds(a, l, name, r) && Surrounds(b, l', name, r');
      TrimSurrounded(a, l, name, r);
      TrimSurrounded(b, l', name, r');
    }
    if Trim(a) != [] && Trim(a) == Trim(b) {
      var l, r := TrimLeaves(a);
      var l', r' := TrimLeaves(b);
    }
  }

  lemma TrimSurrounded(s: string, l: string, name: string, r: string)
    requires Tight(name) && Surrounds(s, l, name, r)
    ensures Trim(s) == name
  {
    TrimPadded(l, name, r);
  }

  // ---------- numbers of a fixed width ----------

  /** The last `width` digits of a number, leading zeros included. */
  function Digits(n: nat, width: nat): string {
    if width == 0 then [] else Digits(n / 10, width - 1) + [DigitChar(n % 10)]
  }

  lemma {:induction false} DigitsReadBack(n: nat, width: nat)
    requires n < Power10(width)
    ensures |Digits(n, width)| == width && AllDigits(Digits(n, width)) && NumberOf(Digits(n, width)) == n
  {
    if width > 0 {
      var s, front := Digits(n, width), Digits(n / 10, width - 1);
      DigitsReadBack(n / 10, width - 1);
      assert s[..|s| - 1] == front && s[|s| - 1] == DigitChar(n % 10);
    }
  }

  /** Leading zeros and a plus sign make no difference to the reader. */
  lemma ParsePaddedInt(n: nat, width: nat, lo: int, hi: int)
    requires 0 < width && n < Power10(width)
    ensures ParseInt(Digits(n, width), lo, hi) == if lo <= n <= hi then Some(n) else None
    ensures ParseInt("+" + Digits(n, width), lo, hi) == if lo <= n <= hi then Some(n) else None
  {
    DigitsReadBack(n, width);
    var s := Digits(n, width);
    assert IsDigit(s[0]);
    assert ("+" + s)[1..] == s;
  }

  /** Some of what counts as space, and some that does not. */
  lemma SpaceIsWhiteSpace()
    ensures IsSpace(' ') && IsSpace('\t') && IsSpace('\n') && IsSpace('\r') && IsSpace('\U{A0}') && IsSpace('\U{3000}')
    ensures !IsSpace('a') && !IsSpace('\U{200B}') && !IsSpace('\U{FEFF}')
  {
  }
}
