/** String helpers with the JavaScript semantics the copier relies on:
    decimal rendering (`String(n)`), `padStart`, `trim` and `includes`. */
module Text {

  // ---------------------------------------------------------------------
  // Decimal rendering, as `String(n)` renders a non-negative integer
  // ---------------------------------------------------------------------

  predicate IsDigitChar(c: char) {
    '0' <= c <= '9'
  }

  predicate AllDigits(s: string) {
    forall i :: 0 <= i < |s| ==> IsDigitChar(s[i])
  }

  lemma AllDigitsConcat(a: string, b: string)
    requires AllDigits(a) && AllDigits(b)
    ensures AllDigits(a + b)
  {
  }

  lemma AllDigitsConcat3(a: string, b: string, e: string)
    requires AllDigits(a) && AllDigits(b) && AllDigits(e)
    ensures AllDigits(a + b + e)
  {
    AllDigitsConcat(a, b);
    AllDigitsConcat(a + b, e);
  }

  function DigitChar(d: nat): (c: char)
    requires d < 10
    ensures IsDigitChar(c) && c as int - '0' as int == d
  {
    ('0' as int + d) as char
  }

  /** The decimal digits of `n`, most significant first, without leading zeros. */
  function NatToString(n: nat): (r: string)
    ensures |r| >= 1 && AllDigits(r)
    ensures |r| > 1 ==> r[0] != '0'
  {
    if n < 10 then [DigitChar(n)] else NatToString(n / 10) + [DigitChar(n % 10)]
  }


  /** The value of a string of decimal digits (the inverse of NatToString). */
  function DecimalValue(s: string): int {
    if |s| == 0 then 0
    else DecimalValue(s[..|s| - 1]) * 10 + (s[|s| - 1] as int - '0' as int)
  }

  lemma {:induction false} DecimalRoundTrip(n: nat)
    ensures DecimalValue(NatToString(n)) == n
  {
    var r := NatToString(n);
    if n >= 10 {
      DecimalRoundTrip(n / 10);
      assert r[..|r| - 1] == NatToString(n / 10);
    }
  }

  /** Distinct numbers render to distinct strings. */
  lemma NatToStringInjective(m: nat, n: nat)
    requires m != n
    ensures NatToString(m) != NatToString(n)
  {
    DecimalRoundTrip(m);
    DecimalRoundTrip(n);
  }

  /** `String(i)` for an integer of either sign: the decimal digits of `i`, or
      a minus sign followed by the digits of its magnitude. */
  function IntToString(i: int): (r: string)
    ensures |r| >= 1
    ensures i >= 0 ==> AllDigits(r) && DecimalValue(r) == i
    ensures i < 0 ==> |r| >= 2 && r[0] == '-' && AllDigits(r[1..]) && DecimalValue(r[1..]) == -i
  {
    if i < 0 then
      var d := NatToString(-i);
      DecimalRoundTrip(-i);
      assert ("-" + d)[1..] == d;
      "-" + d
    else
      DecimalRoundTrip(i);
      NatToString(i)
  }

  /** The value of an optionally signed decimal numeral (the inverse of IntToString). */
  function IntValue(s: string): int {
    if |s| > 0 && s[0] == '-' then -DecimalValue(s[1..]) else DecimalValue(s)
  }

  lemma IntRoundTrip(i: int)
    ensures IntValue(IntToString(i)) == i
  {
  }

  /** Distinct integers render to distinct strings. */
  lemma IntToStringInjective(i: int, j: int)
    requires i != j
    ensures IntToString(i) != IntToString(j)
  {
    IntRoundTrip(i);
    IntRoundTrip(j);
  }

  /** Only digits and minus signs. */
  predicate NumeralChars(s: string) {
    forall k :: 0 <= k < |s| ==> IsDigitChar(s[k]) || s[k] == '-'
  }

  /** A rendered integer holds only digits and the minus sign. */
  lemma IntToStringChars(i: int)
    ensures NumeralChars(IntToString(i))
  {
    var r := IntToString(i);
    if i < 0 {
      forall k | 1 <= k < |r| ensures IsDigitChar(r[k]) {
        assert r[k] == r[1..][k - 1];
      }
    }
  }

  /** A numeral followed by `)` can be read off unambiguously: it ends at the first `)`. */
  lemma NumeralEndsAtParen(r1: string, u1: string, r2: string, u2: string)
    requires NumeralChars(r1) && NumeralChars(r2)
    requires |u1| > 0 && u1[0] == ')' && |u2| > 0 && u2[0] == ')'
    requires r1 + u1 == r2 + u2
    ensures r1 == r2
  {
    var t := r1 + u1;
    assert forall k :: 0 <= k < |r1| ==> t[k] == r1[k];
    assert forall k :: 0 <= k < |r2| ==> t[k] == r2[k];
    assert t[|r1|] == ')' && t[|r2|] == ')';
    assert r1 == t[..|r1|];
    assert r2 == t[..|r2|];
  }

  /** One and two digit numbers render to one and two characters. */
  lemma NatToStringShort(n: nat)
    requires n < 100
    ensures n < 10 ==> |NatToString(n)| == 1
    ensures 10 <= n ==> |NatToString(n)| == 2
  {
    if 10 <= n {
      assert |NatToString(n / 10)| == 1;
    }
  }

  // ---------------------------------------------------------------------
  // String.prototype.padStart with a one-character fill
  // ---------------------------------------------------------------------

  function Repeat(c: char, k: nat): (r: string)
    ensures |r| == k && forall i :: 0 <= i < k ==> r[i] == c
  {
    if k == 0 then [] else [c] + Repeat(c, k - 1)
  }

  /** `s.padStart(width, fill)`: `s` preceded by as many `fill` as are needed to reach `width`. */
  function PadStart(s: string, width: nat, fill: char): (r: string)
    ensures |r| == if |s| >= width then |s| else width
  {
    if |s| >= width then s else Repeat(fill, width - |s|) + s
  }

  /** `String(n).padStart(2, '0')`. */
  function TwoDigits(n: nat): string {
    PadStart(NatToString(n), 2, '0')
  }

  lemma TwoDigitsValue(n: nat)
    requires n < 100
    ensures |TwoDigits(n)| == 2 && AllDigits(TwoDigits(n))
    ensures DecimalValue(TwoDigits(n)) == n
  {
    NatToStringShort(n);
    DecimalRoundTrip(n);
    var t := TwoDigits(n);
    if n < 10 {
      assert t == ['0', DigitChar(n)];
      assert t[..1] == ['0'];
    } else {
      assert t == NatToString(n);
    }
  }

  // ---------------------------------------------------------------------
  // String.prototype.trim
  // ---------------------------------------------------------------------

  /** The JavaScript WhiteSpace and LineTerminator characters that `trim` removes. */
  predicate IsJsSpace(c: char) {
    c == '\t' || c == '\n' || c == '\U{000B}' || c == '\U{000C}' || c == '\r' || c == ' '
    || c == '\U{00A0}' || c == '\U{1680}' || ('\U{2000}' <= c <= '\U{200A}')
    || c == '\U{2028}' || c == '\U{2029}' || c == '\U{202F}' || c == '\U{205F}'
    || c == '\U{3000}' || c == '\U{FEFF}'
  }

  predicate AllSpace(s: string) {
    forall i :: 0 <= i < |s| ==> IsJsSpace(s[i])
  }

  /** How many white-space characters `s` begins with. */
  function LeadingSpaces(s: string): (k: nat)
    ensures k <= |s| && AllSpace(s[..k])
    ensures k < |s| ==> !IsJsSpace(s[k])
  {
    if |s| > 0 && IsJsSpace(s[0]) then
      var k := LeadingSpaces(s[1..]);
      assert s[..1 + k] == [s[0]] + s[1..][..k];
      1 + k
    else 0
  }

  /** Where the content of `s` ends: its length without the trailing white space. */
  function ContentEnd(s: string): (k: nat)
    ensures k <= |s| && AllSpace(s[k..])
    ensures k > 0 ==> !IsJsSpace(s[k - 1])
  {
    if |s| > 0 && IsJsSpace(s[|s| - 1]) then
      var k := ContentEnd(s[..|s| - 1]);
      assert s[k..] == s[..|s| - 1][k..] + [s[|s| - 1]];
      k
    else |s|
  }

  /** `s` without its leading white space. */
  function TrimStart(s: string): string {
    s[LeadingSpaces(s)..]
  }

  /** `s` without its trailing white space. */
  function TrimEnd(s: string): string {
    s[..ContentEnd(s)]
  }

  function Trim(s: string): string {
    TrimEnd(TrimStart(s))
  }

  /** `trim` keeps a contiguous piece `s[i..j]` with only white space around it and none at its ends. */
  lemma TrimShape(s: string)
    ensures exists i, j :: 0 <= i <= j <= |s| && Trim(s) == s[i..j]
                           && AllSpace(s[..i]) && AllSpace(s[j..])
    ensures Trim(s) != [] ==> !IsJsSpace(Trim(s)[0]) && !IsJsSpace(Trim(s)[|Trim(s)| - 1])
  {
    var i := LeadingSpaces(s);
    var t := s[i..];
    var m := ContentEnd(t);
    var j := i + m;
    assert Trim(s) == t[..m] == s[i..j];
    assert s[j..] == t[m..];
  }

  /** `trim` yields the empty string exactly when every character is white space. */
  lemma TrimEmptyIff(s: string)
    ensures Trim(s) == [] <==> AllSpace(s)
  {
    var i := LeadingSpaces(s);
    var t := s[i..];
    if Trim(s) == [] {
      assert ContentEnd(t) == 0 && t[0..] == t;
      assert s == s[..i] + t;
    } else {
      assert i < |s| && !IsJsSpace(s[i]);
    }
  }

  /** Trimming twice is trimming once. */
  lemma TrimIdempotent(s: string)
    ensures Trim(Trim(s)) == Trim(s)
  {
    TrimShape(s);
    var r := Trim(s);
    if r != [] {
      assert LeadingSpaces(r) == 0 && TrimStart(r) == r;
    }
  }

  // ---------------------------------------------------------------------
  // s.split('\n').pop(): the last line of a text
  // ---------------------------------------------------------------------

  predicate NoNewline(s: string) {
    forall i :: 0 <= i < |s| ==> s[i] != '\n'
  }

  /** Where the last line of `s` starts: just after its last line feed, or at 0. */
  function LastLineStart(s: string): (k: nat)
    ensures k <= |s| && NoNewline(s[k..])
    ensures k > 0 ==> s[k - 1] == '\n'
  {
    if |s| > 0 && s[|s| - 1] != '\n' then
      var k := LastLineStart(s[..|s| - 1]);
      assert s[k..] == s[..|s| - 1][k..] + [s[|s| - 1]];
      k
    else |s|
  }

  /** `s.split('\n').pop()`: the last of the pieces between line feeds. */
  function LastLine(s: string): string {
    s[LastLineStart(s)..]
  }

  /** The last line is a suffix of `s` that holds no line feed and is either
      all of `s` or preceded by a line feed, which is the last piece `split` makes. */
  lemma LastLineShape(s: string)
    ensures var r := LastLine(s);
      && |r| <= |s| && r == s[|s| - |r|..] && NoNewline(r)
      && (|r| < |s| ==> s[|s| - |r| - 1] == '\n')
  {
  }

  /** A text without line feeds is its own last line. */
  lemma {:induction false} LastLineOfOneLine(s: string)
    requires NoNewline(s)
    ensures LastLineStart(s) == 0 && LastLine(s) == s
  {
    if |s| > 0 {
      var init := s[..|s| - 1];
      assert NoNewline(init) && s[|s| - 1] != '\n';
      LastLineOfOneLine(init);
    }
  }

  // ---------------------------------------------------------------------
  // String.prototype.includes
  // ---------------------------------------------------------------------

  /** `pat` occurs in `s` starting at position `i`. */
  ghost predicate OccursAt(s: string, pat: string, i: int) {
    0 <= i && i + |pat| <= |s| && s[i..i + |pat|] == pat
  }

  /** `s.includes(pat)`. */
  function Contains(s: string, pat: string): bool
    decreases |s|
  {
    |pat| <= |s| && (s[..|pat|] == pat || Contains(s[1..], pat))
  }

  /** `includes` holds exactly when `pat` occurs somewhere in `s`. */
  lemma {:induction false} ContainsIff(s: string, pat: string)
    ensures Contains(s, pat) <==> exists i :: OccursAt(s, pat, i)
    decreases |s|
  {
    if |pat| <= |s| {
      if s[..|pat|] == pat {
        assert OccursAt(s, pat, 0);
      } else {
        ContainsIff(s[1..], pat);
        if Contains(s[1..], pat) {
          var i :| OccursAt(s[1..], pat, i);
          assert s[i + 1..i + 1 + |pat|] == s[1..][i..i + |pat|];
          assert OccursAt(s, pat, i + 1);
        }
        if exists i :: OccursAt(s, pat, i) {
          var i :| OccursAt(s, pat, i);
          assert i != 0;
          assert s[1..][i - 1..i - 1 + |pat|] == s[i..i + |pat|];
          assert OccursAt(s[1..], pat, i - 1);
        }
      }
    }
  }
}
