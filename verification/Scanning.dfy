/** Text scanning as the RNDF reader uses it, and decimal printing. */
module Scanning {
  import opened WayPoints

  predicate IsSpace(c: char) { c == ' ' || c == '\t' || c == '\n' || c == '\r' || c == 11 as char || c == 12 as char }

  predicate IsDigit(c: char) { '0' <= c <= '9' }

  function DigitValue(c: char): nat
    requires IsDigit(c)
  {
    c as int - '0' as int
  }

  function SkipSpace(s: string): (r: string)
    ensures |r| <= |s|
  {
    if s != "" && IsSpace(s[0]) then SkipSpace(s[1..]) else s
  }

  /** How many characters precede the first space. */
  function WordLength(s: string): (n: nat)
    ensures n <= |s|
  {
    if s == "" || IsSpace(s[0]) then 0 else 1 + WordLength(s[1..])
  }

  function DigitCount(s: string): (n: nat)
    ensures n <= |s| && forall i :: 0 <= i < n ==> IsDigit(s[i])
  {
    if s == "" || !IsDigit(s[0]) then 0 else 1 + DigitCount(s[1..])
  }

  /** The word that "%s" reads, empty at the end of the line. */
  function FirstWord(s: string): string {
    var t := SkipSpace(s);
    t[..WordLength(t)]
  }

  /** What "%*s" leaves. */
  function AfterWord(s: string): string {
    var t := SkipSpace(s);
    t[WordLength(t)..]
  }

  function DigitsValue(s: string): nat
    requires forall i :: 0 <= i < |s| ==> IsDigit(s[i])
  {
    if s == "" then 0 else 10 * DigitsValue(s[..|s| - 1]) + DigitValue(s[|s| - 1])
  }

  datatype Scanned<T> = NoMatch | Match(value: T, rest: string)

  predicate Signed(s: string) { s != "" && (s[0] == '-' || s[0] == '+') }

  /** "%d" */
  function ScanInt(s: string): Scanned<int> {
    var t := SkipSpace(s);
    var u := if Signed(t) then t[1..] else t;
    var n := DigitCount(u);
    if n == 0 then NoMatch
    else
      var v: int := DigitsValue(u[..n]);
      Match(if Signed(t) && t[0] == '-' then -v else v, u[n..])
  }

  /** Digits with an optional point somewhere among them: how many characters they take. */
  function MantissaLength(s: string): (n: nat)
    ensures n <= |s|
  {
    var a := DigitCount(s);
    if a < |s| && s[a] == '.' then
      var b := DigitCount(s[a + 1..]);
      if a + b == 0 then 0 else a + 1 + b
    else a
  }

  /** Length of an exponent part; none if its digits are missing. */
  function ExponentLength(s: string): (r: Option<nat>)
    ensures r.Some? ==> r.value <= |s|
  {
    if s == "" || (s[0] != 'e' && s[0] != 'E') then Some(0)
    else
      var sign := if Signed(s[1..]) then 1 else 0;
      var n := DigitCount(s[1 + sign..]);
      if n == 0 then None else Some(1 + sign + n)
  }

  /** How many characters a number without a sign takes. */
  function NumberLength(s: string): (r: Option<nat>)
    ensures r.Some? ==> r.value <= |s|
  {
    var m := MantissaLength(s);
    if m == 0 then None
    else
      var e := ExponentLength(s[m..]);
      if e.Some? then Some(m + e.value) else None
  }

  /** "%lf", kept as the text that was read. */
  function ScanReal(s: string): Scanned<string> {
    var t := SkipSpace(s);
    var sign := if Signed(t) then 1 else 0;
    var n := NumberLength(t[sign..]);
    if n.None? then NoMatch else Match(t[..sign + n.value], t[sign + n.value..])
  }

  /** Literal text of a format. */
  function ScanText(text: string, s: string): Scanned<()> {
    if text <= s then Match((), s[|text|..]) else NoMatch
  }

  // ---------------------------------------------------------------- searching

  predicate OccursAt(s: string, t: string, i: nat) { i + |t| <= |s| && s[i..][..|t|] == t }

  predicate Contains(s: string, t: string) { exists i: nat | i <= |s| :: OccursAt(s, t, i) }

  /** Nothing but spaces, tabs and carriage returns. */
  predicate Blank(s: string) { forall i :: 0 <= i < |s| ==> s[i] == ' ' || s[i] == '\t' || s[i] == '\r' }

  // ---------------------------------------------------------------- printing

  function DigitChar(d: nat): (c: char)
    requires d < 10
    ensures IsDigit(c) && DigitValue(c) == d
  {
    ('0' as int + d) as char
  }

  function Decimal(n: nat): (s: string)
    ensures s != "" && forall i :: 0 <= i < |s| ==> IsDigit(s[i])
  {
    if n < 10 then [DigitChar(n)] else Decimal(n / 10) + [DigitChar(n % 10)]
  }

  /** "%d" in a printed format. */
  function Print(z: int): string { if z < 0 then "-" + Decimal(-z) else Decimal(z) }

  lemma {:induction false} DecimalRoundTrip(n: nat)
    ensures DigitsValue(Decimal(n)) == n
  {
    if n >= 10 {
      DecimalRoundTrip(n / 10);
      var s := Decimal(n);
      assert s[..|s| - 1] == Decimal(n / 10);
    } else {
      assert Decimal(n)[..0] == "";
    }
  }

  // ---------------------------------------------------------------- scanning what was printed

  /** The text stops where a word, or a number, stops. */
  predicate WordEnds(s: string) { s == "" || IsSpace(s[0]) }

  predicate DigitsEnd(s: string) { s == "" || !IsDigit(s[0]) }

  predicate IsWord(s: string) { s != "" && forall i :: 0 <= i < |s| ==> !IsSpace(s[i]) }

  lemma {:induction false} WordLengthOf(w: string, rest: string)
    requires WordEnds(rest) && forall i :: 0 <= i < |w| ==> !IsSpace(w[i])
    ensures WordLength(w + rest) == |w|
  {
    if w == "" {
      assert w + rest == rest;
    } else {
      WordLengthOf(w[1..], rest);
      assert (w + rest)[1..] == w[1..] + rest;
    }
  }

  lemma {:induction false} DigitCountOf(w: string, rest: string)
    requires DigitsEnd(rest) && forall i :: 0 <= i < |w| ==> IsDigit(w[i])
    ensures DigitCount(w + rest) == |w|
  {
    if w == "" {
      assert w + rest == rest;
    } else {
      DigitCountOf(w[1..], rest);
      assert (w + rest)[1..] == w[1..] + rest;
    }
  }

  /** A word is read off a line, and a space after it is skipped. */
  lemma WordRead(w: string, rest: string)
    requires IsWord(w) && WordEnds(rest)
    ensures FirstWord(w + rest) == w && AfterWord(w + rest) == rest && !Blank(w + rest)
  {
    var s := w + rest;
    assert s[0] == w[0];
    WordLengthOf(w, rest);
    assert SkipSpace(s) == s;
  }

  lemma SpaceSkipped(rest: string)
    ensures SkipSpace("\t" + rest) == SkipSpace(rest)
  {
    assert ("\t" + rest)[1..] == rest;
  }

  lemma IntRead(n: nat, rest: string)
    requires DigitsEnd(rest)
    ensures ScanInt(Decimal(n) + rest) == Match(n, rest)
    ensures ScanInt("\t" + (Decimal(n) + rest)) == Match(n, rest)
  {
    var s := Decimal(n) + rest;
    assert s[0] == Decimal(n)[0];
    assert SkipSpace(s) == s;
    SpaceSkipped(s);
    DigitCountOf(Decimal(n), rest);
    assert s[..|Decimal(n)|] == Decimal(n) && s[|Decimal(n)|..] == rest;
    DecimalRoundTrip(n);
  }

  /** A recorded coordinate: digits with an optional sign and point, two digits at least. */
  predicate Coordinate(s: string) { UnsignedCoordinate(if s != "" && s[0] == '-' then s[1..] else s) }

  predicate UnsignedCoordinate(u: string) {
    var a := DigitCount(u);
    && a > 0
    && if a == |u| then a > 1 else u[a] == '.' && a + 1 < |u| && DigitCount(u[a + 1..]) == |u| - a - 1
  }

  lemma {:induction false} DigitCountExtends(s: string, rest: string)
    requires DigitCount(s) < |s| || DigitsEnd(rest)
    ensures DigitCount(s + rest) == DigitCount(s)
  {
    if s == "" {
      assert s + rest == rest;
    } else {
      assert (s + rest)[0] == s[0] && (s + rest)[1..] == s[1..] + rest;
      if IsDigit(s[0]) { DigitCountExtends(s[1..], rest); }
    }
  }

  /** A mantissa followed by the end of the word is the whole number. */
  lemma MantissaEnds(u: string, rest: string)
    requires WordEnds(rest) && u != "" && MantissaLength(u + rest) == |u|
    ensures NumberLength(u + rest) == Some(|u|)
  {
    assert (u + rest)[|u|..] == rest;
    assert ExponentLength(rest) == Some(0);
  }

  lemma MantissaRead(u: string, rest: string)
    requires UnsignedCoordinate(u) && WordEnds(rest)
    ensures MantissaLength(u + rest) == |u|
  {
    var a := DigitCount(u);
    DigitCountExtends(u, rest);
    var s := u + rest;
    if a < |u| {
      assert s[a] == '.';
      DigitCountExtends(u[a + 1..], rest);
      assert s[a + 1..] == u[a + 1..] + rest;
    } else {
      assert a < |s| ==> s[a] == rest[0];
    }
  }

  lemma NumberRead(sign: nat, x: string, rest: string)
    requires sign <= |x| && UnsignedCoordinate(x[sign..]) && WordEnds(rest)
    ensures NumberLength((x + rest)[sign..]) == Some(|x| - sign)
  {
    assert (x + rest)[sign..] == x[sign..] + rest;
    MantissaRead(x[sign..], rest);
    MantissaEnds(x[sign..], rest);
  }

  lemma RealRead(x: string, rest: string)
    requires Coordinate(x) && WordEnds(rest)
    ensures ScanReal("\t" + (x + rest)) == Match(x, rest)
  {
    var s := x + rest;
    SpaceSkipped(s);
    assert s[0] == x[0];
    assert SkipSpace(s) == s;
    assert s[|x|..] == rest && s[..|x|] == x;
    if x[0] != '-' {
      assert x[0..] == x;
      NumberRead(0, x, rest);
    } else {
      NumberRead(1, x, rest);
    }
  }
}
