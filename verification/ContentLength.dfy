/** The declared length of a request: every Content-Length header must be the canonical decimal of one number. */
module ContentLength {
  import opened Options
  import opened Text

  /** A raw header: name and value as the server passed them, one character per byte. */
  datatype Header = Header(name: string, value: string)

  function DigitChar(d: nat): char
    requires d < 10
  {
    '0' + d as char
  }

  /** `str(n)` */
  function Decimal(n: nat): (r: string)
    ensures r != "" && forall i :: 0 <= i < |r| ==> '0' <= r[i] <= '9'
  {
    if n < 10 then [DigitChar(n)] else Decimal(n / 10) + [DigitChar(n % 10)]
  }

  function DecimalInt(v: int): string {
    if v < 0 then "-" + Decimal(-v) else Decimal(v)
  }

  /** Digits with single underscores between them, which `int` accepts. */
  predicate DigitsOk(u: string) {
    && u != "" && u[0] != '_' && u[|u| - 1] != '_'
    && (forall i :: 0 <= i < |u| ==> '0' <= u[i] <= '9' || u[i] == '_')
    && (forall i :: 0 < i < |u| && u[i] == '_' ==> u[i - 1] != '_')
  }

  function DigitOf(c: char): nat
    requires '0' <= c <= '9'
  {
    (c - '0') as int
  }

  function DigitsValue(u: string): nat
    requires forall i :: 0 <= i < |u| ==> '0' <= u[i] <= '9' || u[i] == '_'
  {
    if u == "" then 0
    else if u[|u| - 1] == '_' then DigitsValue(u[..|u| - 1])
    else 10 * DigitsValue(u[..|u| - 1]) + DigitOf(u[|u| - 1])
  }

  /** `int(text)` on text without surrounding space, with None for ValueError. */
  function ParseInt(text: string): Option<int> {
    var signed := text != "" && (text[0] == '-' || text[0] == '+');
    var digits := if signed then text[1..] else text;
    if !DigitsOk(digits) then None
    else
      var value: int := DigitsValue(digits);
      Some(if signed && text[0] == '-' then -value else value)
  }

  lemma {:induction false} DecimalParses(n: nat)
    ensures DigitsOk(Decimal(n)) && DigitsValue(Decimal(n)) == n
  {
    if n >= 10 {
      DecimalParses(n / 10);
      var r := Decimal(n);
      assert r[..|r| - 1] == Decimal(n / 10);
    }
  }

  /** Parsing undoes printing. */
  lemma ParseDecimal(n: nat)
    ensures ParseInt(Decimal(n)) == Some(n)
  {
    DecimalParses(n);
  }

  lemma {:induction false} DigitsPositive(u: string)
    requires u != "" && (forall i :: 0 <= i < |u| ==> '0' <= u[i] <= '9') && u[0] != '0'
    ensures DigitsValue(u) > 0
  {
    if |u| > 1 {
      DigitsPositive(u[..|u| - 1]);
    }
  }

  lemma DigitBack(c: char)
    requires '0' <= c <= '9'
    ensures DigitChar(DigitOf(c)) == c
  {
  }

  /** Digits, without a needless zero in front. */
  predicate Canonical(u: string) {
    u != "" && (forall i :: 0 <= i < |u| ==> '0' <= u[i] <= '9') && (|u| > 1 ==> u[0] != '0')
  }

  lemma {:induction false} DecimalCanonical(n: nat)
    ensures Canonical(Decimal(n))
    ensures n > 0 ==> Decimal(n)[0] != '0'
  {
    if n >= 10 {
      DecimalCanonical(n / 10);
      assert Decimal(n)[0] == Decimal(n / 10)[0];
    }
  }

  /** One digit more, on both sides. */
  lemma DecimalGrows(value: nat, last: char)
    requires '0' <= last <= '9' && value > 0
    ensures Decimal(10 * value + DigitOf(last)) == Decimal(value) + [last]
  {
    DigitBack(last);
    var n := 10 * value + DigitOf(last);
    assert n / 10 == value && n % 10 == DigitOf(last);
  }

  lemma FrontCanonical(u: string)
    requires Canonical(u) && |u| > 1
    ensures Canonical(u[..|u| - 1]) && u[0] != '0' && DigitsOk(u[..|u| - 1])
    ensures DigitsValue(u) == 10 * DigitsValue(u[..|u| - 1]) + DigitOf(u[|u| - 1])
  {
  }

  lemma OneDigit(u: string)
    requires |u| == 1 && '0' <= u[0] <= '9'
    ensures DigitsValue(u) == DigitOf(u[0]) && u == Decimal(DigitOf(u[0]))
  {
    DigitBack(u[0]);
    assert DigitsValue(u[..0]) == 0;
  }

  lemma {:induction false} CanonicalIsDecimal(u: string)
    requires Canonical(u)
    ensures u == Decimal(DigitsValue(u))
  {
    if |u| == 1 {
      OneDigit(u);
    } else {
      var front, last := u[..|u| - 1], u[|u| - 1];
      FrontCanonical(u);
      DigitsPositive(front);
      CanonicalIsDecimal(front);
      DecimalGrows(DigitsValue(front), last);
      assert u == front + [last];
    }
  }

  /** The decimal of a number is the one string of digits that says it and starts with no needless zero. */
  lemma DecimalIff(u: string, n: nat)
    ensures u == Decimal(n) <==> Canonical(u) && DigitsValue(u) == n
  {
    DecimalParses(n);
    DecimalCanonical(n);
    if Canonical(u) { CanonicalIsDecimal(u); }
  }

  lemma NotAsciiDeclaresNothing(h: Header, i: nat)
    requires i < |h.value| && h.value[i] >= '\U{80}'
    ensures Value(h) == None
  {
  }

  predicate IsContentLength(h: Header) {
    Lower(h.name) == "content-length"
  }

  /** The name of the header is recognized in any case, and nothing else is. */
  lemma NameIgnoresCase(h: Header)
    ensures IsContentLength(h) <==>
            |h.name| == 14 && forall i :: 0 <= i < 14 ==> SameLetter(h.name[i], "content-length"[i])
  {
    var name := "content-length";
    assert forall i :: 0 <= i < 14 ==> LowerChar(name[i]) == name[i];
    if |h.name| == 14 {
      forall i | 0 <= i < 14 ensures Lower(h.name)[i] == name[i] <==> SameLetter(h.name[i], name[i]) {
        LowerCharIff(h.name[i], name[i]);
      }
    }
  }

  predicate IsAscii(s: string) {
    forall i :: 0 <= i < |s| ==> s[i] < '\U{80}'
  }

  /** The header says `n` and says it canonically. */
  predicate Declares(h: Header, n: nat) {
    IsAscii(h.value) && Strip(h.value) == Decimal(n)
  }

  /** What one header's value is worth: a number only when it is canonical. */
  function Value(h: Header): Option<nat> {
    if !IsAscii(h.value) then None
    else
      var v := ParseInt(Strip(h.value));
      if v.None? || v.value < 0 || Strip(h.value) != DecimalInt(v.value) then None else Some(v.value)
  }

  lemma ValueIff(h: Header, n: nat)
    ensures Value(h) == Some(n) <==> Declares(h, n)
  {
    ParseDecimal(n);
  }

  /**
   The declared length is `n` exactly when a Content-Length header exists and every one of them is the canonical
   decimal of `n` once stripped.
   */
  method DeclaredContentLength(headers: seq<Header>) returns (r: Option<nat>)
    ensures forall n: nat :: r == Some(n) <==>
              (exists h :: h in headers && IsContentLength(h))
              && forall h :: h in headers && IsContentLength(h) ==> Declares(h, n)
  {
    var values: seq<nat> := [];
    ghost var from: seq<Header> := [];   // the headers the values came from
    for i := 0 to |headers|
      invariant |from| == |values| && forall k :: 0 <= k < |values| ==> Value(from[k]) == Some(values[k])
      invariant forall h :: h in from <==> h in headers[..i] && IsContentLength(h)
    {
      var h := headers[i];
      if Lower(h.name) != "content-length" { continue; }
      if Value(h).None? {
        assert h in headers;
        forall n: nat ensures !Declares(h, n) { ValueIff(h, n); }
        return None;
      }
      values := values + [Value(h).value];
      from := from + [h];
    }
    forall h, n: nat | h in from ensures Value(h) == Some(n) <==> Declares(h, n) { ValueIff(h, n); }
    assert headers[..|headers|] == headers;
    if values == [] { return None; }
    if exists i :: 1 <= i < |values| && values[i] != values[0] {
      var i :| 1 <= i < |values| && values[i] != values[0];
      assert from[0] in from && from[i] in from;
      return None;
    }
    assert from[0] in from;
    return Some(values[0]);
  }
}
