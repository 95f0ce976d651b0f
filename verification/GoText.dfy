// The Go text conversions the program relies on.
module GoText {
  predicate IsDigit(c: char) {
    '0' <= c <= '9'
  }

  predicate IsLetter(c: char) {
    'a' <= c <= 'z' || 'A' <= c <= 'Z'
  }

  predicate AllDigits(s: string) {
    forall i :: 0 <= i < |s| ==> IsDigit(s[i])
  }

  function DigitsValue(s: string): nat
    requires AllDigits(s)
  {
    if s == "" then 0
    else
      var init := s[..|s| - 1];
      assert forall i :: 0 <= i < |init| ==> init[i] == s[i];
      10 * DigitsValue(init) + (s[|s| - 1] as int - '0' as int)
  }

  // The value strconv.ParseInt returns, and whether its error is nil.
  datatype Parsed = Parsed(value: int, ok: bool)

  const MAX_INT64: int := 0x7fff_ffff_ffff_ffff

  // strconv.ParseInt(s, 10, 64): a syntax error yields 0, a range error the
  // nearest bound.
  function ParseInt64(s: string): Parsed {
    var signed := s != "" && (s[0] == '+' || s[0] == '-');
    var digits := if signed then s[1..] else s;
    if digits == "" || !AllDigits(digits) then Parsed(0, false)
    else
      var n: int := DigitsValue(digits);
      if signed && s[0] == '-' then
        if n > MAX_INT64 + 1 then Parsed(0 - MAX_INT64 - 1, false) else Parsed(0 - n, true)
      else
        if n > MAX_INT64 then Parsed(MAX_INT64, false) else Parsed(n as int, true)
  }

  // ---- What these conversions mean ----

  const DIGITS := "0123456789"

  // The decimal text of a number.
  function Decimal(n: nat): string {
    if n < 10 then [DIGITS[n]] else Decimal(n / 10) + [DIGITS[n % 10]]
  }

  function FormatInt(n: int): string {
    if n < 0 then "-" + Decimal(-n) else Decimal(n)
  }

  lemma {:induction false} DecimalRoundTrip(n: nat)
    ensures Decimal(n) != "" && AllDigits(Decimal(n)) && DigitsValue(Decimal(n)) == n
  {
    if n >= 10 {
      DecimalRoundTrip(n / 10);
      assert Decimal(n)[..|Decimal(n)| - 1] == Decimal(n / 10);
    } else {
      assert Decimal(n)[..0] == "";
    }
  }

  // Parsing a written number gives it back, or the nearest bound and an error
  // when it does not fit 64 bits.
  lemma ParseOfFormat(n: int)
    ensures ParseInt64(FormatInt(n)) ==
              if n > 0x7fff_ffff_ffff_ffff then Parsed(0x7fff_ffff_ffff_ffff, false)
              else if n < -0x8000_0000_0000_0000 then Parsed(-0x8000_0000_0000_0000, false)
              else Parsed(n, true)
  {
    DecimalRoundTrip(if n < 0 then -n else n);
    assert n < 0 ==> FormatInt(n)[1..] == Decimal(-n);
  }

  // Leading zeros and a plus sign change nothing.
  lemma {:induction false} LeadingZero(s: string)
    requires AllDigits(s)
    ensures AllDigits("0" + s) && DigitsValue("0" + s) == DigitsValue(s)
  {
    if s == "" {
      assert "0"[..0] == "" && "0" + s == "0";
    } else {
      var init := s[..|s| - 1];
      assert forall i :: 0 <= i < |init| ==> init[i] == s[i];
      LeadingZero(init);
      assert ("0" + s)[..|"0" + s| - 1] == "0" + init;
    }
  }

  lemma PlusSign(n: nat)
    ensures ParseInt64("+" + Decimal(n)) == ParseInt64(Decimal(n))
  {
    DecimalRoundTrip(n);
    assert ("+" + Decimal(n))[1..] == Decimal(n);
  }

  lemma DigitsAre(s: string)
    ensures AllDigits(s) <==> forall i :: 0 <= i < |s| ==> s[i] in DIGITS
  {
    forall c: char ensures IsDigit(c) <==> c in DIGITS {
      if IsDigit(c) {
        assert DIGITS[c as int - '0' as int] == c;
      }
    }
  }

  // s is this sign, possibly none, followed by these digits.
  ghost predicate IsNumberWith(s: string, sign: string, digits: string) {
    && s == sign + digits && (sign == "" || sign == "+" || sign == "-")
    && digits != "" && forall i :: 0 <= i < |digits| ==> digits[i] in DIGITS
  }

  ghost predicate IsNumberText(s: string) {
    exists sign, digits :: IsNumberWith(s, sign, digits)
  }

  lemma NumberTextParses(s: string, sign: string, digits: string)
    requires IsNumberWith(s, sign, digits)
    ensures ParseInt64(s) != Parsed(0, false)
  {
    DigitsAre(digits);
    if sign == "" {
      assert s == digits && IsDigit(digits[0]);
    } else {
      assert s[1..] == digits;
    }
  }

  // Text is read as zero with an error exactly when it is no number.
  lemma SyntaxErrorIff(s: string)
    ensures ParseInt64(s) == Parsed(0, false) <==> !IsNumberText(s)
  {
    if IsNumberText(s) {
      var sign, digits :| IsNumberWith(s, sign, digits);
      NumberTextParses(s, sign, digits);
    } else {
      var signed := s != "" && (s[0] == '+' || s[0] == '-');
      var sign, digits := if signed then [s[0]] else "", if signed then s[1..] else s;
      assert !IsNumberWith(s, sign, digits);
      DigitsAre(digits);
    }
  }
}
