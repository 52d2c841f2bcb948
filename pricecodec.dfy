/**
 * The US Treasury fractional-price codec of `funcs.hpp`: text of the form
 * `W-TTE` (whole points, two digits of 32nds, one eighth of a 32nd, with `+`
 * standing for 4) against its value `W + TT/32 + E/256`.
 *
 * Prices are exact reals. Every price the system produces is a multiple of
 * 1/256, so `Price(ticks)` gives the value of a whole number of 256ths.
 */
module PriceCodec {
  import opened Text

  /** The value of `ticks` 256ths of a point. */
  function Price(ticks: int): real {
    ticks as real / 256.0
  }

  /** A value the codec represents exactly: a whole number of 256ths. */
  predicate IsTickMultiple(p: real) {
    (p * 256.0).Floor as real == p * 256.0
  }

  // ---------------------------------------------------------------------------
  // Decoding: ConvertPrice(const string&)
  // ---------------------------------------------------------------------------

  /**
   * The scanner state of the decoding loop: how many separators (and 32nds
   * digits) have been passed, and the three text buffers it fills.
   */
  datatype Sections = Sections(section: nat, whole: string, thirtySeconds: string, eighths: string)

  const NoSections := Sections(0, "", "", "")

  /** One character of the decoding loop. */
  function Step(st: Sections, ch: char): Sections {
    if ch == '-' then st.(section := st.section + 1)
    else if st.section == 0 then st.(whole := st.whole + [ch])
    else if st.section == 1 || st.section == 2 then
      st.(thirtySeconds := st.thirtySeconds + [ch], section := st.section + 1)
    else if st.section == 3 then st.(eighths := st.eighths + [EighthDigit(ch)])
    else st
  }

  /** `+` in the eighths position is read as the digit 4. */
  function EighthDigit(ch: char): char {
    if ch == '+' then '4' else ch
  }

  /** The eighths buffer that a run of eighths characters produces. */
  function EighthsText(e: string): (d: string)
    ensures |d| == |e|
  {
    seq(|e|, i requires 0 <= i < |e| => EighthDigit(e[i]))
  }

  /** The state after scanning `s` from `st`, one character at a time. */
  function ScanFrom(st: Sections, s: string): Sections
    decreases |s|
  {
    if s == [] then st else Step(ScanFrom(st, s[..|s| - 1]), s[|s| - 1])
  }

  /** The value `W + TT/32 + E/256` of the three decoded fields. */
  function Decoded(whole: nat, thirtySeconds: nat, eighths: nat): real {
    whole as real + thirtySeconds as real / 32.0 + eighths as real / 256.0
  }

  /** Converting the three buffers: an empty 32nds or eighths buffer counts as 0. */
  function DecodeSections(st: Sections): Result<real> {
    var w := ParseDecimal(st.whole);
    var t := if st.thirtySeconds == [] then Ok(0) else ParseDecimal(st.thirtySeconds);
    var e := if st.eighths == [] then Ok(0) else ParseDecimal(st.eighths);
    if w.Failure? || t.Failure? || e.Failure? then Failure("invalid_argument")
    else Ok(Decoded(w.value, t.value, e.value))
  }

  /**
   * The whole-points buffer is empty exactly when the text is empty or starts
   * with the separator; otherwise it starts with the text's first character.
   */
  lemma {:induction false} ScanFirst(s: string)
    ensures ScanFrom(NoSections, s).whole == [] <==> s == [] || s[0] == '-'
    ensures s != [] && s[0] == '-' ==> ScanFrom(NoSections, s).section > 0
    ensures s != [] && s[0] != '-' ==> ScanFrom(NoSections, s).whole[0] == s[0]
    decreases |s|
  {
    if |s| > 1 {
      var init := s[..|s| - 1];
      assert init[0] == s[0];
      ScanFirst(init);
    } else if |s| == 1 {
      assert s[..0] == [];
    }
  }

  /**
   * What `ConvertPrice(const string&)` returns, or the exception it throws: a
   * price is never negative, and only a text that starts with a digit decodes.
   */
  function DecodePrice(s: string): (r: Result<real>)
    ensures r.Ok? ==> s != [] && IsDigit(s[0])
    ensures r.Ok? ==> r.value >= 0.0
  {
    ScanFirst(s);
    DecodeSections(ScanFrom(NoSections, s))
  }

  /** The decoding loop of `ConvertPrice(const string&)`, then the three conversions. */
  method ConvertFractionalPrice(s: string) returns (r: Result<real>)
    ensures r == DecodePrice(s)
  {
    var section: nat := 0;
    var whole, thirtySeconds, eighths := "", "", "";
    var i := 0;
    while i < |s|
      invariant 0 <= i <= |s|
      invariant Sections(section, whole, thirtySeconds, eighths) == ScanFrom(NoSections, s[..i])
    {
      var ch := s[i];
      assert s[..i + 1][..i] == s[..i];
      if ch == '-' {
        section := section + 1;
      } else if section == 0 {
        whole := whole + [ch];
      } else if section == 1 || section == 2 {
        thirtySeconds := thirtySeconds + [ch];
        section := section + 1;
      } else if section == 3 {
        eighths := eighths + [if ch == '+' then '4' else ch];
      }
      i := i + 1;
    }
    assert s[..i] == s;
    var w := ParseDecimal(whole);
    var t := if thirtySeconds == [] then Ok(0) else ParseDecimal(thirtySeconds);
    var e := if eighths == [] then Ok(0) else ParseDecimal(eighths);
    if w.Failure? || t.Failure? || e.Failure? {
      r := Failure("invalid_argument");
    } else {
      r := Ok(w.value as real + t.value as real / 32.0 + e.value as real / 256.0);
    }
  }

  lemma {:induction false} ScanAppend(st: Sections, s: string, t: string)
    ensures ScanFrom(st, s + t) == ScanFrom(ScanFrom(st, s), t)
    decreases |t|
  {
    if t == [] {
      assert s + t == s;
    } else {
      var u := s + t;
      assert u[..|u| - 1] == s + t[..|t| - 1];
      ScanAppend(st, s, t[..|t| - 1]);
    }
  }

  /** Before the first separator every character goes to the whole part. */
  lemma {:induction false} ScanWhole(st: Sections, w: string)
    requires st.section == 0 && '-' !in w
    ensures ScanFrom(st, w) == st.(whole := st.whole + w)
    decreases |w|
  {
    if w != [] {
      var v := w[..|w| - 1];
      assert '-' !in v by { assert forall c :: c in v ==> c in w; }
      ScanWhole(st, v);
      assert v + [w[|w| - 1]] == w;
    }
  }

  /** After two 32nds digits every further character goes to the eighths part. */
  lemma {:induction false} ScanEighths(st: Sections, e: string)
    requires st.section == 3 && '-' !in e
    ensures ScanFrom(st, e) == st.(eighths := st.eighths + EighthsText(e))
    decreases |e|
  {
    if e != [] {
      var v := e[..|e| - 1];
      assert '-' !in v by { assert forall c :: c in v ==> c in e; }
      ScanEighths(st, v);
      assert EighthsText(v) + [EighthDigit(e[|e| - 1])] == EighthsText(e);
    }
  }

  /** The whole part and the first separator. */
  lemma ScanDash(w: string)
    requires '-' !in w
    ensures ScanFrom(NoSections, w + "-") == Sections(1, w, "", "")
  {
    ScanWhole(NoSections, w);
    assert "" + w == w;
    ScanAppend(NoSections, w, "-");
    assert ScanFrom(Sections(0, w, "", ""), "-") == Step(ScanFrom(Sections(0, w, "", ""), []), '-');
  }

  /** After the first separator, two characters fill the 32nds part. */
  lemma ScanThirtySeconds(w: string, t: string)
    requires |t| == 2 && '-' !in t
    ensures ScanFrom(Sections(1, w, "", ""), t) == Sections(3, w, t, "")
  {
    var st := Sections(1, w, "", "");
    assert t[..1][..0] == [];
    assert ScanFrom(st, t[..1]) == Step(st, t[0]) == Sections(2, w, [t[0]], "");
    assert t[..1] == t[..|t| - 1];
    assert [t[0]] + [t[1]] == t;
  }

  /** The scanner splits `W-TTE` into its three fields. */
  lemma ScanFractional(w: string, t: string, e: string)
    requires '-' !in w && |t| == 2 && '-' !in t && '-' !in e
    ensures ScanFrom(NoSections, w + "-" + t + e) == Sections(3, w, t, EighthsText(e))
  {
    var s1 := w + "-";
    ScanDash(w);
    ScanAppend(NoSections, s1, t);
    ScanThirtySeconds(w, t);
    ScanAppend(NoSections, s1 + t, e);
    ScanEighths(Sections(3, w, t, ""), e);
    var d := EighthsText(e);
    assert "" + d == d;
  }

  /** The scanner on `W-` or `W-T` with a single 32nds character. */
  lemma ScanShort(w: string, t: string)
    requires '-' !in w && |t| <= 1 && '-' !in t
    ensures ScanFrom(NoSections, w + "-" + t) == Sections(1 + |t|, w, t, "")
  {
    ScanDash(w);
    if t != [] {
      ScanAppend(NoSections, w + "-", t);
      assert t[..0] == [];
    } else {
      assert w + "-" + t == w + "-";
    }
  }

  /**
   * Decoding well-formed text: `W-TTE` with `+` read as 4, where every
   * character after the second 32nds digit belongs to the eighths field and an
   * empty eighths field counts as 0.
   */
  lemma DecodeFractional(w: string, t: string, e: string)
    requires w != [] && AllDigits(w) && |t| == 2 && AllDigits(t)
    requires '-' !in e && AllDigits(EighthsText(e))
    ensures DecodePrice(w + "-" + t + e)
         == Ok(Decoded(DigitsValue(w), DigitsValue(t), DigitsValue(EighthsText(e))))
  {
    NonDigitAbsent(w, '-');
    NonDigitAbsent(t, '-');
    ScanFractional(w, t, e);
    ParseDecimalOfDigits(w);
    ParseDecimalOfDigits(t);
    if e != [] {
      ParseDecimalOfDigits(EighthsText(e));
    }
  }

  /** Text with no separator is a whole number of points. */
  lemma DecodeWhole(w: string)
    requires w != [] && AllDigits(w)
    ensures DecodePrice(w) == Ok(DigitsValue(w) as real)
  {
    var st := Sections(0, w, "", "");
    assert ScanFrom(NoSections, w) == st by {
      NonDigitAbsent(w, '-');
      ScanWhole(NoSections, w);
      assert "" + w == w;
    }
    assert DecodeSections(st) == Ok(DigitsValue(w) as real) by {
      ParseDecimalOfDigits(w);
    }
  }

  /** A missing or one-digit 32nds part and a missing eighths part contribute what they hold. */
  lemma DecodeShort(w: string, t: string)
    requires w != [] && AllDigits(w) && |t| <= 1 && AllDigits(t)
    ensures DecodePrice(w + "-" + t) == Ok(Decoded(DigitsValue(w), DigitsValue(t), 0))
  {
    NonDigitAbsent(w, '-');
    NonDigitAbsent(t, '-');
    ScanShort(w, t);
    ParseDecimalOfDigits(w);
    if t != [] {
      ParseDecimalOfDigits(t);
    }
  }

  // ---------------------------------------------------------------------------
  // Encoding: ConvertPrice(double)
  // ---------------------------------------------------------------------------

  /** The 32nds field: zero-padded to two digits. */
  function ThirtySecondsText(n: int): string {
    if n < 10 then "0" + IntToString(n) else IntToString(n)
  }

  /** The eighths field: 4 is written `+`. */
  function EighthText(n: int): string {
    if n == 4 then "+" else IntToString(n)
  }

  /**
   * `ConvertPrice(double)`: whole points by `floor`, then the fraction truncated
   * (not rounded) to 256ths, split into 32nds and eighths of a 32nd.
   */
  function EncodePrice(p: real): (r: string)
    ensures ',' !in r
  {
    var whole := p.Floor;
    var fraction256 := ((p - whole as real) * 256.0).Floor;
    // fraction256 lies in [0, 256), so Dafny's `/` and `%` agree with C++'s here
    var fraction32 := fraction256 / 8;
    var fraction8 := fraction256 % 8;
    assert 0 <= fraction256 < 256;
    assert ',' !in IntToString(whole) by { NonDigitAbsent(NatToString(if whole < 0 then -whole else whole), ','); }
    assert ',' !in ThirtySecondsText(fraction32) by {
      ThirtySecondsTextDigits(fraction32);
      NonDigitAbsent(ThirtySecondsText(fraction32), ',');
    }
    assert ',' !in EighthText(fraction8) by { EighthTextDigit(fraction8); }
    IntToString(whole) + "-" + ThirtySecondsText(fraction32) + EighthText(fraction8)
  }

  /** A whole number `t` of 256ths as fractional text: points, 32nds, eighths of a 32nd. */
  function TicksText(t: int): string {
    IntToString(t / 256) + "-" + ThirtySecondsText(t % 256 / 8) + EighthText(t % 256 % 8)
  }

  /** On a whole number of 256ths the encoder's floor steps are exact. */
  lemma EncodeTicks(t: int)
    ensures EncodePrice(Price(t)) == TicksText(t)
  {
    PriceScaled(t);
    EncodeScaled(Price(t), t);
  }

  lemma PriceScaled(t: int)
    ensures Price(t) * 256.0 == t as real
  {
  }

  /** A price that is exactly `t` 256ths encodes as the text of `t`. */
  lemma EncodeScaled(p: real, t: int)
    requires p * 256.0 == t as real
    ensures EncodePrice(p) == TicksText(t)
  {
    EncodeByTicks(p);
    assert (p * 256.0).Floor == t;
  }

  /** Encoding truncates: `p` encodes like `p` cut down to a whole number of 256ths. */
  lemma EncodeTruncates(p: real)
    ensures EncodePrice(p) == EncodePrice(Price((p * 256.0).Floor))
  {
    EncodeByTicks(p);
    EncodeTicks((p * 256.0).Floor);
  }

  /** The encoder's text is that of `p` counted in whole 256ths. */
  lemma EncodeByTicks(p: real)
    ensures EncodePrice(p) == TicksText((p * 256.0).Floor)
  {
    var f := (p * 256.0).Floor;
    var w := p.Floor;
    var g := ((p - w as real) * 256.0).Floor;
    FractionTicks(p);
    assert TicksText(f) == IntToString(w) + "-" + ThirtySecondsText(g / 8) + EighthText(g % 8);
  }

  /** The encoder's whole part and 256ths are the quotient and remainder of `p` in 256ths, cut down. */
  lemma FractionTicks(p: real)
    ensures var f := (p * 256.0).Floor;
      f / 256 == p.Floor && f % 256 == ((p - p.Floor as real) * 256.0).Floor
  {
    var f := (p * 256.0).Floor;
    var w := p.Floor;
    var g := ((p - w as real) * 256.0).Floor;
    assert g == f - 256 * w;
    assert 0 <= g < 256;
  }

  lemma ThirtySecondsTextDigits(n: int)
    requires 0 <= n < 32
    ensures var s := ThirtySecondsText(n); |s| == 2 && AllDigits(s) && DigitsValue(s) == n
    ensures ThirtySecondsText(n)[0] in "0123"
  {
    NatToStringRoundTrip(n);
    if n < 10 {
      LeadingZeroValue(NatToString(n));
    } else {
      var s := NatToString(n);
      assert s == NatToString(n / 10) + [DigitChar(n % 10)];
      assert NatToString(n / 10) == [DigitChar(n / 10)];
    }
  }

  lemma EighthTextDigit(n: int)
    requires 0 <= n < 8
    ensures var e := EighthText(n);
      |e| == 1 && '-' !in e && AllDigits(EighthsText(e)) && DigitsValue(EighthsText(e)) == n
    ensures EighthText(n)[0] in "0123+567"
  {
    var e := EighthText(n);
    if n == 4 {
      assert EighthsText(e) == "4";
    } else {
      assert e == [DigitChar(n)];
      assert EighthsText(e) == e;
    }
  }

  /**
   * The shape of every encoded price: the whole part, `-`, two digits of 32nds
   * worth at most 31, and one eighths character, never the digit 4.
   */
  lemma EncodeShape(p: real)
    ensures var w := IntToString(p.Floor); var r := EncodePrice(p);
      && |r| == |w| + 4 && r[..|w|] == w && r[|w|] == '-'
      && AllDigits(r[|w| + 1..|w| + 3]) && DigitsValue(r[|w| + 1..|w| + 3]) < 32
      && r[|w| + 3] in "0123+567"
  {
    var f := (p * 256.0).Floor;
    EncodeByTicks(p);
    FractionTicks(p);
    TicksShape(f);
  }

  /** The same shape for the text of a whole number of 256ths. */
  lemma TicksShape(t: int)
    ensures var w := IntToString(t / 256); var r := TicksText(t);
      && |r| == |w| + 4 && r[..|w|] == w && r[|w|] == '-'
      && AllDigits(r[|w| + 1..|w| + 3]) && DigitsValue(r[|w| + 1..|w| + 3]) < 32
      && r[|w| + 3] in "0123+567"
  {
    var n, m := t % 256 / 8, t % 256 % 8;
    ThirtySecondsTextDigits(n);
    EighthTextDigit(m);
    var w := IntToString(t / 256);
    var r := TicksText(t);
    assert r == w + "-" + ThirtySecondsText(n) + EighthText(m);
    assert r[|w| + 1..|w| + 3] == ThirtySecondsText(n);
  }

  /** Round trip on a whole number of 256ths. */
  lemma RoundTripTicks(t: int)
    requires t >= 0
    ensures DecodePrice(EncodePrice(Price(t))) == Ok(Price(t))
  {
    EncodeTicks(t);
    var q, n, m := t / 256, t % 256 / 8, t % 256 % 8;
    assert t == 256 * q + 8 * n + m;
    ThirtySecondsTextDigits(n);
    EighthTextDigit(m);
    NatToStringRoundTrip(q);
    DecodeFractional(NatToString(q), ThirtySecondsText(n), EighthText(m));
    assert Decoded(q, n, m) == Price(t);
  }

  /**
   * Round trip: decoding the text of a non-negative price gives the price
   * truncated to a whole number of 256ths.
   */
  lemma DecodeEncode(p: real)
    requires p >= 0.0
    ensures DecodePrice(EncodePrice(p)) == Ok(Price((p * 256.0).Floor))
  {
    EncodeTruncates(p);
    RoundTripTicks((p * 256.0).Floor);
  }

  /** Round trip on the prices the codec represents exactly. */
  lemma RoundTrip(p: real)
    requires p >= 0.0 && IsTickMultiple(p)
    ensures DecodePrice(EncodePrice(p)) == Ok(p)
  {
    DecodeEncode(p);
  }

  lemma SmallNumerals()
    ensures NatToString(0) == "0" && NatToString(7) == "7"
    ensures NatToString(98) == "98" && NatToString(99) == "99" && NatToString(100) == "100"
    ensures ThirtySecondsText(0) == "00" && ThirtySecondsText(31) == "31"
    ensures EighthText(0) == "0" && EighthText(7) == "7"
  {
    assert NatToString(99) == NatToString(9) + "9";
    assert NatToString(98) == NatToString(9) + "8";
    assert NatToString(31) == NatToString(3) + "1";
    assert NatToString(10) == NatToString(1) + "0";
    assert NatToString(100) == NatToString(10) + "0";
  }

  /** Encoding the whole price 99 (the base of every generated quote). */
  lemma EncodeNinetyNine()
    ensures EncodePrice(99.0) == "99-000"
  {
    var p := Price(99 * 256);
    assert p == 99.0;
    SmallNumerals();
    EncodeTicks(99 * 256);
    assert EncodePrice(p) == "99-000";
  }

  lemma EncodeHundred()
    ensures EncodePrice(100.0) == "100-000"
  {
    var p := Price(100 * 256);
    assert p == 100.0;
    SmallNumerals();
    EncodeTicks(100 * 256);
    assert EncodePrice(p) == "100-000";
  }

  /** One 256th below 99 is 98 points, 31 32nds and 7 eighths. */
  lemma EncodeJustBelowNinetyNine()
    ensures EncodePrice(98.99609375) == EncodePrice(99.0 - 1.0 / 256.0) == "98-317"
  {
    var p := Price(99 * 256 - 1);
    assert p == 98.99609375 == 99.0 - 1.0 / 256.0;
    SmallNumerals();
    EncodeTicks(99 * 256 - 1);
    var t := 99 * 256 - 1;
    assert t / 256 == 98 && t % 256 / 8 == 31 && t % 256 % 8 == 7;
    assert TicksText(t) == "98" + "-" + "31" + "7";
    assert EncodePrice(p) == "98-317";
  }

  /** One 256th above 99 is 99 points, no 32nds and one eighth. */
  lemma EncodeJustAboveNinetyNine()
    ensures EncodePrice(99.00390625) == EncodePrice(99.0 + 1.0 / 256.0) == "99-001"
  {
    var p := Price(99 * 256 + 1);
    assert p == 99.00390625 == 99.0 + 1.0 / 256.0;
    SmallNumerals();
    EncodeTicks(99 * 256 + 1);
    var t := 99 * 256 + 1;
    assert t / 256 == 99 && t % 256 / 8 == 0 && t % 256 % 8 == 1;
    assert EighthText(1) == "1";
    assert TicksText(t) == "99" + "-" + "00" + "1";
    assert EncodePrice(p) == "99-001";
  }

  lemma SmallDigitValues()
    ensures DigitsValue("100") == 100 && DigitsValue("00") == 0 && DigitsValue("4") == 4
  {
    assert "100"[..2] == "10" && "10"[..1] == "1" && "1"[..0] == "";
    assert "00"[..1] == "0" && "0"[..0] == "";
    assert "4"[..0] == "";
  }

  /** `+` in the eighths position is read as 4. */
  lemma DecodePlusEighth()
    ensures DecodePrice("100-00+") == Ok(100.015625)
  {
    SmallDigitValues();
    DecodeFractional("100", "00", "+");
    assert EighthsText("+") == "4";
    assert "100" + "-" + "00" + "+" == "100-00+";
  }

  lemma DecodeFourEighths()
    ensures DecodePrice("100-004") == Ok(100.015625)
  {
    SmallDigitValues();
    DecodeFractional("100", "00", "4");
    assert EighthsText("4") == "4";
    assert "100" + "-" + "00" + "4" == "100-004";
  }

  /** `+` and `4` in the eighths position decode alike. */
  lemma DecodeFixedPoints()
    ensures DecodePrice("100-00+") == DecodePrice("100-004") == Ok(100.015625)
  {
    DecodePlusEighth();
    DecodeFourEighths();
  }
}
