/**
 * The static lookups and small conversions of `funcs.hpp`: the bond table and
 * the PV01 table keyed by CUSIP, the `YYYY/MM/DD` date reader, and the
 * millisecond field of the log timestamp. The price codec of the same file is
 * the module PriceCodec.
 */
module Funcs {
  import opened Text

  /** A calendar date as `year_month_day` holds it (no validity check, as in the source). */
  datatype Date = Date(year: int, month: int, day: int)

  /** Strictly earlier in calendar order. */
  predicate Before(a: Date, b: Date) {
    a.year < b.year || (a.year == b.year && (a.month < b.month || (a.month == b.month && a.day < b.day)))
  }

  /** Whitespace as a stream's extractors skip it: space, and tab through carriage return. */
  predicate IsSpace(c: char) {
    c == ' ' || '\t' <= c <= '\r'
  }

  /** The text left once leading whitespace is skipped. */
  function SkipSpace(s: string): (t: string)
    ensures |t| <= |s|
    ensures t != [] ==> !IsSpace(t[0])
  {
    if s != [] && IsSpace(s[0]) then SkipSpace(s[1..]) else s
  }

  /**
   * `operator>>` into an `int`: after whitespace, an optional sign and at least
   * one digit. It yields the value and the text after the digits, which does
   * not start with a digit; without a digit the extraction fails.
   */
  function ReadInt(s: string): (r: Result<(int, string)>)
    ensures r.Ok? ==> |r.value.1| < |s|
    ensures r.Ok? && r.value.1 != [] ==> !IsDigit(r.value.1[0])
  {
    var t := SkipSpace(s);
    if t != [] && (t[0] == '+' || t[0] == '-') then ReadDigits(t[1..], t[0] == '-')
    else ReadDigits(t, false)
  }

  /** The digits of an integer after its sign: their value, negated for a minus sign, and the text after them. */
  function ReadDigits(u: string, negative: bool): (r: Result<(int, string)>)
    ensures r.Ok? ==> |r.value.1| < |u|
    ensures r.Ok? && r.value.1 != [] ==> !IsDigit(r.value.1[0])
  {
    var d := LeadingDigits(u);
    if d == [] then Failure("failbit")
    else Ok((if negative then -(DigitsValue(d) as int) else DigitsValue(d), u[|d|..]))
  }

  /** `operator>>` into a `char`: the first character after whitespace, and the text after it. */
  function ReadChar(s: string): (r: Result<(char, string)>)
    ensures r.Ok? ==> |r.value.1| < |s|
    ensures r.Ok? ==> !IsSpace(r.value.0)
  {
    var t := SkipSpace(s);
    if t == [] then Failure("failbit") else Ok((t[0], t[1..]))
  }

  /**
   * `from_string`: an integer, a character, an integer, a character and an
   * integer read in turn. The two characters are compared with `/`, but the
   * branch taken when they differ does nothing, so any delimiters give a date.
   * An integer extraction that finds a character but no number stores 0 and
   * fails the stream, and the extractions after it store nothing; an
   * extraction at the end of the text stores nothing. So a failed day read
   * with text left still gives a date with day 0, and every other failure
   * leaves a variable unset, which is an error here. A date takes at least
   * five characters, one per extraction.
   */
  function FromString(s: string): (r: Result<Date>)
    ensures r.Ok? ==> |s| >= 5
  {
    var year := ReadInt(s);
    if year.Failure? then Failure(year.reason) else
    var delim1 := ReadChar(year.value.1);
    if delim1.Failure? then Failure(delim1.reason) else
    var month := ReadInt(delim1.value.1);
    if month.Failure? then Failure(month.reason) else
    var delim2 := ReadChar(month.value.1);
    if delim2.Failure? then Failure(delim2.reason) else
    var day := ReadInt(delim2.value.1);
    if day.Ok? then Ok(Date(year.value.0, month.value.0, day.value.0))
    else if SkipSpace(delim2.value.1) != [] then Ok(Date(year.value.0, month.value.0, 0))
    else Failure(day.reason)
  }

  /** The digit run at the front of `a + rest` is `a` when `rest` does not continue it. */
  lemma {:induction false} LeadingDigitsBefore(a: string, rest: string)
    requires AllDigits(a) && (rest != [] ==> !IsDigit(rest[0]))
    ensures LeadingDigits(a + rest) == a
  {
    if a != [] {
      assert (a + rest)[1..] == a[1..] + rest;
      LeadingDigitsBefore(a[1..], rest);
    }
  }

  /** Whitespace in front of the text is skipped entirely. */
  lemma {:induction false} SkipLeadingSpace(ws: string, t: string)
    requires forall i :: 0 <= i < |ws| ==> IsSpace(ws[i])
    ensures SkipSpace(ws + t) == SkipSpace(t)
  {
    if ws != [] {
      assert (ws + t)[0] == ws[0] && IsSpace(ws[0]);
      assert (ws + t)[1..] == ws[1..] + t;
      SkipLeadingSpace(ws[1..], t);
    } else {
      assert ws + t == t;
    }
  }

  /** Reading an integer from digits followed by a non-digit gives their value and stops there. */
  lemma ReadIntDigits(a: string, rest: string)
    requires a != [] && AllDigits(a) && (rest != [] ==> !IsDigit(rest[0]))
    ensures ReadInt(a + rest) == Ok((DigitsValue(a) as int, rest))
  {
    assert SkipSpace(a + rest) == a + rest by { assert (a + rest)[0] == a[0]; }
    DigitsBefore(a, rest, false);
  }

  lemma DigitsBefore(a: string, rest: string, negative: bool)
    requires a != [] && AllDigits(a) && (rest != [] ==> !IsDigit(rest[0]))
    ensures ReadDigits(a + rest, negative) == Ok((if negative then -(DigitsValue(a) as int) else DigitsValue(a), rest))
  {
    LeadingDigitsBefore(a, rest);
    DropFront(a, rest);
    ReadDigitsRun(a + rest, negative, a);
  }

  lemma ReadDigitsRun(u: string, negative: bool, d: string)
    requires d != [] && LeadingDigits(u) == d
    ensures ReadDigits(u, negative) == Ok((if negative then -(DigitsValue(d) as int) else DigitsValue(d), u[|d|..]))
  {
  }

  lemma DropFront(a: string, rest: string)
    ensures (a + rest)[|a|..] == rest
  {
  }

  /** Reading an integer skips leading whitespace. */
  lemma ReadIntSkipsSpace(ws: string, t: string)
    requires forall i :: 0 <= i < |ws| ==> IsSpace(ws[i])
    ensures ReadInt(ws + t) == ReadInt(t)
  {
    SkipLeadingSpace(ws, t);
  }

  /**
   * Leading whitespace and a sign are accepted in front of the digits; a minus
   * sign negates the value.
   */
  lemma ReadIntSigned(ws: string, sign: char, a: string, rest: string)
    requires forall i :: 0 <= i < |ws| ==> IsSpace(ws[i])
    requires sign == '+' || sign == '-'
    requires a != [] && AllDigits(a) && (rest != [] ==> !IsDigit(rest[0]))
    ensures ReadInt(ws + [sign] + a + rest) == Ok((if sign == '-' then -(DigitsValue(a) as int) else DigitsValue(a), rest))
  {
    var t := [sign] + a + rest;
    assert ws + [sign] + a + rest == ws + t;
    ReadIntSkipsSpace(ws, t);
    ReadSignedDigits(sign, a, rest);
  }

  lemma ReadSignedDigits(sign: char, a: string, rest: string)
    requires sign == '+' || sign == '-'
    requires a != [] && AllDigits(a) && (rest != [] ==> !IsDigit(rest[0]))
    ensures ReadInt([sign] + a + rest) == Ok((if sign == '-' then -(DigitsValue(a) as int) else DigitsValue(a), rest))
  {
    var t := [sign] + (a + rest);
    assert [sign] + a + rest == t;
    assert SkipSpace(t) == t;
    assert t[1..] == a + rest;
    DigitsBefore(a, rest, sign == '-');
  }

  /** Text that does not start, after whitespace, with a sign or a digit has no year to read. */
  lemma FromStringWithoutNumber(ws: string, rest: string)
    requires forall i :: 0 <= i < |ws| ==> IsSpace(ws[i])
    requires rest == [] || (!IsSpace(rest[0]) && !IsDigit(rest[0]) && rest[0] != '+' && rest[0] != '-')
    ensures FromString(ws + rest).Failure?
  {
    SkipLeadingSpace(ws, rest);
  }

  lemma ReadCharFirst(c: char, rest: string)
    requires !IsSpace(c)
    ensures ReadChar([c] + rest) == Ok((c, rest))
  {
  }

  /**
   * Digits, a delimiter, digits, a delimiter and digits, followed by any tail
   * that does not continue the last number, read as the three numbers; the
   * delimiters may be any characters other than whitespace and digits.
   */
  lemma FromStringFields(y: string, c1: char, m: string, c2: char, d: string, tail: string)
    requires y != [] && AllDigits(y) && m != [] && AllDigits(m) && d != [] && AllDigits(d)
    requires !IsSpace(c1) && !IsDigit(c1) && !IsSpace(c2) && !IsDigit(c2)
    requires tail != [] ==> !IsDigit(tail[0])
    ensures FromString(y + [c1] + m + [c2] + d + tail) == Ok(Date(DigitsValue(y), DigitsValue(m), DigitsValue(d)))
  {
    var s3 := d + tail;
    var s2 := [c2] + s3;
    var s1 := m + s2;
    var s0 := [c1] + s1;
    assert y + [c1] + m + [c2] + d + tail == y + s0;
    ReadIntDigits(y, s0);
    ReadCharFirst(c1, s1);
    ReadIntDigits(m, s2);
    ReadCharFirst(c2, s3);
    ReadIntDigits(d, tail);
  }

  /**
   * A day field that does not start with a digit or a sign, after two good
   * fields and delimiters, is read as day 0.
   */
  lemma FromStringDayUnread(y: string, c1: char, m: string, c2: char, rest: string)
    requires y != [] && AllDigits(y) && m != [] && AllDigits(m)
    requires !IsSpace(c1) && !IsDigit(c1) && !IsSpace(c2) && !IsDigit(c2)
    requires rest != [] && !IsSpace(rest[0]) && !IsDigit(rest[0]) && rest[0] != '+' && rest[0] != '-'
    ensures FromString(y + [c1] + m + [c2] + rest) == Ok(Date(DigitsValue(y), DigitsValue(m), 0))
  {
    var s2 := [c2] + rest;
    var s1 := m + s2;
    var s0 := [c1] + s1;
    assert y + [c1] + m + [c2] + rest == y + s0;
    ReadIntDigits(y, s0);
    ReadCharFirst(c1, s1);
    ReadIntDigits(m, s2);
    ReadCharFirst(c2, rest);
    assert SkipSpace(rest) == rest;
    assert LeadingDigits(rest) == [];
  }

  /** Text that ends, white space aside, after the second delimiter has no day to read. */
  lemma FromStringNoDay(y: string, c1: char, m: string, c2: char, ws: string)
    requires y != [] && AllDigits(y) && m != [] && AllDigits(m)
    requires !IsSpace(c1) && !IsDigit(c1) && !IsSpace(c2) && !IsDigit(c2)
    requires forall i :: 0 <= i < |ws| ==> IsSpace(ws[i])
    ensures FromString(y + [c1] + m + [c2] + ws).Failure?
  {
    var s2 := [c2] + ws;
    var s1 := m + s2;
    var s0 := [c1] + s1;
    assert y + [c1] + m + [c2] + ws == y + s0;
    ReadIntDigits(y, s0);
    ReadCharFirst(c1, s1);
    ReadIntDigits(m, s2);
    ReadCharFirst(c2, ws);
    SkipLeadingSpace(ws, []);
    assert ws + [] == ws;
  }

  /** `2025/11/x`: the day read fails on `x`, so the day is 0. */
  lemma SlashDateWithoutDay()
    ensures FromString("2025" + "/" + "11" + "/" + "x") == Ok(Date(2025, 11, 0))
  {
    TableDates();
    FromStringDayUnread("2025", '/', "11", '/', "x");
    assert "2025" + "/" + "11" + "/" + "x" == "2025" + ['/'] + "11" + ['/'] + "x";
  }

  /** The kind of identifier a bond carries. */
  datatype BondIdType = CUSIP | ISIN

  /**
   * A treasury bond. `DefaultBond` stands for a default-constructed `Bond`,
   * whose fields are fixed by a header that is not part of this model.
   */
  datatype Bond =
    | DefaultBond
    | Bond(productId: string, idType: BondIdType, ticker: string, coupon: real, maturity: Date)

  /**
   * The maturity dates of the bond table. The source builds each one with
   * `from_string` on its `Y/M/D` text; TableMaturities proves that this
   * reading gives these dates.
   */
  const MATURITY_2Y: Date := Date(2025, 11, 30)
  const MATURITY_3Y: Date := Date(2026, 12, 15)
  const MATURITY_5Y: Date := Date(2028, 11, 30)
  const MATURITY_7Y: Date := Date(2030, 11, 30)
  const MATURITY_10Y: Date := Date(2033, 11, 15)
  const MATURITY_20Y: Date := Date(2043, 11, 15)
  const MATURITY_30Y: Date := Date(2053, 11, 15)

  /** The identifiers of the seven on-the-run treasuries that both tables know. */
  const TABLE_CUSIPS: set<string> :=
    {"91282CJL6", "91282CJP7", "91282CJN2", "91282CJM4", "91282CJJ1", "912810TW8", "912810TV0"}

  /**
   * `GetBond`: the seven on-the-run treasuries by CUSIP; any other identifier
   * gives the default bond. (The source tests all seven keys in turn; as they
   * are distinct, at most one test succeeds.)
   */
  function GetBond(cusip: string): (b: Bond)
    ensures b.Bond? <==> cusip in TABLE_CUSIPS
    ensures cusip !in TABLE_CUSIPS ==> b == DefaultBond
    ensures b.Bond? ==> b.productId == cusip && b.idType == CUSIP
  {
    if cusip == "91282CJL6" then Bond("91282CJL6", CUSIP, "US2Y", 0.04875, MATURITY_2Y)
    else if cusip == "91282CJP7" then Bond("91282CJP7", CUSIP, "US3Y", 0.04375, MATURITY_3Y)
    else if cusip == "91282CJN2" then Bond("91282CJN2", CUSIP, "US5Y", 0.04375, MATURITY_5Y)
    else if cusip == "91282CJM4" then Bond("91282CJM4", CUSIP, "US7Y", 0.04375, MATURITY_7Y)
    else if cusip == "91282CJJ1" then Bond("91282CJJ1", CUSIP, "US10Y", 0.04500, MATURITY_10Y)
    else if cusip == "912810TW8" then Bond("912810TW8", CUSIP, "US20Y", 0.04750, MATURITY_20Y)
    else if cusip == "912810TV0" then Bond("912810TV0", CUSIP, "US30Y", 0.04750, MATURITY_30Y)
    else DefaultBond
  }

  /** `GetPV01Value`: the PV01 of the seven treasuries, 0 for any other identifier. */
  function GetPV01Value(cusip: string): (pv01: real)
    ensures pv01 > 0.0 <==> cusip in TABLE_CUSIPS
    ensures cusip !in TABLE_CUSIPS ==> pv01 == 0.0
    ensures pv01 >= 0.0
  {
    if cusip == "91282CJL6" then 0.02
    else if cusip == "91282CJP7" then 0.03
    else if cusip == "91282CJN2" then 0.05
    else if cusip == "91282CJM4" then 0.07
    else if cusip == "91282CJJ1" then 0.1
    else if cusip == "912810TW8" then 0.2
    else if cusip == "912810TV0" then 0.3
    else 0.0
  }

  /** The two tables know the same identifiers: a bond is found exactly when its PV01 is positive. */
  lemma BondAndPV01Agree(cusip: string)
    ensures GetBond(cusip).Bond? <==> GetPV01Value(cusip) > 0.0
  {
  }

  lemma FourDigits(s: string, n: nat)
    requires |s| == 4 && AllDigits(s)
    requires n == DigitValue(s[0]) * 1000 + DigitValue(s[1]) * 100 + DigitValue(s[2]) * 10 + DigitValue(s[3])
    ensures DigitsValue(s) == n
  {
    var a, b, c := s[..1], s[..2], s[..3];
    assert a[..0] == [] && a[0] == s[0];
    assert DigitsValue(a) == DigitValue(s[0]);
    assert b[..1] == a && b[1] == s[1];
    assert DigitsValue(b) == DigitsValue(a) * 10 + DigitValue(s[1]);
    assert c[..2] == b && c[2] == s[2];
    assert DigitsValue(c) == DigitsValue(b) * 10 + DigitValue(s[2]);
    assert s[..3] == c;
  }

  lemma TwoDigits(s: string, n: nat)
    requires |s| == 2 && AllDigits(s)
    requires n == DigitValue(s[0]) * 10 + DigitValue(s[1])
    ensures DigitsValue(s) == n
  {
    var a := s[..1];
    assert a[..0] == [] && a[0] == s[0];
    assert DigitsValue(a) == DigitValue(s[0]);
  }

  /** The seven identifiers of the table differ in their eighth character. */
  lemma TableKeysDiffer()
    ensures "91282CJL6"[7] == 'L' && "91282CJP7"[7] == 'P' && "91282CJN2"[7] == 'N'
    ensures "91282CJM4"[7] == 'M' && "91282CJJ1"[7] == 'J' && "912810TW8"[7] == 'W'
    ensures "912810TV0"[7] == 'V'
  {
  }

  /** Each of the seven identifiers maps to its bond (ticker, coupon, maturity) and its PV01. */
  lemma BondTable()
    ensures GetBond("91282CJL6") == Bond("91282CJL6", CUSIP, "US2Y", 0.04875, Date(2025, 11, 30))
    ensures GetBond("91282CJP7") == Bond("91282CJP7", CUSIP, "US3Y", 0.04375, Date(2026, 12, 15))
    ensures GetBond("91282CJN2") == Bond("91282CJN2", CUSIP, "US5Y", 0.04375, Date(2028, 11, 30))
    ensures GetBond("91282CJM4") == Bond("91282CJM4", CUSIP, "US7Y", 0.04375, Date(2030, 11, 30))
    ensures GetBond("91282CJJ1") == Bond("91282CJJ1", CUSIP, "US10Y", 0.04500, Date(2033, 11, 15))
    ensures GetBond("912810TW8") == Bond("912810TW8", CUSIP, "US20Y", 0.04750, Date(2043, 11, 15))
    ensures GetBond("912810TV0") == Bond("912810TV0", CUSIP, "US30Y", 0.04750, Date(2053, 11, 15))
  {
    TableKeysDiffer();
  }

  /** The PV01 of each of the seven identifiers. */
  lemma PV01Table()
    ensures GetPV01Value("91282CJL6") == 0.02 && GetPV01Value("91282CJP7") == 0.03
    ensures GetPV01Value("91282CJN2") == 0.05 && GetPV01Value("91282CJM4") == 0.07
    ensures GetPV01Value("91282CJJ1") == 0.1 && GetPV01Value("912810TW8") == 0.2
    ensures GetPV01Value("912810TV0") == 0.3
  {
    TableKeysDiffer();
  }

  /** `from_string` on digit fields joined by `/`, as the bond table writes its maturities. */
  lemma SlashDate(y: string, m: string, d: string)
    requires y != [] && AllDigits(y) && m != [] && AllDigits(m) && d != [] && AllDigits(d)
    ensures FromString(y + "/" + m + "/" + d) == Ok(Date(DigitsValue(y), DigitsValue(m), DigitsValue(d)))
  {
    FromStringFields(y, '/', m, '/', d, "");
    assert y + "/" + m + "/" + d == y + ['/'] + m + ['/'] + d + "";
  }

  /** `from_string` reads each maturity text of the table as the date it spells. */
  lemma TableMaturities()
    ensures FromString("2025" + "/" + "11" + "/" + "30") == Ok(MATURITY_2Y)
    ensures FromString("2026" + "/" + "12" + "/" + "15") == Ok(MATURITY_3Y)
    ensures FromString("2028" + "/" + "11" + "/" + "30") == Ok(MATURITY_5Y)
    ensures FromString("2030" + "/" + "11" + "/" + "30") == Ok(MATURITY_7Y)
    ensures FromString("2033" + "/" + "11" + "/" + "15") == Ok(MATURITY_10Y)
    ensures FromString("2043" + "/" + "11" + "/" + "15") == Ok(MATURITY_20Y)
    ensures FromString("2053" + "/" + "11" + "/" + "15") == Ok(MATURITY_30Y)
  {
    TableDates();
    SlashDate("2025", "11", "30");
    SlashDate("2026", "12", "15");
    SlashDate("2028", "11", "30");
    SlashDate("2030", "11", "30");
    SlashDate("2033", "11", "15");
    SlashDate("2043", "11", "15");
    SlashDate("2053", "11", "15");
  }

  lemma TableDates()
    ensures AllDigits("2025") && AllDigits("2026") && AllDigits("2028") && AllDigits("2030")
    ensures AllDigits("2033") && AllDigits("2043") && AllDigits("2053")
    ensures AllDigits("11") && AllDigits("12") && AllDigits("15") && AllDigits("30")
    ensures DigitsValue("2025") == 2025 && DigitsValue("2026") == 2026 && DigitsValue("2028") == 2028
    ensures DigitsValue("2030") == 2030 && DigitsValue("2033") == 2033 && DigitsValue("2043") == 2043
    ensures DigitsValue("2053") == 2053
    ensures DigitsValue("11") == 11 && DigitsValue("12") == 12 && DigitsValue("15") == 15 && DigitsValue("30") == 30
  {
    TableYears();
    TableMonthsAndDays();
  }

  lemma TableYears()
    ensures AllDigits("2025") && AllDigits("2026") && AllDigits("2028") && AllDigits("2030")
    ensures AllDigits("2033") && AllDigits("2043") && AllDigits("2053")
    ensures DigitsValue("2025") == 2025 && DigitsValue("2026") == 2026 && DigitsValue("2028") == 2028
    ensures DigitsValue("2030") == 2030 && DigitsValue("2033") == 2033 && DigitsValue("2043") == 2043
    ensures DigitsValue("2053") == 2053
  {
    FourDigits("2025", 2025); FourDigits("2026", 2026); FourDigits("2028", 2028);
    FourDigits("2030", 2030); FourDigits("2033", 2033); FourDigits("2043", 2043);
    FourDigits("2053", 2053);
  }

  lemma TableMonthsAndDays()
    ensures AllDigits("11") && AllDigits("12") && AllDigits("15") && AllDigits("30")
    ensures DigitsValue("11") == 11 && DigitsValue("12") == 12 && DigitsValue("15") == 15 && DigitsValue("30") == 30
  {
    TwoDigits("11", 11); TwoDigits("12", 12); TwoDigits("15", 15); TwoDigits("30", 30);
  }

  /** The PV01 of the table as a function of the maturity year. */
  function PV01ByYear(year: int): real {
    if year == 2025 then 0.02 else if year == 2026 then 0.03 else if year == 2028 then 0.05
    else if year == 2030 then 0.07 else if year == 2033 then 0.1 else if year == 2043 then 0.2
    else if year == 2053 then 0.3 else 0.0
  }

  /** Each known bond's maturity year fixes its maturity date and its PV01. */
  lemma KnownBond(c: string)
    requires GetBond(c).Bond?
    ensures var y := GetBond(c).maturity.year;
      && y in {2025, 2026, 2028, 2030, 2033, 2043, 2053}
      && GetBond(c).maturity.month == (if y == 2026 then 12 else 11)
      && GetBond(c).maturity.day == (if y == 2026 || y >= 2033 then 15 else 30)
      && GetPV01Value(c) == PV01ByYear(y)
  {
    BondTable();
    PV01Table();
    if c == "91282CJL6" {
    } else if c == "91282CJP7" {
    } else if c == "91282CJN2" {
    } else if c == "91282CJM4" {
    } else if c == "91282CJJ1" {
    } else if c == "912810TW8" {
    } else {
      assert c == "912810TV0";
    }
  }

  /** Risk grows with tenor: of two known bonds, the later-maturing one has the larger PV01. */
  lemma PV01IncreasesWithMaturity(a: string, b: string)
    requires GetBond(a).Bond? && GetBond(b).Bond?
    requires Before(GetBond(a).maturity, GetBond(b).maturity)
    ensures GetPV01Value(a) < GetPV01Value(b)
  {
    KnownBond(a);
    KnownBond(b);
  }

  /**
   * The millisecond field of `TimeStamp`: the count zero-padded to exactly
   * three digits.
   */
  function PadMillis(count: nat): (s: string)
    requires count < 1000
    ensures |s| == 3 && AllDigits(s) && DigitsValue(s) == count
  {
    var text := NatToString(count);
    NatToStringRoundTrip(count);
    NatToStringRoundTrip(count / 10);
    LeadingZeroValue(text);
    LeadingZeroValue("0" + text);
    assert count >= 10 ==> text == NatToString(count / 10) + [DigitChar(count % 10)];
    assert count >= 100 ==> NatToString(count / 10) == NatToString(count / 100) + [DigitChar(count / 10 % 10)];
    assert "0" + ("0" + text) == "00" + text;
    if count < 10 then "00" + text else if count < 100 then "0" + text else text
  }

  /**
   * `TimeStamp`: the wall-clock text (`strftime` with `%F %T`, a parameter here),
   * a dot, the padded milliseconds and a trailing space.
   */
  function TimeStamp(clock: string, millis: nat): (s: string)
    requires millis < 1000
    ensures |s| == |clock| + 5 && s[..|clock|] == clock && s[|clock|] == '.' && s[|s| - 1] == ' '
    ensures AllDigits(s[|clock| + 1..|clock| + 4]) && DigitsValue(s[|clock| + 1..|clock| + 4]) == millis
  {
    var s := clock + "." + PadMillis(millis) + " ";
    assert s[|clock| + 1..|clock| + 4] == PadMillis(millis);
    s
  }
}
