/**
 * The four synthetic feed generators of `datagenerator.hpp`. Each generator is
 * a method whose loops append the lines it would write to its file to a
 * sequence. Mid prices are kept in 256ths of a point, so the source's
 * floating-point "reached 99 or 101" test is exact equality here.
 *
 * Each generator takes the price formatter `convert` it writes prices with;
 * the source uses `ConvertPrice(double)`, which is `PriceCodec.EncodePrice`,
 * and the lemmas about the lines are stated for that formatter. Trade and
 * inquiry identifiers come from a random generator that is not part of this
 * model; they are an input sequence, one identifier per line, in the order the
 * lines are produced.
 */
module DataGenerator {
  import opened Text
  import opened PriceCodec
  import Funcs

  const NUM_SECURITIES := 7
  const NUM_PRICES := 1000
  const NUM_TRADES := 10
  const NUM_MARKETDATA := 10000
  const NUM_INQUIRIES := 10
  const CUSIPS: seq<string> :=
    ["91282CJL6", "91282CJP7", "91282CJN2", "91282CJM4", "91282CJJ1", "912810TW8", "912810TV0"]

  /** The mid starts at 99 and turns at 99 and 101 (in 256ths). */
  const MID_LOW := 99 * 256
  const MID_HIGH := 101 * 256

  // ---------------------------------------------------------------------------
  // The quote state machine shared by the price and market-data feeds
  // ---------------------------------------------------------------------------

  /**
   * The loop state of a quote generator: the mid in 256ths, the direction
   * flag (true: moving up) and the spread flag (true: half-spread 1/256,
   * false: 1/128).
   */
  datatype QuoteState = QuoteState(mid: int, up: bool, narrow: bool)

  const INITIAL_QUOTE := QuoteState(MID_LOW, true, true)

  /** The half-spread in 256ths. */
  function HalfSpread(q: QuoteState): int {
    if q.narrow then 1 else 2
  }

  function Bid(q: QuoteState): int {
    q.mid - HalfSpread(q)
  }

  function Offer(q: QuoteState): int {
    q.mid + HalfSpread(q)
  }

  /**
   * One pass of the inner loop: the spread flag toggles, the mid moves one
   * 256th in the current direction, and the direction flips when the new mid
   * is 99 or 101.
   */
  function Tick(q: QuoteState): (r: QuoteState)
    ensures r.mid == q.mid + 1 || r.mid == q.mid - 1
    ensures r.up != q.up <==> r.mid == MID_LOW || r.mid == MID_HIGH
    ensures r.narrow != q.narrow
  {
    var mid := if q.up then q.mid + 1 else q.mid - 1;
    QuoteState(mid, if mid == MID_LOW || mid == MID_HIGH then !q.up else q.up, !q.narrow)
  }

  /** The quote state at the start of tick `j` of a security: narrow on even ticks. */
  function QuoteAfter(j: nat): (q: QuoteState)
    ensures q.narrow <==> j % 2 == 0
  {
    if j == 0 then INITIAL_QUOTE else ParityStep(j - 1); Tick(QuoteAfter(j - 1))
  }

  /** Tick `j` in terms of the loop variables: its bid and offer, and the state the loop leaves for tick `j + 1`. */
  lemma QuoteStep(j: nat, mid: int, up: bool, narrow: bool)
    requires QuoteState(mid, up, narrow) == QuoteAfter(j)
    ensures Bid(QuoteAfter(j)) == mid - (if narrow then 1 else 2)
    ensures Offer(QuoteAfter(j)) == mid + (if narrow then 1 else 2)
    ensures var next := if up then mid + 1 else mid - 1;
      QuoteAfter(j + 1) == QuoteState(next, if next == MID_LOW || next == MID_HIGH then !up else up, !narrow)
  {
  }

  /** One period of the triangle wave: up from 0 to 512 over 512 ticks, then back down. */
  function Triangle(r: int): (w: int)
    requires 0 <= r < 1024
    ensures 0 <= w <= 512
  {
    if r <= 512 then r else 1024 - r
  }

  /** The triangle wave of period 1024 ticks between 0 and 512. */
  function Wave(j: nat): (w: int)
    ensures 0 <= w <= 512
  {
    Triangle(j % 1024)
  }

  /** The quote state on tick `j` in closed form: mid on the wave, direction and spread by parity. */
  function WaveQuote(j: nat): QuoteState {
    QuoteState(MID_LOW + Wave(j), j % 1024 < 512, j % 2 == 0)
  }

  /** The phase within the period after the next tick. */
  function NextPhase(r: int): int {
    if r == 1023 then 0 else r + 1
  }

  /** Euclidean division by the wave period, stated once. */
  lemma PeriodDivMod(n: int, q: int, r: int)
    requires 0 <= r < 1024 && n == 1024 * q + r
    ensures n % 1024 == r
  {
  }

  lemma PhaseStep(j: nat)
    ensures (j + 1) % 1024 == NextPhase(j % 1024)
  {
    var q, r := j / 1024, j % 1024;
    if r == 1023 {
      PeriodDivMod(j + 1, q + 1, 0);
    } else {
      PeriodDivMod(j + 1, q, r + 1);
    }
  }

  lemma ParityStep(j: nat)
    ensures ((j + 1) % 2 == 0) == (j % 2 != 0)
  {
  }

  /** One tick from phase `r` of the wave lands on the next phase, with the spread flag toggled. */
  lemma TickTriangle(r: int, narrow: bool)
    requires 0 <= r < 1024
    ensures Tick(QuoteState(MID_LOW + Triangle(r), r < 512, narrow))
         == QuoteState(MID_LOW + Triangle(NextPhase(r)), NextPhase(r) < 512, !narrow)
  {
  }

  lemma WaveTick(j: nat)
    ensures Tick(WaveQuote(j)) == WaveQuote(j + 1)
  {
    PhaseStep(j);
    ParityStep(j);
    TickTriangle(j % 1024, j % 2 == 0);
  }

  /**
   * The mid climbs from 99 to 101 in 512 ticks, then falls back to 99 in 512
   * ticks, and so on; the spread flag is narrow on even ticks.
   */
  lemma {:induction false} QuoteAfterClosedForm(j: nat)
    ensures QuoteAfter(j) == WaveQuote(j)
  {
    if j > 0 {
      QuoteAfterClosedForm(j - 1);
      WaveTick(j - 1);
    }
  }

  /** The mid never leaves [99, 101], and bid lies below offer on every tick. */
  lemma QuoteBounds(j: nat)
    ensures MID_LOW <= QuoteAfter(j).mid <= MID_HIGH
    ensures MID_LOW - 2 <= Bid(QuoteAfter(j)) < Offer(QuoteAfter(j)) <= MID_HIGH + 2
  {
    QuoteAfterClosedForm(j);
  }

  /** The half-spread alternates 1/256, 1/128, 1/256, ... starting narrow. */
  lemma SpreadAlternates(j: nat)
    ensures HalfSpread(QuoteAfter(j)) == if j % 2 == 0 then 1 else 2
    ensures Offer(QuoteAfter(j)) - Bid(QuoteAfter(j)) == 2 * HalfSpread(QuoteAfter(j))
  {
    QuoteAfterClosedForm(j);
  }

  /** Count `i * 1000 + j` of `prices.txt` is tick `j` of security `i`. */
  lemma PriceIndex(i: nat, j: nat)
    requires j < NUM_PRICES
    ensures (i * NUM_PRICES + j) / NUM_PRICES == i && (i * NUM_PRICES + j) % NUM_PRICES == j
  {
  }

  /** Count `i * 10 + j` of the trade and inquiry feeds is line `j` of security `i`. */
  lemma TradeIndex(i: nat, j: nat)
    requires j < NUM_TRADES
    ensures (i * NUM_TRADES + j) / NUM_TRADES == i && (i * NUM_TRADES + j) % NUM_TRADES == j
  {
  }

  /** Count `i * 10000 + j` of the market-data feed is tick `j` of security `i`. */
  lemma MarketIndex(i: nat, j: nat)
    requires j < NUM_MARKETDATA
    ensures (i * NUM_MARKETDATA + j) / NUM_MARKETDATA == i
    ensures (i * NUM_MARKETDATA + j) % NUM_MARKETDATA == j
  {
  }

  /** Appending the next expected line keeps a file a prefix of what is expected. */
  lemma Extend<T>(file: seq<T>, line: T, expected: seq<T>)
    requires |file| < |expected| && file == expected[..|file|] && line == expected[|file|]
    ensures file + [line] == expected[..|file| + 1]
  {
  }

  /** Appending the next two expected lines, one after the other, keeps a file a prefix of what is expected. */
  lemma ExtendPair<T>(file: seq<T>, first: T, second: T, expected: seq<T>)
    requires |file| + 1 < |expected| && file == expected[..|file|]
    requires first == expected[|file|] && second == expected[|file| + 1]
    ensures file + [first] + [second] == expected[..|file| + 2]
  {
  }

  // ---------------------------------------------------------------------------
  // prices.txt
  // ---------------------------------------------------------------------------

  /** A `prices.txt` line: identifier, bid and offer. */
  function PriceLine(convert: real -> string, cusip: string, q: QuoteState): string {
    cusip + "," + convert(Price(Bid(q))) + "," + convert(Price(Offer(q)))
  }

  /** Line `k` of `prices.txt`: security `k / 1000`, tick `k % 1000`. */
  function PriceRow(convert: real -> string, k: nat): string
    requires k < NUM_SECURITIES * NUM_PRICES
  {
    PriceLine(convert, CUSIPS[k / NUM_PRICES], QuoteAfter(k % NUM_PRICES))
  }

  /** The whole of `prices.txt`, line by line. */
  function PriceFile(convert: real -> string): (file: seq<string>)
    ensures |file| == NUM_SECURITIES * NUM_PRICES
  {
    seq(NUM_SECURITIES * NUM_PRICES, k requires 0 <= k < NUM_SECURITIES * NUM_PRICES => PriceRow(convert, k))
  }

  /** `GeneratePriceData`: 1000 quotes per security, the quote state reset per security. */
  method GeneratePriceData(convert: real -> string) returns (file: seq<string>)
    ensures file == PriceFile(convert)
  {
    file := [];
    ghost var expected := PriceFile(convert);
    for i := 0 to NUM_SECURITIES
      invariant |file| == i * NUM_PRICES && file == expected[..|file|]
    {
      var mid, up, narrow := MID_LOW, true, true;
      for j := 0 to NUM_PRICES
        invariant |file| == i * NUM_PRICES + j && file == expected[..|file|]
        invariant QuoteState(mid, up, narrow) == QuoteAfter(j)
      {
        var bid := mid - (if narrow then 1 else 2);
        var offer := mid + (if narrow then 1 else 2);
        narrow := !narrow;
        PriceIndex(i, j);
        var line := CUSIPS[i] + "," + convert(Price(bid)) + "," + convert(Price(offer));
        Extend(file, line, expected);
        file := file + [line];
        mid := if up then mid + 1 else mid - 1;
        if mid == MID_LOW || mid == MID_HIGH {
          up := !up;
        }
      }
    }
  }

  /** The first line of `prices.txt`: the 2-year note quoted 1/256 either side of 99. */
  lemma FirstPriceLine()
    ensures PriceRow(EncodePrice, 0) == CUSIPS[0] + "," + "98-317" + "," + "99-001"
  {
    assert Price(Bid(QuoteAfter(0))) == 98.99609375;
    assert Price(Offer(QuoteAfter(0))) == 99.00390625;
    EncodeJustBelowNinetyNine();
    EncodeJustAboveNinetyNine();
  }

  // ---------------------------------------------------------------------------
  // trades.txt and inquiries.txt
  // ---------------------------------------------------------------------------

  /** Odd counts buy, even counts sell. */
  function Side(count: nat): (side: string)
    ensures side == "BUY" || side == "SELL"
  {
    if count % 2 == 1 then "BUY" else "SELL"
  }

  /** Odd counts trade at 99, even counts at 100: buys at 99, sells at 100. */
  function TradePrice(count: nat): (price: real)
    ensures price == 99.0 || price == 100.0
    ensures price == 99.0 <==> Side(count) == "BUY"
  {
    if count % 2 == 1 then 99.0 else 100.0
  }

  /** The quantity cycles through 1, 2, 3, 4 and 5 million. */
  function Quantity(count: nat): (quantity: int)
    ensures 1000000 <= quantity <= 5000000
  {
    (count % 5 + 1) * 1000000
  }

  /** The book cycles through TRSY1, TRSY2 and TRSY3. */
  function Book(count: nat): (book: string)
    ensures |book| == 5 && book[..4] == "TRSY" && IsDigit(book[4]) && 1 <= DigitValue(book[4]) <= 3
  {
    var digit := IntToString(count % 3 + 1);
    assert digit == [digit[0]] && DigitsValue(digit) == DigitValue(digit[0]);
    "TRSY" + digit
  }

  /** Line `k` of `trades.txt`; `ids[k]` is the identifier drawn for it. */
  function TradeRow(convert: real -> string, ids: seq<string>, k: nat): string
    requires k < |ids| && k < NUM_SECURITIES * NUM_TRADES
  {
    CUSIPS[k / NUM_TRADES] + "," + ids[k] + "," + convert(TradePrice(k)) + "," + Book(k) + ","
      + IntToString(Quantity(k)) + "," + Side(k)
  }

  /** The whole of `trades.txt`, line by line. */
  function TradeFile(convert: real -> string, ids: seq<string>): (file: seq<string>)
    requires |ids| == NUM_SECURITIES * NUM_TRADES
    ensures |file| == NUM_SECURITIES * NUM_TRADES
  {
    seq(NUM_SECURITIES * NUM_TRADES, k requires 0 <= k < NUM_SECURITIES * NUM_TRADES => TradeRow(convert, ids, k))
  }

  /** The line the trade loop builds at count `k` is row `k` of the trade file. */
  lemma TradeRowAt(convert: real -> string, ids: seq<string>, i: nat, j: nat, k: nat)
    requires |ids| == NUM_SECURITIES * NUM_TRADES
    requires i < NUM_SECURITIES && j < NUM_TRADES && k == i * NUM_TRADES + j
    ensures CUSIPS[i] + "," + ids[k] + "," + convert(if k % 2 == 1 then 99.0 else 100.0) + ","
      + ("TRSY" + IntToString(k % 3 + 1)) + "," + IntToString((k % 5 + 1) * 1000000) + ","
      + (if k % 2 == 1 then "BUY" else "SELL") == TradeRow(convert, ids, k)
  {
    TradeIndex(i, j);
  }

  /** `GenerateTradeData`: ten trades per security, numbered by one running count. */
  method GenerateTradeData(convert: real -> string, ids: seq<string>) returns (file: seq<string>)
    requires |ids| == NUM_SECURITIES * NUM_TRADES
    ensures file == TradeFile(convert, ids)
  {
    file := [];
    var tradeCount := 0;
    ghost var expected := TradeFile(convert, ids);
    for i := 0 to NUM_SECURITIES
      invariant tradeCount == |file| == i * NUM_TRADES && file == expected[..|file|]
    {
      for j := 0 to NUM_TRADES
        invariant tradeCount == |file| == i * NUM_TRADES + j && file == expected[..|file|]
      {
        var tradeId := ids[tradeCount];
        var side := if tradeCount % 2 == 1 then "BUY" else "SELL";
        var price := convert(if tradeCount % 2 == 1 then 99.0 else 100.0);
        var book := "TRSY" + IntToString(tradeCount % 3 + 1);
        var quantity := (tradeCount % 5 + 1) * 1000000;
        var line := CUSIPS[i] + "," + tradeId + "," + price + "," + book + "," + IntToString(quantity) + "," + side;
        TradeRowAt(convert, ids, i, j, tradeCount);
        Extend(file, line, expected);
        file := file + [line];
        tradeCount := tradeCount + 1;
      }
    }
  }

  /** Line `k` of `inquiries.txt`; `ids[k]` is the identifier drawn for it. */
  function InquiryRow(convert: real -> string, ids: seq<string>, k: nat): string
    requires k < |ids| && k < NUM_SECURITIES * NUM_INQUIRIES
  {
    ids[k] + "," + CUSIPS[k / NUM_INQUIRIES] + "," + Side(k) + "," + IntToString(Quantity(k)) + ","
      + convert(TradePrice(k)) + ",RECEIVED"
  }

  /** The whole of `inquiries.txt`, line by line. */
  function InquiryFile(convert: real -> string, ids: seq<string>): (file: seq<string>)
    requires |ids| == NUM_SECURITIES * NUM_INQUIRIES
    ensures |file| == NUM_SECURITIES * NUM_INQUIRIES
  {
    seq(NUM_SECURITIES * NUM_INQUIRIES, k requires 0 <= k < NUM_SECURITIES * NUM_INQUIRIES => InquiryRow(convert, ids, k))
  }

  /** `GenerateInquiries`: ten inquiries per security, all in state RECEIVED. */
  method GenerateInquiries(convert: real -> string, ids: seq<string>) returns (file: seq<string>)
    requires |ids| == NUM_SECURITIES * NUM_INQUIRIES
    ensures file == InquiryFile(convert, ids)
  {
    file := [];
    var tradeCount := 0;
    ghost var expected := InquiryFile(convert, ids);
    for i := 0 to NUM_SECURITIES
      invariant tradeCount == |file| == i * NUM_INQUIRIES && file == expected[..|file|]
    {
      for j := 0 to NUM_INQUIRIES
        invariant tradeCount == |file| == i * NUM_INQUIRIES + j && file == expected[..|file|]
      {
        var tradeId := ids[tradeCount];
        var side := if tradeCount % 2 == 1 then "BUY" else "SELL";
        var price := convert(if tradeCount % 2 == 1 then 99.0 else 100.0);
        var quantity := (tradeCount % 5 + 1) * 1000000;
        var line := tradeId + "," + CUSIPS[i] + "," + side + "," + IntToString(quantity) + "," + price + ",RECEIVED";
        TradeIndex(i, j);
        Extend(file, line, expected);
        file := file + [line];
        tradeCount := tradeCount + 1;
      }
    }
  }

  // ---------------------------------------------------------------------------
  // marketdata.txt
  // ---------------------------------------------------------------------------

  /** A `marketdata.txt` line: identifier, price, quantity and side. */
  function MarketLine(cusip: string, priceText: string, quantity: int, side: string): string {
    cusip + "," + MarketTail(priceText, quantity, side)
  }

  /** The fields of a `marketdata.txt` line after the identifier. */
  function MarketTail(priceText: string, quantity: int, side: string): string {
    priceText + "," + IntToString(quantity) + "," + side
  }

  /** The bid line of tick `j` of security `i`; the quantity follows the count, which runs on across securities. */
  function BidRow(convert: real -> string, i: nat, j: nat): string
    requires i < NUM_SECURITIES && j < NUM_MARKETDATA
  {
    MarketLine(CUSIPS[i], convert(Price(Bid(QuoteAfter(j)))), Quantity(i * NUM_MARKETDATA + j), "BID")
  }

  /** The offer line of tick `j` of security `i`. */
  function OfferRow(convert: real -> string, i: nat, j: nat): string
    requires i < NUM_SECURITIES && j < NUM_MARKETDATA
  {
    MarketLine(CUSIPS[i], convert(Price(Offer(QuoteAfter(j)))), Quantity(i * NUM_MARKETDATA + j), "OFFER")
  }

  /** The lines of a feed that writes two lines per step, the pairs in order. */
  function Interleave(pairs: seq<(string, string)>): (lines: seq<string>)
    ensures |lines| == 2 * |pairs|
  {
    if pairs == [] then []
    else Interleave(pairs[..|pairs| - 1]) + [pairs[|pairs| - 1].0, pairs[|pairs| - 1].1]
  }

  /** Step `c` of the feed writes lines `2 * c` and `2 * c + 1`. */
  lemma {:induction false} InterleaveAt(pairs: seq<(string, string)>, c: nat)
    requires c < |pairs|
    ensures Interleave(pairs)[2 * c] == pairs[c].0 && Interleave(pairs)[2 * c + 1] == pairs[c].1
  {
    if c < |pairs| - 1 {
      InterleaveAt(pairs[..|pairs| - 1], c);
    }
  }

  /** The (bid, offer) line pairs of `marketdata.txt`, one per count. */
  function MarketPairs(convert: real -> string): (pairs: seq<(string, string)>)
    ensures |pairs| == NUM_SECURITIES * NUM_MARKETDATA
  {
    seq(NUM_SECURITIES * NUM_MARKETDATA, c requires 0 <= c < NUM_SECURITIES * NUM_MARKETDATA =>
      (BidRow(convert, c / NUM_MARKETDATA, c % NUM_MARKETDATA), OfferRow(convert, c / NUM_MARKETDATA, c % NUM_MARKETDATA)))
  }

  /** The whole of `marketdata.txt`, line by line. */
  function MarketFile(convert: real -> string): (file: seq<string>)
    ensures |file| == 2 * NUM_SECURITIES * NUM_MARKETDATA
  {
    Interleave(MarketPairs(convert))
  }

  lemma MarketPairAt(convert: real -> string, i: nat, j: nat)
    requires i < NUM_SECURITIES && j < NUM_MARKETDATA
    ensures MarketPairs(convert)[i * NUM_MARKETDATA + j] == (BidRow(convert, i, j), OfferRow(convert, i, j))
  {
    MarketIndex(i, j);
  }

  /** The bid and offer lines of tick `j` of security `i` are lines `n` and `n + 1` of the file, where `n` is twice the count. */
  lemma MarketFileLines(convert: real -> string, i: nat, j: nat, n: nat)
    requires i < NUM_SECURITIES && j < NUM_MARKETDATA && n == 2 * (i * NUM_MARKETDATA + j)
    ensures n + 1 < |MarketFile(convert)|
    ensures MarketFile(convert)[n] == BidRow(convert, i, j)
    ensures MarketFile(convert)[n + 1] == OfferRow(convert, i, j)
  {
    var count := i * NUM_MARKETDATA + j;
    var pairs := MarketPairs(convert);
    MarketPairAt(convert, i, j);
    InterleaveAt(pairs, count);
    var file := MarketFile(convert);
    assert file == Interleave(pairs);
    assert n == 2 * count && n + 1 == 2 * count + 1;
    assert file[n] == BidRow(convert, i, j);
    assert file[n + 1] == OfferRow(convert, i, j);
  }

  /** The quantity the loop computes from its running count is that of tick `j` of security `i`. */
  lemma QuantityAt(i: nat, j: nat, count: nat)
    requires count == i * NUM_MARKETDATA + j
    ensures 1000000 * (count % 5 + 1) == Quantity(i * NUM_MARKETDATA + j)
  {
  }

  /**
   * One pass of the market-data loop: the bid and offer lines it writes from
   * its bid, offer and quantity extend a prefix of the file by its next two
   * lines.
   */
  lemma MarketStep(convert: real -> string, i: nat, j: nat, count: nat, bid: int, offer: int, quantity: int,
                   file: seq<string>, expected: seq<string>)
    requires i < NUM_SECURITIES && j < NUM_MARKETDATA && count == i * NUM_MARKETDATA + j
    requires bid == Bid(QuoteAfter(j)) && offer == Offer(QuoteAfter(j)) && quantity == 1000000 * (count % 5 + 1)
    requires expected == MarketFile(convert) && |file| == 2 * count && file == expected[..|file|]
    ensures file + [MarketLine(CUSIPS[i], convert(Price(bid)), quantity, "BID")]
                 + [MarketLine(CUSIPS[i], convert(Price(offer)), quantity, "OFFER")] == expected[..|file| + 2]
  {
    MarketRows(convert, i, j, count, bid, offer, quantity);
    MarketFileLines(convert, i, j, |file|);
    ExtendPair(file, BidRow(convert, i, j), OfferRow(convert, i, j), expected);
  }

  /** The two lines one market-data pass writes are the bid and offer rows of its tick. */
  lemma MarketRows(convert: real -> string, i: nat, j: nat, count: nat, bid: int, offer: int, quantity: int)
    requires i < NUM_SECURITIES && j < NUM_MARKETDATA && count == i * NUM_MARKETDATA + j
    requires bid == Bid(QuoteAfter(j)) && offer == Offer(QuoteAfter(j)) && quantity == 1000000 * (count % 5 + 1)
    ensures MarketLine(CUSIPS[i], convert(Price(bid)), quantity, "BID") == BidRow(convert, i, j)
    ensures MarketLine(CUSIPS[i], convert(Price(offer)), quantity, "OFFER") == OfferRow(convert, i, j)
  {
    assert quantity == Quantity(i * NUM_MARKETDATA + j) by { QuantityAt(i, j, count); }
  }

  method GenerateMarketData(convert: real -> string) returns (file: seq<string>)
    ensures file == MarketFile(convert)
  {
    file := [];
    var count := 0;
    ghost var expected := MarketFile(convert);
    for i := 0 to NUM_SECURITIES
      invariant count == i * NUM_MARKETDATA && |file| == 2 * count && file == expected[..|file|]
    {
      var mid, up, narrow := MID_LOW, true, true;
      for j := 0 to NUM_MARKETDATA
        invariant count == i * NUM_MARKETDATA + j && |file| == 2 * count && file == expected[..|file|]
        invariant QuoteState(mid, up, narrow) == QuoteAfter(j)
      {
        QuoteStep(j, mid, up, narrow);
        var quantity := 1000000 * (count % 5 + 1);
        var bid := mid - (if narrow then 1 else 2);
        var offer := mid + (if narrow then 1 else 2);
        narrow := !narrow;
        var bidLine := MarketLine(CUSIPS[i], convert(Price(bid)), quantity, "BID");
        var offerLine := MarketLine(CUSIPS[i], convert(Price(offer)), quantity, "OFFER");
        MarketStep(convert, i, j, count, bid, offer, quantity, file, expected);
        file := file + [bidLine];
        file := file + [offerLine];
        mid := if up then mid + 1 else mid - 1;
        if mid == MID_LOW || mid == MID_HIGH {
          up := !up;
        }
        count := count + 1;
      }
    }
  }

  // ---------------------------------------------------------------------------
  // Reading the feeds back
  // ---------------------------------------------------------------------------

  /** A price formatter whose output never contains the field separator. */
  ghost predicate CommaFree(convert: real -> string) {
    forall p: real :: ',' !in convert(p)
  }

  lemma EncodeCommaFree()
    ensures CommaFree(EncodePrice)
  {
  }

  lemma CusipsHaveNoComma()
    ensures forall i :: 0 <= i < |CUSIPS| ==> ',' !in CUSIPS[i] && |CUSIPS[i]| == 9
  {
  }

  /** Every security of the feeds is a bond of the table. */
  lemma CusipsAreKnownBonds()
    ensures forall i :: 0 <= i < |CUSIPS| ==> Funcs.GetBond(CUSIPS[i]).Bond?
  {
    forall i | 0 <= i < |CUSIPS|
      ensures Funcs.GetBond(CUSIPS[i]).Bond?
    {
      Funcs.PV01Table();
      Funcs.BondAndPV01Agree(CUSIPS[i]);
    }
  }

  /** The securities are listed from the shortest tenor to the longest: PV01 rises in feed order. */
  lemma CusipsByRisingPV01()
    ensures forall i, j :: 0 <= i < j < |CUSIPS| ==> Funcs.GetPV01Value(CUSIPS[i]) < Funcs.GetPV01Value(CUSIPS[j])
  {
    var pv01s := [0.02, 0.03, 0.05, 0.07, 0.1, 0.2, 0.3];
    assert forall i :: 0 <= i < |CUSIPS| ==> Funcs.GetPV01Value(CUSIPS[i]) == pv01s[i] by {
      Funcs.PV01Table();
    }
    assert forall i, j :: 0 <= i < j < |pv01s| ==> pv01s[i] < pv01s[j];
  }

  /** The fields of a `prices.txt` line. */
  datatype PriceFields = PriceFields(cusip: string, bid: real, offer: real)

  /** The fields of a `trades.txt` line. */
  datatype TradeFields = TradeFields(cusip: string, tradeId: string, price: real, book: string, quantity: int, side: string)

  /** The fields of an `inquiries.txt` line. */
  datatype InquiryFields = InquiryFields(inquiryId: string, cusip: string, side: string, quantity: int, price: real, state: string)

  /** The fields of a `marketdata.txt` line. */
  datatype MarketFields = MarketFields(cusip: string, price: real, quantity: int, side: string)

  /**
   * A reader of the feed lines, splitting on `,` and converting prices with
   * `ConvertPrice(const string&)` and quantities as decimal numbers: the inverse
   * the generators are checked against.
   */
  function ReadPrice(line: string): Result<PriceFields> {
    var f := Split(line, ',');
    if |f| != 3 then Failure("field count")
    else match (DecodePrice(f[1]), DecodePrice(f[2]))
      case (Ok(bid), Ok(offer)) => Ok(PriceFields(f[0], bid, offer))
      case _ => Failure("price")
  }

  function ReadTrade(line: string): Result<TradeFields> {
    var f := Split(line, ',');
    if |f| != 6 then Failure("field count")
    else match (DecodePrice(f[2]), ParseDecimal(f[4]))
      case (Ok(price), Ok(quantity)) => Ok(TradeFields(f[0], f[1], price, f[3], quantity, f[5]))
      case _ => Failure("number")
  }

  function ReadInquiry(line: string): Result<InquiryFields> {
    var f := Split(line, ',');
    if |f| != 6 then Failure("field count")
    else match (ParseDecimal(f[3]), DecodePrice(f[4]))
      case (Ok(quantity), Ok(price)) => Ok(InquiryFields(f[0], f[1], f[2], quantity, price, f[5]))
      case _ => Failure("number")
  }

  function ReadMarket(line: string): Result<MarketFields> {
    var f := Split(line, ',');
    if |f| != 4 then Failure("field count")
    else match (DecodePrice(f[1]), ParseDecimal(f[2]))
      case (Ok(price), Ok(quantity)) => Ok(MarketFields(f[0], price, quantity, f[3]))
      case _ => Failure("number")
  }

  /** The three fields of line `k` of `prices.txt`. */
  lemma PriceRowSplit(convert: real -> string, k: nat)
    requires CommaFree(convert) && k < NUM_SECURITIES * NUM_PRICES
    ensures var q := QuoteAfter(k % NUM_PRICES);
      Split(PriceRow(convert, k), ',') == [CUSIPS[k / NUM_PRICES], convert(Price(Bid(q))), convert(Price(Offer(q)))]
  {
    var q := QuoteAfter(k % NUM_PRICES);
    CusipsHaveNoComma();
    SplitFields3(CUSIPS[k / NUM_PRICES], convert(Price(Bid(q))), convert(Price(Offer(q))), ',');
  }

  /** A `prices.txt` line read back: every line is the identifier and the bid and offer of its tick's quote. */
  lemma PriceRowReadsBack(k: nat)
    requires k < NUM_SECURITIES * NUM_PRICES
    ensures var q := QuoteAfter(k % NUM_PRICES);
      ReadPrice(PriceRow(EncodePrice, k)) == Ok(PriceFields(CUSIPS[k / NUM_PRICES], Price(Bid(q)), Price(Offer(q))))
  {
    var q := QuoteAfter(k % NUM_PRICES);
    EncodeCommaFree();
    PriceRowSplit(EncodePrice, k);
    QuoteBounds(k % NUM_PRICES);
    RoundTripTicks(Bid(q));
    RoundTripTicks(Offer(q));
  }

  /** Every security gets the same quote sequence: lines of one tick differ only in the identifier. */
  lemma PricesRepeatPerSecurity(convert: real -> string, i1: nat, i2: nat, j: nat)
    requires i1 < NUM_SECURITIES && i2 < NUM_SECURITIES && j < NUM_PRICES
    ensures PriceRow(convert, i1 * NUM_PRICES + j)[..9] == CUSIPS[i1]
    ensures PriceRow(convert, i1 * NUM_PRICES + j)[9..] == PriceRow(convert, i2 * NUM_PRICES + j)[9..]
  {
    PriceIndex(i1, j);
    PriceIndex(i2, j);
    CusipsHaveNoComma();
  }

  /** The fixed words of the feeds carry no field separator. */
  lemma WordsHaveNoComma(count: nat)
    ensures ',' !in Side(count) && ',' !in Book(count) && ',' !in IntToString(Quantity(count))
  {
    assert IntToString(count % 3 + 1) == [DigitChar(count % 3 + 1)];
    NumeralHasNo(Quantity(count), ',');
  }

  /** The six fields of line `k` of `trades.txt`, if its identifier has no comma. */
  lemma TradeRowSplit(convert: real -> string, ids: seq<string>, k: nat)
    requires CommaFree(convert) && k < |ids| && k < NUM_SECURITIES * NUM_TRADES && ',' !in ids[k]
    ensures Split(TradeRow(convert, ids, k), ',')
         == [CUSIPS[k / NUM_TRADES], ids[k], convert(TradePrice(k)), Book(k), IntToString(Quantity(k)), Side(k)]
  {
    CusipsHaveNoComma();
    WordsHaveNoComma(k);
    SplitFields6(CUSIPS[k / NUM_TRADES], ids[k], convert(TradePrice(k)), Book(k), IntToString(Quantity(k)), Side(k), ',');
  }

  /** The trade prices 99 and 100 read back exactly. */
  lemma TradePriceRoundTrip(count: nat)
    ensures DecodePrice(EncodePrice(TradePrice(count))) == Ok(TradePrice(count))
  {
    if count % 2 == 1 {
      assert TradePrice(count) == Price(99 * 256);
      RoundTripTicks(99 * 256);
    } else {
      assert TradePrice(count) == Price(100 * 256);
      RoundTripTicks(100 * 256);
    }
  }

  /** A quantity field reads back as the quantity written. */
  lemma QuantityRoundTrip(count: nat)
    ensures ParseDecimal(IntToString(Quantity(count))) == Ok(Quantity(count))
  {
    NatToStringRoundTrip(Quantity(count));
    ParseDecimalOfDigits(IntToString(Quantity(count)));
  }

  /**
   * A `trades.txt` line read back: identifier, trade id, a price of 99 on odd
   * counts and 100 on even ones, book TRSY1 to TRSY3 by count modulo 3, a
   * quantity of 1 to 5 million by count modulo 5, and BUY on odd counts, SELL
   * on even ones.
   */
  lemma TradeRowReadsBack(ids: seq<string>, k: nat)
    requires k < |ids| && k < NUM_SECURITIES * NUM_TRADES && ',' !in ids[k]
    ensures ReadTrade(TradeRow(EncodePrice, ids, k))
         == Ok(TradeFields(CUSIPS[k / NUM_TRADES], ids[k], if k % 2 == 1 then 99.0 else 100.0,
                           "TRSY" + [DigitChar(k % 3 + 1)], (k % 5 + 1) * 1000000, if k % 2 == 1 then "BUY" else "SELL"))
  {
    EncodeCommaFree();
    TradeRowSplit(EncodePrice, ids, k);
    TradePriceRoundTrip(k);
    QuantityRoundTrip(k);
    assert IntToString(k % 3 + 1) == [DigitChar(k % 3 + 1)];
  }

  /** The six fields of line `k` of `inquiries.txt`, if its identifier has no comma. */
  lemma InquiryRowSplit(convert: real -> string, ids: seq<string>, k: nat)
    requires CommaFree(convert) && k < |ids| && k < NUM_SECURITIES * NUM_INQUIRIES && ',' !in ids[k]
    ensures Split(InquiryRow(convert, ids, k), ',')
         == [ids[k], CUSIPS[k / NUM_INQUIRIES], Side(k), IntToString(Quantity(k)), convert(TradePrice(k)), "RECEIVED"]
  {
    CusipsHaveNoComma();
    WordsHaveNoComma(k);
    assert InquiryRow(convert, ids, k)
        == ids[k] + "," + CUSIPS[k / NUM_INQUIRIES] + "," + Side(k) + "," + IntToString(Quantity(k)) + ","
           + convert(TradePrice(k)) + "," + "RECEIVED";
    SplitFields6(ids[k], CUSIPS[k / NUM_INQUIRIES], Side(k), IntToString(Quantity(k)), convert(TradePrice(k)), "RECEIVED", ',');
  }

  /**
   * An `inquiries.txt` line read back: inquiry id, identifier, BUY on odd
   * counts and SELL on even ones, the quantity and price of the trade with the
   * same count, and the state RECEIVED.
   */
  lemma InquiryRowReadsBack(ids: seq<string>, k: nat)
    requires k < |ids| && k < NUM_SECURITIES * NUM_INQUIRIES && ',' !in ids[k]
    ensures ReadInquiry(InquiryRow(EncodePrice, ids, k))
         == Ok(InquiryFields(ids[k], CUSIPS[k / NUM_INQUIRIES], if k % 2 == 1 then "BUY" else "SELL",
                             (k % 5 + 1) * 1000000, if k % 2 == 1 then 99.0 else 100.0, "RECEIVED"))
  {
    EncodeCommaFree();
    InquiryRowSplit(EncodePrice, ids, k);
    TradePriceRoundTrip(k);
    QuantityRoundTrip(k);
  }

  /** The four fields of a `marketdata.txt` line. */
  lemma MarketLineSplit(cusip: string, priceText: string, quantity: nat, side: string)
    requires ',' !in cusip && ',' !in priceText && ',' !in side
    ensures Split(MarketLine(cusip, priceText, quantity, side), ',') == [cusip, priceText, IntToString(quantity), side]
  {
    NumeralHasNo(quantity, ',');
    SplitFields3(priceText, IntToString(quantity), side, ',');
    SplitField(cusip, ',', MarketTail(priceText, quantity, side));
  }

  /** A market-data line written with `EncodePrice` reads back as the identifier, price, quantity and side it was written with. */
  lemma MarketLineReadsBack(cusip: string, ticks: int, count: nat, side: string)
    requires ',' !in cusip && ',' !in side && ticks >= 0
    ensures ReadMarket(MarketLine(cusip, EncodePrice(Price(ticks)), Quantity(count), side))
         == Ok(MarketFields(cusip, Price(ticks), Quantity(count), side))
  {
    MarketLineSplit(cusip, EncodePrice(Price(ticks)), Quantity(count), side);
    RoundTripTicks(ticks);
    QuantityRoundTrip(count);
  }

  /** The bid line of tick `j` of security `i` read back: identifier, the bid of the tick's quote, the count's quantity, BID. */
  lemma BidRowReadsBack(i: nat, j: nat)
    requires i < NUM_SECURITIES && j < NUM_MARKETDATA
    ensures ReadMarket(BidRow(EncodePrice, i, j))
         == Ok(MarketFields(CUSIPS[i], Price(Bid(QuoteAfter(j))), Quantity(i * NUM_MARKETDATA + j), "BID"))
  {
    var ticks := Bid(QuoteAfter(j));
    assert ticks >= 0 by { QuoteBounds(j); }
    assert ',' !in CUSIPS[i] by { CusipsHaveNoComma(); }
    MarketLineReadsBack(CUSIPS[i], ticks, i * NUM_MARKETDATA + j, "BID");
  }

  /** The offer line of tick `j` of security `i` read back: identifier, the offer of the tick's quote, the same quantity, OFFER. */
  lemma OfferRowReadsBack(i: nat, j: nat)
    requires i < NUM_SECURITIES && j < NUM_MARKETDATA
    ensures ReadMarket(OfferRow(EncodePrice, i, j))
         == Ok(MarketFields(CUSIPS[i], Price(Offer(QuoteAfter(j))), Quantity(i * NUM_MARKETDATA + j), "OFFER"))
  {
    var ticks := Offer(QuoteAfter(j));
    assert ticks >= 0 by { QuoteBounds(j); }
    assert ',' !in CUSIPS[i] by { CusipsHaveNoComma(); }
    MarketLineReadsBack(CUSIPS[i], ticks, i * NUM_MARKETDATA + j, "OFFER");
  }

  /**
   * The market-data count runs on across securities without a reset, but
   * 10000 is a multiple of 5, so each security's quantity cycle starts afresh.
   */
  lemma MarketQuantityPerSecurity(i: nat, j: nat)
    ensures Quantity(i * NUM_MARKETDATA + j) == Quantity(j)
  {
    var q, r := j / 5, j % 5;
    assert i * NUM_MARKETDATA + j == 5 * (i * 2000 + q) + r;
    QuantityDivMod(i * NUM_MARKETDATA + j, i * 2000 + q, r);
  }

  /** Euclidean division by the length of the quantity cycle, stated once. */
  lemma QuantityDivMod(n: int, q: int, r: int)
    requires 0 <= r < 5 && n == 5 * q + r
    ensures n % 5 == r
  {
  }

  /** A market-data line is its identifier followed by a tail that does not depend on the identifier. */
  lemma MarketLineTail(cusip1: string, cusip2: string, priceText: string, quantity: int, side: string)
    requires |cusip1| == |cusip2|
    ensures MarketLine(cusip1, priceText, quantity, side)[..|cusip1|] == cusip1
    ensures MarketLine(cusip1, priceText, quantity, side)[|cusip1|..] == MarketLine(cusip2, priceText, quantity, side)[|cusip2|..]
  {
    var tail := "," + MarketTail(priceText, quantity, side);
    assert MarketLine(cusip1, priceText, quantity, side) == cusip1 + tail;
    assert MarketLine(cusip2, priceText, quantity, side) == cusip2 + tail;
  }

  /** Every security gets the same market-data sequence: the lines of one tick differ only in the identifier. */
  lemma MarketRepeatsPerSecurity(convert: real -> string, i1: nat, i2: nat, j: nat)
    requires i1 < NUM_SECURITIES && i2 < NUM_SECURITIES && j < NUM_MARKETDATA
    ensures BidRow(convert, i1, j)[..9] == CUSIPS[i1] && OfferRow(convert, i1, j)[..9] == CUSIPS[i1]
    ensures BidRow(convert, i1, j)[9..] == BidRow(convert, i2, j)[9..]
    ensures OfferRow(convert, i1, j)[9..] == OfferRow(convert, i2, j)[9..]
  {
    CusipsHaveNoComma();
    MarketQuantityPerSecurity(i1, j);
    MarketQuantityPerSecurity(i2, j);
    var bid, offer := convert(Price(Bid(QuoteAfter(j)))), convert(Price(Offer(QuoteAfter(j))));
    MarketLineTail(CUSIPS[i1], CUSIPS[i2], bid, Quantity(j), "BID");
    MarketLineTail(CUSIPS[i1], CUSIPS[i2], offer, Quantity(j), "OFFER");
  }
}
