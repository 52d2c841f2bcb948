# Bond trading system: feeds, price codec and historical sinks

This project models the core of a small C++ US Treasury trading system. It covers:

- the helper library `funcs.hpp`: bond and PV01 lookups, the date reader, the fractional price codec and the millisecond field of the log time stamp;
- the four synthetic feed generators of `datagenerator.hpp`: prices, trades, market data and inquiries;
- the historical persistence sink of `historicaldataservice.hpp`: a service, its connector and its listener;
- the composition root in `main.cpp`, which builds sixteen services, wires their listeners and feeds four files in.

Modules:

| module | file | models |
|---|---|---|
| `Text` | `text.dfy` | `std::to_string` on integers; `std::stod` on digit strings; splitting a line on a separator |
| `PriceCodec` | `pricecodec.dfy` | the two `ConvertPrice` overloads: fractional text `W-TTE` ⇄ a price in points |
| `Funcs` | `funcs.dfy` | `from_string`, `GetBond`, `GetPV01Value`, the millisecond padding of `TimeStamp` |
| `DataGenerator` | `datagenerator.dfy` | the four generators as methods with the source's loops. Each is proved equal to a function that gives the whole file line by line. The lines are then read back field by field. |
| `HistoricalData` | `historicaldataservice.dfy` | `HistoricalDataService`, `HistoricalDataConnector`, `HistoricalDataListener` as classes, plus a file system of append-only text files |
| `Pipeline` | `main.dfy` | the services of `main` as nodes, the thirteen `AddListener` calls, the four `Subscribe` calls |

Modelling choices:

- **Prices.** Prices are exact reals. Every price the system produces is a whole number of 256ths of a point, written `Price(ticks)`. The generators keep the mid price in 256ths, so the source's "within 1e-6 of 99 or 101" test is exact equality. These multiples of 1/256 are exactly representable as doubles, so the floating-point loop computes the same values.
- **Generators.** Each generator takes the price formatter `convert` as a parameter. The source uses `ConvertPrice(double)`, which is `PriceCodec.EncodePrice`. The read-back lemmas are stated for that formatter.
- **Identifiers.** Trade and inquiry identifiers come from a random generator that is not part of this model. They are an input sequence.
- **Time stamps.** The time stamp that `Publish` writes is a parameter.

Facts about the code that are easy to misread:

- **First bid.** The first bid of `prices.txt` (mid 99, half-spread 1/256) is 98.99609375. The encoder truncates it to 98 points, 31 32nds and 7 eighths, which is `98-317`, not `98-311`. See `PriceCodec.EncodeJustBelowNinetyNine` and `DataGenerator.FirstPriceLine`.
- **Position versus risk order.** The wiring in `main.cpp:70-71` adds the risk service's listener to the position service before the historical position listener. If the position service notifies its listeners in the order they were added (its notification loop is not part of this model), a booked trade reaches the risk chain before the position log. See `Pipeline.TradingSystem.Link`, whose contract fixes `Downstream(Position) == [Risk, HistoricalPosition]`.
- **Type parameter.** The historical service is a template whose parameter must provide a product id, `ToStrings` and a default value. The model passes these to the service as functions (`productId`, `toStrings`, `defaultValue`).
- **Maturity dates.** `GetBond` builds each maturity with `from_string` on a `Y/M/D` literal. The model holds the seven dates as constants, and `Funcs.TableMaturities` proves each is what `from_string` reads from the literal.

## Model

| member | source | states |
|---|---|---|
| Text.IntToString | tradingsystem/funcs.hpp:124 | For n ≥ 0, `to_string(n)` is all decimal digits and their value is n. For n < 0 it is `-` followed by digits whose value is −n. |
| Text.NatToStringRoundTrip | tradingsystem/funcs.hpp:124 | Reading the decimal digits `to_string` writes gives back the number. |
| Text.ParseDecimal | tradingsystem/funcs.hpp:109-111 | On the decimal text the codec's buffers hold, `stod` reads the leading run of digits. It succeeds exactly when the text starts with a digit, and reports `invalid_argument` otherwise. |
| Text.ParseDecimalOfDigits | tradingsystem/funcs.hpp:109-111 | On a non-empty digit string, `stod` returns the value of all its digits. |
| PriceCodec.DecodePrice | tradingsystem/funcs.hpp:89-114 | A decoded price is never negative, and only text that starts with a digit decodes. |
| PriceCodec.ScanFirst | tradingsystem/funcs.hpp:93-100 | The whole-points buffer is empty exactly when the text is empty or starts with `-`. Otherwise it starts with the text's first character. |
| PriceCodec.ConvertFractionalPrice | tradingsystem/funcs.hpp:89-114 | The character loop, the three conversions and the sum compute `DecodePrice(s)`. That includes the exception when a buffer does not start with a digit. |
| PriceCodec.ScanAppend | tradingsystem/funcs.hpp:93-107 | The scanner works character by character: scanning `s + t` equals scanning `t` from the state that `s` leaves. |
| PriceCodec.ScanWhole | tradingsystem/funcs.hpp:93-100 | Before the first `-`, every character goes to the whole-points buffer. |
| PriceCodec.ScanEighths | tradingsystem/funcs.hpp:104-105 | After two 32nds characters, every character other than `-` goes to the eighths buffer, with `+` replaced by `4`. |
| PriceCodec.ScanThirtySeconds | tradingsystem/funcs.hpp:101-103 | After the separator, exactly two characters fill the 32nds buffer and advance the section to 3. |
| PriceCodec.ScanFractional | tradingsystem/funcs.hpp:93-107 | `W-TTE` scans to whole `W`, 32nds `TT` and eighths `E` (with `+` read as 4), in section 3. |
| PriceCodec.ScanShort | tradingsystem/funcs.hpp:93-107 | `W-` and `W-T` scan to whole `W` and 32nds `T`, with nothing in the eighths buffer. |
| PriceCodec.DecodeFractional | tradingsystem/funcs.hpp:89-114 | Well-formed `W-TTE` decodes to W + TT/32 + E/256. An empty eighths part counts as 0. |
| PriceCodec.DecodeWhole | tradingsystem/funcs.hpp:109-113 | Text without a separator decodes to its whole number of points. |
| PriceCodec.DecodeShort | tradingsystem/funcs.hpp:110-113 | A missing or one-digit 32nds part and a missing eighths part contribute what they hold, zero when empty. |
| PriceCodec.EncodePrice | tradingsystem/funcs.hpp:118-129 | No encoded price contains a comma, the separator of the feed files. |
| PriceCodec.EncodeByTicks | tradingsystem/funcs.hpp:118-129 | The encoded text depends only on the price counted in whole 256ths. |
| PriceCodec.FractionTicks | tradingsystem/funcs.hpp:119-122 | The floor steps split the price's count of 256ths into whole points and 256ths below a point. |
| PriceCodec.EncodeTicks | tradingsystem/funcs.hpp:118-129 | On a whole number `t` of 256ths, the floor steps are exact. The text is then `t / 256`, `-`, the 32nds padded to two digits and the eighths. |
| PriceCodec.EncodeTruncates | tradingsystem/funcs.hpp:119-122 | Encoding truncates rather than rounds: `p` encodes like `p` cut down to a whole number of 256ths. |
| PriceCodec.ThirtySecondsTextDigits | tradingsystem/funcs.hpp:125 | The 32nds field of any count 0..31 is exactly two digits with that value, starting with 0 to 3. |
| PriceCodec.EighthTextDigit | tradingsystem/funcs.hpp:126 | The eighths field of 0..7 is one character, `+` for 4, and it decodes back to the count. |
| PriceCodec.EncodeShape | tradingsystem/funcs.hpp:118-129 | Every encoded price is the whole part, `-`, two digits worth at most 31 and one character from `0123+567`. |
| PriceCodec.TicksShape | tradingsystem/funcs.hpp:124-128 | The same shape for the text of any whole number of 256ths. |
| PriceCodec.RoundTripTicks | tradingsystem/funcs.hpp:89-129 | Decoding the encoding of a non-negative whole number of 256ths gives the price back. |
| PriceCodec.DecodeEncode | tradingsystem/funcs.hpp:89-129 | For every non-negative price, decode(encode(p)) is `p` truncated to 256ths. |
| PriceCodec.RoundTrip | tradingsystem/funcs.hpp:89-129 | decode(encode(p)) == p for every non-negative multiple of 1/256. |
| PriceCodec.EncodeNinetyNine | tradingsystem/funcs.hpp:118-129 | 99 encodes to `99-000`. |
| PriceCodec.EncodeHundred | tradingsystem/funcs.hpp:118-129 | 100 encodes to `100-000`. |
| PriceCodec.EncodeJustBelowNinetyNine | tradingsystem/funcs.hpp:118-129 | 99 − 1/256 encodes to `98-317`. |
| PriceCodec.EncodeJustAboveNinetyNine | tradingsystem/funcs.hpp:118-129 | 99 + 1/256 encodes to `99-001`. |
| PriceCodec.DecodePlusEighth | tradingsystem/funcs.hpp:105 | `100-00+` decodes to 100 + 4/256. |
| PriceCodec.DecodeFourEighths | tradingsystem/funcs.hpp:105 | `100-004` decodes to 100 + 4/256. |
| PriceCodec.DecodeFixedPoints | tradingsystem/funcs.hpp:105 | `+` and `4` in the eighths position decode alike. |
| Funcs.SkipSpace | tradingsystem/funcs.hpp:27 | Skipping white space never lengthens the text and stops at a non-space character. |
| Funcs.ReadInt | tradingsystem/funcs.hpp:27 | `>> int` consumes at least one character when it succeeds, and stops before a digit can follow. |
| Funcs.ReadDigits | tradingsystem/funcs.hpp:27 | The digit run after the optional sign: a success consumes at least one character and leaves no digit in front. |
| Funcs.ReadChar | tradingsystem/funcs.hpp:27 | `>> char` skips white space and reads one non-space character. |
| Funcs.FromString | tradingsystem/funcs.hpp:22-31 | A date is read from at least five characters, one per extraction. |
| Funcs.ReadIntDigits | tradingsystem/funcs.hpp:27 | A digit run followed by a non-digit reads as its value, and the rest is left unread. |
| Funcs.ReadIntSkipsSpace | tradingsystem/funcs.hpp:27 | Leading white space does not change what `>> int` reads. |
| Funcs.ReadIntSigned | tradingsystem/funcs.hpp:27 | White space and a `+` or `-` sign may precede the digits; `-` negates the value. |
| Funcs.ReadCharFirst | tradingsystem/funcs.hpp:27 | `>> char` on text starting with a non-space character reads that character. |
| Funcs.FromStringWithoutNumber | tradingsystem/funcs.hpp:27-30 | Text that, after white space, does not start with a digit or a sign fails to read. The model reports that failure instead of a date built from unset integers. |
| Funcs.FromStringDayUnread | tradingsystem/funcs.hpp:27-30 | After good year and month fields and delimiters, a day field starting with a character other than a digit, a sign or white space is read as 0. The result is (Y, M, 0). |
| Funcs.FromStringNoDay | tradingsystem/funcs.hpp:27-30 | Text that ends, white space aside, after the second delimiter leaves the day unset, and the model reports a failure. |
| Funcs.SlashDateWithoutDay | tradingsystem/funcs.hpp:22-31 | `2025/11/x` reads as the date (2025, 11, 0). |
| Funcs.FromStringFields | tradingsystem/funcs.hpp:22-31 | Digits, any non-space non-digit delimiter, digits, another such delimiter and digits, followed by a tail that does not start with a digit, read as the date (Y, M, D). The delimiters need not be `/` and the tail is ignored, since the error branch does nothing. |
| Funcs.SlashDate | tradingsystem/funcs.hpp:22-31 | `Y/M/D` with digit fields reads as the date (Y, M, D). |
| Funcs.GetBond | tradingsystem/funcs.hpp:53-63 | A bond is found exactly for the seven table identifiers, and carries the identifier as its product id, with id type CUSIP. Any other identifier gives the default-constructed bond. |
| Funcs.GetPV01Value | tradingsystem/funcs.hpp:67-85 | The PV01 is positive exactly for the seven table identifiers. Any other identifier gives 0. |
| Funcs.BondAndPV01Agree | tradingsystem/funcs.hpp:53-85 | The two tables know the same seven identifiers: a bond is found exactly when the PV01 is positive. |
| Funcs.BondTable | tradingsystem/funcs.hpp:53-63 | Each of the seven CUSIPs maps to its ticker, coupon and maturity date. |
| Funcs.PV01Table | tradingsystem/funcs.hpp:67-85 | The PV01 of each of the seven CUSIPs. |
| Funcs.TableMaturities | tradingsystem/funcs.hpp:55-61 | `from_string` on each of the seven maturity texts gives the date the table holds for it. |
| Funcs.KnownBond | tradingsystem/funcs.hpp:53-85 | A known bond's maturity year is one of the seven table years. That year fixes its month, day and PV01. |
| Funcs.PV01IncreasesWithMaturity | tradingsystem/funcs.hpp:53-85 | Of two known bonds, the one maturing later has the strictly larger PV01. |
| Funcs.PadMillis | tradingsystem/funcs.hpp:139-142 | The millisecond count below 1000 is written as exactly three digits with that value. |
| Funcs.TimeStamp | tradingsystem/funcs.hpp:133-150 | The time stamp is the clock text, `.`, three digits worth the milliseconds, and a trailing space. |
| DataGenerator.Tick | tradingsystem/datagenerator.hpp:37-44 | One tick moves the mid by one 256th, flips the direction exactly when the new mid is 99 or 101, and toggles the spread. |
| DataGenerator.QuoteAfter | tradingsystem/datagenerator.hpp:32-44 | The state at tick `j` of a security has the narrow spread exactly when `j` is even. |
| DataGenerator.QuoteStep | tradingsystem/datagenerator.hpp:35-44 | One pass of the quote loop, from the state at tick `j`, writes bid and offer mid ∓ 1/256 (narrow) or ∓ 1/128 (wide). It leaves the state of tick `j + 1`: spread toggled, mid moved by 1/256, direction flipped at 99 and 101. |
| DataGenerator.WaveTick | tradingsystem/datagenerator.hpp:41-44 | One tick advances the closed-form triangle-wave state to the next tick's. |
| DataGenerator.QuoteAfterClosedForm | tradingsystem/datagenerator.hpp:32-44 | On tick `j`, the mid is 99 + Triangle(j mod 1024)/256, moving up for the first 512 ticks of each period, and the spread is narrow on even ticks. |
| DataGenerator.QuoteBounds | tradingsystem/datagenerator.hpp:32-44 | The mid never leaves [99, 101], and bid < offer on every tick. |
| DataGenerator.SpreadAlternates | tradingsystem/datagenerator.hpp:33-37 | The half-spread alternates 1/256, 1/128, … starting narrow, and offer − bid is twice it. |
| DataGenerator.PriceFile | tradingsystem/datagenerator.hpp:29-47 | `prices.txt` has 7 × 1000 lines. |
| DataGenerator.GeneratePriceData | tradingsystem/datagenerator.hpp:29-47 | The nested loops write exactly `PriceFile`: line `1000 i + j` is security `i` quoted at tick `j`, with the state reset per security. |
| DataGenerator.FirstPriceLine | tradingsystem/datagenerator.hpp:32-39 | The first line of `prices.txt` is the 2-year CUSIP, `98-317`, `99-001`. |
| DataGenerator.Side | tradingsystem/datagenerator.hpp:56 | The side is always BUY or SELL. |
| DataGenerator.TradePrice | tradingsystem/datagenerator.hpp:57 | The trade price is 99 or 100, and it is 99 exactly when the side is BUY. |
| DataGenerator.Book | tradingsystem/datagenerator.hpp:58 | The book is `TRSY` followed by one digit from 1 to 3. |
| DataGenerator.Quantity | tradingsystem/datagenerator.hpp:59 | The quantity lies between 1 and 5 million. |
| DataGenerator.TradeFile | tradingsystem/datagenerator.hpp:50-65 | `trades.txt` has 7 × 10 lines. |
| DataGenerator.GenerateTradeData | tradingsystem/datagenerator.hpp:50-65 | The loops write exactly `TradeFile`. Line `k` is built from the running count `k` and the k-th identifier. |
| DataGenerator.InquiryFile | tradingsystem/datagenerator.hpp:93-107 | `inquiries.txt` has 7 × 10 lines. |
| DataGenerator.GenerateInquiries | tradingsystem/datagenerator.hpp:93-107 | The loops write exactly `InquiryFile`. |
| DataGenerator.MarketPairs | tradingsystem/datagenerator.hpp:68-90 | There is one (bid, offer) line pair per count, 7 × 10000 of them. |
| DataGenerator.MarketFile | tradingsystem/datagenerator.hpp:68-90 | `marketdata.txt` has two lines per count, 140000 in all. |
| DataGenerator.MarketPairAt | tradingsystem/datagenerator.hpp:70-87 | Pair `10000 i + j` is the bid and offer line of tick `j` of security `i`. |
| DataGenerator.MarketFileLines | tradingsystem/datagenerator.hpp:74-87 | The bid and offer lines of tick `j` of security `i` are lines `2 count` and `2 count + 1`, where count = 10000 i + j. |
| DataGenerator.GenerateMarketData | tradingsystem/datagenerator.hpp:68-90 | The loops write exactly `MarketFile`: a bid line, then an offer line, per tick. The quantity follows the count, which is never reset. |
| DataGenerator.EncodeCommaFree | tradingsystem/funcs.hpp:118-129 | The price formatter the generators use, `PriceCodec.EncodePrice`, never writes the field separator. |
| DataGenerator.CusipsHaveNoComma | tradingsystem/datagenerator.hpp:24-26 | The seven identifiers are nine characters long and contain no comma. |
| DataGenerator.CusipsAreKnownBonds | tradingsystem/datagenerator.hpp:24-26 | Every security of the feeds is a bond of the `GetBond` table. |
| DataGenerator.CusipsByRisingPV01 | tradingsystem/datagenerator.hpp:24-26 | The securities are listed in order of strictly rising PV01. |
| DataGenerator.PriceRowSplit | tradingsystem/datagenerator.hpp:39 | A price line splits on commas into identifier, bid text and offer text. |
| DataGenerator.PriceRowReadsBack | tradingsystem/datagenerator.hpp:39 | Every price line reads back as its identifier and the exact bid and offer of its tick. |
| DataGenerator.PricesRepeatPerSecurity | tradingsystem/datagenerator.hpp:31-45 | Every security gets the same quote sequence: lines of one tick differ only in the identifier. |
| DataGenerator.WordsHaveNoComma | tradingsystem/datagenerator.hpp:56-59 | The side, book and quantity fields contain no comma. |
| DataGenerator.TradeRowSplit | tradingsystem/datagenerator.hpp:61 | A trade line splits into its six fields, provided its identifier has no comma. |
| DataGenerator.TradePriceRoundTrip | tradingsystem/datagenerator.hpp:57 | The trade prices 99 and 100 read back exactly. |
| DataGenerator.QuantityRoundTrip | tradingsystem/datagenerator.hpp:59 | A quantity field reads back as the quantity written. |
| DataGenerator.TradeRowReadsBack | tradingsystem/datagenerator.hpp:55-61 | Line `k` reads back as: identifier, trade id, price 99 if `k` is odd and 100 if even, book TRSY(k mod 3 + 1), quantity (k mod 5 + 1) million, and BUY if `k` is odd, SELL if even. |
| DataGenerator.InquiryRowSplit | tradingsystem/datagenerator.hpp:103 | An inquiry line splits into its six fields, provided its identifier has no comma. |
| DataGenerator.InquiryRowReadsBack | tradingsystem/datagenerator.hpp:98-103 | Line `k` reads back as: inquiry id, identifier, the side, quantity and price of the count, and the state RECEIVED. |
| DataGenerator.MarketLineSplit | tradingsystem/datagenerator.hpp:80-81 | A market-data line splits into identifier, price, quantity and side. |
| DataGenerator.MarketLineReadsBack | tradingsystem/datagenerator.hpp:80-81 | A market-data line of a non-negative whole number of 256ths reads back exactly as written. |
| DataGenerator.BidRowReadsBack | tradingsystem/datagenerator.hpp:75-80 | The bid line of tick `j` of security `i` reads back as: identifier, the tick's bid, the count's quantity, and BID. |
| DataGenerator.OfferRowReadsBack | tradingsystem/datagenerator.hpp:75-81 | The offer line of tick `j` of security `i` reads back as: identifier, the tick's offer, the same quantity, and OFFER. |
| DataGenerator.MarketQuantityPerSecurity | tradingsystem/datagenerator.hpp:70-87 | The count runs on across securities, but 10000 is a multiple of 5, so each security's quantity cycle starts afresh. |
| DataGenerator.MarketRepeatsPerSecurity | tradingsystem/datagenerator.hpp:71-88 | Every security gets the same market-data sequence: the lines of one tick differ only in the identifier. |
| HistoricalData.FileName | tradingsystem/historicaldataservice.hpp:184-201 | Each service type's log is a `.txt` file. |
| HistoricalData.FileNamesDistinct | tradingsystem/historicaldataservice.hpp:184-201 | Two service types share a log file only if they are the same type. |
| HistoricalData.Record | tradingsystem/historicaldataservice.hpp:203-208 | The record text starts with the time stamp and ends with a comma. |
| HistoricalData.PublishedLine | tradingsystem/historicaldataservice.hpp:203-209 | A published line starts with the time stamp and ends with a comma and then an end of line. |
| HistoricalData.RecordSplit | tradingsystem/historicaldataservice.hpp:203-208 | A published record, split on commas, gives back the time stamp and the fields, provided none contains a comma. |
| HistoricalData.PublishedLineFields | tradingsystem/historicaldataservice.hpp:203-209 | A published line ends with its only end-of-line. Before that, it splits into the time stamp, the fields in order and an empty last field left by the trailing comma. |
| HistoricalData.FileSystem.Append | tradingsystem/historicaldataservice.hpp:186-209 | Writing to a file opened with `ios::app` extends that file's text. No other file changes. |
| HistoricalData.HistoricalDataService.Default | tradingsystem/historicaldataservice.hpp:73-81 | The default constructor creates an empty store, no listeners, a fresh connector and listener bound to the service, and type INQUIRY. |
| HistoricalData.HistoricalDataService.constructor | tradingsystem/historicaldataservice.hpp:83-91 | The typed constructor is the same, with the given type. |
| HistoricalData.HistoricalDataService.GetData | tradingsystem/historicaldataservice.hpp:96-100 | A stored key returns its record with the store unchanged. An absent key inserts and returns the default record. |
| HistoricalData.HistoricalDataService.OnMessage | tradingsystem/historicaldataservice.hpp:102-106 | Stores the record under its product id, replacing any earlier one. Every other key keeps its entry or its absence. |
| HistoricalData.LastWriteWins | tradingsystem/historicaldataservice.hpp:96-106 | After two records of the same product, a read of the key returns the later one, and the store holds only that one under the key. |
| HistoricalData.HistoricalDataService.AddListener | tradingsystem/historicaldataservice.hpp:108-112 | The listener is appended, keeping earlier listeners and any duplicates. |
| HistoricalData.HistoricalDataService.PersistData | tradingsystem/historicaldataservice.hpp:138-142 | Exactly one published line is appended to the file of the service's type. The key is ignored. |
| HistoricalData.HistoricalDataConnector.constructor | tradingsystem/historicaldataservice.hpp:170-174 | The connector is bound to its service. |
| HistoricalData.HistoricalDataConnector.Publish | tradingsystem/historicaldataservice.hpp:179-210 | The log of the service's type gains the time stamp, each field followed by a comma, and an end of line. Every other file is unchanged. |
| HistoricalData.HistoricalDataConnector.Subscribe | tradingsystem/historicaldataservice.hpp:212-213 | The historical connector reads nothing and changes nothing. |
| HistoricalData.HistoricalDataListener.constructor | tradingsystem/historicaldataservice.hpp:244-248 | The listener is bound to its service. |
| HistoricalData.HistoricalDataListener.ProcessAdd | tradingsystem/historicaldataservice.hpp:253-258 | An add event appends one published line to the service's file, even for a key seen before. The service's store and listeners are untouched. |
| HistoricalData.HistoricalDataListener.ProcessRemove | tradingsystem/historicaldataservice.hpp:260-261 | Remove events change nothing. |
| HistoricalData.HistoricalDataListener.ProcessUpdate | tradingsystem/historicaldataservice.hpp:263-264 | Update events change nothing. |
| Pipeline.SinkFilesDistinct | tradingsystem/main.cpp:53-57 | The five historical services write five different files. |
| Pipeline.Downstream | tradingsystem/main.cpp:61-73 | No service listens to itself. A service has at most two listeners, never the same one twice. Pricing, market data and inquiry, which read feed files, are never listeners. |
| Pipeline.SinksAreTerminal | tradingsystem/main.cpp:61-73 | No listener is added to a historical service. |
| Pipeline.EdgeDescends | tradingsystem/main.cpp:61-73 | Every listener edge goes strictly down in rank. |
| Pipeline.PathDescends | tradingsystem/main.cpp:61-73 | Along a chain of callbacks, the rank drops by at least one per step. |
| Pipeline.Acyclic | tradingsystem/main.cpp:61-73 | No chain of callbacks returns to the service it started from. |
| Pipeline.Reachability | tradingsystem/main.cpp:65-72 | Trade booking reaches the risk log through position and risk. Market data reaches trade booking through algo execution and execution. |
| Pipeline.TradingSystem.constructor | tradingsystem/main.cpp:42-57 | All sixteen services start with empty listener vectors, and nothing has been read yet. |
| Pipeline.TradingSystem.AddListener | tradingsystem/main.cpp:61 | One `AddListener` call appends the listener to one service's vector. Every other vector is unchanged. |
| Pipeline.WiringIsDownstream | tradingsystem/main.cpp:61-73 | Listener vectors holding exactly the wiring's edges, laid out by service, are `Downstream`. |
| Pipeline.TradingSystem.Link | tradingsystem/main.cpp:61-73 | After the thirteen calls, each service's listener vector is `Downstream(s)`, in call order. |
| Pipeline.TradingSystem.Subscribe | tradingsystem/main.cpp:78 | One `Subscribe` call records the file read and the service whose connector read it. |
| Pipeline.TradingSystem.Ingest | tradingsystem/main.cpp:76-94 | The four feeds are read in order: prices, trades, market data, inquiries. |
| Pipeline.Start | tradingsystem/main.cpp:42-94 | `main` after the data generation: a fresh system whose listener graph is `Downstream` and whose feeds were read in order. |

## Left out

- File and console I/O: the generators return their files as sequences of lines. The connector appends to a `FileSystem` map of file texts. The console messages of `main` are not modelled.
- The clock. `TimeStamp` takes the `strftime` text and the millisecond count as parameters. `GetMillisecond` is not modelled because it only reads the clock.
- `GenerateUniform`: a seeded random number generator, not modelled. It is not called by the modelled code.
- `GenerateId`: its identifiers are an input sequence of the trade and inquiry generators, one per line.
- Floating point. Prices are exact reals, and the generators' 1e-6 comparison is exact equality on 256ths. This agrees with the source on the values it produces, but not for arbitrary doubles.
- PriceCodec.EncodePrice: the conversion of `floor`'s result to a 32-bit `int` is not modelled. For prices of two billion points or more that conversion is undefined behaviour in C++; such prices are outside the system's range.
- Text.ParseDecimal: models `stod` only on digit text. Leading white space, signs, a decimal point, exponents, `inf`, `nan`, hexadecimal (`0x1A` is 26 to `stod`, 0 here) and `out_of_range` are not modelled; the codec's buffers hold none of them for the text the system writes. PriceCodec.DecodePrice inherits this: text such as `inf` or ` 99-00` decodes in the source but not in the model.
- Funcs.FromString: since C++11, an `>> int` that finds a character but no number stores 0 and sets failbit, and the extractions after it store nothing; an extraction at the end of the text stores nothing. So when only the day read fails on a character (`2025/11/x`), the source returns (Y, M, 0), and the model does the same (`Funcs.FromStringDayUnread`). Every other failed extraction leaves a variable uninitialised, so the source's date has no defined value; the model returns a failure there. Any text from which the three integers and two delimiters are extracted gives a date, whatever the delimiters and whatever follows. Integer overflow on extraction is not modelled. The conversion to `year_month_day` (a year of type `int`, a month and day converted to `unsigned`) is not modelled: `Date` holds the three integers as read.
- DataGenerator.Quantity: its contract gives only the range. That the quantity is a whole number of millions following the count is stated by `TradeRowReadsBack` and `MarketQuantityPerSecurity`.
- Funcs.GetBond: the source's seven independent `if`s are modelled as one `else if` chain. The seven keys are distinct (`Funcs.TableKeysDiffer`), so at most one test succeeds and the result is the same.
- `Bond`, `Position`, `PV01`, `ExecutionOrder`, `PriceStream` and `Inquiry` (products.hpp), and the `Service`, `Connector` and `ServiceListener` base classes (soa.hpp), are not part of this model. The historical service gets the template parameter's product id, `ToStrings` and default value as functions.
- The business services of `main` (pricing, trade booking, position, risk, market data, algo execution, algo streaming, GUI, execution, streaming, inquiry) are not part of this model. They appear only as nodes of the listener graph. `Pipeline.TradingSystem.Subscribe` records that a feed was read; it does not run records through those services.
- The getters `GetListeners`, `GetConnector`, `GetListener` and `GetServiceType` read a field and are modelled by reading the field.
- The destructors are empty in the source and are not modelled.
- HistoricalData.HistoricalDataService.GetData: returns the record by value. The aliasing of the reference the source returns is not modelled.
- HistoricalData.HistoricalDataService.AddListener: a listener is an `object`, and the listener vectors of `main` hold service names. Listener identity beyond that is not modelled.
- Pipeline.Start: does not include the data generation at `main.cpp:35-38`. The four generators are separate methods in `DataGenerator`.
- The read-back functions (`ReadPrice`, `ReadTrade`, `ReadInquiry`, `ReadMarket`) belong to the model. They follow how the business connectors read the feeds, but those connectors are not part of this model.
