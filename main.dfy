/**
 * The composition root of `main.cpp`: sixteen services, thirteen
 * `AddListener` calls that build the listener graph, and four `Subscribe`
 * calls that feed the generated files in. The business services other than
 * the historical sinks are not part of this model; they appear only as nodes.
 * A listener edge `a -> b` means `b`'s listener was added to `a`, so `a`
 * calls `b` back on every event, in the order the listeners were added.
 */
module Pipeline {
  import opened HistoricalData

  datatype Service =
    | Pricing | TradeBooking | Position | Risk | MarketData | AlgoExecution | AlgoStreaming | GUI
    | Execution | Streaming | Inquiry
    | HistoricalPosition | HistoricalRisk | HistoricalExecution | HistoricalStreaming | HistoricalInquiry

  predicate IsHistorical(s: Service) {
    s.HistoricalPosition? || s.HistoricalRisk? || s.HistoricalExecution? || s.HistoricalStreaming? || s.HistoricalInquiry?
  }

  /** The `ServiceType` each historical service is built with. */
  function SinkType(s: Service): ServiceType
    requires IsHistorical(s)
  {
    match s
    case HistoricalPosition => POSITION
    case HistoricalRisk => RISK
    case HistoricalExecution => EXECUTION
    case HistoricalStreaming => STREAMING
    case HistoricalInquiry => INQUIRY
  }

  /** The five historical sinks write to five different files. */
  lemma SinkFilesDistinct(a: Service, b: Service)
    requires IsHistorical(a) && IsHistorical(b) && a != b
    ensures FileName(SinkType(a)) != FileName(SinkType(b))
  {
    FileNamesDistinct(SinkType(a), SinkType(b));
  }

  /** The feed files handed to `Subscribe`, in program order, with the service whose connector reads each. */
  const FEEDS: seq<(string, Service)> := [
    ("prices.txt", Pricing),
    ("trades.txt", TradeBooking),
    ("marketdata.txt", MarketData),
    ("inquiries.txt", Inquiry)
  ]

  /**
   * The listener vector of each service once the wiring is done: the listeners
   * added to it, in call order. No service listens to itself, a service has
   * at most two listeners and never the same one twice, and the pricing,
   * market-data and inquiry services, which read feed files, are never
   * listeners (trade booking reads a feed file too, and also listens to
   * execution).
   */
  function Downstream(s: Service): (listeners: seq<Service>)
    ensures s !in listeners
    ensures |listeners| <= 2 && (|listeners| == 2 ==> listeners[0] != listeners[1])
    ensures Pricing !in listeners && MarketData !in listeners && Inquiry !in listeners
  {
    match s
    case Pricing => [AlgoStreaming, GUI]
    case AlgoStreaming => [Streaming]
    case Streaming => [HistoricalStreaming]
    case MarketData => [AlgoExecution]
    case AlgoExecution => [Execution]
    case Execution => [TradeBooking, HistoricalExecution]
    case TradeBooking => [Position]
    case Position => [Risk, HistoricalPosition]
    case Risk => [HistoricalRisk]
    case Inquiry => [HistoricalInquiry]
    case _ => []
  }

  /** The historical services receive no listeners: they end every chain of callbacks. */
  lemma SinksAreTerminal(s: Service)
    requires IsHistorical(s)
    ensures Downstream(s) == []
  {
  }

  predicate Edge(a: Service, b: Service) {
    b in Downstream(a)
  }

  /** A chain of callbacks: each service is a listener of the one before it. */
  predicate IsPath(p: seq<Service>) {
    |p| >= 1 && forall i :: 0 <= i < |p| - 1 ==> Edge(p[i], p[i + 1])
  }

  /** The length of the longest chain of callbacks a service starts. */
  function Rank(s: Service): nat {
    match s
    case MarketData => 6
    case AlgoExecution => 5
    case Execution => 4
    case TradeBooking => 3
    case Pricing => 3
    case Position => 2
    case AlgoStreaming => 2
    case Risk => 1
    case Streaming => 1
    case Inquiry => 1
    case _ => 0
  }

  /** Every listener edge goes down in rank. */
  lemma EdgeDescends(a: Service, b: Service)
    requires Edge(a, b)
    ensures Rank(b) < Rank(a)
  {
  }

  lemma {:induction false} PathDescends(p: seq<Service>)
    requires IsPath(p)
    ensures Rank(p[|p| - 1]) + |p| - 1 <= Rank(p[0])
    decreases |p|
  {
    if |p| > 1 {
      assert IsPath(p[1..]) by {
        forall i | 0 <= i < |p[1..]| - 1 ensures Edge(p[1..][i], p[1..][i + 1]) {
          assert Edge(p[i + 1], p[i + 2]);
        }
      }
      PathDescends(p[1..]);
      assert Edge(p[0], p[1]);
      EdgeDescends(p[0], p[1]);
    }
  }

  /** The listener graph is acyclic: no chain of callbacks returns to the service it started from. */
  lemma Acyclic(p: seq<Service>)
    requires IsPath(p) && |p| > 1
    ensures p[0] != p[|p| - 1]
  {
    PathDescends(p);
  }

  /** Booked trades reach the risk log through positions, and market data reaches trade booking through executions. */
  lemma Reachability()
    ensures IsPath([TradeBooking, Position, Risk, HistoricalRisk])
    ensures IsPath([MarketData, AlgoExecution, Execution, TradeBooking])
  {
    var p := [TradeBooking, Position, Risk, HistoricalRisk];
    assert Edge(p[0], p[1]) && Edge(p[1], p[2]) && Edge(p[2], p[3]);
    var q := [MarketData, AlgoExecution, Execution, TradeBooking];
    assert Edge(q[0], q[1]) && Edge(q[1], q[2]) && Edge(q[2], q[3]);
  }

  /** The position of a service in `TradingSystem.listeners`, in the order `main` declares the services. */
  function Ordinal(s: Service): (i: nat)
    ensures i < 16
  {
    match s
    case Pricing => 0
    case TradeBooking => 1
    case Position => 2
    case Risk => 3
    case MarketData => 4
    case AlgoExecution => 5
    case AlgoStreaming => 6
    case GUI => 7
    case Execution => 8
    case Streaming => 9
    case Inquiry => 10
    case HistoricalPosition => 11
    case HistoricalRisk => 12
    case HistoricalExecution => 13
    case HistoricalStreaming => 14
    case HistoricalInquiry => 15
  }

  /** Listener vectors laid out by ordinal that hold the wiring's edges are `Downstream`. */
  lemma WiringIsDownstream(vectors: seq<seq<Service>>)
    requires |vectors| == 16
    requires vectors[0] == [AlgoStreaming, GUI] && vectors[1] == [Position]
    requires vectors[2] == [Risk, HistoricalPosition] && vectors[3] == [HistoricalRisk]
    requires vectors[4] == [AlgoExecution] && vectors[5] == [Execution] && vectors[6] == [Streaming]
    requires vectors[7] == [] && vectors[8] == [TradeBooking, HistoricalExecution]
    requires vectors[9] == [HistoricalStreaming] && vectors[10] == [HistoricalInquiry]
    requires forall i :: 11 <= i < 16 ==> vectors[i] == []
    ensures forall s :: vectors[Ordinal(s)] == Downstream(s)
  {
  }

  /** The services of `main`, as the listener vectors they hold and the feeds their connectors have read. */
  class TradingSystem {
    /** The listener vector of each service, at the service's ordinal. */
    var listeners: seq<seq<Service>>
    /** The `Subscribe` calls made so far: the file read and the service whose connector read it. */
    var subscribed: seq<(string, Service)>

    ghost predicate Valid()
      reads this
    {
      |listeners| == 16
    }

    function ListenersOf(s: Service): seq<Service>
      reads this
      requires Valid()
    {
      listeners[Ordinal(s)]
    }

    /** The sixteen services are built with empty listener vectors and nothing read. */
    constructor ()
      ensures Valid() && subscribed == []
      ensures forall i :: 0 <= i < 16 ==> listeners[i] == []
    {
      listeners := seq(16, _ => []);
      subscribed := [];
    }

    /** `s.AddListener(l.GetListener())`: appends `l` to the end of `s`'s vector and leaves every other vector alone. */
    method AddListener(s: Service, l: Service)
      requires Valid()
      modifies this`listeners
      ensures Valid() && listeners == old(listeners)[Ordinal(s) := old(listeners)[Ordinal(s)] + [l]]
    {
      listeners := listeners[Ordinal(s) := listeners[Ordinal(s)] + [l]];
    }

    /** The thirteen `AddListener` calls of the wiring, in program order. */
    method Link()
      requires Valid() && forall i :: 0 <= i < 16 ==> listeners[i] == []
      modifies this`listeners
      ensures Valid() && forall s :: ListenersOf(s) == Downstream(s)
    {
      AddListener(Pricing, AlgoStreaming);
      AddListener(Pricing, GUI);
      AddListener(AlgoStreaming, Streaming);
      AddListener(Streaming, HistoricalStreaming);
      AddListener(MarketData, AlgoExecution);
      AddListener(AlgoExecution, Execution);
      AddListener(Execution, TradeBooking);
      AddListener(Execution, HistoricalExecution);
      AddListener(TradeBooking, Position);
      AddListener(Position, Risk);
      AddListener(Position, HistoricalPosition);
      AddListener(Risk, HistoricalRisk);
      AddListener(Inquiry, HistoricalInquiry);
      WiringIsDownstream(listeners);
    }

    /** `s.GetConnector()->Subscribe(file)`: records that `s`'s connector read `file`. */
    method Subscribe(s: Service, file: string)
      modifies this`subscribed
      ensures subscribed == old(subscribed) + [(file, s)]
    {
      subscribed := subscribed + [(file, s)];
    }

    /** The four feeds, read one after another. */
    method Ingest()
      modifies this`subscribed
      ensures subscribed == old(subscribed) + FEEDS
    {
      Subscribe(Pricing, "prices.txt");
      Subscribe(TradeBooking, "trades.txt");
      Subscribe(MarketData, "marketdata.txt");
      Subscribe(Inquiry, "inquiries.txt");
    }
  }

  /** `main` once the feeds are generated: build the services, wire them, then feed them in order. */
  method Start() returns (system: TradingSystem)
    ensures fresh(system) && system.Valid() && system.subscribed == FEEDS
    ensures forall s :: system.ListenersOf(s) == Downstream(s)
  {
    system := new TradingSystem();
    system.Link();
    system.Ingest();
  }
}
