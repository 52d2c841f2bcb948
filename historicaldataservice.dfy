/**
 * The historical persistence sink of `historicaldataservice.hpp`: a service
 * keyed on product identifier that keeps the last record seen per key, an
 * append-only list of listeners, a connector that appends one line per
 * published record to the log file of the service's type, and a listener that
 * persists on add events only.
 *
 * The template parameter's duck-typed needs (`GetProduct().GetProductId()`,
 * `ToStrings()` and the default constructor `std::map::operator[]` calls) are
 * given to the service when it is built. The files the connector opens in
 * append mode are a `FileSystem` object, and the time stamp `TimeStamp()`
 * reads from the clock is a parameter.
 */
module HistoricalData {
  import opened Text

  datatype ServiceType = POSITION | RISK | EXECUTION | STREAMING | INQUIRY

  /** The log file `Publish` opens for each service type. */
  function FileName(t: ServiceType): (name: string)
    ensures |name| > 4 && name[|name| - 4..] == ".txt"
  {
    match t
    case POSITION => "positions.txt"
    case RISK => "risk.txt"
    case EXECUTION => "executions.txt"
    case STREAMING => "streaming.txt"
    case INQUIRY => "allinquiries.txt"
  }

  /** Services of different types never write to the same file. */
  lemma FileNamesDistinct(a: ServiceType, b: ServiceType)
    ensures FileName(a) == FileName(b) <==> a == b
  {
  }

  /** The time stamp, then each field of a record, each followed by a comma, as `Publish` writes them. */
  function Record(timestamp: string, strings: seq<string>): (r: string)
    ensures |r| > |timestamp| && r[..|timestamp|] == timestamp && r[|r| - 1] == ','
    decreases |strings|
  {
    if strings == [] then timestamp + ","
    else
      var init := Record(timestamp, strings[..|strings| - 1]);
      var r := init + strings[|strings| - 1] + ",";
      assert r[..|timestamp|] == init[..|timestamp|];
      r
  }

  /** The text one `Publish` call appends: the time stamp first, the end of line last. */
  function PublishedLine(timestamp: string, strings: seq<string>): (line: string)
    ensures |line| > |timestamp| + 1 && line[..|timestamp|] == timestamp
    ensures line[|line| - 2] == ',' && line[|line| - 1] == '\n'
  {
    var r := Record(timestamp, strings);
    assert (r + "\n")[..|timestamp|] == r[..|timestamp|];
    r + "\n"
  }

  /** A record, and whatever follows its last comma, split back on the comma. */
  lemma {:induction false} RecordSplit(timestamp: string, strings: seq<string>, rest: string)
    requires ',' !in timestamp && ',' !in rest
    requires forall i :: 0 <= i < |strings| ==> ',' !in strings[i]
    ensures Split(Record(timestamp, strings) + rest, ',') == [timestamp] + strings + [rest]
    decreases |strings|
  {
    if strings == [] {
      SplitNone(timestamp, ',');
      SplitLast(timestamp, ',', rest);
    } else {
      var init, last := strings[..|strings| - 1], strings[|strings| - 1];
      RecordSplit(timestamp, init, last);
      SplitLast(Record(timestamp, init) + last, ',', rest);
      assert [timestamp] + init + [last] + [rest] == [timestamp] + strings + [rest];
    }
  }

  /** A character other than the comma occurs in a record only if it occurs in the time stamp or a field. */
  lemma {:induction false} RecordHasNo(timestamp: string, strings: seq<string>, c: char)
    requires c != ',' && c !in timestamp
    requires forall i :: 0 <= i < |strings| ==> c !in strings[i]
    ensures c !in Record(timestamp, strings)
    decreases |strings|
  {
    if strings != [] {
      RecordHasNo(timestamp, strings[..|strings| - 1], c);
    }
  }

  /**
   * A published line is a single line: its text before the end of line splits
   * on commas into the time stamp, the record's fields in order and an empty
   * last field left by the trailing comma.
   */
  lemma PublishedLineFields(timestamp: string, strings: seq<string>)
    requires ',' !in timestamp && '\n' !in timestamp
    requires forall i :: 0 <= i < |strings| ==> ',' !in strings[i] && '\n' !in strings[i]
    ensures var line := PublishedLine(timestamp, strings);
      && line[|line| - 1] == '\n' && '\n' !in line[..|line| - 1]
      && Split(line[..|line| - 1], ',') == [timestamp] + strings + [""]
  {
    var line := PublishedLine(timestamp, strings);
    var record := Record(timestamp, strings);
    assert line[..|line| - 1] == record == record + "";
    RecordSplit(timestamp, strings, "");
    RecordHasNo(timestamp, strings, '\n');
  }

  /** Appending one more field and its comma to the file extends the record written so far. */
  lemma AppendField(before: string, timestamp: string, strings: seq<string>, i: nat)
    requires i < |strings|
    ensures before + Record(timestamp, strings[..i]) + (strings[i] + ",") == before + Record(timestamp, strings[..i + 1])
  {
    assert strings[..i + 1][..i] == strings[..i];
    var r := Record(timestamp, strings[..i]);
    assert Record(timestamp, strings[..i + 1]) == r + strings[i] + ",";
    assert before + r + (strings[i] + ",") == before + (r + strings[i] + ",");
  }

  /** The record before the first field is the time stamp; after the last, the end of line completes the published line. */
  lemma RecordEnds(before: string, timestamp: string, strings: seq<string>)
    ensures before + (timestamp + ",") == before + Record(timestamp, strings[..0])
    ensures before + Record(timestamp, strings[..|strings|]) + "\n" == before + PublishedLine(timestamp, strings)
  {
    assert strings[..0] == [];
    assert strings[..|strings|] == strings;
  }

  /** The files the connectors append to, by name. */
  class FileSystem {
    var files: map<string, string>

    constructor ()
      ensures files == map[]
    {
      files := map[];
    }

    /** The text of a file; opening an absent file for appending creates it empty. */
    function Content(name: string): string
      reads this
    {
      if name in files then files[name] else ""
    }

    /** Appends text to a file opened with `ios::app`. */
    method Append(name: string, text: string)
      modifies this
      ensures files == old(files)[name := old(Content(name)) + text]
    {
      files := files[name := Content(name) + text];
    }
  }

  class HistoricalDataService<T> {
    var historicalDatas: map<string, T>
    var listeners: seq<object>
    var connector: HistoricalDataConnector?<T>
    var listener: HistoricalDataListener?<T>
    const serviceType: ServiceType
    /** `data.GetProduct().GetProductId()`. */
    const productId: T -> string
    /** `data.ToStrings()`. */
    const toStrings: T -> seq<string>
    /** The value `T()` builds. */
    const defaultValue: T

    /** The service owns its connector and listener, and each of them points back at it. */
    ghost predicate Valid()
      reads this
    {
      connector != null && listener != null && connector.service == this && listener.service == this
    }

    /** The default constructor: the type is INQUIRY. */
    constructor Default(productId: T -> string, toStrings: T -> seq<string>, defaultValue: T)
      ensures Valid() && fresh(connector) && fresh(listener)
      ensures historicalDatas == map[] && listeners == [] && serviceType == INQUIRY
      ensures this.productId == productId && this.toStrings == toStrings && this.defaultValue == defaultValue
    {
      historicalDatas := map[];
      listeners := [];
      serviceType := INQUIRY;
      this.productId := productId;
      this.toStrings := toStrings;
      this.defaultValue := defaultValue;
      new;
      connector := new HistoricalDataConnector(this);
      listener := new HistoricalDataListener(this);
    }

    constructor (serviceType: ServiceType, productId: T -> string, toStrings: T -> seq<string>, defaultValue: T)
      ensures Valid() && fresh(connector) && fresh(listener)
      ensures historicalDatas == map[] && listeners == [] && this.serviceType == serviceType
      ensures this.productId == productId && this.toStrings == toStrings && this.defaultValue == defaultValue
    {
      historicalDatas := map[];
      listeners := [];
      this.serviceType := serviceType;
      this.productId := productId;
      this.toStrings := toStrings;
      this.defaultValue := defaultValue;
      new;
      connector := new HistoricalDataConnector(this);
      listener := new HistoricalDataListener(this);
    }

    /** `historicalDatas[key]`: the stored record, or a default record inserted under an absent key. */
    method GetData(key: string) returns (data: T)
      modifies this`historicalDatas
      ensures key in old(historicalDatas) ==> historicalDatas == old(historicalDatas) && data == old(historicalDatas)[key]
      ensures key !in old(historicalDatas) ==> historicalDatas == old(historicalDatas)[key := defaultValue] && data == defaultValue
    {
      if key !in historicalDatas {
        historicalDatas := historicalDatas[key := defaultValue];
      }
      data := historicalDatas[key];
    }

    /** Stores a record under its product identifier, replacing any earlier one: the last write wins. */
    method OnMessage(data: T)
      modifies this`historicalDatas
      ensures historicalDatas == old(historicalDatas)[productId(data) := data]
      ensures forall key :: key != productId(data) ==>
        (key in historicalDatas <==> key in old(historicalDatas)) &&
        (key in historicalDatas ==> historicalDatas[key] == old(historicalDatas)[key])
    {
      historicalDatas := historicalDatas[productId(data) := data];
    }

    /** Appends a listener, keeping the earlier ones and any duplicates. */
    method AddListener(l: object)
      modifies this`listeners
      ensures listeners == old(listeners) + [l]
      ensures |listeners| == |old(listeners)| + 1 && listeners[..|old(listeners)|] == old(listeners)
    {
      listeners := listeners + [l];
    }

    /** Hands the record to the connector to publish; the key is not used. */
    method PersistData(persistKey: string, data: T, fs: FileSystem, timestamp: string)
      requires Valid()
      modifies fs
      ensures fs.files == old(fs.files)[FileName(serviceType) :=
        old(fs.Content(FileName(serviceType))) + PublishedLine(timestamp, toStrings(data))]
    {
      connector.Publish(data, fs, timestamp);
    }
  }

  /** Two records of the same product stored one after the other: a read of the key returns the later one. */
  method LastWriteWins<T>(service: HistoricalDataService<T>, first: T, second: T) returns (read: T)
    requires service.productId(first) == service.productId(second)
    modifies service
    ensures read == second
    ensures service.historicalDatas == old(service.historicalDatas)[service.productId(second) := second]
  {
    service.OnMessage(first);
    service.OnMessage(second);
    read := service.GetData(service.productId(second));
  }

  class HistoricalDataConnector<T> {
    const service: HistoricalDataService<T>

    constructor (service: HistoricalDataService<T>)
      ensures this.service == service
    {
      this.service := service;
    }

    /**
     * Appends the time stamp, then each of the record's strings followed by a
     * comma, then the end of line, to the file of the service's type.
     */
    method Publish(data: T, fs: FileSystem, timestamp: string)
      modifies fs
      ensures fs.files == old(fs.files)[FileName(service.serviceType) :=
        old(fs.Content(FileName(service.serviceType))) + PublishedLine(timestamp, service.toStrings(data))]
    {
      var name := FileName(service.serviceType);
      ghost var before := fs.Content(name);
      fs.Append(name, timestamp + ",");
      var strings := service.toStrings(data);
      RecordEnds(before, timestamp, strings);
      for i := 0 to |strings|
        invariant fs.files == old(fs.files)[name := before + Record(timestamp, strings[..i])]
      {
        AppendField(before, timestamp, strings, i);
        fs.Append(name, strings[i] + ",");
      }
      fs.Append(name, "\n");
    }

    /** The historical connector reads nothing. */
    method Subscribe(feed: seq<string>)
      ensures unchanged(service)
    {
    }
  }

  class HistoricalDataListener<T> {
    const service: HistoricalDataService<T>

    constructor (service: HistoricalDataService<T>)
      ensures this.service == service
    {
      this.service := service;
    }

    /**
     * An add event persists the record: one more line in the service's file,
     * even for a key added before, and the store and listeners untouched.
     */
    method ProcessAdd(data: T, fs: FileSystem, timestamp: string)
      requires service.Valid()
      modifies fs
      ensures fs.files == old(fs.files)[FileName(service.serviceType) :=
        old(fs.Content(FileName(service.serviceType))) + PublishedLine(timestamp, service.toStrings(data))]
      ensures unchanged(service)
    {
      var persistKey := service.productId(data);
      service.PersistData(persistKey, data, fs, timestamp);
    }

    /** Remove events are ignored. */
    method ProcessRemove(data: T, fs: FileSystem)
      ensures unchanged(fs) && unchanged(service)
    {
    }

    /** Update events are ignored. */
    method ProcessUpdate(data: T, fs: FileSystem)
      ensures unchanged(fs) && unchanged(service)
    {
    }
  }
}
