/** TcShapingRuleParser: the per-instance relational store and parsed-device
    cache, and the entry points that rebuild the active shaping configuration
    as {device: {outgoing: ..., incoming: ...}}. */
module RuleParser {

  import opened TcTypes
  import opened FlowKey
  import opened ShapingRule

  datatype TableKind = ClassTable | FilterTable | QdiscTable

  datatype Direction = Outgoing | Incoming

  /** The rows the class, filter and qdisc parsers produce from one device's
      `tc ... show` output. */
  datatype Listing = Listing(classes: seq<Row>, filters: seq<Row>, qdiscs: seq<Row>)

  /** The in-memory database: one table per kind, absent until first created. */
  type Store = map<TableKind, seq<Row>>

  function ListingOf(listings: map<string, Listing>, device: string): Listing
  {
    if device in listings then listings[device] else Listing([], [], [])
  }

  function RowsOf(listing: Listing, kind: TableKind): seq<Row>
  {
    match kind
    case ClassTable => listing.classes
    case FilterTable => listing.filters
    case QdiscTable => listing.qdiscs
  }

  /** The rows as the parser stores them, tagged with their device. The
      element-wise ensures only spells out the comprehension for the proofs
      about selects; what tagging keeps is TaggedKeepsColumns. */
  function Tagged(rows: seq<Row>, device: string): (tagged: seq<Row>)
    ensures |tagged| == |rows|
    ensures forall i :: 0 <= i < |rows| ==> DeviceKey in tagged[i] && tagged[i][DeviceKey] == Str(device)
    ensures forall i :: 0 <= i < |rows| ==> tagged[i] == rows[i][DeviceKey := Str(device)]
  {
    seq(|rows|, i requires 0 <= i < |rows| => rows[i][DeviceKey := Str(device)])
  }

  /** Tagging touches only the device column. */
  lemma TaggedKeepsColumns(rows: seq<Row>, device: string)
    ensures forall i :: 0 <= i < |rows| ==> Tagged(rows, device)[i] - {DeviceKey} == rows[i] - {DeviceKey}
  {
  }

  /** A table's rows; a table never created reads as empty (TableNotFoundError). */
  function Table(store: Store, kind: TableKind): seq<Row>
  {
    if kind in store then store[kind] else []
  }

  /** The rows whose device column equals `device`, in table order. */
  function WhereDevice(rows: seq<Row>, device: string): (selected: seq<Row>)
    ensures |selected| <= |rows|
    ensures forall i :: 0 <= i < |selected| ==> Get(selected[i], DeviceKey) == Str(device)
    ensures forall row :: row in selected ==> row in rows
    ensures forall i :: 0 <= i < |rows| && Get(rows[i], DeviceKey) == Str(device) ==> rows[i] in selected
    decreases |rows|
  {
    if rows == [] then []
    else (if Get(rows[0], DeviceKey) == Str(device) then [rows[0]] else []) + WhereDevice(rows[1..], device)
  }

  /** `select_as_dict(table, where=Where(device, device))`. */
  function Select(store: Store, kind: TableKind, device: string): seq<Row>
  {
    WhereDevice(Table(store, kind), device)
  }

  function Insert(store: Store, kind: TableKind, rows: seq<Row>): Store
  {
    store[kind := Table(store, kind) + rows]
  }

  /** The store after parsing one device: its class, then filter, then qdisc rows. */
  function ParseInto(store: Store, listings: map<string, Listing>, device: string): Store
  {
    var listing := ListingOf(listings, device);
    var s1 := Insert(store, ClassTable, Tagged(listing.classes, device));
    var s2 := Insert(s1, FilterTable, Tagged(listing.filters, device));
    Insert(s2, QdiscTable, Tagged(listing.qdiscs, device))
  }

  /** What changes the store between two clears: a device's parse, or a
      filter getter's fresh run of the filter parser, which appends the
      device's filter rows without touching the cache. */
  datatype Event = DeviceParsed(device: string) | FilterRead(device: string)

  /** The store after one event. */
  function Apply(store: Store, listings: map<string, Listing>, event: Event): Store
  {
    match event
    case DeviceParsed(d) => ParseInto(store, listings, d)
    case FilterRead(d) => Insert(store, FilterTable, Tagged(ListingOf(listings, d).filters, d))
  }

  /** The store after the given events in order, from an empty database. */
  function StoreAfter(listings: map<string, Listing>, history: seq<Event>): Store
    decreases |history|
  {
    if history == [] then map[]
    else Apply(StoreAfter(listings, history[..|history| - 1]), listings, history[|history| - 1])
  }

  /** Whether the event stores rows of `device` in the table of `kind`. */
  predicate Adds(event: Event, kind: TableKind, device: string)
  {
    event.device == device && (event.DeviceParsed? || kind == FilterTable)
  }

  /** How many times the history stored `device`'s rows in the table of `kind`. */
  function CopiesIn(history: seq<Event>, kind: TableKind, device: string): nat
    decreases |history|
  {
    if history == [] then 0
    else CopiesIn(history[..|history| - 1], kind, device) + if Adds(history[|history| - 1], kind, device) then 1 else 0
  }

  /** How many times the history parsed `device`. Only a parse stores class
      rows (a filter read adds to the filter table alone), so this is the
      number of `DeviceParsed(device)` events. */
  function ParseCount(history: seq<Event>, device: string): nat
  {
    CopiesIn(history, ClassTable, device)
  }

  lemma {:induction false} WhereDeviceAppend(a: seq<Row>, b: seq<Row>, device: string)
    ensures WhereDevice(a + b, device) == WhereDevice(a, device) + WhereDevice(b, device)
    decreases |a|
  {
    if a == [] {
      assert a + b == b;
    } else {
      var head := if Get(a[0], DeviceKey) == Str(device) then [a[0]] else [];
      assert (a + b)[0] == a[0];
      assert (a + b)[1..] == a[1..] + b;
      assert WhereDevice(a + b, device) == head + WhereDevice(a[1..] + b, device);
      WhereDeviceAppend(a[1..], b, device);
      assert WhereDevice(a, device) == head + WhereDevice(a[1..], device);
    }
  }

  /** Selecting tagged rows yields all of them for their own device and none for another. */
  lemma {:induction false} WhereDeviceTagged(rows: seq<Row>, owner: string, device: string)
    ensures WhereDevice(Tagged(rows, owner), device) == if owner == device then Tagged(rows, owner) else []
    decreases |rows|
  {
    if rows != [] {
      var t := Tagged(rows, owner);
      assert t[1..] == Tagged(rows[1..], owner);
      WhereDeviceTagged(rows[1..], owner, device);
    }
  }

  lemma StoreAfterSnoc(listings: map<string, Listing>, history: seq<Event>, event: Event)
    ensures StoreAfter(listings, history + [event]) == Apply(StoreAfter(listings, history), listings, event)
  {
    assert (history + [event])[..|history|] == history;
  }

  lemma CopiesSnoc(history: seq<Event>, event: Event, kind: TableKind, device: string)
    ensures CopiesIn(history + [event], kind, device) == CopiesIn(history, kind, device) + if Adds(event, kind, device) then 1 else 0
  {
    assert (history + [event])[..|history|] == history;
  }

  /** Every parse also stores filter rows, and the class and qdisc tables
      grow together. */
  lemma {:induction false} CopiesOrdered(history: seq<Event>, device: string)
    ensures CopiesIn(history, QdiscTable, device) == ParseCount(history, device) <= CopiesIn(history, FilterTable, device)
    decreases |history|
  {
    if history != [] {
      CopiesOrdered(history[..|history| - 1], device);
    }
  }

  /** The parser's invariant on plain values: no device was parsed twice since
      the last clear, the cached devices are exactly the parsed ones, and the
      store holds what the events stored, in order. */
  ghost predicate Consistent(listings: map<string, Listing>, store: Store, parsed: map<string, bool>, history: seq<Event>)
  {
    && (forall d :: ParseCount(history, d) <= 1)
    && (forall d :: d in parsed <==> ParseCount(history, d) == 1)
    && (forall d :: d in parsed ==> parsed[d])
    && store == StoreAfter(listings, history)
  }

  /** Parsing a device not yet cached keeps the invariant. */
  lemma ParseStep(listings: map<string, Listing>, store: Store, parsed: map<string, bool>, history: seq<Event>, name: string)
    requires Consistent(listings, store, parsed, history)
    requires !(name in parsed && parsed[name])
    ensures Consistent(listings, ParseInto(store, listings, name), parsed[name := true], history + [DeviceParsed(name)])
  {
    var event := DeviceParsed(name);
    var grown := history + [event];
    var cached := parsed[name := true];
    assert ParseCount(history, name) == 0;
    forall d ensures ParseCount(grown, d) <= 1 && (d in cached <==> ParseCount(grown, d) == 1) {
      CopiesSnoc(history, event, ClassTable, d);
      if d != name {
        assert ParseCount(grown, d) == ParseCount(history, d);
        assert d in cached <==> d in parsed;
      }
    }
    StoreAfterSnoc(listings, history, event);
  }

  /** A filter getter's extra run of the filter parser keeps the invariant. */
  lemma FilterReadStep(listings: map<string, Listing>, store: Store, parsed: map<string, bool>, history: seq<Event>, name: string)
    requires Consistent(listings, store, parsed, history)
    ensures Consistent(listings, Insert(store, FilterTable, Tagged(ListingOf(listings, name).filters, name)), parsed, history + [FilterRead(name)])
  {
    var event := FilterRead(name);
    forall d ensures ParseCount(history + [event], d) == ParseCount(history, d) {
      CopiesSnoc(history, event, ClassTable, d);
    }
    StoreAfterSnoc(listings, history, event);
  }

  lemma TableAfterEvent(store: Store, listings: map<string, Listing>, event: Event, kind: TableKind)
    ensures Table(Apply(store, listings, event), kind) ==
            Table(store, kind) + if event.DeviceParsed? || kind == FilterTable then Tagged(RowsOf(ListingOf(listings, event.device), kind), event.device) else []
  {
  }

  /** A device's rows come back from a select once per event that stored
      them, and never under another device. */
  lemma {:induction false} SelectAfterHistory(listings: map<string, Listing>, history: seq<Event>, kind: TableKind, device: string)
    ensures Select(StoreAfter(listings, history), kind, device) ==
            Repeat(Tagged(RowsOf(ListingOf(listings, device), kind), device), CopiesIn(history, kind, device))
    decreases |history|
  {
    if history != [] {
      var front := history[..|history| - 1];
      SelectAfterHistory(listings, front, kind, device);
      SelectAfterEvent(StoreAfter(listings, front), listings, history[|history| - 1], kind, device);
    }
  }

  /** One event adds its device's rows to a select for that device, and nothing to any other. */
  lemma SelectAfterEvent(before: Store, listings: map<string, Listing>, event: Event, kind: TableKind, device: string)
    ensures Select(Apply(before, listings, event), kind, device) ==
            Select(before, kind, device) + if Adds(event, kind, device) then Tagged(RowsOf(ListingOf(listings, device), kind), device) else []
  {
    var rows := RowsOf(ListingOf(listings, event.device), kind);
    var added := if event.DeviceParsed? || kind == FilterTable then Tagged(rows, event.device) else [];
    TableAfterEvent(before, listings, event, kind);
    WhereDeviceAppend(Table(before, kind), added, device);
    WhereDeviceTagged(rows, event.device, device);
  }

  /** A device parsed once since the last clear: its class and qdisc rows come
      back once, its filter rows one or more times. */
  lemma SelectParsedDevice(listings: map<string, Listing>, history: seq<Event>, device: string)
    requires ParseCount(history, device) == 1
    ensures var store := StoreAfter(listings, history);
            var listing := ListingOf(listings, device);
            && Select(store, ClassTable, device) == Tagged(listing.classes, device)
            && Select(store, QdiscTable, device) == Tagged(listing.qdiscs, device)
            && 1 <= CopiesIn(history, FilterTable, device)
            && Select(store, FilterTable, device) == Repeat(Tagged(listing.filters, device), CopiesIn(history, FilterTable, device))
  {
    SelectAfterHistory(listings, history, ClassTable, device);
    SelectAfterHistory(listings, history, FilterTable, device);
    SelectAfterHistory(listings, history, QdiscTable, device);
    CopiesOrdered(history, device);
    var listing := ListingOf(listings, device);
    assert Repeat(Tagged(listing.classes, device), 1) == [] + Tagged(listing.classes, device);
    assert Repeat(Tagged(listing.qdiscs, device), 1) == [] + Tagged(listing.qdiscs, device);
  }

  /** The mapping one device's parsed rows assemble to. */
  function DeviceRules(listings: map<string, Listing>, mangles: seq<MangleRule>, ipVersion: int, device: string)
    : Result<map<string, Row>, FilterKeyError>
  {
    var listing := ListingOf(listings, device);
    Assemble(Tagged(listing.filters, device), Tagged(listing.qdiscs, device), Tagged(listing.classes, device), mangles, ipVersion)
  }

  /** __get_shaping_rule as a value: {} for a null or blank device name. */
  function ShapingRuleOf(listings: map<string, Listing>, mangles: seq<MangleRule>, ipVersion: int, device: Option<string>)
    : Result<map<string, Row>, FilterKeyError>
  {
    if IsNullString(device) then Success(map[]) else DeviceRules(listings, mangles, ipVersion, device.value)
  }

  /** The parser's mutable state as a value: the store and the parsed-device cache. */
  datatype ParserState = ParserState(store: Store, parsed: map<string, bool>)

  /** __parse_device on the state: a falsy or cached device leaves it as it
      was; otherwise the device's rows are stored and the device is cached. */
  function AfterParseDevice(st: ParserState, listings: map<string, Listing>, d: Option<string>): ParserState
  {
    if Falsy(d) || (d.value in st.parsed && st.parsed[d.value]) then st
    else ParserState(ParseInto(st.store, listings, d.value), st.parsed[d.value := true])
  }

  /** The state after __get_shaping_rule: a null or blank name parses nothing. */
  function AfterShapingRule(st: ParserState, listings: map<string, Listing>, d: Option<string>): ParserState
  {
    if IsNullString(d) then st else AfterParseDevice(st, listings, d)
  }

  /** The name a parse of `d` adds to the cache. */
  function CachedName(d: Option<string>): set<string>
  {
    if Falsy(d) then {} else {d.value}
  }

  /** Parsing a device a second time changes nothing. */
  lemma ParseDeviceIdempotent(st: ParserState, listings: map<string, Listing>, d: Option<string>)
    ensures AfterParseDevice(AfterParseDevice(st, listings, d), listings, d) == AfterParseDevice(st, listings, d)
  {
  }

  /** The cache gains exactly the parsed name, marked as parsed, and loses nothing. */
  lemma ParseDeviceCache(st: ParserState, listings: map<string, Listing>, d: Option<string>)
    ensures AfterParseDevice(st, listings, d).parsed.Keys == st.parsed.Keys + CachedName(d)
    ensures !Falsy(d) ==> AfterParseDevice(st, listings, d).parsed[d.value]
  {
  }

  /** A parse keeps the invariant: the history grows by the device exactly
      when the device was not cached. */
  lemma ParseDeviceConsistent(listings: map<string, Listing>, st: ParserState, history: seq<Event>, d: Option<string>)
    requires Consistent(listings, st.store, st.parsed, history)
    ensures var after := AfterParseDevice(st, listings, d);
            var grown := if Falsy(d) || (d.value in st.parsed && st.parsed[d.value]) then history else history + [DeviceParsed(d.value)];
            Consistent(listings, after.store, after.parsed, grown)
  {
    if !(Falsy(d) || (d.value in st.parsed && st.parsed[d.value])) {
      ParseStep(listings, st.store, st.parsed, history, d.value);
    }
  }

  class TcShapingRuleParser {
    const device: string
    const ipVersion: int
    /** The ifb device that mirrors incoming traffic, as the root filter's redirect names it. */
    const ifbDevice: Option<string>
    /** What the qdisc, class and filter parsers produce for each device. */
    const listings: map<string, Listing>
    /** The mangle rules iptables reports. */
    const mangles: seq<MangleRule>

    var store: Store
    var parsedMappings: map<string, bool>
    /** The events since the last clear, in order. */
    ghost var history: seq<Event>

    ghost predicate Valid()
      reads this
    {
      Consistent(listings, store, parsedMappings, history)
    }

    constructor (device: string, ipVersion: int, ifbDevice: Option<string>, listings: map<string, Listing>, mangles: seq<MangleRule>)
      ensures Valid()
      ensures this.device == device && this.ipVersion == ipVersion && this.ifbDevice == ifbDevice
      ensures this.listings == listings && this.mangles == mangles
      ensures store == map[] && parsedMappings == map[]
    {
      this.device := device;
      this.ipVersion := ipVersion;
      this.ifbDevice := ifbDevice;
      this.listings := listings;
      this.mangles := mangles;
      store := map[];
      parsedMappings := map[];
      history := [];
    }

    /** Discards the store and the parsed-device cache together. */
    method Clear()
      modifies this
      ensures Valid()
      ensures store == map[] && parsedMappings == map[]
    {
      store := map[];
      parsedMappings := map[];
      history := [];
    }

    /** __parse_device: parses a device's classes, filters and qdiscs into the
        store once; a falsy name or an already parsed device is a no-op. */
    method ParseDevice(d: Option<string>)
      requires Valid()
      modifies this
      ensures Valid()
      ensures ParserState(store, parsedMappings) == AfterParseDevice(ParserState(old(store), old(parsedMappings)), listings, d)
      ensures !Falsy(d) ==> d.value in parsedMappings && parsedMappings[d.value]
      ensures !Falsy(d) ==> history == old(history) || history == old(history) + [DeviceParsed(d.value)]
      ensures Falsy(d) ==> history == old(history)
    {
      if Falsy(d) {
        return;
      }
      var name := d.value;
      if name in parsedMappings && parsedMappings[name] {
        return;
      }
      ParseStep(listings, store, parsedMappings, history, name);
      var listing := ListingOf(listings, name);
      var tables := Insert(store, ClassTable, Tagged(listing.classes, name));
      tables := Insert(tables, FilterTable, Tagged(listing.filters, name));
      tables := Insert(tables, QdiscTable, Tagged(listing.qdiscs, name));
      assert tables == ParseInto(store, listings, name);
      store := tables;
      parsedMappings := parsedMappings[name := true];
      history := history + [DeviceParsed(name)];
    }

    /** Parses the device and then its ifb device. */
    method Parse()
      requires Valid()
      modifies this
      ensures Valid()
      ensures var first := AfterParseDevice(ParserState(old(store), old(parsedMappings)), listings, Some(device));
              ParserState(store, parsedMappings) == AfterParseDevice(first, listings, ifbDevice)
      ensures parsedMappings.Keys == old(parsedMappings).Keys + CachedName(Some(device)) + CachedName(ifbDevice)
      ensures device != "" ==> device in parsedMappings
      ensures !Falsy(ifbDevice) ==> ifbDevice.value in parsedMappings
    {
      ghost var start := ParserState(store, parsedMappings);
      ParseDevice(Some(device));
      ghost var first := ParserState(store, parsedMappings);
      ParseDevice(ifbDevice);
      ParseDeviceCache(start, listings, Some(device));
      ParseDeviceCache(first, listings, ifbDevice);
    }

    /** __get_shaping_rule: parses the device if needed, selects its rows and
        joins them. The result depends only on what the device's own listing
        holds, however often it was parsed before and however many extra
        copies of its filter rows the filter getters stored. */
    method GetShapingRule(d: Option<string>) returns (r: Result<map<string, Row>, FilterKeyError>)
      requires Valid()
      modifies this
      ensures Valid()
      ensures r == ShapingRuleOf(listings, mangles, ipVersion, d)
      ensures ParserState(store, parsedMappings) == AfterShapingRule(ParserState(old(store), old(parsedMappings)), listings, d)
      ensures IsNullString(d) ==> r == Success(map[])
      ensures !IsNullString(d) ==> d.value in parsedMappings
    {
      if IsNullString(d) {
        return Success(map[]);
      }
      ParseDevice(d);
      var name := d.value;
      SelectParsedDevice(listings, history, name);
      var classRows := Select(store, ClassTable, name);
      var filterRows := Select(store, FilterTable, name);
      var qdiscRows := Select(store, QdiscTable, name);
      r := AssembleRules(filterRows, qdiscRows, classRows, mangles, ipVersion);
      AssembleRepeat(Tagged(ListingOf(listings, name).filters, name), qdiscRows, classRows, mangles, ipVersion, CopiesIn(history, FilterTable, name));
    }

    /** get_tc_parameter: the outgoing rules of the device and the incoming
        rules of its ifb device, under the device's name. */
    method GetTcParameter() returns (r: Result<map<string, map<Direction, map<string, Row>>>, FilterKeyError>)
      requires Valid()
      modifies this
      ensures Valid()
      ensures var outgoing := ShapingRuleOf(listings, mangles, ipVersion, Some(device));
              var incoming := ShapingRuleOf(listings, mangles, ipVersion, ifbDevice);
              r == if outgoing.Failure? then Failure(outgoing.error)
                   else if incoming.Failure? then Failure(incoming.error)
                   else Success(map[device := map[Outgoing := outgoing.value, Incoming := incoming.value]])
      ensures r.Success? ==> r.value.Keys == {device} && r.value[device].Keys == {Outgoing, Incoming}
      ensures r.Success? && IsNullString(ifbDevice) ==> r.value[device][Incoming] == map[]
      ensures var first := AfterShapingRule(ParserState(old(store), old(parsedMappings)), listings, Some(device));
              ParserState(store, parsedMappings) ==
                if ShapingRuleOf(listings, mangles, ipVersion, Some(device)).Failure? then first
                else AfterShapingRule(first, listings, ifbDevice)
    {
      var outgoing := GetShapingRule(Some(device));
      if outgoing.Failure? {
        return Failure(outgoing.error);
      }
      var incoming := GetShapingRule(ifbDevice);
      if incoming.Failure? {
        return Failure(incoming.error);
      }
      return Success(map[device := map[Outgoing := outgoing.value, Incoming := incoming.value]]);
    }

    /** get_outgoing_tc_filter: runs the filter parser on the device again,
        which appends its filter rows to the store, and returns them; the
        cache is left alone. */
    method GetOutgoingTcFilter() returns (rows: seq<Row>)
      requires Valid()
      modifies this
      ensures Valid()
      ensures forall i :: 0 <= i < |rows| ==> DeviceKey in rows[i] && rows[i][DeviceKey] == Str(device)
      ensures |rows| == |ListingOf(listings, device).filters|
      ensures forall i :: 0 <= i < |rows| ==> rows[i] - {DeviceKey} == ListingOf(listings, device).filters[i] - {DeviceKey}
      ensures store == Insert(old(store), FilterTable, rows) && parsedMappings == old(parsedMappings)
    {
      rows := ReadFilters(device);
    }

    /** get_incoming_tc_filter: [] without an ifb device and no change;
        otherwise runs the filter parser on the ifb device again, as
        get_outgoing_tc_filter does for the device. */
    method GetIncomingTcFilter() returns (rows: seq<Row>)
      requires Valid()
      modifies this
      ensures Valid()
      ensures Falsy(ifbDevice) ==> rows == [] && store == old(store)
      ensures !Falsy(ifbDevice) ==> |rows| == |ListingOf(listings, ifbDevice.value).filters|
      ensures forall i :: 0 <= i < |rows| ==> DeviceKey in rows[i] && rows[i][DeviceKey] == Str(ifbDevice.value)
      ensures !Falsy(ifbDevice) ==>
                forall i :: 0 <= i < |rows| ==> rows[i] - {DeviceKey} == ListingOf(listings, ifbDevice.value).filters[i] - {DeviceKey}
      ensures !Falsy(ifbDevice) ==> store == Insert(old(store), FilterTable, rows)
      ensures parsedMappings == old(parsedMappings)
    {
      if Falsy(ifbDevice) {
        return [];
      }
      rows := ReadFilters(ifbDevice.value);
    }

    /** __parse_tc_filter on its own: the filter parser stores the device's
        tagged filter rows and returns them. */
    method ReadFilters(name: string) returns (rows: seq<Row>)
      requires Valid()
      modifies this
      ensures Valid()
      ensures rows == Tagged(ListingOf(listings, name).filters, name)
      ensures store == Insert(old(store), FilterTable, rows) && parsedMappings == old(parsedMappings)
    {
      TaggedKeepsColumns(ListingOf(listings, name).filters, name);
      FilterReadStep(listings, store, parsedMappings, history, name);
      rows := Tagged(ListingOf(listings, name).filters, name);
      store := Insert(store, FilterTable, rows);
      history := history + [FilterRead(name)];
    }
  }
}
