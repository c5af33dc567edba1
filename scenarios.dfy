/** Worked examples: one device's rows and the mapping they assemble to. */
module Scenarios {

  import opened TcTypes
  import opened FlowKey
  import opened ShapingRule
  import opened RuleParser

  const HtbClass: Row := map[ClassIdKey := Str("1:10"), "kind" := Str("htb"), "rate" := Str("1Mbit")]
  const IpFilter: Row := map[ProtocolKey := Str("ip"), DstNetworkKey := Str("192.0.2.0/24"),
                             FlowIdKey := Str("1:10"), FilterIdKey := Str("800::800")]

  const TaggedFilter: Row := IpFilter[DeviceKey := Str("eth0")]
  const TaggedClass: Row := HtbClass[DeviceKey := Str("eth0")]
  const ExpectedKey: string := "dst-network=192.0.2.0/24, protocol=ip"
  const ExpectedRule: Row := map[FilterIdKey := Str("800::800"), "kind" := Str("htb"), "rate" := Str("1Mbit")]

  lemma ScenarioKeyItems()
    ensures MatchItems(TaggedFilter, 4) == [KeyItem(DstNetworkKey, "192.0.2.0/24"), KeyItem(ProtocolKey, "ip")]
  {
    var filter := TaggedFilter;
    assert filter.Keys == {ProtocolKey, DstNetworkKey, FlowIdKey, FilterIdKey, DeviceKey};
    assert SrcNetworkKey !in filter && SrcPortKey !in filter && DstPortKey !in filter;
    assert NetworkItem(filter, SrcNetworkKey, 4) == [];
    assert filter[DstNetworkKey] == Str("192.0.2.0/24");
    assert "192.0.2.0/24"[0] == '1' && !IsSpace('1');
    assert NetworkItem(filter, DstNetworkKey, 4) == [KeyItem(DstNetworkKey, "192.0.2.0/24")];
    assert PortItem(filter, SrcPortKey) == [] && PortItem(filter, DstPortKey) == [];
    assert filter[ProtocolKey] == Str("ip");
    assert "ip"[0] == 'i' && !IsSpace('i');
    assert ProtocolItem(filter) == [KeyItem(ProtocolKey, "ip")];
  }

  lemma ScenarioJoin()
    ensures Join([KeyItem(DstNetworkKey, "192.0.2.0/24"), KeyItem(ProtocolKey, "ip")]) == ExpectedKey
  {
    var items := [KeyItem(DstNetworkKey, "192.0.2.0/24"), KeyItem(ProtocolKey, "ip")];
    assert items[..1] == [items[0]];
    assert Render(items[0]) == "dst-network=192.0.2.0/24";
    assert Render(items[1]) == "protocol=ip";
  }

  lemma ScenarioKey()
    ensures FilterKey(TaggedFilter, [], 4) == Success(ExpectedKey)
    ensures !IsBlank(ExpectedKey)
  {
    var items := [KeyItem(DstNetworkKey, "192.0.2.0/24"), KeyItem(ProtocolKey, "ip")];
    ScenarioKeyItems();
    ScenarioJoin();
    assert HandleKey !in TaggedFilter;
    assert KeyItems(TaggedFilter, [], 4) == Success(items);
    JoinBlankIff(items);
  }

  lemma ScenarioStripped()
    ensures Stripped(TaggedClass, ClassStrip) == map["kind" := Str("htb"), "rate" := Str("1Mbit")]
  {
    var klass := TaggedClass;
    var expected := map["kind" := Str("htb"), "rate" := Str("1Mbit")];
    assert klass.Keys == {ClassIdKey, "kind", "rate", DeviceKey};
    assert ClassStrip == [DeviceKey, ClassIdKey];
    assert "kind" !in ClassStrip && "rate" !in ClassStrip;
    var r := Stripped(klass, ClassStrip);
    assert r.Keys == expected.Keys;
    assert r["kind"] == klass["kind"] == Str("htb");
    assert r["rate"] == klass["rate"] == Str("1Mbit");
  }

  lemma ScenarioRule()
    ensures RuleFor(TaggedFilter, [], [TaggedClass]) == ExpectedRule
  {
    assert MergeLinked(map[], TaggedFilter, [], ParentKey, QdiscStrip) == map[];
    ScenarioClassMerge();
    var rule := map[FilterIdKey := Str("800::800")] + map["kind" := Str("htb"), "rate" := Str("1Mbit")];
    assert rule.Keys == ExpectedRule.Keys;
  }

  lemma ScenarioClassMerge()
    ensures MergeLinked(map[], TaggedFilter, [TaggedClass], ClassIdKey, ClassStrip)
            == map[FilterIdKey := Str("800::800")] + map["kind" := Str("htb"), "rate" := Str("1Mbit")]
  {
    var filter := TaggedFilter;
    var klass := TaggedClass;
    assert Get(klass, ClassIdKey) == Str("1:10") == Get(filter, FlowIdKey);
    assert LinksTo(klass, ClassIdKey, filter);
    assert [klass][..0] == [];
    ScenarioStripped();
    assert Get(filter, FilterIdKey) == Str("800::800");
  }

  lemma ScenarioContribution()
    ensures Contribution(TaggedFilter, [], [TaggedClass], [], 4) == Success(Some(Entry(ExpectedKey, ExpectedRule)))
  {
    ScenarioKey();
    ScenarioRule();
    assert FilterIdKey in ExpectedRule;
  }

  /** A filter on a destination network, routed by flow id into an htb class:
      the key lists destination then protocol, and the rule holds the filter
      id and the class's own columns, without device or class id. */
  lemma ClassLinkedFilter()
    ensures DeviceRules(map["eth0" := Listing([HtbClass], [IpFilter], [])], [], 4, "eth0")
            == Success(map[ExpectedKey := ExpectedRule])
  {
    var listing := Listing([HtbClass], [IpFilter], []);
    assert ListingOf(map["eth0" := listing], "eth0") == listing;
    assert Tagged(listing.filters, "eth0") == [TaggedFilter];
    assert Tagged(listing.classes, "eth0") == [TaggedClass];
    assert Tagged(listing.qdiscs, "eth0") == [];
    ScenarioContribution();
    var steps := Contributions([TaggedFilter], [], [TaggedClass], [], 4);
    assert steps == [Success(Some(Entry(ExpectedKey, ExpectedRule)))];
    assert steps[..0] == [];
    assert Fold(steps) == Success(map[][ExpectedKey := ExpectedRule]);
  }

  /** A mark-based filter takes its key from the mangle rule that sets the mark. */
  lemma MarkBasedFilter()
    ensures FilterKey(map[HandleKey := Int(10)], [MangleRule(10, "203.0.113.5", None, "ip")], 4)
            == Success("dst-network=203.0.113.5, protocol=ip")
  {
    var rule := MangleRule(10, "203.0.113.5", None, "ip");
    var items := [KeyItem(DstNetworkKey, "203.0.113.5"), KeyItem(ProtocolKey, "ip")];
    MarkKeyFromFirstRule(map[HandleKey := Int(10)], [rule], 4, 0);
    assert MarkItems(rule) == items;
    MarkScenarioJoin();
  }

  lemma MarkScenarioJoin()
    ensures Join([KeyItem(DstNetworkKey, "203.0.113.5"), KeyItem(ProtocolKey, "ip")]) == "dst-network=203.0.113.5, protocol=ip"
  {
    var items := [KeyItem(DstNetworkKey, "203.0.113.5"), KeyItem(ProtocolKey, "ip")];
    assert items[..1] == [items[0]];
    assert Render(items[0]) == "dst-network=203.0.113.5";
    assert Render(items[1]) == "protocol=ip";
  }

  /** The mark is looked up among the rules, and a rule with another mark is not used. */
  lemma UnknownMarkScenario()
    ensures FilterKey(map[HandleKey := Int(11)], [MangleRule(10, "203.0.113.5", None, "ip")], 4)
            == Failure(MarkNotFound(MangleRule(10, "203.0.113.5", None, "ip")))
    ensures FilterKey(map[HandleKey := Int(11)], [], 4) == Failure(MangleUnbound)
  {
    assert FindMark([MangleRule(10, "203.0.113.5", None, "ip")], 11) == None;
  }
}
