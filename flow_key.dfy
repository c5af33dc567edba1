/** Flow-key derivation: the string that identifies the traffic flow one
    filter row matches (TcShapingRuleParser.__get_filter_key). The key is a
    list of `name=value` items joined by ", "; the properties are stated on
    the item list, before the join. */
module FlowKey {

  import opened TcTypes
  import Decimal

  datatype KeyItem = KeyItem(name: string, value: string)

  /** `"{name}={value}"`. */
  function Render(item: KeyItem): string
  {
    item.name + "=" + item.value
  }

  /** `", ".join(...)` of the rendered items. */
  function Join(items: seq<KeyItem>): (key: string)
    ensures key == "" <==> items == []
    decreases |items|
  {
    if items == [] then ""
    else if |items| == 1 then Render(items[0])
    else Join(items[..|items| - 1]) + ", " + Render(items[|items| - 1])
  }

  /** A joined key of at least one item always holds an '=', so it is never
      blank: typepy.is_null_string(key) holds exactly for the empty item list. */
  lemma {:induction false} JoinBlankIff(items: seq<KeyItem>)
    ensures IsBlank(Join(items)) <==> items == []
    decreases |items|
  {
    if items != [] {
      var last := Render(items[|items| - 1]);
      var key := Join(items);
      var at := |key| - |last| + |items[|items| - 1].name|;
      assert key[|key| - |last|..] == last;
      assert last[|items[|items| - 1].name|] == '=';
      assert key[at] == '=';
      assert !IsSpace(key[at]);
    }
  }

  /** Appending one item extends the key by ", " and the rendered item. */
  lemma JoinSnoc(items: seq<KeyItem>, item: KeyItem)
    requires items != []
    ensures Join(items + [item]) == Join(items) + ", " + Render(item)
  {
    assert (items + [item])[..|items|] == items;
  }

  /** The position of a key field in the fixed order of a match-field key. */
  function FieldRank(name: string): nat
  {
    if name == SrcNetworkKey then 0
    else if name == DstNetworkKey then 1
    else if name == SrcPortKey then 2
    else if name == DstPortKey then 3
    else if name == ProtocolKey then 4
    else 5
  }

  /** Item names appear in strictly increasing field order (so each at most once). */
  predicate InFieldOrder(items: seq<KeyItem>)
  {
    forall i, j :: 0 <= i < j < |items| ==> FieldRank(items[i].name) < FieldRank(items[j].name)
  }

  /** A network column is used when it is a non-blank string that is not the
      IP version's match-everything network. */
  predicate NetworkUsable(v: Value, ipVersion: int)
  {
    IsNotNullString(v) && !IsAnywhereNetwork(v.s, ipVersion)
  }

  /** A port column is used when it is an integer (typepy Integer.is_type). */
  predicate PortUsable(v: Value)
  {
    v.Int?
  }

  function NetworkItem(row: Row, name: string, ipVersion: int): seq<KeyItem>
  {
    var v := Get(row, name);
    if NetworkUsable(v, ipVersion) then [KeyItem(name, v.s)] else []
  }

  function PortItem(row: Row, name: string): seq<KeyItem>
  {
    var v := Get(row, name);
    if PortUsable(v) then [KeyItem(name, Decimal.IntToDecimal(v.i))] else []
  }

  function ProtocolItem(row: Row): seq<KeyItem>
  {
    var v := Get(row, ProtocolKey);
    if IsNotNullString(v) then [KeyItem(ProtocolKey, v.s)] else []
  }

  /** Key items of a filter without a mark handle, from its own match fields. */
  function MatchItems(row: Row, ipVersion: int): (items: seq<KeyItem>)
    ensures |items| <= 5
    ensures forall item :: item in items ==> FieldRank(item.name) < 5
  {
    NetworkItem(row, SrcNetworkKey, ipVersion) + NetworkItem(row, DstNetworkKey, ipVersion)
    + PortItem(row, SrcPortKey) + PortItem(row, DstPortKey) + ProtocolItem(row)
  }

  /** Key items of a mark-based filter, from the mangle rule that sets the mark. */
  function MarkItems(rule: MangleRule): (items: seq<KeyItem>)
    ensures 2 <= |items| <= 3
    ensures items[0] == KeyItem(DstNetworkKey, rule.destination)
    ensures items[|items| - 1] == KeyItem(ProtocolKey, rule.protocol)
  {
    [KeyItem(DstNetworkKey, rule.destination)]
    + (if rule.source.Some? && !IsBlank(rule.source.value) then [KeyItem(SrcNetworkKey, rule.source.value)] else [])
    + [KeyItem(ProtocolKey, rule.protocol)]
  }

  /** The index of the first mangle rule whose mark is `handle`. */
  function FindMark(mangles: seq<MangleRule>, handle: int): (r: Option<nat>)
    ensures r.Some? ==> r.value < |mangles| && mangles[r.value].markId == handle
    ensures r.Some? ==> forall j :: 0 <= j < r.value ==> mangles[j].markId != handle
    ensures r.None? <==> forall j :: 0 <= j < |mangles| ==> mangles[j].markId != handle
    decreases |mangles|
  {
    if mangles == [] then None
    else if mangles[0].markId == handle then Some(0)
    else match FindMark(mangles[1..], handle)
      case None => None
      case Some(k) => Some(k + 1)
  }

  /** The item list of a filter row, or the error its derivation raises. */
  function KeyItems(row: Row, mangles: seq<MangleRule>, ipVersion: int): (r: Result<seq<KeyItem>, FilterKeyError>)
    ensures r.Failure? <==> HandleKey in row && (!row[HandleKey].Int? || FindMark(mangles, row[HandleKey].i).None?)
    ensures r.Success? ==> 0 < |r.value| || HandleKey !in row
  {
    if HandleKey in row then
      var handle := row[HandleKey];
      if !handle.Int? then Failure(HandleNotInteger(handle))
      else match FindMark(mangles, handle.i)
        case Some(k) => Success(MarkItems(mangles[k]))
        case None => Failure(if mangles == [] then MangleUnbound else MarkNotFound(mangles[|mangles| - 1]))
    else Success(MatchItems(row, ipVersion))
  }

  /** The flow key of a filter row, or the error its derivation raises. */
  function FilterKey(row: Row, mangles: seq<MangleRule>, ipVersion: int): Result<string, FilterKeyError>
  {
    match KeyItems(row, mangles, ipVersion)
    case Success(items) => Success(Join(items))
    case Failure(e) => Failure(e)
  }

  /** __get_filter_key: builds the item list step by step, scanning the
      mangle rules with an early exit, then joins it. */
  method DeriveFilterKey(row: Row, mangles: seq<MangleRule>, ipVersion: int) returns (r: Result<string, FilterKeyError>)
    ensures r == FilterKey(row, mangles, ipVersion)
  {
    var keyItems: seq<KeyItem> := [];
    if HandleKey in row {
      var handle := row[HandleKey];
      if !handle.Int? {
        return Failure(HandleNotInteger(handle));
      }
      var i := 0;
      while i < |mangles|
        invariant 0 <= i <= |mangles|
        invariant forall j :: 0 <= j < i ==> mangles[j].markId != handle.i
        invariant keyItems == []
      {
        if mangles[i].markId != handle.i {
          i := i + 1;
          continue;
        }
        keyItems := keyItems + [KeyItem(DstNetworkKey, mangles[i].destination)];
        if mangles[i].source.Some? && !IsBlank(mangles[i].source.value) {
          keyItems := keyItems + [KeyItem(SrcNetworkKey, mangles[i].source.value)];
        }
        keyItems := keyItems + [KeyItem(ProtocolKey, mangles[i].protocol)];
        break;
      }
      if i == |mangles| {
        // the for-loop's else branch: no rule carries the mark
        return Failure(if mangles == [] then MangleUnbound else MarkNotFound(mangles[|mangles| - 1]));
      }
      assert FindMark(mangles, handle.i) == Some(i);
      assert keyItems == MarkItems(mangles[i]);
    } else {
      var srcNetwork := Get(row, SrcNetworkKey);
      if IsNotNullString(srcNetwork) && !IsAnywhereNetwork(srcNetwork.s, ipVersion) {
        keyItems := keyItems + [KeyItem(SrcNetworkKey, srcNetwork.s)];
      }
      assert keyItems == NetworkItem(row, SrcNetworkKey, ipVersion);
      ghost var done := keyItems;
      var dstNetwork := Get(row, DstNetworkKey);
      if IsNotNullString(dstNetwork) && !IsAnywhereNetwork(dstNetwork.s, ipVersion) {
        keyItems := keyItems + [KeyItem(DstNetworkKey, dstNetwork.s)];
      }
      assert keyItems == done + NetworkItem(row, DstNetworkKey, ipVersion);
      done := keyItems;
      var srcPort := Get(row, SrcPortKey);
      if srcPort.Int? {
        keyItems := keyItems + [KeyItem(SrcPortKey, Decimal.IntToDecimal(srcPort.i))];
      }
      assert keyItems == done + PortItem(row, SrcPortKey);
      done := keyItems;
      var dstPort := Get(row, DstPortKey);
      if dstPort.Int? {
        keyItems := keyItems + [KeyItem(DstPortKey, Decimal.IntToDecimal(dstPort.i))];
      }
      assert keyItems == done + PortItem(row, DstPortKey);
      done := keyItems;
      var protocol := Get(row, ProtocolKey);
      if IsNotNullString(protocol) {
        keyItems := keyItems + [KeyItem(ProtocolKey, protocol.s)];
      }
      assert keyItems == done + ProtocolItem(row);
      assert keyItems == MatchItems(row, ipVersion);
    }
    return Success(Join(keyItems));
  }

  // ---------------------------------------------------------------------
  // Properties of the derivation

  /** A handle that is not an integer fails validation. */
  lemma NonIntegerHandleFails(row: Row, mangles: seq<MangleRule>, ipVersion: int)
    requires HandleKey in row && !row[HandleKey].Int?
    ensures FilterKey(row, mangles, ipVersion) == Failure(HandleNotInteger(row[HandleKey]))
  {
  }

  /** A mark that no mangle rule carries is an error, never a key. */
  lemma UnknownMarkFails(row: Row, mangles: seq<MangleRule>, ipVersion: int)
    requires HandleKey in row && row[HandleKey].Int?
    requires forall j :: 0 <= j < |mangles| ==> mangles[j].markId != row[HandleKey].i
    ensures FilterKey(row, mangles, ipVersion).Failure?
    ensures FilterKey(row, mangles, ipVersion).error
            == if mangles == [] then MangleUnbound else MarkNotFound(mangles[|mangles| - 1])
  {
  }

  /** A mark-based key comes from the first mangle rule with that mark:
      destination, then source when it is non-blank, then protocol. */
  lemma MarkKeyFromFirstRule(row: Row, mangles: seq<MangleRule>, ipVersion: int, k: nat)
    requires HandleKey in row && row[HandleKey].Int?
    requires k < |mangles| && mangles[k].markId == row[HandleKey].i
    requires forall j :: 0 <= j < k ==> mangles[j].markId != row[HandleKey].i
    ensures KeyItems(row, mangles, ipVersion) == Success(MarkItems(mangles[k]))
    ensures var items := MarkItems(mangles[k]);
            && items[0] == KeyItem(DstNetworkKey, mangles[k].destination)
            && items[|items| - 1] == KeyItem(ProtocolKey, mangles[k].protocol)
            && (|items| == 3 <==> mangles[k].source.Some? && !IsBlank(mangles[k].source.value))
            && (|items| == 3 ==> items[1] == KeyItem(SrcNetworkKey, mangles[k].source.value))
            && 2 <= |items| <= 3
  {
  }

  /** A filter without a handle is keyed on its own match fields only. */
  lemma MatchKeyIgnoresMangles(row: Row, mangles: seq<MangleRule>, ipVersion: int)
    requires HandleKey !in row
    ensures KeyItems(row, mangles, ipVersion) == Success(MatchItems(row, ipVersion))
  {
  }

  /** Each match field enters the key exactly when its condition holds, with
      its own value: networks that are non-blank and not "anywhere", ports
      that are integers (in decimal), a non-blank protocol. */
  lemma MatchItemsMembership(row: Row, ipVersion: int, item: KeyItem)
    ensures item in MatchItems(row, ipVersion) <==>
      || (item.name == SrcNetworkKey && NetworkUsable(Get(row, SrcNetworkKey), ipVersion)
          && item.value == Get(row, SrcNetworkKey).s)
      || (item.name == DstNetworkKey && NetworkUsable(Get(row, DstNetworkKey), ipVersion)
          && item.value == Get(row, DstNetworkKey).s)
      || (item.name == SrcPortKey && PortUsable(Get(row, SrcPortKey))
          && item.value == Decimal.IntToDecimal(Get(row, SrcPortKey).i))
      || (item.name == DstPortKey && PortUsable(Get(row, DstPortKey))
          && item.value == Decimal.IntToDecimal(Get(row, DstPortKey).i))
      || (item.name == ProtocolKey && IsNotNullString(Get(row, ProtocolKey))
          && item.value == Get(row, ProtocolKey).s)
  {
  }

  /** The match-everything network never appears in a key. */
  lemma AnywhereNeverInKey(row: Row, ipVersion: int, network: string)
    requires IsAnywhereNetwork(network, ipVersion)
    ensures KeyItem(SrcNetworkKey, network) !in MatchItems(row, ipVersion)
    ensures KeyItem(DstNetworkKey, network) !in MatchItems(row, ipVersion)
  {
    MatchItemsMembership(row, ipVersion, KeyItem(SrcNetworkKey, network));
    MatchItemsMembership(row, ipVersion, KeyItem(DstNetworkKey, network));
  }

  /** Match-field items come in the fixed order source network, destination
      network, source port, destination port, protocol. */
  lemma MatchItemsInFieldOrder(row: Row, ipVersion: int)
    ensures InFieldOrder(MatchItems(row, ipVersion))
  {
    var a := NetworkItem(row, SrcNetworkKey, ipVersion);
    var b := NetworkItem(row, DstNetworkKey, ipVersion);
    var c := PortItem(row, SrcPortKey);
    var d := PortItem(row, DstPortKey);
    var e := ProtocolItem(row);
    RankedAppend([], a, 0);
    RankedAppend(a, b, 1);
    RankedAppend(a + b, c, 2);
    RankedAppend(a + b + c, d, 3);
    RankedAppend(a + b + c + d, e, 4);
  }

  /** Appending at most one item of rank r to items of lower rank keeps the order. */
  lemma RankedAppend(xs: seq<KeyItem>, ys: seq<KeyItem>, r: nat)
    requires InFieldOrder(xs) && forall x :: x in xs ==> FieldRank(x.name) < r
    requires |ys| <= 1 && forall y :: y in ys ==> FieldRank(y.name) == r
    ensures InFieldOrder(xs + ys)
    ensures forall z :: z in xs + ys ==> FieldRank(z.name) <= r
  {
    ConcatInFieldOrder(xs, ys);
  }

  lemma ConcatInFieldOrder(xs: seq<KeyItem>, ys: seq<KeyItem>)
    requires InFieldOrder(xs) && InFieldOrder(ys)
    requires forall x, y :: x in xs && y in ys ==> FieldRank(x.name) < FieldRank(y.name)
    ensures InFieldOrder(xs + ys)
  {
    var zs := xs + ys;
    forall i, j | 0 <= i < j < |zs|
      ensures FieldRank(zs[i].name) < FieldRank(zs[j].name)
    {
      if j < |xs| {
        assert zs[i] == xs[i] && zs[j] == xs[j];
      } else if i >= |xs| {
        assert zs[i] == ys[i - |xs|] && zs[j] == ys[j - |xs|];
      } else {
        assert zs[i] in xs && zs[j] in ys;
      }
    }
  }

  /** The key is empty exactly when no item qualifies, and a derived key is
      blank only when it is empty. */
  lemma KeyEmptyIff(row: Row, mangles: seq<MangleRule>, ipVersion: int)
    requires KeyItems(row, mangles, ipVersion).Success?
    ensures var key := FilterKey(row, mangles, ipVersion).value;
            && (key == "" <==> KeyItems(row, mangles, ipVersion).value == [])
            && (IsBlank(key) <==> key == "")
  {
    JoinBlankIff(KeyItems(row, mangles, ipVersion).value);
  }

  /** A mark-based key is never empty. */
  lemma MarkKeyNonEmpty(row: Row, mangles: seq<MangleRule>, ipVersion: int)
    requires HandleKey in row
    requires FilterKey(row, mangles, ipVersion).Success?
    ensures FilterKey(row, mangles, ipVersion).value != ""
  {
  }

  /** A match-field key is empty exactly when none of the five fields qualifies. */
  lemma MatchKeyEmptyIff(row: Row, mangles: seq<MangleRule>, ipVersion: int)
    requires HandleKey !in row
    ensures FilterKey(row, mangles, ipVersion).Success?
    ensures FilterKey(row, mangles, ipVersion).value == "" <==>
      && !NetworkUsable(Get(row, SrcNetworkKey), ipVersion)
      && !NetworkUsable(Get(row, DstNetworkKey), ipVersion)
      && !PortUsable(Get(row, SrcPortKey))
      && !PortUsable(Get(row, DstPortKey))
      && !IsNotNullString(Get(row, ProtocolKey))
  {
  }
}
