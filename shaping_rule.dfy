/** Shaping-rule assembly (TcShapingRuleParser.__get_shaping_rule and
    __strip_param): a nested-loop join of one device's filter rows with its
    qdisc rows (on qdisc `parent`) and class rows (on class `classid`), each
    compared with the filter's `flowid` and `classid`. */
module ShapingRule {

  import opened TcTypes
  import opened FlowKey

  /** Linkage columns dropped from a matched qdisc row and class row. */
  const QdiscStrip: seq<string> := [DeviceKey, ParentKey, HandleKey]
  const ClassStrip: seq<string> := [DeviceKey, ClassIdKey]

  /** `params` without the listed keys; listed keys that are absent are ignored. */
  function Stripped(params: Row, keys: seq<string>): (r: Row)
    ensures forall k :: k in r <==> k in params && k !in keys
    ensures forall k :: k in r ==> r[k] == params[k]
  {
    map k | k in params && k !in keys :: params[k]
  }

  /** __strip_param: deletes the listed keys from a copy of `params`, one at a
      time, skipping those that are absent. `params` is a value, so the caller's
      map is untouched, as the deep copy guarantees in the source. */
  method StripParam(params: Row, stripList: seq<string>) returns (work: Row)
    ensures work == Stripped(params, stripList)
  {
    work := params;
    for i := 0 to |stripList|
      invariant work == Stripped(params, stripList[..i])
    {
      if stripList[i] in work {
        work := work - {stripList[i]};
      }
      assert stripList[..i + 1] == stripList[..i] + [stripList[i]];
    }
    assert stripList[..|stripList|] == stripList;
  }

  /** The join condition: `row.get(link) in (filter.get(flowid), filter.get(classid))`.
      Absent columns read as Null, so a row without `link` matches a filter
      lacking either column. */
  predicate LinksTo(row: Row, link: string, filter: Row)
  {
    Get(row, link) == Get(filter, FlowIdKey) || Get(row, link) == Get(filter, ClassIdKey)
  }

  predicate AnyLinked(rows: seq<Row>, link: string, filter: Row)
  {
    exists i :: 0 <= i < |rows| && LinksTo(rows[i], link, filter)
  }

  /** One inner loop of the join: for each row linked to the filter, in
      order, record the filter id and then merge the stripped row. */
  function MergeLinked(rule: Row, filter: Row, rows: seq<Row>, link: string, strip: seq<string>): Row
    decreases |rows|
  {
    if rows == [] then rule
    else
      var before := MergeLinked(rule, filter, rows[..|rows| - 1], link, strip);
      var row := rows[|rows| - 1];
      if LinksTo(row, link, filter) then before[FilterIdKey := Get(filter, FilterIdKey)] + Stripped(row, strip)
      else before
  }

  /** The shaping rule of one filter: qdisc rows merged first, class rows second. */
  function RuleFor(filter: Row, qdiscs: seq<Row>, classes: seq<Row>): Row
  {
    MergeLinked(MergeLinked(map[], filter, qdiscs, ParentKey, QdiscStrip), filter, classes, ClassIdKey, ClassStrip)
  }

  datatype Entry = Entry(key: string, rule: Row)

  /** What one filter adds to the mapping: nothing when its key is blank or no
      row is linked to it, the error when its key cannot be derived. */
  function Contribution(filter: Row, qdiscs: seq<Row>, classes: seq<Row>, mangles: seq<MangleRule>, ipVersion: int)
    : Result<Option<Entry>, FilterKeyError>
  {
    match FilterKey(filter, mangles, ipVersion)
    case Failure(e) => Failure(e)
    case Success(key) =>
      if IsBlank(key) then Success(None)
      else
        var rule := RuleFor(filter, qdiscs, classes);
        if rule == map[] then Success(None) else Success(Some(Entry(key, rule)))
  }

  /** Folds the contributions of the filters, in order, into the mapping from
      flow key to shaping rule: the first error aborts, later entries under
      the same key replace earlier ones. */
  function Fold(steps: seq<Result<Option<Entry>, FilterKeyError>>): Result<map<string, Row>, FilterKeyError>
    decreases |steps|
  {
    if steps == [] then Success(map[])
    else
      match Fold(steps[..|steps| - 1])
      case Failure(e) => Failure(e)
      case Success(m) =>
        match steps[|steps| - 1]
        case Failure(e) => Failure(e)
        case Success(None) => Success(m)
        case Success(Some(entry)) => Success(m[entry.key := entry.rule])
  }

  function Contributions(filters: seq<Row>, qdiscs: seq<Row>, classes: seq<Row>, mangles: seq<MangleRule>, ipVersion: int)
    : (steps: seq<Result<Option<Entry>, FilterKeyError>>)
    ensures |steps| == |filters|
    ensures forall i :: 0 <= i < |filters| ==> steps[i] == Contribution(filters[i], qdiscs, classes, mangles, ipVersion)
  {
    seq(|filters|, i requires 0 <= i < |filters| => Contribution(filters[i], qdiscs, classes, mangles, ipVersion))
  }

  /** The shaping-rule mapping of one device's filter, qdisc and class rows. */
  function Assemble(filters: seq<Row>, qdiscs: seq<Row>, classes: seq<Row>, mangles: seq<MangleRule>, ipVersion: int)
    : Result<map<string, Row>, FilterKeyError>
  {
    Fold(Contributions(filters, qdiscs, classes, mangles, ipVersion))
  }

  /** One inner loop of __get_shaping_rule: merges every row linked to the
      filter, stripped of the linkage columns, after recording the filter id. */
  method MergeLinkedRows(rule: Row, filter: Row, rows: seq<Row>, link: string, strip: seq<string>) returns (merged: Row)
    ensures merged == MergeLinked(rule, filter, rows, link, strip)
  {
    merged := rule;
    for j := 0 to |rows|
      invariant merged == MergeLinked(rule, filter, rows[..j], link, strip)
    {
      assert rows[..j + 1][..j] == rows[..j];
      if LinksTo(rows[j], link, filter) {
        merged := merged[FilterIdKey := Get(filter, FilterIdKey)];
        var stripped := StripParam(rows[j], strip);
        merged := merged + stripped;
      }
    }
    assert rows[..|rows|] == rows;
  }

  /** The body of __get_shaping_rule once the three row lists are selected. */
  method AssembleRules(filters: seq<Row>, qdiscs: seq<Row>, classes: seq<Row>, mangles: seq<MangleRule>, ipVersion: int)
    returns (r: Result<map<string, Row>, FilterKeyError>)
    ensures r == Assemble(filters, qdiscs, classes, mangles, ipVersion)
  {
    ghost var steps := Contributions(filters, qdiscs, classes, mangles, ipVersion);
    var mapping: map<string, Row> := map[];
    var i := 0;
    while i < |filters|
      invariant 0 <= i <= |filters|
      invariant Fold(steps[..i]) == Success(mapping)
    {
      var filter := filters[i];
      FoldStep(steps, i, mapping);
      var filterKey := DeriveFilterKey(filter, mangles, ipVersion);
      if filterKey.Failure? {
        assert steps[i] == Failure(filterKey.error);
        FoldFailurePersists(steps, i + 1);
        assert steps[..|steps|] == steps;
        return Failure(filterKey.error);
      }
      if IsBlank(filterKey.value) {
        assert steps[i] == Success(None);
        i := i + 1;
        continue;
      }
      var shapingRule := MergeLinkedRows(map[], filter, qdiscs, ParentKey, QdiscStrip);
      shapingRule := MergeLinkedRows(shapingRule, filter, classes, ClassIdKey, ClassStrip);
      if shapingRule == map[] {
        assert steps[i] == Success(None);
        i := i + 1;
        continue;
      }
      assert steps[i] == Success(Some(Entry(filterKey.value, shapingRule)));
      mapping := mapping[filterKey.value := shapingRule];
      i := i + 1;
    }
    assert steps[..|steps|] == steps;
    return Success(mapping);
  }

  // ---------------------------------------------------------------------
  // Properties of one inner loop

  /** With no linked row the inner loop leaves the rule as it was. */
  lemma {:induction false} MergeUnlinkedIsIdentity(rule: Row, filter: Row, rows: seq<Row>, link: string, strip: seq<string>)
    requires !AnyLinked(rows, link, filter)
    ensures MergeLinked(rule, filter, rows, link, strip) == rule
    decreases |rows|
  {
    if rows != [] {
      var front := rows[..|rows| - 1];
      assert !AnyLinked(front, link, filter) by {
        forall i | 0 <= i < |front| ensures !LinksTo(front[i], link, filter) {
          assert front[i] == rows[i];
        }
      }
      MergeUnlinkedIsIdentity(rule, filter, front, link, strip);
    }
  }

  /** Once a row is linked the rule carries the filter-id column. */
  lemma {:induction false} MergeLinkedHasFilterId(rule: Row, filter: Row, rows: seq<Row>, link: string, strip: seq<string>)
    requires AnyLinked(rows, link, filter) || FilterIdKey in rule
    ensures FilterIdKey in MergeLinked(rule, filter, rows, link, strip)
    decreases |rows|
  {
    if rows != [] {
      var front := rows[..|rows| - 1];
      var last := rows[|rows| - 1];
      if !LinksTo(last, link, filter) {
        assert AnyLinked(front, link, filter) || FilterIdKey in rule by {
          if AnyLinked(rows, link, filter) {
            var i :| 0 <= i < |rows| && LinksTo(rows[i], link, filter);
            assert i < |front| && front[i] == rows[i];
          }
        }
        MergeLinkedHasFilterId(rule, filter, front, link, strip);
      }
    }
  }

  /** Later writes win: a column of a linked row survives with that row's
      value unless a later linked row also carries it. */
  lemma {:induction false} MergeLastWriteWins(rule: Row, filter: Row, rows: seq<Row>, link: string, strip: seq<string>,
                                              i: nat, k: string)
    requires i < |rows| && LinksTo(rows[i], link, filter)
    requires k in rows[i] && k !in strip && k != FilterIdKey
    requires forall j :: i < j < |rows| && LinksTo(rows[j], link, filter) ==> k !in rows[j]
    ensures var merged := MergeLinked(rule, filter, rows, link, strip);
            k in merged && merged[k] == rows[i][k]
    decreases |rows|
  {
    var front := rows[..|rows| - 1];
    var last := rows[|rows| - 1];
    if i < |rows| - 1 {
      forall j | i < j < |front| && LinksTo(front[j], link, filter) ensures k !in front[j] {
        assert front[j] == rows[j];
      }
      MergeLastWriteWins(rule, filter, front, link, strip, i, k);
      if LinksTo(last, link, filter) {
        assert k !in last;
      }
    }
  }

  /** A stripped column is never introduced by the merge. */
  lemma {:induction false} MergeKeepsStrippedOut(rule: Row, filter: Row, rows: seq<Row>, link: string, strip: seq<string>, k: string)
    requires k in strip && k != FilterIdKey && k !in rule
    ensures k !in MergeLinked(rule, filter, rows, link, strip)
    decreases |rows|
  {
    if rows != [] {
      MergeKeepsStrippedOut(rule, filter, rows[..|rows| - 1], link, strip, k);
    }
  }

  /** Where no linked row has a filter-id column, that column holds the filter's id. */
  lemma {:induction false} MergeFilterIdValue(rule: Row, filter: Row, rows: seq<Row>, link: string, strip: seq<string>)
    requires AnyLinked(rows, link, filter) || (FilterIdKey in rule && rule[FilterIdKey] == Get(filter, FilterIdKey))
    requires forall j :: 0 <= j < |rows| && LinksTo(rows[j], link, filter) ==> FilterIdKey !in rows[j]
    ensures var merged := MergeLinked(rule, filter, rows, link, strip);
            FilterIdKey in merged && merged[FilterIdKey] == Get(filter, FilterIdKey)
    decreases |rows|
  {
    if rows != [] {
      var front := rows[..|rows| - 1];
      var last := rows[|rows| - 1];
      forall j | 0 <= j < |front| && LinksTo(front[j], link, filter) ensures FilterIdKey !in front[j] {
        assert front[j] == rows[j];
      }
      if !LinksTo(last, link, filter) {
        assert AnyLinked(front, link, filter) || (FilterIdKey in rule && rule[FilterIdKey] == Get(filter, FilterIdKey)) by {
          if AnyLinked(rows, link, filter) {
            var i :| 0 <= i < |rows| && LinksTo(rows[i], link, filter);
            assert i < |front| && front[i] == rows[i];
          }
        }
        MergeFilterIdValue(rule, filter, front, link, strip);
      }
    }
  }

  // ---------------------------------------------------------------------
  // Properties of one filter's rule

  /** A filter's rule is empty exactly when no qdisc and no class row is linked to it. */
  lemma RuleEmptyIffUnlinked(filter: Row, qdiscs: seq<Row>, classes: seq<Row>)
    ensures RuleFor(filter, qdiscs, classes) == map[] <==>
            !AnyLinked(qdiscs, ParentKey, filter) && !AnyLinked(classes, ClassIdKey, filter)
  {
    var q := MergeLinked(map[], filter, qdiscs, ParentKey, QdiscStrip);
    if AnyLinked(qdiscs, ParentKey, filter) || AnyLinked(classes, ClassIdKey, filter) {
      if AnyLinked(qdiscs, ParentKey, filter) {
        MergeLinkedHasFilterId(map[], filter, qdiscs, ParentKey, QdiscStrip);
      }
      MergeLinkedHasFilterId(q, filter, classes, ClassIdKey, ClassStrip);
    } else {
      MergeUnlinkedIsIdentity(map[], filter, qdiscs, ParentKey, QdiscStrip);
      MergeUnlinkedIsIdentity(q, filter, classes, ClassIdKey, ClassStrip);
    }
  }

  /** A non-empty rule records the filter id, and never the device column. */
  lemma RuleShape(filter: Row, qdiscs: seq<Row>, classes: seq<Row>)
    requires RuleFor(filter, qdiscs, classes) != map[]
    ensures FilterIdKey in RuleFor(filter, qdiscs, classes)
    ensures DeviceKey !in RuleFor(filter, qdiscs, classes)
  {
    RuleEmptyIffUnlinked(filter, qdiscs, classes);
    var q := MergeLinked(map[], filter, qdiscs, ParentKey, QdiscStrip);
    if AnyLinked(qdiscs, ParentKey, filter) {
      MergeLinkedHasFilterId(map[], filter, qdiscs, ParentKey, QdiscStrip);
    }
    MergeLinkedHasFilterId(q, filter, classes, ClassIdKey, ClassStrip);
    MergeKeepsStrippedOut(map[], filter, qdiscs, ParentKey, QdiscStrip, DeviceKey);
    MergeKeepsStrippedOut(q, filter, classes, ClassIdKey, ClassStrip, DeviceKey);
  }

  /** A qdisc's parent and handle columns never reach a rule built from qdisc rows alone. */
  lemma QdiscLinkageStripped(filter: Row, qdiscs: seq<Row>)
    ensures ParentKey !in RuleFor(filter, qdiscs, [])
    ensures HandleKey !in RuleFor(filter, qdiscs, [])
  {
    MergeKeepsStrippedOut(map[], filter, qdiscs, ParentKey, QdiscStrip, ParentKey);
    MergeKeepsStrippedOut(map[], filter, qdiscs, ParentKey, QdiscStrip, HandleKey);
  }

  /** The filter-id column holds the filter's own id unless a linked row carries one. */
  lemma RuleFilterId(filter: Row, qdiscs: seq<Row>, classes: seq<Row>)
    requires AnyLinked(qdiscs, ParentKey, filter) || AnyLinked(classes, ClassIdKey, filter)
    requires forall j :: 0 <= j < |qdiscs| && LinksTo(qdiscs[j], ParentKey, filter) ==> FilterIdKey !in qdiscs[j]
    requires forall j :: 0 <= j < |classes| && LinksTo(classes[j], ClassIdKey, filter) ==> FilterIdKey !in classes[j]
    ensures FilterIdKey in RuleFor(filter, qdiscs, classes)
    ensures RuleFor(filter, qdiscs, classes)[FilterIdKey] == Get(filter, FilterIdKey)
  {
    var q := MergeLinked(map[], filter, qdiscs, ParentKey, QdiscStrip);
    if AnyLinked(qdiscs, ParentKey, filter) {
      MergeFilterIdValue(map[], filter, qdiscs, ParentKey, QdiscStrip);
    }
    MergeFilterIdValue(q, filter, classes, ClassIdKey, ClassStrip);
  }

  /** Class rows are merged after qdisc rows, so a column of the last linked
      class row that has it wins over any qdisc column. */
  lemma ClassOverridesQdisc(filter: Row, qdiscs: seq<Row>, classes: seq<Row>, i: nat, k: string)
    requires i < |classes| && LinksTo(classes[i], ClassIdKey, filter)
    requires k in classes[i] && k !in ClassStrip && k != FilterIdKey
    requires forall j :: i < j < |classes| && LinksTo(classes[j], ClassIdKey, filter) ==> k !in classes[j]
    ensures k in RuleFor(filter, qdiscs, classes)
    ensures RuleFor(filter, qdiscs, classes)[k] == classes[i][k]
  {
    var q := MergeLinked(map[], filter, qdiscs, ParentKey, QdiscStrip);
    MergeLastWriteWins(q, filter, classes, ClassIdKey, ClassStrip, i, k);
  }

  /** A column of the last linked qdisc row that has it survives when no
      linked class row carries it. */
  lemma QdiscColumnKept(filter: Row, qdiscs: seq<Row>, classes: seq<Row>, i: nat, k: string)
    requires i < |qdiscs| && LinksTo(qdiscs[i], ParentKey, filter)
    requires k in qdiscs[i] && k !in QdiscStrip && k != FilterIdKey
    requires forall j :: i < j < |qdiscs| && LinksTo(qdiscs[j], ParentKey, filter) ==> k !in qdiscs[j]
    requires forall j :: 0 <= j < |classes| && LinksTo(classes[j], ClassIdKey, filter) ==> k !in classes[j]
    ensures k in RuleFor(filter, qdiscs, classes)
    ensures RuleFor(filter, qdiscs, classes)[k] == qdiscs[i][k]
  {
    var q := MergeLinked(map[], filter, qdiscs, ParentKey, QdiscStrip);
    MergeLastWriteWins(map[], filter, qdiscs, ParentKey, QdiscStrip, i, k);
    MergePreservesUntouched(q, filter, classes, ClassIdKey, ClassStrip, k);
  }

  /** A column no linked row carries keeps the value it had before the merge. */
  lemma {:induction false} MergePreservesUntouched(rule: Row, filter: Row, rows: seq<Row>, link: string, strip: seq<string>, k: string)
    requires k in rule && k != FilterIdKey
    requires forall j :: 0 <= j < |rows| && LinksTo(rows[j], link, filter) ==> k !in rows[j]
    ensures var merged := MergeLinked(rule, filter, rows, link, strip);
            k in merged && merged[k] == rule[k]
    decreases |rows|
  {
    if rows != [] {
      var front := rows[..|rows| - 1];
      forall j | 0 <= j < |front| && LinksTo(front[j], link, filter) ensures k !in front[j] {
        assert front[j] == rows[j];
      }
      MergePreservesUntouched(rule, filter, front, link, strip, k);
    }
  }

  /** Nothing else gets in: a column of the merged rule is the filter id, was
      already in the rule, or comes unstripped from some linked row. */
  lemma {:induction false} MergeLinkedKeysSubset(rule: Row, filter: Row, rows: seq<Row>, link: string, strip: seq<string>, k: string)
    requires k in MergeLinked(rule, filter, rows, link, strip)
    ensures || k == FilterIdKey
            || k in rule
            || exists j :: 0 <= j < |rows| && LinksTo(rows[j], link, filter) && k in rows[j] && k !in strip
    decreases |rows|
  {
    if rows != [] {
      var front := rows[..|rows| - 1];
      var last := rows[|rows| - 1];
      if LinksTo(last, link, filter) && k in Stripped(last, strip) {
        assert LinksTo(rows[|rows| - 1], link, filter) && k in rows[|rows| - 1] && k !in strip;
      } else if k != FilterIdKey {
        assert k in MergeLinked(rule, filter, front, link, strip);
        MergeLinkedKeysSubset(rule, filter, front, link, strip, k);
        if k !in rule {
          var j :| 0 <= j < |front| && LinksTo(front[j], link, filter) && k in front[j] && k !in strip;
          assert front[j] == rows[j];
        }
      }
    }
  }

  /** Every column of a filter's rule is its filter id or an unstripped column
      of a linked qdisc or class row. */
  lemma RuleKeysFromLinkedRows(filter: Row, qdiscs: seq<Row>, classes: seq<Row>, k: string)
    requires k in RuleFor(filter, qdiscs, classes)
    ensures || k == FilterIdKey
            || (exists j :: 0 <= j < |qdiscs| && LinksTo(qdiscs[j], ParentKey, filter) && k in qdiscs[j] && k !in QdiscStrip)
            || (exists j :: 0 <= j < |classes| && LinksTo(classes[j], ClassIdKey, filter) && k in classes[j] && k !in ClassStrip)
  {
    var q := MergeLinked(map[], filter, qdiscs, ParentKey, QdiscStrip);
    MergeLinkedKeysSubset(q, filter, classes, ClassIdKey, ClassStrip, k);
    if k in q {
      MergeLinkedKeysSubset(map[], filter, qdiscs, ParentKey, QdiscStrip, k);
    }
  }

  /** A `parent` column in a rule can only come from a linked class row, since
      qdisc rows lose theirs. */
  lemma RuleParentFromClass(filter: Row, qdiscs: seq<Row>, classes: seq<Row>)
    requires ParentKey in RuleFor(filter, qdiscs, classes)
    ensures exists j :: 0 <= j < |classes| && LinksTo(classes[j], ClassIdKey, filter) && ParentKey in classes[j]
  {
    RuleKeysFromLinkedRows(filter, qdiscs, classes, ParentKey);
    assert ParentKey in QdiscStrip;
  }

  /** A `handle` column in a rule can only come from a linked class row, since
      qdisc rows lose theirs. */
  lemma RuleHandleFromClass(filter: Row, qdiscs: seq<Row>, classes: seq<Row>)
    requires HandleKey in RuleFor(filter, qdiscs, classes)
    ensures exists j :: 0 <= j < |classes| && LinksTo(classes[j], ClassIdKey, filter) && HandleKey in classes[j]
  {
    RuleKeysFromLinkedRows(filter, qdiscs, classes, HandleKey);
    assert HandleKey in QdiscStrip;
  }

  // ---------------------------------------------------------------------
  // Properties of the whole mapping

  /** One more filter: the mapping so far, extended by that filter's contribution. */
  lemma FoldStep(steps: seq<Result<Option<Entry>, FilterKeyError>>, i: nat, m: map<string, Row>)
    requires i < |steps| && Fold(steps[..i]) == Success(m)
    ensures Fold(steps[..i + 1]) ==
            match steps[i]
            case Failure(e) => Failure(e)
            case Success(None) => Success(m)
            case Success(Some(entry)) => Success(m[entry.key := entry.rule])
  {
    assert steps[..i + 1][..i] == steps[..i];
  }

  /** Once a step has failed, every longer run fails the same way. */
  lemma {:induction false} FoldFailurePersists(steps: seq<Result<Option<Entry>, FilterKeyError>>, n: nat)
    requires n <= |steps| && Fold(steps[..n]).Failure?
    ensures Fold(steps) == Fold(steps[..n])
    decreases |steps|
  {
    if n < |steps| {
      var front := steps[..|steps| - 1];
      assert front[..n] == steps[..n];
      FoldFailurePersists(front, n);
    } else {
      assert steps[..n] == steps;
    }
  }

  lemma {:induction false} FoldFailsIff(steps: seq<Result<Option<Entry>, FilterKeyError>>)
    ensures Fold(steps).Failure? <==> exists i :: 0 <= i < |steps| && steps[i].Failure?
    decreases |steps|
  {
    if steps != [] {
      var front := steps[..|steps| - 1];
      FoldFailsIff(front);
      if exists i :: 0 <= i < |front| && front[i].Failure? {
        var i :| 0 <= i < |front| && front[i].Failure?;
        assert steps[i] == front[i];
      }
      if exists i :: 0 <= i < |steps| && steps[i].Failure? {
        var i :| 0 <= i < |steps| && steps[i].Failure?;
        if i < |front| {
          assert front[i] == steps[i];
        }
      }
    }
  }

  predicate PutsKey(step: Result<Option<Entry>, FilterKeyError>, key: string)
  {
    step.Success? && step.value.Some? && step.value.value.key == key
  }

  lemma {:induction false} FoldKeys(steps: seq<Result<Option<Entry>, FilterKeyError>>, key: string)
    requires Fold(steps).Success?
    ensures key in Fold(steps).value <==> exists i :: 0 <= i < |steps| && PutsKey(steps[i], key)
    decreases |steps|
  {
    if steps != [] {
      var front := steps[..|steps| - 1];
      FoldKeys(front, key);
      if exists i :: 0 <= i < |front| && PutsKey(front[i], key) {
        var i :| 0 <= i < |front| && PutsKey(front[i], key);
        assert steps[i] == front[i];
      }
      if exists i :: 0 <= i < |steps| && PutsKey(steps[i], key) {
        var i :| 0 <= i < |steps| && PutsKey(steps[i], key);
        if i < |front| {
          assert front[i] == steps[i];
        }
      }
    }
  }

  lemma {:induction false} FoldLastWins(steps: seq<Result<Option<Entry>, FilterKeyError>>, i: nat, key: string)
    requires Fold(steps).Success?
    requires i < |steps| && PutsKey(steps[i], key)
    requires forall j :: i < j < |steps| ==> !PutsKey(steps[j], key)
    ensures key in Fold(steps).value && Fold(steps).value[key] == steps[i].value.value.rule
    decreases |steps|
  {
    var front := steps[..|steps| - 1];
    if i < |front| {
      forall j | i < j < |front| ensures !PutsKey(front[j], key) {
        assert front[j] == steps[j];
      }
      assert front[i] == steps[i];
      FoldLastWins(front, i, key);
    }
  }

  predicate WellFormedEntry(entry: Entry)
  {
    !IsBlank(entry.key) && FilterIdKey in entry.rule && DeviceKey !in entry.rule
  }

  lemma {:induction false} FoldWellFormed(steps: seq<Result<Option<Entry>, FilterKeyError>>)
    requires Fold(steps).Success?
    requires forall i :: 0 <= i < |steps| && steps[i].Success? && steps[i].value.Some? ==> WellFormedEntry(steps[i].value.value)
    ensures forall k :: k in Fold(steps).value ==> WellFormedEntry(Entry(k, Fold(steps).value[k]))
    decreases |steps|
  {
    if steps != [] {
      var front := steps[..|steps| - 1];
      forall i | 0 <= i < |front| && front[i].Success? && front[i].value.Some? ensures WellFormedEntry(front[i].value.value) {
        assert front[i] == steps[i];
      }
      FoldWellFormed(front);
    }
  }

  predicate KeyFails(filter: Row, mangles: seq<MangleRule>, ipVersion: int)
  {
    FilterKey(filter, mangles, ipVersion).Failure?
  }

  /** The error the assembly raises is the first failing filter's: the
      filters before it contribute normally and the ones after it are never
      reached. */
  lemma AssembleFirstError(filters: seq<Row>, qdiscs: seq<Row>, classes: seq<Row>, mangles: seq<MangleRule>, ipVersion: int, i: nat)
    requires i < |filters| && KeyFails(filters[i], mangles, ipVersion)
    requires forall j :: 0 <= j < i ==> !KeyFails(filters[j], mangles, ipVersion)
    ensures Assemble(filters, qdiscs, classes, mangles, ipVersion) == Failure(FilterKey(filters[i], mangles, ipVersion).error)
  {
    var steps := Contributions(filters, qdiscs, classes, mangles, ipVersion);
    var prefix := steps[..i];
    FoldFailsIff(prefix);
    assert forall j :: 0 <= j < |prefix| ==> prefix[j] == steps[j];
    FoldStep(steps, i, Fold(prefix).value);
    FoldFailurePersists(steps, i + 1);
  }

  /** The assembly fails exactly when some filter's key cannot be derived:
      a missing mark is fatal, never silently skipped. */
  lemma AssembleFailsIff(filters: seq<Row>, qdiscs: seq<Row>, classes: seq<Row>, mangles: seq<MangleRule>, ipVersion: int)
    ensures Assemble(filters, qdiscs, classes, mangles, ipVersion).Failure? <==>
            exists i :: 0 <= i < |filters| && KeyFails(filters[i], mangles, ipVersion)
  {
    var steps := Contributions(filters, qdiscs, classes, mangles, ipVersion);
    FoldFailsIff(steps);
    assert forall i :: 0 <= i < |filters| ==> (steps[i].Failure? <==> KeyFails(filters[i], mangles, ipVersion));
  }

  /** Filter `f` puts an entry under `key`: its key is `key`, non-blank, and
      some qdisc or class row is linked to it. */
  predicate Contributes(f: Row, qdiscs: seq<Row>, classes: seq<Row>, mangles: seq<MangleRule>, ipVersion: int, key: string)
  {
    PutsKey(Contribution(f, qdiscs, classes, mangles, ipVersion), key)
  }

  lemma ContributesIff(f: Row, qdiscs: seq<Row>, classes: seq<Row>, mangles: seq<MangleRule>, ipVersion: int, key: string)
    ensures Contributes(f, qdiscs, classes, mangles, ipVersion, key) <==>
            && FilterKey(f, mangles, ipVersion) == Success(key)
            && key != ""
            && (AnyLinked(qdiscs, ParentKey, f) || AnyLinked(classes, ClassIdKey, f))
  {
    RuleEmptyIffUnlinked(f, qdiscs, classes);
    if FilterKey(f, mangles, ipVersion).Success? {
      JoinBlankIff(KeyItems(f, mangles, ipVersion).value);
    }
  }

  /** The mapping's keys are exactly the keys of the filters that contribute an entry. */
  lemma AssembleKeys(filters: seq<Row>, qdiscs: seq<Row>, classes: seq<Row>, mangles: seq<MangleRule>, ipVersion: int, key: string)
    requires Assemble(filters, qdiscs, classes, mangles, ipVersion).Success?
    ensures key in Assemble(filters, qdiscs, classes, mangles, ipVersion).value <==>
            exists i :: 0 <= i < |filters| && Contributes(filters[i], qdiscs, classes, mangles, ipVersion, key)
  {
    var steps := Contributions(filters, qdiscs, classes, mangles, ipVersion);
    FoldKeys(steps, key);
    assert forall i :: 0 <= i < |filters| ==> steps[i] == Contribution(filters[i], qdiscs, classes, mangles, ipVersion);
  }

  /** Later filters with the same key overwrite earlier ones: a key holds the
      rule of the last filter contributing it. */
  lemma AssembleLastFilterWins(filters: seq<Row>, qdiscs: seq<Row>, classes: seq<Row>, mangles: seq<MangleRule>, ipVersion: int,
                               i: nat, key: string)
    requires forall j :: 0 <= j < |filters| ==> !KeyFails(filters[j], mangles, ipVersion)
    requires i < |filters| && Contributes(filters[i], qdiscs, classes, mangles, ipVersion, key)
    requires forall j :: i < j < |filters| ==> !Contributes(filters[j], qdiscs, classes, mangles, ipVersion, key)
    ensures Assemble(filters, qdiscs, classes, mangles, ipVersion).Success?
    ensures key in Assemble(filters, qdiscs, classes, mangles, ipVersion).value
    ensures Assemble(filters, qdiscs, classes, mangles, ipVersion).value[key] == RuleFor(filters[i], qdiscs, classes)
  {
    AssembleFailsIff(filters, qdiscs, classes, mangles, ipVersion);
    var steps := Contributions(filters, qdiscs, classes, mangles, ipVersion);
    FoldLastWins(steps, i, key);
  }

  lemma ContributionWellFormed(f: Row, qdiscs: seq<Row>, classes: seq<Row>, mangles: seq<MangleRule>, ipVersion: int)
    requires Contribution(f, qdiscs, classes, mangles, ipVersion).Success?
    requires Contribution(f, qdiscs, classes, mangles, ipVersion).value.Some?
    ensures WellFormedEntry(Contribution(f, qdiscs, classes, mangles, ipVersion).value.value)
  {
    RuleShape(f, qdiscs, classes);
  }

  /** Every entry sits under a non-blank key and records the filter-id column, never the device. */
  lemma AssembleEntriesWellFormed(filters: seq<Row>, qdiscs: seq<Row>, classes: seq<Row>, mangles: seq<MangleRule>, ipVersion: int)
    requires Assemble(filters, qdiscs, classes, mangles, ipVersion).Success?
    ensures var m := Assemble(filters, qdiscs, classes, mangles, ipVersion).value;
            forall k :: k in m ==> !IsBlank(k) && FilterIdKey in m[k] && DeviceKey !in m[k]
  {
    var steps := Contributions(filters, qdiscs, classes, mangles, ipVersion);
    forall i | 0 <= i < |steps| && steps[i].Success? && steps[i].value.Some? ensures WellFormedEntry(steps[i].value.value) {
      ContributionWellFormed(filters[i], qdiscs, classes, mangles, ipVersion);
    }
    FoldWellFormed(steps);
    forall k | k in Fold(steps).value ensures WellFormedEntry(Entry(k, Fold(steps).value[k])) { }
  }

  /** The fold of two step sequences in a row: the first failure wins, and
      otherwise the second mapping overrides the first key by key. */
  function Combine(first: Result<map<string, Row>, FilterKeyError>, second: Result<map<string, Row>, FilterKeyError>)
    : Result<map<string, Row>, FilterKeyError>
  {
    if first.Failure? then first
    else if second.Failure? then second
    else Success(first.value + second.value)
  }

  lemma {:induction false} FoldAppend(a: seq<Result<Option<Entry>, FilterKeyError>>, b: seq<Result<Option<Entry>, FilterKeyError>>)
    ensures Fold(a + b) == Combine(Fold(a), Fold(b))
    decreases |b|
  {
    if b == [] {
      assert a + b == a;
      if Fold(a).Success? {
        assert Fold(a).value + map[] == Fold(a).value;
      }
    } else {
      var front := b[..|b| - 1];
      assert (a + b)[..|a + b| - 1] == a + front;
      assert (a + b)[|a + b| - 1] == b[|b| - 1];
      FoldAppend(a, front);
      match b[|b| - 1]
      case Failure(e) =>
      case Success(None) =>
      case Success(Some(entry)) =>
        if Fold(a).Success? && Fold(front).Success? {
          assert (Fold(a).value + Fold(front).value)[entry.key := entry.rule] ==
                 Fold(a).value + Fold(front).value[entry.key := entry.rule];
        }
    }
  }

  /** Replaying the same steps any number of times folds to what one pass folds to. */
  lemma {:induction false} FoldRepeat(steps: seq<Result<Option<Entry>, FilterKeyError>>, k: nat)
    requires 1 <= k
    ensures Fold(Repeat(steps, k)) == Fold(steps)
  {
    if k == 1 {
      assert Repeat(steps, 1) == [] + steps == steps;
    } else {
      FoldRepeat(steps, k - 1);
      FoldAppend(Repeat(steps, k - 1), steps);
      if Fold(steps).Success? {
        assert Fold(steps).value + Fold(steps).value == Fold(steps).value;
      }
    }
  }

  lemma {:induction false} ContributionsRepeat(filters: seq<Row>, qdiscs: seq<Row>, classes: seq<Row>, mangles: seq<MangleRule>, ipVersion: int, k: nat)
    ensures Contributions(Repeat(filters, k), qdiscs, classes, mangles, ipVersion) ==
            Repeat(Contributions(filters, qdiscs, classes, mangles, ipVersion), k)
  {
    if k > 0 {
      ContributionsRepeat(filters, qdiscs, classes, mangles, ipVersion, k - 1);
      var front := Repeat(filters, k - 1);
      assert Repeat(filters, k) == front + filters;
      var steps := Contributions(front + filters, qdiscs, classes, mangles, ipVersion);
      assert steps == Contributions(front, qdiscs, classes, mangles, ipVersion) + Contributions(filters, qdiscs, classes, mangles, ipVersion) by {
        forall i | 0 <= i < |steps|
          ensures steps[i] == (Contributions(front, qdiscs, classes, mangles, ipVersion) + Contributions(filters, qdiscs, classes, mangles, ipVersion))[i]
        {
          if i < |front| {
            assert (front + filters)[i] == front[i];
          } else {
            assert (front + filters)[i] == filters[i - |front|];
          }
        }
      }
    }
  }

  /** The same filter rows stored several times assemble to the mapping one
      copy assembles to: the same keys, the same last writer per key, the
      same first error. */
  lemma AssembleRepeat(filters: seq<Row>, qdiscs: seq<Row>, classes: seq<Row>, mangles: seq<MangleRule>, ipVersion: int, k: nat)
    requires 1 <= k
    ensures Assemble(Repeat(filters, k), qdiscs, classes, mangles, ipVersion) == Assemble(filters, qdiscs, classes, mangles, ipVersion)
  {
    ContributionsRepeat(filters, qdiscs, classes, mangles, ipVersion, k);
    FoldRepeat(Contributions(filters, qdiscs, classes, mangles, ipVersion), k);
  }
}
