# tcconfig shaping-rule parser, modelled in Dafny

This project models the core of tcconfig's `TcShapingRuleParser`. That class rebuilds a host's active traffic-shaping configuration as `{device: {outgoing: {flow key: rule}, incoming: {flow key: rule}}}`. It works from the rows that the qdisc, class and filter parsers store for each device, and from the iptables mangle rules.

The model has six modules:

- `TcTypes` (tc_types.dfy): column values (`Str`, `Int`, `Null`). A row is a `map<string, Value>`. An absent column reads as `Null`, as `dict.get` returns `None`. The module also holds the typepy checks `is_not_null_string` and `is_null_string`, using the whitespace set of Python's `str.strip()`. It also holds the "anywhere" networks, mangle rules, and `FilterKeyError`, the errors that key derivation raises (ValueError, a failed validation, UnboundLocalError).
- `Decimal` (decimal.dfy): the `"{:d}"` rendering of a port, and the parser that inverts it.
- `FlowKey` (flow_key.dfy): flow-key derivation (`__get_filter_key`).
  - `KeyItems` and `FilterKey` are the specification functions. `DeriveFilterKey` is the step-by-step method, and its proof shows it equals `FilterKey`.
  - Properties are stated on the list of `name=value` items before the join.
- `ShapingRule` (shaping_rule.dfy): `__strip_param` and the nested-loop join of `__get_shaping_rule`.
  - `MergeLinked`, `RuleFor` and `Assemble` are the specification. `StripParam`, `MergeLinkedRows` and `AssembleRules` are the loops, proved equal to it.
- `RuleParser` (rule_parser.dfy): the class `TcShapingRuleParser`. It holds the relational store, one table per kind; a table that was never created reads as empty. It also holds the per-instance `parsedMappings` cache and a ghost history of the events that stored rows since the last clear: a device's parse, or a filter getter's extra run of the filter parser. Its invariant `Valid()` ties the store to that history, with no device parsed twice; a device's filter rows may be stored more than once, and `AssembleRepeat` shows that the repeated copies do not change its shaping rules. The class provides `Clear`, `ParseDevice`, `Parse`, `GetShapingRule`, `GetTcParameter` and the two filter getters. `AfterParseDevice` and `AfterShapingRule` give each method's new store and cache as a `ParserState` value.
- `Scenarios` (scenarios.dfy): worked examples.

Behaviour kept from the code:

- **Null matches Null in the join.** The join compares possibly-absent columns with plain equality. So a qdisc row without `parent` matches a filter that lacks `flowid` or `classid`.
- **The filter id can be overwritten.** The filter id is written before each matched row is merged. A matched row that itself has a `filter_id` column therefore overwrites it.
- **The mark lookup is a `for … else` loop.** When no mangle rule carries the mark, the `ValueError` reports the last rule the loop visited (`FilterKeyError.MarkNotFound`). With no mangle rules at all, the loop variable is never bound, so Python raises a name error instead (`FilterKeyError.MangleUnbound`).
- **Presence of `handle` decides the branch.** The code tests whether the column is present, not its value. A `handle` column holding NULL therefore fails validation (`HandleNotInteger`).
- **Two notions of an empty device name.** `ParseDevice` skips a device that is falsy (None or ""). `GetShapingRule` returns `{}` for a device that is None or whitespace-only.

The column-name literals (`src-network`, `dst-network`, `src-port`, `dst-port`, `protocol`, `handle`, `flowid`, `classid`, `parent`, `device`, `filter_id`) come from tcconfig/_const.py. That file is not part of this model. The general lemmas rely only on the names being distinct; the `Scenarios` examples use these spellings.

## Model

| member | source | states |
|---|---|---|
| Decimal.NatToDecimal | tcconfig/parser/shaping_rule.py:143-149 | a port's numeral is non-empty, all digits, with no leading zero |
| Decimal.NatDecimalRoundTrip | tcconfig/parser/shaping_rule.py:143-149 | reading back the numeral of n gives n |
| Decimal.IntToDecimal | tcconfig/parser/shaping_rule.py:143-149 | `{:d}` output is non-empty and starts with '-' exactly for negative ports |
| Decimal.IntDecimalRoundTrip | tcconfig/parser/shaping_rule.py:143-149 | the rendered port parses back to the same integer |
| FlowKey.Join | tcconfig/parser/shaping_rule.py:155 | the joined key is "" exactly when the item list is empty |
| FlowKey.JoinBlankIff | tcconfig/parser/shaping_rule.py:194 | a joined key is blank (is_null_string) exactly when no item qualified |
| FlowKey.JoinSnoc | tcconfig/parser/shaping_rule.py:155 | appending an item extends the key by ", " and that item |
| FlowKey.MatchItems | tcconfig/parser/shaping_rule.py:129-153 | at most five items, each named by one of the five match fields |
| FlowKey.MarkItems | tcconfig/parser/shaping_rule.py:120-123 | two or three items: the destination first and the protocol last |
| FlowKey.KeyItems | tcconfig/parser/shaping_rule.py:105-153 | the derivation fails exactly when a handle is present and either is not an integer or marks no mangle rule; a mark-based item list is never empty |
| FlowKey.FilterKey | tcconfig/parser/shaping_rule.py:105-155 | the item list joined with ", ", or the derivation's error |
| FlowKey.FindMark | tcconfig/parser/shaping_rule.py:116-118 | returns the index of the first mangle rule whose mark equals the handle, or None exactly when no rule has it |
| FlowKey.DeriveFilterKey | tcconfig/parser/shaping_rule.py:105-155 | the step-by-step derivation (early-exit scan, then conditional appends) returns exactly FilterKey of the row |
| FlowKey.NonIntegerHandleFails | tcconfig/parser/shaping_rule.py:111-113 | a handle that is not an integer fails validation instead of giving a key |
| FlowKey.UnknownMarkFails | tcconfig/parser/shaping_rule.py:116-127 | a mark that no mangle rule carries is an error; it reports the last rule, or no rule when the list is empty |
| FlowKey.MarkKeyFromFirstRule | tcconfig/parser/shaping_rule.py:116-125 | a mark-based key uses the first matching rule: destination first, source only if non-blank, protocol last |
| FlowKey.MatchKeyIgnoresMangles | tcconfig/parser/shaping_rule.py:111-153 | a filter without a handle is keyed on its own fields, whatever the mangle rules are |
| FlowKey.MatchItemsMembership | tcconfig/parser/shaping_rule.py:129-153 | an item is in the key exactly when its field's condition holds, with that field's value (networks non-blank and not anywhere, ports integer, protocol non-blank) |
| FlowKey.AnywhereNeverInKey | tcconfig/parser/shaping_rule.py:129-139 | the anywhere network never appears as a source or destination item |
| FlowKey.MatchItemsInFieldOrder | tcconfig/parser/shaping_rule.py:129-153 | items appear in the order src-network, dst-network, src-port, dst-port, protocol, each at most once |
| FlowKey.KeyEmptyIff | tcconfig/parser/shaping_rule.py:109-155 | a derived key is empty exactly when no item qualified, and blank only when empty |
| FlowKey.MarkKeyNonEmpty | tcconfig/parser/shaping_rule.py:120-123 | a successful mark-based key is never empty |
| FlowKey.MatchKeyEmptyIff | tcconfig/parser/shaping_rule.py:129-155 | a match-field key is empty exactly when none of the five fields qualifies |
| ShapingRule.Stripped | tcconfig/parser/shaping_rule.py:257-267 | the result has none of the listed keys; every other key keeps its value; absent listed keys are ignored |
| ShapingRule.StripParam | tcconfig/parser/shaping_rule.py:257-267 | deleting the listed keys one by one from a copy, skipping absent ones, yields Stripped; the input map is a value and is unchanged |
| ShapingRule.MergeLinkedRows | tcconfig/parser/shaping_rule.py:198-230 | each inner loop merges exactly the linked rows, in order, as MergeLinked specifies |
| ShapingRule.AssembleRules | tcconfig/parser/shaping_rule.py:187-240 | the nested-loop join returns exactly Assemble of the three row lists, including its first error |
| ShapingRule.MergeUnlinkedIsIdentity | tcconfig/parser/shaping_rule.py:198-205 | with no linked row an inner loop leaves the rule unchanged |
| ShapingRule.MergeLinkedHasFilterId | tcconfig/parser/shaping_rule.py:207-225 | once some row is linked the rule has a filter_id column |
| ShapingRule.MergeLastWriteWins | tcconfig/parser/shaping_rule.py:210-230 | a column other than filter_id of a linked row keeps that row's value unless a later linked row also carries it |
| ShapingRule.MergeKeepsStrippedOut | tcconfig/parser/shaping_rule.py:210-229 | a stripped column is never introduced by a merge |
| ShapingRule.MergeFilterIdValue | tcconfig/parser/shaping_rule.py:207-225 | when no linked row carries filter_id, the rule's filter_id is the filter's own |
| ShapingRule.MergePreservesUntouched | tcconfig/parser/shaping_rule.py:216-230 | a column other than filter_id that no linked row carries keeps its earlier value |
| ShapingRule.LinksTo | tcconfig/parser/shaping_rule.py:201-204 | a row is linked when its linkage column equals the filter's flowid or classid, absent columns reading as Null |
| ShapingRule.MergeLinked | tcconfig/parser/shaping_rule.py:198-214 | one inner loop: for each linked row in order, filter_id is written and then the stripped row merged |
| ShapingRule.RuleFor | tcconfig/parser/shaping_rule.py:198-230 | a filter's rule: qdisc rows merged first, class rows second |
| ShapingRule.Contribution | tcconfig/parser/shaping_rule.py:191-238 | one filter's effect on the mapping: its key error, nothing for a blank key or empty rule, else its entry |
| ShapingRule.Assemble | tcconfig/parser/shaping_rule.py:187-240 | the mapping: contributions of the filters folded in order |
| ShapingRule.MergeLinkedKeysSubset | tcconfig/parser/shaping_rule.py:198-230 | nothing else gets in: a merged column is filter_id, was in the rule, or is an unstripped column of a linked row |
| ShapingRule.RuleKeysFromLinkedRows | tcconfig/parser/shaping_rule.py:198-230 | every column of a rule is filter_id or an unstripped column of a linked qdisc or class row |
| ShapingRule.RuleHandleFromClass | tcconfig/parser/shaping_rule.py:210-230 | a handle column in a rule comes from a linked class row, as qdisc rows lose theirs |
| ShapingRule.RuleParentFromClass | tcconfig/parser/shaping_rule.py:210-230 | a parent column in a rule comes from a linked class row, as qdisc rows lose theirs |
| ShapingRule.RuleEmptyIffUnlinked | tcconfig/parser/shaping_rule.py:198-234 | a filter's rule is empty exactly when no qdisc parent and no class classid equals its flowid or classid |
| ShapingRule.RuleShape | tcconfig/parser/shaping_rule.py:207-230 | a non-empty rule has filter_id and never the device column |
| ShapingRule.QdiscLinkageStripped | tcconfig/parser/shaping_rule.py:210-213 | merged qdisc columns never include parent or handle |
| ShapingRule.RuleFilterId | tcconfig/parser/shaping_rule.py:207-225 | a linked filter's rule records its filter id, unless a linked row carries its own filter_id |
| ShapingRule.ClassOverridesQdisc | tcconfig/parser/shaping_rule.py:216-230 | class rows are merged after qdisc rows, so the last linked class row's column wins |
| ShapingRule.QdiscColumnKept | tcconfig/parser/shaping_rule.py:198-230 | a column of the last linked qdisc row that has it survives when no linked class row carries it |
| ShapingRule.FoldStep | tcconfig/parser/shaping_rule.py:189-238 | one more filter extends the mapping by exactly its contribution |
| ShapingRule.FoldFailurePersists | tcconfig/parser/shaping_rule.py:193 | after one key error, the remaining filters do not change the outcome |
| ShapingRule.FoldFailsIff | tcconfig/parser/shaping_rule.py:189-238 | the fold fails exactly when some step failed |
| ShapingRule.FoldKeys | tcconfig/parser/shaping_rule.py:238 | the mapping's keys are exactly the keys some step puts |
| ShapingRule.FoldLastWins | tcconfig/parser/shaping_rule.py:238 | a key holds the rule of the last step that puts it |
| ShapingRule.FoldWellFormed | tcconfig/parser/shaping_rule.py:238 | every entry is well formed when every step's entry is |
| ShapingRule.AssembleFailsIff | tcconfig/parser/shaping_rule.py:189-193 | assembly fails exactly when some filter's key derivation fails; a missing mark is fatal, never skipped |
| ShapingRule.AssembleFirstError | tcconfig/parser/shaping_rule.py:189-193 | the assembly raises the error of the first filter whose key derivation fails |
| ShapingRule.ContributesIff | tcconfig/parser/shaping_rule.py:193-238 | a filter adds an entry under key exactly when its key is that non-empty key and some qdisc or class row is linked to it |
| ShapingRule.AssembleKeys | tcconfig/parser/shaping_rule.py:189-238 | the mapping's keys are exactly those of filters with a non-empty key and a linked row |
| ShapingRule.AssembleLastFilterWins | tcconfig/parser/shaping_rule.py:238 | when no filter's key derivation fails, the assembly succeeds and a key holds the rule of the last filter contributing it |
| ShapingRule.ContributionWellFormed | tcconfig/parser/shaping_rule.py:194-238 | a contributed entry has a non-blank key, a filter_id column and no device column |
| ShapingRule.FoldAppend | tcconfig/parser/shaping_rule.py:189-238 | folding two step lists in a row gives the first failure, or else the second mapping laid over the first |
| ShapingRule.FoldRepeat | tcconfig/parser/shaping_rule.py:189-238 | replaying the same steps several times folds to what one pass folds to |
| ShapingRule.ContributionsRepeat | tcconfig/parser/shaping_rule.py:189-238 | repeated filters contribute repeated steps |
| ShapingRule.AssembleRepeat | tcconfig/parser/shaping_rule.py:164-240 | filter rows stored several times assemble to the mapping one copy gives: same keys, same last writer, same first error |
| ShapingRule.AssembleEntriesWellFormed | tcconfig/parser/shaping_rule.py:189-240 | every entry of the result has a non-blank key and contains filter_id, never device |
| RuleParser.Table | tcconfig/parser/shaping_rule.py:166-185 | a table never created reads as [] (the TableNotFoundError fallback) |
| RuleParser.WhereDevice | tcconfig/parser/shaping_rule.py:164 | every selected row has that device and comes from the table, and every table row with that device is selected (table order is kept by WhereDeviceAppend) |
| RuleParser.Select | tcconfig/parser/shaping_rule.py:164-185 | `select_as_dict(table, where=Where(device, device))`: the device's rows of one table |
| RuleParser.ParseInto | tcconfig/parser/shaping_rule.py:85-87 | one parse appends the device's tagged class, filter and qdisc rows, in that order |
| RuleParser.SelectAfterEvent | tcconfig/parser/shaping_rule.py:85-87 | one parse or filter read adds the owner's rows to a select for the owner and nothing to a select for any other device |
| RuleParser.AfterParseDevice | tcconfig/parser/shaping_rule.py:78-89 | the state after __parse_device: unchanged for a falsy or cached name, otherwise the rows stored and the name cached |
| RuleParser.AfterShapingRule | tcconfig/parser/shaping_rule.py:160-163 | the state after __get_shaping_rule: a null or blank name parses nothing |
| RuleParser.ParseDeviceIdempotent | tcconfig/parser/shaping_rule.py:82-83 | parsing the same device twice leaves the state as one parse does |
| RuleParser.ParseDeviceCache | tcconfig/parser/shaping_rule.py:78-89 | the cache gains exactly the parsed name, marked True, and loses nothing |
| RuleParser.ParseDeviceConsistent | tcconfig/parser/shaping_rule.py:78-89 | every parse keeps the invariant: the history grows by the device exactly when it was not cached, and the store equals replaying the history |
| RuleParser.ShapingRuleOf | tcconfig/parser/shaping_rule.py:157-161 | {} for a null or blank name, otherwise the assembly of that device's parsed rows |
| RuleParser.DeviceRules | tcconfig/parser/shaping_rule.py:163-240 | the assembly of one device's tagged filter, qdisc and class rows |
| RuleParser.WhereDeviceAppend | tcconfig/parser/shaping_rule.py:164 | selecting by device distributes over appended rows |
| RuleParser.WhereDeviceTagged | tcconfig/parser/shaping_rule.py:164-185 | a device's rows are selected for that device and no other |
| RuleParser.Apply | tcconfig/parser/shaping_rule.py:85-87 | a parse appends the device's class, filter and qdisc rows; a filter read appends only its filter rows |
| RuleParser.StoreAfterSnoc | tcconfig/parser/shaping_rule.py:85-89 | one more event changes the store exactly as that event does |
| RuleParser.CopiesSnoc | tcconfig/parser/shaping_rule.py:85-87 | one more event adds one copy of a device's rows to a table exactly when it stores that device's rows there |
| RuleParser.CopiesOrdered | tcconfig/parser/shaping_rule.py:85-87 | the class and qdisc tables hold as many copies of a device's rows as it had parses, and the filter table at least as many |
| RuleParser.ParseStep | tcconfig/parser/shaping_rule.py:82-89 | parsing a device not yet cached keeps every device parsed at most once, the cache equal to the parsed devices, and the store equal to replaying the history |
| RuleParser.FilterReadStep | tcconfig/parser/shaping_rule.py:247-250 | an extra run of the filter parser keeps the invariant and leaves the cache and the parse counts as they were |
| RuleParser.TableAfterEvent | tcconfig/parser/shaping_rule.py:85-87 | a parse appends the device's tagged rows to each table, a filter read only to the filter table |
| RuleParser.SelectAfterHistory | tcconfig/parser/shaping_rule.py:164-185 | a select returns the device's own tagged rows once per event that stored them, and [] when none did (including a missing table) |
| RuleParser.SelectParsedDevice | tcconfig/parser/shaping_rule.py:163-185 | for a device parsed once, the class and qdisc selects return its rows once, the filter select its filter rows one or more times |
| RuleParser.TcShapingRuleParser.constructor | tcconfig/parser/shaping_rule.py:41-50 | a new parser has an empty store and cache |
| RuleParser.TcShapingRuleParser.Clear | tcconfig/parser/shaping_rule.py:52-55 | resets the store and the parsed-device cache together |
| RuleParser.TcShapingRuleParser.ParseDevice | tcconfig/parser/shaping_rule.py:78-89 | the new store and cache are exactly AfterParseDevice of the old ones: unchanged for a falsy or already parsed device, otherwise the device's class, filter and qdisc rows appended and the device cached |
| RuleParser.TcShapingRuleParser.Parse | tcconfig/parser/shaping_rule.py:74-76 | the new state is the device's parse followed by the ifb device's parse; the cache gains exactly the non-empty device and the non-falsy ifb device |
| RuleParser.TcShapingRuleParser.GetShapingRule | tcconfig/parser/shaping_rule.py:157-240 | {} for a null or blank device; otherwise the assembly of that device's own rows, however often it was parsed and however many extra copies of its filter rows the getters stored; the new state is AfterShapingRule of the old one (no parse for a null or blank name) |
| RuleParser.TcShapingRuleParser.GetTcParameter | tcconfig/parser/shaping_rule.py:57-63 | a single-device map: outgoing from the device, incoming from the ifb device, {} when there is none; the first error propagates; the device is parsed, and the ifb device only when the outgoing rules did not raise |
| RuleParser.TcShapingRuleParser.GetOutgoingTcFilter | tcconfig/parser/shaping_rule.py:65-66 | one row per filter of the device, in order: each carries the device and otherwise equals the listed filter row; those rows are appended to the filter table and the cache is unchanged |
| RuleParser.TcShapingRuleParser.ReadFilters | tcconfig/parser/shaping_rule.py:247-250 | the filter parser stores the device's tagged filter rows and returns them, leaving the cache alone |
| RuleParser.TcShapingRuleParser.GetIncomingTcFilter | tcconfig/parser/shaping_rule.py:68-72 | [] when the ifb device is falsy; otherwise one row per filter of the ifb device, each carrying that device and otherwise equal to the listed row, appended to the filter table; the cache is unchanged either way |
| Scenarios.ScenarioKeyItems | tcconfig/parser/shaping_rule.py:129-153 | a filter with a destination network and protocol gives those two items, in that order |
| Scenarios.ScenarioJoin | tcconfig/parser/shaping_rule.py:155 | the two items join to "dst-network=192.0.2.0/24, protocol=ip" |
| Scenarios.ScenarioKey | tcconfig/parser/shaping_rule.py:105-155 | that filter's key is "dst-network=192.0.2.0/24, protocol=ip" |
| Scenarios.ScenarioStripped | tcconfig/parser/shaping_rule.py:229 | the class row loses device and classid, keeping kind and rate |
| Scenarios.ScenarioRule | tcconfig/parser/shaping_rule.py:216-230 | the class linked by flowid gives {filter_id, kind: htb, rate: 1Mbit} |
| Scenarios.ScenarioClassMerge | tcconfig/parser/shaping_rule.py:216-230 | merging the linked class gives the filter id plus the class's kind and rate |
| Scenarios.ScenarioContribution | tcconfig/parser/shaping_rule.py:189-238 | that filter contributes its key and rule |
| Scenarios.ClassLinkedFilter | tcconfig/parser/shaping_rule.py:157-240 | the device's mapping is that single entry |
| Scenarios.MarkBasedFilter | tcconfig/parser/shaping_rule.py:111-125 | handle 10 with a mangle rule of mark 10 gives "dst-network=203.0.113.5, protocol=ip" |
| Scenarios.MarkScenarioJoin | tcconfig/parser/shaping_rule.py:120-123 | the mangle rule's items join to "dst-network=203.0.113.5, protocol=ip" |
| Scenarios.UnknownMarkScenario | tcconfig/parser/shaping_rule.py:116-127 | handle 11 with only mark 10 fails with the last rule; with no rules it fails unbound |

## Left out

- Probing for the ifb device (`__get_ifb_from_device`, lines 91-103) is left out. It runs `tc filter show` as a subprocess and matches "Cannot find device" in stderr. The ifb device is a constructor input instead, and `NetworkInterfaceNotFoundError` is not modelled.
- `is_execute_tc_command` and the tc command-output mode are left out. `is_execute_tc_command` only gates the probe (line 92); the output mode is also passed to `run_tc_show` on every parse (lines 244, 249, 254), and its effect is folded into the given listings.
- The SQLite in-memory database is replaced by one sequence of rows per table kind, queried by device equality. SQL typing and column affinity are not modelled. `select_as_dict` returns every column of the table, so a column that a row lacks comes back as a present NULL; the model's rows keep only the columns their parser gave them, so a test such as `handle in filter_param` (line 111) sees only those columns.
- `TcQdiscParser`, `TcClassParser`, `TcFilterParser` and `run_tc_show` are not part of this model. Their output is a given `Listing` of rows per device. The filter parser that `clear` re-creates has no modelled state.
- A device's listing is the same on every call: the model has no tc configuration that changes between calls, so it cannot show the cache serving the first parse's rows until `clear()`.
- `IptablesMangleController.parse()` shells out to iptables on every key derivation for a filter that has a handle. It is modelled as one given sequence of mangle rules, the same on every call.
- `is_anywhere_network` is modelled by its two literals, `0.0.0.0/0` for IPv4 and `::/0` for IPv6. Its whitespace stripping, other IPv6 spellings and the error for other IP versions are not modelled.
- typepy's `Integer` check is modelled as "the value is an `Int`". Digit strings that typepy might accept as integers are not modelled.
- Python's cross-type equality (`1 == True`, `1 == 1.0`) is not modelled. The join compares `Value`s structurally.
- Format errors other than the ones the code raises on purpose are excluded by typing. For example, the mangle rule's destination and protocol are strings by type.
- Logging is left out; it has no effect on behaviour.
- The parsers are assumed to store each listed row with its `device` column set to the device and no other column changed (`Tagged`, `TaggedKeepsColumns`); their own row format is not part of this model. The filter parser's `parse` is assumed to return the rows it stores (`ReadFilters`).
- Python dicts keep insertion order, so the source's mapping lists flow keys in the order of the first filter that wrote each one. A Dafny `map` has no order, so the model keeps the keys and their rules but not that order.
