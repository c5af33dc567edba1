/** Values, rows and the loosely-typed checks that the shaping-rule parser
    applies to the rows it reads back from its relational store. */
module TcTypes {

  datatype Option<T> = None | Some(value: T)

  datatype Result<T, E> = Success(value: T) | Failure(error: E)

  /** One column value of a stored row: text, an integer, or NULL. A key that
      is absent from a row reads as Null, as `dict.get` returns None. */
  datatype Value = Str(s: string) | Int(i: int) | Null

  /** A row of the qdisc, class or filter table, keyed by column name. */
  type Row = map<string, Value>

  /** `row.get(key)`. */
  function Get(row: Row, key: string): Value
  {
    if key in row then row[key] else Null
  }

  // Column names shared by the three tables and the flow key (Tc.Param).
  const DeviceKey: string := "device"
  const FilterIdKey: string := "filter_id"
  const ClassIdKey: string := "classid"
  const FlowIdKey: string := "flowid"
  const HandleKey: string := "handle"
  const ParentKey: string := "parent"
  const ProtocolKey: string := "protocol"
  const SrcNetworkKey: string := "src-network"
  const DstNetworkKey: string := "dst-network"
  const SrcPortKey: string := "src-port"
  const DstPortKey: string := "dst-port"

  /** The characters Python's `str.strip()` removes. */
  predicate IsSpace(c: char)
  {
    var n := c as int;
    n == 32 || 9 <= n <= 13 || 28 <= n <= 31 || n == 0x85 || n == 0xA0 || n == 0x1680
    || 0x2000 <= n <= 0x200A || n == 0x2028 || n == 0x2029 || n == 0x202F || n == 0x205F || n == 0x3000
  }

  /** `len(s.strip()) == 0`. */
  predicate IsBlank(s: string)
  {
    forall i :: 0 <= i < |s| ==> IsSpace(s[i])
  }

  /** typepy.is_not_null_string: a string with something other than whitespace. */
  predicate IsNotNullString(v: Value)
  {
    v.Str? && !IsBlank(v.s)
  }

  /** typepy.is_null_string on an optional device name: None or whitespace only. */
  predicate IsNullString(d: Option<string>)
  {
    d.None? || IsBlank(d.value)
  }

  /** Python truthiness of an optional device name (`not device`): None or "". */
  predicate Falsy(d: Option<string>)
  {
    d.None? || d.value == ""
  }

  /** _network.is_anywhere_network: the match-everything network of the IP version. */
  predicate IsAnywhereNetwork(network: string, ipVersion: int)
  {
    (ipVersion == 4 && network == "0.0.0.0/0") || (ipVersion == 6 && network == "::/0")
  }

  /** One iptables mangle rule as IptablesMangleController.parse() yields it. */
  datatype MangleRule = MangleRule(markId: int, destination: string, source: Option<string>, protocol: string)

  /** The exceptions flow-key derivation raises. */
  datatype FilterKeyError =
    | HandleNotInteger(handle: Value)      // Integer(handle).validate() rejects the handle
    | MarkNotFound(lastScanned: MangleRule) // ValueError, formatted with the last rule the loop visited
    | MangleUnbound                         // no rule at all: the loop variable is never bound

  /** `s` written `k` times in a row. */
  function Repeat<T>(s: seq<T>, k: nat): (r: seq<T>)
    ensures |r| == k * |s|
  {
    if k == 0 then [] else Repeat(s, k - 1) + s
  }
}
