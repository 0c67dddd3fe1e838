/** Object identifiers, values and variable bindings. */
module Snmp {
  import opened Basics

  type Oid = seq<nat>

  /** The numeric kinds of SNMP values are not told apart here: only their number matters. */
  datatype SnmpValue =
    | Number(n: int) | Boolean(b: bool) | Octets(octets: seq<byte>) | IpAddress(octets: seq<byte>)
    | ObjectId(oid: Oid) | Null | Unsupported

  datatype VarBind = VarBind(oid: Oid, value: SnmpValue)
}
