/** JSON values as the collector builds them: members in a map, arrays in order.
    A floating-point value is an opaque scalar, known by its bits. */
module Json {
  datatype Json =
    | Null
    | Bool(b: bool)
    | Int(n: int)
    | Real(bits: nat)
    | Str(s: string)
    | Arr(items: seq<Json>)
    | Obj(members: map<string, Json>)
}
