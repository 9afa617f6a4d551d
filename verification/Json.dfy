/** Decoded JSON values, as method arguments and method responses carry them. */
module Json {

  datatype Value =
    | Null
    | Bool(b: bool)
    | Number(n: int)
    | Str(s: string)
    | Array(items: seq<Value>)
    | Object(members: Members)

  type Members = map<string, Value>
}
