/** Method calls and back-references (src/jmap/core/invocation.py). */
module Invocations {
  import opened Wrappers
  import Json

  datatype ResultRef = ResultRef(resultOf: string, name: string, path: string)

  datatype ArgumentValue = Literal(value: Json.Value) | Reference(ref: ResultRef)

  // Arguments keep the order the caller gave them, as a Python dictionary does.
  datatype Argument = Argument(key: string, value: ArgumentValue)

  // `parse` travels with the call; None stands for a parser that raised.
  datatype MethodCall = MethodCall(
    name: string,
    arguments: seq<Argument>,
    parse: Json.Members -> Option<Json.Value>)

  datatype QueuedCall = QueuedCall(id: string, call: MethodCall)

  datatype NamedRef = NamedRef(argument: string, ref: ResultRef)

  /** The arguments that are back-references, in argument order. */
  function References(arguments: seq<Argument>): (refs: seq<NamedRef>)
    ensures forall r :: r in refs <==> Argument(r.argument, Reference(r.ref)) in arguments
  {
    if arguments == [] then []
    else
      var first := arguments[0];
      assert arguments == [first] + arguments[1..];
      var rest := References(arguments[1..]);
      if first.value.Reference? then [NamedRef(first.key, first.value.ref)] + rest else rest
  }

  predicate UniqueIds(calls: seq<QueuedCall>) {
    forall i, j :: 0 <= i < j < |calls| ==> calls[i].id != calls[j].id
  }
}
