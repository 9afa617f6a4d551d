/**
 * A deterministic server answering one request at a time (sections 3.3, 3.4 and 3.7 of
 * RFC 8620). The split-batch results are stated against it.
 */
module Servers {
  import opened Wrappers
  import opened Invocations
  import opened Responses
  import Json
  import Pointers

  datatype NamedResponse = NamedResponse(name: string, arguments: Json.Members)

  // What one method call does: a new server state, its responses (implicit ones
  // included, possibly none) and the creation ids it assigned.
  datatype Effect<S> = Effect(state: S, responses: seq<NamedResponse>, created: map<string, string>)

  type Method<!S> = (S, string, Json.Members, map<string, string>) -> Effect<S>

  /** Section 3.7: the first response under the id, which must carry the expected name. */
  function ResolveReference(ref: ResultRef, earlier: seq<Invocation>): Option<Json.Value> {
    var responses := ForCall(earlier, ref.resultOf);
    if responses == [] || responses[0].name != ref.name then None
    else
      match Pointers.Resolve(Json.Object(responses[0].arguments), ref.path)
      case Success(value) => Some(value)
      case Failure(_) => None
  }

  function ResolveArguments(arguments: seq<Argument>, earlier: seq<Invocation>): Option<Json.Members> {
    if arguments == [] then Some(map[])
    else
      var init := ResolveArguments(arguments[..|arguments| - 1], earlier);
      var last := arguments[|arguments| - 1];
      var value := match last.value
                   case Literal(literal) => Some(literal)
                   case Reference(ref) => ResolveReference(ref, earlier);
      if init.None? || value.None? then None else Some(init.value[last.key := value.value])
  }

  function Label(responses: seq<NamedResponse>, id: string): seq<Invocation> {
    seq(|responses|, i requires 0 <= i < |responses| =>
      Invocation(responses[i].name, responses[i].arguments, id))
  }

  // The server after some calls of a request; `created` is that request's creation-id map.
  datatype Execution<S> = Execution(state: S, created: map<string, string>, responses: seq<Invocation>)

  /** Runs one call; `earlier` is what this request has answered so far, `responses` only the new answers. */
  function RunCall<S>(method_: Method<S>, call: QueuedCall, state: S, created: map<string, string>,
                      earlier: seq<Invocation>): Execution<S> {
    match ResolveArguments(call.call.arguments, earlier)
    case None =>
      var failure := Invocation(ERROR_RESPONSE, map["type" := Json.Str("invalidResultReference")], call.id);
      Execution(state, created, [failure])
    case Some(arguments) =>
      var effect := method_(state, call.call.name, arguments, created);
      Execution(effect.state, created + effect.created, Label(effect.responses, call.id))
  }

  function Run<S>(method_: Method<S>, calls: seq<QueuedCall>, state: S, created: map<string, string>,
                  earlier: seq<Invocation>): Execution<S>
    decreases |calls|
  {
    if calls == [] then Execution(state, created, [])
    else
      var first := RunCall(method_, calls[0], state, created, earlier);
      var rest := Run(method_, calls[1..], first.state, first.created, earlier + first.responses);
      Followed(first, rest)
  }

  /** One execution and the one that went on from it, as one. */
  function Followed<S>(first: Execution<S>, rest: Execution<S>): Execution<S> {
    Execution(rest.state, rest.created, first.responses + rest.responses)
  }

  lemma FollowedTwice<S>(a: Execution<S>, b: Execution<S>, c: Execution<S>)
    ensures Followed(Followed(a, b), c) == Followed(a, Followed(b, c))
  {
    assert (a.responses + b.responses) + c.responses == a.responses + (b.responses + c.responses);
  }

  // ---------------------------------------------------------------------------
  // Facts about running calls
  // ---------------------------------------------------------------------------

  lemma {:induction false} RunConcat<S>(
    method_: Method<S>, first: seq<QueuedCall>, second: seq<QueuedCall>, state: S,
    created: map<string, string>, earlier: seq<Invocation>)
    ensures
      var a := Run(method_, first, state, created, earlier);
      var b := Run(method_, second, a.state, a.created, earlier + a.responses);
      Run(method_, first + second, state, created, earlier) == Followed(a, b)
    decreases |first|
  {
    if first == [] {
      assert first + second == second;
      assert earlier + [] == earlier;
      var b := Run(method_, second, state, created, earlier);
      assert [] + b.responses == b.responses;
    } else {
      var head := RunCall(method_, first[0], state, created, earlier);
      assert (first + second)[0] == first[0] && (first + second)[1..] == first[1..] + second;
      RunConcat(method_, first[1..], second, head.state, head.created, earlier + head.responses);
      var rest := Run(method_, first[1..], head.state, head.created, earlier + head.responses);
      assert earlier + (head.responses + rest.responses) == (earlier + head.responses) + rest.responses;
      var last := Run(method_, second, rest.state, rest.created, earlier + head.responses + rest.responses);
      FollowedTwice(head, rest, last);
    }
  }

  predicate HasId(calls: seq<QueuedCall>, id: string) {
    exists i :: 0 <= i < |calls| && calls[i].id == id
  }

  predicate LabelledBy(responses: seq<Invocation>, calls: seq<QueuedCall>) {
    forall k :: 0 <= k < |responses| ==> HasId(calls, responses[k].callId)
  }

  /** Every response carries the id of a call that ran. */
  lemma {:induction false} RunLabels<S>(
    method_: Method<S>, calls: seq<QueuedCall>, state: S, created: map<string, string>, earlier: seq<Invocation>)
    ensures LabelledBy(Run(method_, calls, state, created, earlier).responses, calls)
    decreases |calls|
  {
    if calls != [] {
      var first := RunCall(method_, calls[0], state, created, earlier);
      RunLabels(method_, calls[1..], first.state, first.created, earlier + first.responses);
      var rest := Run(method_, calls[1..], first.state, first.created, earlier + first.responses);
      forall k | 0 <= k < |rest.responses|
        ensures HasId(calls, rest.responses[k].callId)
      {
        var i :| 0 <= i < |calls| - 1 && calls[1..][i].id == rest.responses[k].callId;
        assert calls[i + 1].id == calls[1..][i].id;
      }
      forall k | 0 <= k < |first.responses|
        ensures HasId(calls, first.responses[k].callId)
      {
        assert first.responses[k].callId == calls[0].id;
      }
    }
  }

  /** Two histories look the same to a list of references. */
  ghost predicate SameFor(refs: seq<NamedRef>, one: seq<Invocation>, other: seq<Invocation>) {
    forall k :: 0 <= k < |refs| ==> ForCall(one, refs[k].ref.resultOf) == ForCall(other, refs[k].ref.resultOf)
  }

  lemma {:induction false} ArgumentsDependOnRefs(
    arguments: seq<Argument>, one: seq<Invocation>, other: seq<Invocation>)
    requires SameFor(References(arguments), one, other)
    ensures ResolveArguments(arguments, one) == ResolveArguments(arguments, other)
  {
    if arguments != [] {
      var init, last := arguments[..|arguments| - 1], arguments[|arguments| - 1];
      forall k | 0 <= k < |References(init)|
        ensures ForCall(one, References(init)[k].ref.resultOf) == ForCall(other, References(init)[k].ref.resultOf)
      {
        var r := References(init)[k];
        assert r in References(init);
        assert Argument(r.argument, Reference(r.ref)) in arguments;
        assert r in References(arguments);
      }
      ArgumentsDependOnRefs(init, one, other);
      if last.value.Reference? {
        assert last in arguments;
        var r := NamedRef(last.key, last.value.ref);
        assert Argument(r.argument, Reference(r.ref)) == last;
        assert r in References(arguments);
      }
    }
  }

  /** Calls run alike after two histories that look the same to all their references. */
  lemma {:induction false} RunDependsOnRefs<S>(
    method_: Method<S>, calls: seq<QueuedCall>, state: S, created: map<string, string>,
    one: seq<Invocation>, other: seq<Invocation>)
    requires forall i :: 0 <= i < |calls| ==> SameFor(References(calls[i].call.arguments), one, other)
    ensures Run(method_, calls, state, created, one) == Run(method_, calls, state, created, other)
    decreases |calls|
  {
    if calls != [] {
      ArgumentsDependOnRefs(calls[0].call.arguments, one, other);
      var first := RunCall(method_, calls[0], state, created, one);
      forall i | 0 <= i < |calls| - 1
        ensures SameFor(References(calls[1..][i].call.arguments), one + first.responses, other + first.responses)
      {
        var refs := References(calls[1..][i].call.arguments);
        assert calls[1..][i] == calls[i + 1];
        forall k | 0 <= k < |refs|
          ensures ForCall(one + first.responses, refs[k].ref.resultOf)
               == ForCall(other + first.responses, refs[k].ref.resultOf)
        {
          ForCallConcat(one, first.responses, refs[k].ref.resultOf);
          ForCallConcat(other, first.responses, refs[k].ref.resultOf);
        }
      }
      RunDependsOnRefs(method_, calls[1..], first.state, first.created, one + first.responses, other + first.responses);
    }
  }

  /** Calls only ever add to the creation ids. */
  lemma {:induction false} RunKeepsCreated<S>(
    method_: Method<S>, calls: seq<QueuedCall>, state: S, created: map<string, string>, earlier: seq<Invocation>)
    ensures created.Keys <= Run(method_, calls, state, created, earlier).created.Keys
    decreases |calls|
  {
    if calls != [] {
      var first := RunCall(method_, calls[0], state, created, earlier);
      RunKeepsCreated(method_, calls[1..], first.state, first.created, earlier + first.responses);
    }
  }
}
