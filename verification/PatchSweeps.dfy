/**
 * What a full sweep over the keys of a patch reports (src/jmap/core/patch.py): which of the
 * overlaps there may be, and which of its two keys first.
 */
module PatchSweeps {
  import opened Wrappers

  datatype PatchError =
    | LeadingSlash(key: string)
    | WholeObject(key: string)
    | InsideArray(key: string, token: string)
    | SameProperty(owner: string, key: string)
    | PrefixOf(shorter: string, longer: string)

  type Tokens = seq<string>

  type Held = map<string, Tokens>

  /** No key's pointer is a prefix of another's, or equal to it. */
  ghost predicate PrefixFree(held: Held) {
    forall k, l :: k in held && l in held && k != l ==> !(held[k] <= held[l])
  }

  /** The keys of a map, each once, in the order they were added in. */
  ghost predicate Lists(order: seq<string>, held: Held) {
    && (forall k :: k in held <==> k in order)
    && (forall i, j :: 0 <= i < j < |order| ==> order[i] != order[j])
  }

  // ---------------------------------------------------------------------------
  // The sweep
  // ---------------------------------------------------------------------------

  /** Which key owns a pointer, if any. */
  type Owner = Tokens -> Option<string>

  /** The first key, in order, whose pointer is `t`. */
  function FirstOwner(order: seq<string>, held: Held, t: Tokens): Option<string> {
    if order == [] then None
    else
      var last, before := order[|order| - 1], FirstOwner(order[..|order| - 1], held, t);
      if before.Some? then before else if last in held && held[last] == t then Some(last) else None
  }

  /** The first key, in order, that lies beneath `t`. */
  function FirstBeneath(order: seq<string>, held: Held, t: Tokens): Option<string> {
    if order == [] then None
    else
      var last, before := order[|order| - 1], FirstBeneath(order[..|order| - 1], held, t);
      if before.Some? then before else if last in held && t < held[last] then Some(last) else None
  }

  /** The owner of the shortest proper prefix that has one. */
  function ShortestOwner(owner: Owner, t: Tokens, from: nat): Option<string>
    requires from <= |t|
    decreases |t| - from
  {
    if from == |t| then None
    else if owner(t[..from]).Some? then owner(t[..from])
    else ShortestOwner(owner, t, from + 1)
  }

  /** The first pass: the first key whose pointer an earlier key already has. */
  function EqualPass(order: seq<string>, held: Held): Option<PatchError> {
    if order == [] then None
    else
      var last, init := order[|order| - 1], order[..|order| - 1];
      var before := EqualPass(init, held);
      if before.Some? then before
      else if last !in held then None
      else
        match FirstOwner(init, held, held[last])
        case Some(owner) => Some(SameProperty(owner, last))
        case None => None
  }

  /** The second pass: the first key with another above it, the outermost one. */
  function PrefixPass(order: seq<string>, held: Held, owner: Owner): Option<PatchError> {
    if order == [] then None
    else
      var last, before := order[|order| - 1], PrefixPass(order[..|order| - 1], held, owner);
      if before.Some? then before
      else if last !in held then None
      else PrefixError(ShortestOwner(owner, held[last], 0), last)
  }

  function PrefixError(shorter: Option<string>, longer: string): Option<PatchError> {
    match shorter
    case Some(key) => Some(PrefixOf(key, longer))
    case None => None
  }

  function OwnerIn(order: seq<string>, held: Held): Owner {
    t => FirstOwner(order, held, t)
  }

  /** The error the sweep reports; None when the patch is well-formed. */
  function Sweep(order: seq<string>, held: Held): Option<PatchError> {
    var equal := EqualPass(order, held);
    if equal.Some? then equal else PrefixPass(order, held, OwnerIn(order, held))
  }

  function Reported(error: Option<PatchError>): Outcome<PatchError> {
    match error
    case Some(found) => Fail(found)
    case None => Pass
  }

  // ---------------------------------------------------------------------------
  // Lookups
  // ---------------------------------------------------------------------------

  lemma {:induction false} FirstOwnerIs(order: seq<string>, held: Held, t: Tokens)
    ensures FirstOwner(order, held, t).Some? ==>
      var k := FirstOwner(order, held, t).value;
      k in order && k in held && held[k] == t
    ensures forall k :: k in order && k in held && held[k] == t ==> FirstOwner(order, held, t).Some?
  {
    if order != [] {
      FirstOwnerIs(order[..|order| - 1], held, t);
      assert order == order[..|order| - 1] + [order[|order| - 1]];
    }
  }

  lemma {:induction false} FirstBeneathIs(order: seq<string>, held: Held, t: Tokens)
    ensures FirstBeneath(order, held, t).Some? ==>
      var k := FirstBeneath(order, held, t).value;
      k in order && k in held && t < held[k]
    ensures forall k :: k in order && k in held && t < held[k] ==> FirstBeneath(order, held, t).Some?
  {
    if order != [] {
      FirstBeneathIs(order[..|order| - 1], held, t);
      assert order == order[..|order| - 1] + [order[|order| - 1]];
    }
  }

  /** A key not in the order changes nothing for it. */
  lemma {:induction false} LookupsIgnore(order: seq<string>, held: Held, path: string, added: Tokens, t: Tokens)
    requires path !in order
    ensures FirstOwner(order, held[path := added], t) == FirstOwner(order, held, t)
    ensures FirstBeneath(order, held[path := added], t) == FirstBeneath(order, held, t)
  {
    if order != [] {
      var init := order[..|order| - 1];
      assert forall k :: k in init ==> k in order;
      LookupsIgnore(init, held, path, added, t);
    }
  }

  lemma FirstOwnerSnoc(order: seq<string>, held: Held, path: string, added: Tokens, t: Tokens)
    requires path !in order
    ensures FirstOwner(order + [path], held[path := added], t) ==
      if FirstOwner(order, held, t).Some? then FirstOwner(order, held, t) else if t == added then Some(path) else None
  {
    assert (order + [path])[..|order|] == order;
    LookupsIgnore(order, held, path, added, t);
  }

  lemma FirstBeneathSnoc(order: seq<string>, held: Held, path: string, added: Tokens, t: Tokens)
    requires path !in order
    ensures FirstBeneath(order + [path], held[path := added], t) ==
      if FirstBeneath(order, held, t).Some? then FirstBeneath(order, held, t)
      else if t < added then Some(path) else None
  {
    assert (order + [path])[..|order|] == order;
    LookupsIgnore(order, held, path, added, t);
  }

  lemma {:induction false} ShortestOwnerAgrees(one: Owner, other: Owner, t: Tokens, from: nat)
    requires from <= |t| && forall n :: from <= n < |t| ==> one(t[..n]) == other(t[..n])
    ensures ShortestOwner(one, t, from) == ShortestOwner(other, t, from)
    decreases |t| - from
  {
    if from < |t| { ShortestOwnerAgrees(one, other, t, from + 1); }
  }

  lemma {:induction false} NoneShorter(owner: Owner, t: Tokens, from: nat)
    requires from <= |t| && forall n :: from <= n < |t| ==> owner(t[..n]).None?
    ensures ShortestOwner(owner, t, from).None?
    decreases |t| - from
  {
    if from < |t| { NoneShorter(owner, t, from + 1); }
  }

  /** The only owner above a pointer is found. */
  lemma {:induction false} OneShorter(owner: Owner, t: Tokens, from: nat, at: nat, key: string)
    requires from <= at < |t| && owner(t[..at]) == Some(key)
    requires forall n :: from <= n < at ==> owner(t[..n]).None?
    ensures ShortestOwner(owner, t, from) == Some(key)
    decreases at - from
  {
    if from < at { OneShorter(owner, t, from + 1, at, key); }
  }

  // ---------------------------------------------------------------------------
  // One more key
  // ---------------------------------------------------------------------------

  /** What three lookups tell about a new key: who owns its pointer, who lies beneath, who lies above. */
  function Addition(order: seq<string>, held: Held, path: string, added: Tokens): Option<PatchError> {
    var equal, beneath := FirstOwner(order, held, added), FirstBeneath(order, held, added);
    if equal.Some? then Some(SameProperty(equal.value, path))
    else if beneath.Some? then Some(PrefixOf(path, beneath.value))
    else PrefixError(ShortestOwner(OwnerIn(order, held), added, 0), path)
  }

  lemma {:induction false} EqualPassClean(
    order: seq<string>, held: Held, path: string, added: Tokens, part: seq<string>)
    requires Lists(order, held) && PrefixFree(held) && path !in order && part <= order
    ensures EqualPass(part, held[path := added]).None?
    decreases |part|
  {
    if part != [] {
      var n := |part| - 1;
      var init, last := part[..n], part[n];
      assert init <= order && last == order[n];
      EqualPassClean(order, held, path, added, init);
      FirstOwnerIs(init, held[path := added], held[last]);
      forall k | k in init && k in held[path := added] ensures held[path := added][k] != held[last] {
        var i :| 0 <= i < n && init[i] == k;
        assert order[i] != order[n] && k in held && !(held[k] <= held[last]);
      }
    }
  }

  /** A held key's only possible owner above is the new key. */
  lemma AboveHeld(order: seq<string>, held: Held, path: string, added: Tokens, key: string)
    requires Lists(order, held) && PrefixFree(held) && path !in order && FirstOwner(order, held, added).None?
    requires key in held
    ensures ShortestOwner(OwnerIn(order + [path], held[path := added]), held[key], 0)
         == if added < held[key] then Some(path) else None
  {
    var owner, t := OwnerIn(order + [path], held[path := added]), held[key];
    forall n | 0 <= n < |t| ensures owner(t[..n]) == if t[..n] == added then Some(path) else None {
      FirstOwnerSnoc(order, held, path, added, t[..n]);
      FirstOwnerIs(order, held, t[..n]);
    }
    if added < t {
      assert t[..|added|] == added;
      OneShorter(owner, t, 0, |added|, path);
    } else {
      forall n | 0 <= n < |t| ensures owner(t[..n]).None? { assert t[..n] == added ==> added < t; }
      NoneShorter(owner, t, 0);
    }
  }

  /** Over the held keys the second pass reports the first one beneath the new key. */
  lemma {:induction false} PrefixPassHeld(
    order: seq<string>, held: Held, path: string, added: Tokens, part: seq<string>)
    requires Lists(order, held) && PrefixFree(held) && path !in order && FirstOwner(order, held, added).None?
    requires part <= order
    ensures PrefixPass(part, held[path := added], OwnerIn(order + [path], held[path := added]))
         == match FirstBeneath(part, held, added)
            case Some(key) => Some(PrefixOf(path, key))
            case None => None
    decreases |part|
  {
    if part != [] {
      var n := |part| - 1;
      assert part[..n] <= order && part[n] == order[n];
      PrefixPassHeld(order, held, path, added, part[..n]);
      AboveHeld(order, held, path, added, part[n]);
    }
  }

  /** With one more key, the sweep reports what the three lookups do: the same error, about the same two keys. */
  lemma SweepOfAddition(order: seq<string>, held: Held, path: string, added: Tokens)
    requires Lists(order, held) && PrefixFree(held) && path !in held
    ensures Sweep(order + [path], held[path := added]) == Addition(order, held, path, added)
  {
    var all, grown := order + [path], held[path := added];
    assert all[..|order|] == order;
    EqualPassClean(order, held, path, added, order);
    LookupsIgnore(order, held, path, added, added);
    if FirstOwner(order, held, added).None? {
      PrefixPassHeld(order, held, path, added, order);
      if FirstBeneath(order, held, added).None? {
        forall n | 0 <= n < |added| ensures OwnerIn(all, grown)(added[..n]) == OwnerIn(order, held)(added[..n]) {
          FirstOwnerSnoc(order, held, path, added, added[..n]);
        }
        ShortestOwnerAgrees(OwnerIn(all, grown), OwnerIn(order, held), added, 0);
      }
    }
  }
}
