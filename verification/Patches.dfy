/** Building a PatchObject key by key (src/jmap/core/patch.py, section 5.3 of RFC 8620). */
module Patches {
  import opened Wrappers
  import opened Decimals
  import opened PatchSweeps
  import opened Pointers
  import opened Sequences
  import Json

  datatype Dialect = Dialect(allowArrayIndex: bool, allowWholeObject: bool)

  const JMAP := Dialect(false, false)

  // ---------------------------------------------------------------------------
  // One key
  // ---------------------------------------------------------------------------

  /** An RFC 6901 array index, or the token for the element after the last. */
  predicate IsArrayToken(token: string) {
    token == "-" || (token != "" && AllDigits(token) && (|token| > 1 ==> token[0] != '0'))
  }

  /** The first token, from `i` on, that references inside an array. */
  function ArrayReference(tokens: Tokens, mapProperties: set<string>, i: nat): Option<string>
    requires i <= |tokens|
    decreases |tokens| - i
  {
    if i == |tokens| then None
    else if IsArrayToken(tokens[i]) && !(i > 0 && tokens[i - 1] in mapProperties) then Some(tokens[i])
    else ArrayReference(tokens, mapProperties, i + 1)
  }

  function KeyTokens(key: string, dialect: Dialect, mapProperties: set<string>): Result<Tokens, PatchError> {
    if key != "" && key[0] == '/' then Failure(LeadingSlash(key))
    else if key == "" && !dialect.allowWholeObject then Failure(WholeObject(key))
    else
      var tokens := SplitPointer(key, false).value;
      var inside := if dialect.allowArrayIndex then None else ArrayReference(tokens, mapProperties, 0);
      if inside.Some? then Failure(InsideArray(key, inside.value)) else Success(tokens)
  }

  // How one key is decoded: KeyTokens for some dialect.
  type Decoder = string -> Result<Tokens, PatchError>

  function DecoderFor(dialect: Dialect, mapProperties: set<string>): Decoder {
    key => KeyTokens(key, dialect, mapProperties)
  }

  // ---------------------------------------------------------------------------
  // The full sweep
  // ---------------------------------------------------------------------------

  /** The error names two held keys and what is wrong between them. */
  ghost predicate NamesOverlap(held: map<string, Tokens>, error: PatchError) {
    match error
    case SameProperty(owner, key) => owner in held && key in held && owner != key && held[owner] == held[key]
    case PrefixOf(shorter, longer) => shorter in held && longer in held && held[shorter] < held[longer]
    case _ => false
  }

  /** Every key owns its pointer: the two maps are inverse to each other. */
  ghost predicate OwnersMatch(held: map<string, Tokens>, keys: seq<string>, owners: map<Tokens, string>) {
    && (forall k :: k in keys ==> k in held && held[k] in owners && owners[held[k]] == k)
    && (forall t :: t in owners ==> owners[t] in keys && owners[t] in held && held[owners[t]] == t)
  }

  /** Files every key under its pointer; two keys for one pointer is an error. */
  method FileOwners(held: map<string, Tokens>, order: seq<string>)
    returns (result: Outcome<PatchError>, owners: map<Tokens, string>)
    requires Lists(order, held)
    ensures result == Reported(EqualPass(order, held))
    ensures result.Pass? ==> OwnersMatch(held, order, owners)
    ensures result.Fail? ==> NamesOverlap(held, result.error) && !PrefixFree(held)
  {
    owners := map[];
    for i := 0 to |order|
      invariant OwnersMatch(held, order[..i], owners)
      invariant EqualPass(order[..i], held).None?
    {
      var key := order[i];
      EqualPassStep(order, held, i);
      OwnerFiled(held, order[..i], owners, held[key]);
      if held[key] in owners {
        assert owners[held[key]] in order[..i];
        assert held[owners[held[key]]] <= held[key];
        EqualPassStops(order, held, i);
        return Fail(SameProperty(owners[held[key]], key)), owners;
      }
      owners := owners[held[key] := key];
    }
    assert order[..|order|] == order;
    return Pass, owners;
  }

  /** No key lies above any of the first `n`, nor on it. */
  ghost predicate SweptTo(held: map<string, Tokens>, order: seq<string>, n: nat)
    requires n <= |order|
  {
    forall k, j :: k in held && 0 <= j < n && order[j] in held && k != order[j] ==> !(held[k] <= held[order[j]])
  }

  lemma SweptThrough(held: map<string, Tokens>, order: seq<string>)
    requires Lists(order, held) && SweptTo(held, order, |order|)
    ensures PrefixFree(held)
  {}

  /** Sweeps every key against every other; `order` is the order the keys were added in. */
  method CheckOverlap(held: map<string, Tokens>, order: seq<string>) returns (result: Outcome<PatchError>)
    requires Lists(order, held)
    ensures result == Reported(Sweep(order, held))
    ensures result.Pass? <==> PrefixFree(held)
    ensures result.Fail? ==> NamesOverlap(held, result.error)
  {
    var owners;
    result, owners := FileOwners(held, order);
    if result.Fail? { return; }
    for i := 0 to |order|
      invariant PrefixPass(order[..i], held, OwnerIn(order, held)).None?
      invariant SweptTo(held, order, i)
    {
      var key := order[i];
      var shorter := OwnerAbove(held, order, owners, held[key]);
      assert order[..i + 1][..i] == order[..i];
      if shorter.Some? {
        OverlapPrefix(held, shorter.value, key);
        PrefixPassStops(order, held, OwnerIn(order, held), i);
        return Fail(PrefixOf(shorter.value, key));
      }
      NothingAbove(held, order, owners, key);
    }
    assert order[..|order|] == order;
    SweptThrough(held, order);
    return Pass;
  }

  /** The owner of the shortest proper prefix of a pointer that has one. */
  method OwnerAbove(held: map<string, Tokens>, order: seq<string>, owners: map<Tokens, string>, tokens: Tokens)
    returns (shorter: Option<string>)
    requires OwnersMatch(held, order, owners)
    ensures shorter == ShortestOwner(OwnerIn(order, held), tokens, 0)
    ensures shorter.None? ==> forall n :: 0 <= n < |tokens| ==> tokens[..n] !in owners
    ensures shorter.Some? ==> shorter.value in held && held[shorter.value] < tokens
  {
    ghost var owner := OwnerIn(order, held);
    for length := 0 to |tokens|
      invariant forall n :: 0 <= n < length ==> tokens[..n] !in owners
      invariant ShortestOwner(owner, tokens, 0) == ShortestOwner(owner, tokens, length)
    {
      OwnerFiled(held, order, owners, tokens[..length]);
      if tokens[..length] in owners {
        PrefixIsTake(tokens[..length], tokens);
        return Some(owners[tokens[..length]]);
      }
    }
    return None;
  }

  /** The map of owners and the search for the first one agree. */
  lemma OwnerFiled(held: map<string, Tokens>, keys: seq<string>, owners: map<Tokens, string>, t: Tokens)
    requires OwnersMatch(held, keys, owners)
    ensures FirstOwner(keys, held, t) == if t in owners then Some(owners[t]) else None
  {
    FirstOwnerIs(keys, held, t);
  }

  lemma EqualPassStep(order: seq<string>, held: map<string, Tokens>, i: nat)
    requires i < |order| && order[i] in held && EqualPass(order[..i], held).None?
    ensures EqualPass(order[..i + 1], held) ==
      match FirstOwner(order[..i], held, held[order[i]])
      case Some(owner) => Some(SameProperty(owner, order[i]))
      case None => None
  {
    assert order[..i + 1][..i] == order[..i];
  }

  /** The first error a pass meets is the one it reports. */
  lemma {:induction false} EqualPassStops(order: seq<string>, held: map<string, Tokens>, i: nat)
    requires i < |order| && EqualPass(order[..i + 1], held).Some?
    ensures EqualPass(order, held) == EqualPass(order[..i + 1], held)
    decreases |order|
  {
    if i + 1 == |order| {
      assert order[..i + 1] == order;
    } else {
      assert order[..|order| - 1][..i + 1] == order[..i + 1];
      EqualPassStops(order[..|order| - 1], held, i);
    }
  }

  lemma {:induction false} PrefixPassGrows(order: seq<string>, held: map<string, Tokens>, owner: Owner, i: nat)
    requires i < |order| && PrefixPass(order[..i + 1], held, owner).Some?
    ensures PrefixPass(order, held, owner) == PrefixPass(order[..i + 1], held, owner)
    decreases |order|
  {
    if i + 1 == |order| {
      assert order[..i + 1] == order;
    } else {
      assert order[..|order| - 1][..i + 1] == order[..i + 1];
      PrefixPassGrows(order[..|order| - 1], held, owner, i);
    }
  }

  lemma PrefixPassStops(order: seq<string>, held: map<string, Tokens>, owner: Owner, i: nat)
    requires i < |order| && order[i] in held && PrefixPass(order[..i], held, owner).None?
    requires ShortestOwner(owner, held[order[i]], 0).Some?
    ensures PrefixPass(order, held, owner) == Some(PrefixOf(ShortestOwner(owner, held[order[i]], 0).value, order[i]))
  {
    assert order[..i + 1][..i] == order[..i];
    PrefixPassGrows(order, held, owner, i);
  }

  lemma NothingAbove(held: map<string, Tokens>, keys: seq<string>, owners: map<Tokens, string>, key: string)
    requires OwnersMatch(held, keys, owners) && key in held && key in keys
    requires forall n :: 0 <= n < |held[key]| ==> held[key][..n] !in owners
    ensures forall k :: k in keys && k != key ==> !(held[k] <= held[key])
  {
    var tokens := held[key];
    forall k | k in keys && k != key ensures !(held[k] <= tokens) {
      var n := |held[k]|;
      PrefixIsTake(held[k], tokens);
      assert n < |tokens| ==> tokens[..n] != held[k];
      assert tokens[..|tokens|] == tokens != held[k];
    }
  }

  lemma PrefixIsTake(a: Tokens, b: Tokens)
    ensures a <= b <==> |a| <= |b| && b[..|a|] == a
    ensures a < b <==> |a| < |b| && b[..|a|] == a
  {}

  // ---------------------------------------------------------------------------
  // The incremental index
  // ---------------------------------------------------------------------------

  /** The proper prefixes of the held pointers, each filed under the first key beneath it. */
  ghost predicate AncestorsMatch(order: seq<string>, held: map<string, Tokens>, ancestors: map<Tokens, string>) {
    forall t: Tokens :: FirstBeneath(order, held, t) == if t in ancestors then Some(ancestors[t]) else None
  }

  class PatchBuilder {
    const decode: Decoder
    var edits: map<string, Json.Value>
    var order: seq<string>
    var tokens: map<string, Tokens>
    var owners: map<Tokens, string>
    var ancestors: map<Tokens, string>

    /** The index is exact, the held keys are decodable and prefix-free. */
    ghost predicate Indexed()
      reads `order, `tokens, `owners, `ancestors
    {
      && Lists(order, tokens)
      && (forall k :: k in tokens ==> decode(k) == Success(tokens[k]))
      && OwnersMatch(tokens, order, owners)
      && AncestorsMatch(order, tokens, ancestors)
      && PrefixFree(tokens)
    }

    ghost predicate Valid()
      reads this
    {
      Indexed() && edits.Keys == tokens.Keys
    }

    constructor (dialect: Dialect, mapProperties: set<string>)
      ensures Valid() && edits == map[] && tokens == map[]
      ensures decode == DecoderFor(dialect, mapProperties)
    {
      edits, order, tokens, owners, ancestors := map[], [], map[], map[], map[];
      decode := DecoderFor(dialect, mapProperties);
    }

    /** Three lookups: who owns the pointer, who lies beneath it, who lies above. */
    method LookUp(path: string, added: Tokens) returns (error: Option<PatchError>)
      requires Valid() && path !in tokens
      ensures error == Addition(order, tokens, path, added)
      ensures error.None? ==>
        added !in owners && added !in ancestors && forall n :: 0 <= n < |added| ==> added[..n] !in owners
    {
      OwnerFiled(tokens, order, owners, added);
      if added in owners { return Some(SameProperty(owners[added], path)); }
      if added in ancestors { return Some(PrefixOf(path, ancestors[added])); }
      var shorter := OwnerAbove(tokens, order, owners, added);
      error := PrefixError(shorter, path);
    }

    /** Three lookups in place of a sweep over every key held: they report what the sweep would. */
    method CheckAddition(path: string, added: Tokens) returns (result: Outcome<PatchError>)
      requires Valid() && path !in tokens
      ensures result == Reported(Sweep(order + [path], tokens[path := added]))
      ensures result.Pass? <==> PrefixFree(tokens[path := added])
      ensures result.Fail? ==> NamesOverlap(tokens[path := added], result.error)
      ensures result.Pass? ==> added !in owners
    {
      var error := LookUp(path, added);
      SweepOfAddition(order, tokens, path, added);
      if error.Some? {
        AdditionOverlaps(order, tokens, path, added);
      } else {
        NoOverlap(tokens, order, owners, ancestors, path, added);
      }
      result := Reported(error);
    }

    /** Files every proper prefix of a new pointer that is not filed yet. */
    method FileAncestors(path: string, added: Tokens) returns (filed: map<Tokens, string>)
      requires AncestorsMatch(order, tokens, ancestors) && path !in order
      ensures AncestorsMatch(order + [path], tokens[path := added], filed)
    {
      filed := ancestors;
      for length := 0 to |added|
        invariant forall t :: t in ancestors ==> t in filed && filed[t] == ancestors[t]
        invariant forall t :: t in filed && t !in ancestors ==> filed[t] == path && t < added
        invariant forall n :: 0 <= n < length ==> added[..n] in filed
      {
        PrefixIsTake(added[..length], added);
        if added[..length] !in filed { filed := filed[added[..length] := path]; }
      }
      forall t: Tokens
        ensures FirstBeneath(order + [path], tokens[path := added], t) == if t in filed then Some(filed[t]) else None
      {
        FirstBeneathSnoc(order, tokens, path, added, t);
        if t < added { assert added[..|t|] == t; }
      }
    }

    /** Holds a new key that overlaps none of those held. */
    method HoldKey(path: string, added: Tokens)
      requires Lists(order, tokens) && OwnersMatch(tokens, order, owners) && AncestorsMatch(order, tokens, ancestors)
      requires path !in tokens && added !in owners
      modifies `order, `tokens, `owners, `ancestors
      ensures tokens == old(tokens)[path := added] && order == old(order) + [path]
      ensures Lists(order, tokens) && OwnersMatch(tokens, order, owners) && AncestorsMatch(order, tokens, ancestors)
    {
      var filed := FileAncestors(path, added);
      OwnersGrow(tokens, order, owners, path, added);
      tokens := tokens[path := added];
      owners := owners[added := path];
      ancestors := filed;
      order := order + [path];
    }

    /** Adds an edit under a key not held before. */
    method AddNew(path: string, added: Tokens, value: Json.Value) returns (result: Outcome<PatchError>)
      requires Valid() && path !in tokens && decode(path) == Success(added)
      modifies this
      ensures Valid()
      ensures result == Reported(Sweep(old(order) + [path], old(tokens)[path := added]))
      ensures result.Pass? <==> PrefixFree(old(tokens)[path := added])
      ensures result.Fail? ==> NamesOverlap(old(tokens)[path := added], result.error)
      ensures result.Fail? ==> edits == old(edits) && tokens == old(tokens)
      ensures result.Pass? ==> edits == old(edits)[path := value] && tokens == old(tokens)[path := added]
    {
      result := CheckAddition(path, added);
      if result.Pass? {
        HoldKey(path, added);
        edits := edits[path := value];
      }
    }

    /** Gives a held key another value; the shape of the patch stays. */
    method Overwrite(path: string, value: Json.Value)
      requires Valid() && path in tokens
      modifies `edits
      ensures Valid() && edits == old(edits)[path := value]
      ensures decode(path).Success? && tokens[path := decode(path).value] == tokens
    {
      assert decode(path) == Success(tokens[path]);
      SameEntry(tokens, path);
      edits := edits[path := value];
    }

    /** Adds one edit, unless its key is malformed or overlaps another. */
    method Add(path: string, value: Json.Value) returns (result: Outcome<PatchError>)
      requires Valid()
      modifies this
      ensures Valid()
      ensures decode(path).Failure? ==> result == Fail(decode(path).error)
      ensures decode(path).Success? ==>
        var grown := old(tokens)[path := decode(path).value];
        && (path !in old(tokens) ==> result == Reported(Sweep(old(order) + [path], grown)))
        && (result.Pass? <==> PrefixFree(grown))
        && (result.Fail? ==> NamesOverlap(grown, result.error))
        && (result.Pass? ==> edits == old(edits)[path := value] && tokens == grown)
      ensures result.Fail? ==> edits == old(edits) && tokens == old(tokens)
    {
      var decoded := decode(path);
      if decoded.Failure? { return Fail(decoded.error); }
      if path !in tokens {
        result := AddNew(path, decoded.value, value);
      } else {
        Overwrite(path, value);
        result := Pass;
      }
    }

    /** The finished patch; the full sweep over the held keys never objects. */
    method Build() returns (patch: Result<map<string, Json.Value>, PatchError>)
      requires Valid()
      ensures patch == Success(edits)
    {
      var checked := CheckOverlap(tokens, order);
      patch := Unless(checked, edits);
    }
  }

  function Unless<T>(checked: Outcome<PatchError>, value: T): Result<T, PatchError> {
    match checked
    case Pass => Success(value)
    case Fail(error) => Failure(error)
  }

  lemma SameEntry(held: map<string, Tokens>, path: string)
    requires path in held
    ensures held[path := held[path]] == held
  {}

  lemma OverlapEqual(held: map<string, Tokens>, owner: string, path: string, added: Tokens)
    requires owner in held && path !in held && held[owner] == added
    ensures NamesOverlap(held[path := added], SameProperty(owner, path)) && !PrefixFree(held[path := added])
  {
    var grown := held[path := added];
    assert grown[owner] <= grown[path];
  }

  lemma OverlapPrefix(held: map<string, Tokens>, shorter: string, longer: string)
    requires shorter in held && longer in held && held[shorter] < held[longer]
    ensures NamesOverlap(held, PrefixOf(shorter, longer)) && !PrefixFree(held)
  {
    assert held[shorter] <= held[longer];
  }

  /** What the lookups report is there. */
  lemma AdditionOverlaps(order: seq<string>, held: map<string, Tokens>, path: string, added: Tokens)
    requires Lists(order, held) && path !in held && Addition(order, held, path, added).Some?
    ensures NamesOverlap(held[path := added], Addition(order, held, path, added).value)
    ensures !PrefixFree(held[path := added])
  {
    FirstOwnerIs(order, held, added);
    FirstBeneathIs(order, held, added);
    var grown := held[path := added];
    if FirstOwner(order, held, added).Some? {
      OverlapEqual(held, FirstOwner(order, held, added).value, path, added);
    } else if FirstBeneath(order, held, added).Some? {
      OverlapPrefix(grown, path, FirstBeneath(order, held, added).value);
    } else {
      var n := ShortestAt(OwnerIn(order, held), added, 0);
      FirstOwnerIs(order, held, added[..n]);
      PrefixIsTake(added[..n], added);
      OverlapPrefix(grown, ShortestOwner(OwnerIn(order, held), added, 0).value, path);
    }
  }

  lemma {:induction false} ShortestAt(owner: Owner, t: Tokens, from: nat) returns (n: nat)
    requires from <= |t| && ShortestOwner(owner, t, from).Some?
    ensures from <= n < |t| && owner(t[..n]) == ShortestOwner(owner, t, from)
    decreases |t| - from
  {
    n := from;
    if owner(t[..from]).None? { n := ShortestAt(owner, t, from + 1); }
  }

  lemma OwnersGrow(
    held: map<string, Tokens>, keys: seq<string>, owners: map<Tokens, string>, path: string, added: Tokens)
    requires OwnersMatch(held, keys, owners) && Lists(keys, held) && path !in held && added !in owners
    ensures OwnersMatch(held[path := added], keys + [path], owners[added := path])
    ensures Lists(keys + [path], held[path := added])
  {}

  lemma NoOverlap(held: map<string, Tokens>, keys: seq<string>, owners: map<Tokens, string>,
                  ancestors: map<Tokens, string>, path: string, added: Tokens)
    requires Lists(keys, held) && OwnersMatch(held, keys, owners) && AncestorsMatch(keys, held, ancestors)
    requires PrefixFree(held) && path !in held
    requires added !in owners && added !in ancestors
    requires forall n :: 0 <= n < |added| ==> added[..n] !in owners
    ensures PrefixFree(held[path := added])
  {
    forall k | k in held
      ensures !(held[k] <= added) && !(added <= held[k])
    {
      var m, n := |held[k]|, |added|;
      assert held[k] in owners;
      FirstBeneathIs(keys, held, added);
      PrefixIsTake(held[k], added);
      PrefixIsTake(added, held[k]);
      assert m < n ==> added[..m] != held[k];
      assert n < m ==> held[k][..n] != added;
      assert added[..n] == added && held[k][..m] == held[k];
    }
  }

  // ---------------------------------------------------------------------------
  // The order of the edits does not matter
  // ---------------------------------------------------------------------------

  /** What the builder holds after adding these keys in turn; None once one is refused. */
  ghost function AddedAll(keys: seq<string>, decode: Decoder): Option<map<string, Tokens>> {
    if keys == [] then Some(map[])
    else
      var held := AddedAll(keys[..|keys| - 1], decode);
      var last := keys[|keys| - 1];
      if held.None? || decode(last).Failure? || !PrefixFree(held.value[last := decode(last).value]) then None
      else Some(held.value[last := decode(last).value])
  }

  function KeySet(keys: seq<string>): set<string> {
    set k | k in keys
  }

  /** The keys decoded all at once. */
  ghost predicate Decoded(keys: set<string>, decode: Decoder, held: map<string, Tokens>) {
    held.Keys == keys && forall k :: k in keys ==> decode(k) == Success(held[k])
  }

  /** A set of keys the server would take: each well-formed, none above another. */
  ghost predicate WellFormed(keys: set<string>, decode: Decoder) {
    exists held :: Decoded(keys, decode, held) && PrefixFree(held)
  }

  /** Whatever the builder accepted is the whole set decoded, and prefix-free. */
  lemma KeySetSnoc(keys: seq<string>)
    requires keys != []
    ensures KeySet(keys) == KeySet(keys[..|keys| - 1]) + {keys[|keys| - 1]}
  {
    assert keys == keys[..|keys| - 1] + [keys[|keys| - 1]];
  }

  lemma {:induction false} AcceptedIsDecoded(keys: seq<string>, decode: Decoder)
    requires AddedAll(keys, decode).Some?
    ensures Decoded(KeySet(keys), decode, AddedAll(keys, decode).value) && PrefixFree(AddedAll(keys, decode).value)
  {
    if keys != [] {
      var init, last := keys[..|keys| - 1], keys[|keys| - 1];
      AcceptedIsDecoded(init, decode);
      KeySetSnoc(keys);
    }
  }

  lemma FewerKeys(keys: set<string>, some: set<string>, decode: Decoder,
                  held: map<string, Tokens>, fewer: map<string, Tokens>)
    requires Decoded(keys, decode, held) && PrefixFree(held) && some <= keys
    requires fewer.Keys == some && forall k :: k in some ==> fewer[k] == held[k]
    ensures Decoded(some, decode, fewer) && PrefixFree(fewer)
  {
    forall k, l | k in fewer && l in fewer && k != l ensures !(fewer[k] <= fewer[l]) {
      assert !(held[k] <= held[l]);
    }
  }

  /** What is left of the decoded keys without the last one added. */
  lemma WithoutLast(keys: seq<string>, decode: Decoder, held: map<string, Tokens>) returns (fewer: map<string, Tokens>)
    requires keys != [] && Decoded(KeySet(keys), decode, held) && PrefixFree(held)
    ensures Decoded(KeySet(keys[..|keys| - 1]), decode, fewer) && PrefixFree(fewer)
    ensures
      var last := keys[|keys| - 1];
      last in held && decode(last) == Success(held[last]) && fewer[last := held[last]] == held
  {
    var init, last := keys[..|keys| - 1], keys[|keys| - 1];
    KeySetSnoc(keys);
    fewer := map k | k in KeySet(init) :: held[k];
    FewerKeys(KeySet(keys), KeySet(init), decode, held, fewer);
  }

  /** A set of keys that is well-formed as a whole is accepted in any order. */
  lemma {:induction false} WellFormedIsAccepted(keys: seq<string>, decode: Decoder, held: map<string, Tokens>)
    requires Decoded(KeySet(keys), decode, held) && PrefixFree(held)
    ensures AddedAll(keys, decode) == Some(held)
  {
    if keys == [] {
      assert held == map[];
    } else {
      var fewer := WithoutLast(keys, decode, held);
      WellFormedIsAccepted(keys[..|keys| - 1], decode, fewer);
    }
  }

  /** Adding keys one by one succeeds exactly when the set of them is well-formed, whatever the order. */
  lemma AcceptanceIgnoresOrder(keys: seq<string>, decode: Decoder)
    ensures AddedAll(keys, decode).Some? <==> WellFormed(KeySet(keys), decode)
  {
    if AddedAll(keys, decode).Some? { AcceptedIsDecoded(keys, decode); }
    if WellFormed(KeySet(keys), decode) {
      var held :| Decoded(KeySet(keys), decode, held) && PrefixFree(held);
      WellFormedIsAccepted(keys, decode, held);
    }
  }

  // ---------------------------------------------------------------------------
  // Applying a patch
  // ---------------------------------------------------------------------------

  datatype Edit = Edit(tokens: Tokens, value: Json.Value)

  /** Section 5.3: every parent must exist and be an object; null removes, anything else sets. */
  function ApplyEdit(document: Json.Value, tokens: Tokens, value: Json.Value): Option<Json.Value>
    requires tokens != []
    decreases |tokens|
  {
    if !document.Object? then None
    else if |tokens| == 1 then
      Some(Json.Object(if value.Null? then document.members - {tokens[0]} else document.members[tokens[0] := value]))
    else if tokens[0] !in document.members then None
    else
      match ApplyEdit(document.members[tokens[0]], tokens[1..], value)
      case None => None
      case Some(inner) => Some(Json.Object(document.members[tokens[0] := inner]))
  }

  function Then(document: Option<Json.Value>, edit: Edit): Option<Json.Value>
    requires edit.tokens != []
  {
    if document.None? then None else ApplyEdit(document.value, edit.tokens, edit.value)
  }

  predicate Apart(a: Tokens, b: Tokens) {
    !(a <= b) && !(b <= a)
  }

  /** What an edit does at its first token, all else untouched. */
  lemma ApplyAtHead(document: Json.Value, edit: Edit)
    requires edit.tokens != [] && document.Object?
    ensures
      var after := ApplyEdit(document, edit.tokens, edit.value);
      after.Some? ==>
        && after.value.Object?
        && after.value.members - {edit.tokens[0]} == document.members - {edit.tokens[0]}
  {}

  /** Two edits under different properties do not see each other. */
  lemma EditsApartAtHead(document: Json.Value, a: Edit, b: Edit)
    requires a.tokens != [] && b.tokens != [] && a.tokens[0] != b.tokens[0]
    ensures Then(ApplyEdit(document, a.tokens, a.value), b) == Then(ApplyEdit(document, b.tokens, b.value), a)
  {
    if document.Object? {
      var one, other := ApplyEdit(document, a.tokens, a.value), ApplyEdit(document, b.tokens, b.value);
      ApplyAtHead(document, a);
      ApplyAtHead(document, b);
      var p, q := a.tokens[0], b.tokens[0];
      if one.Some? && other.Some? {
        SameElsewhere(document.members, one.value.members, p, q);
        SameElsewhere(document.members, other.value.members, q, p);
        var ab, ba := Then(one, b), Then(other, a);
        assert ab.Some? && ba.Some?;
        HeadEffect(document.members, one.value.members, b);
        HeadEffect(document.members, other.value.members, a);
        ApplyAtHead(one.value, b);
        ApplyAtHead(other.value, a);
        SameMembers(document.members, one.value.members, other.value.members, ab.value.members, ba.value.members, p, q);
      } else if one.Some? {
        SameElsewhere(document.members, one.value.members, p, q);
      } else if other.Some? {
        SameElsewhere(document.members, other.value.members, q, p);
      }
    }
  }

  lemma SameElsewhere(m: Json.Members, n: Json.Members, p: string, q: string)
    requires m - {p} == n - {p} && p != q
    ensures q in m <==> q in n
    ensures q in m ==> m[q] == n[q]
  {
    assert q in m <==> q in m - {p};
    assert q in n <==> q in n - {p};
    if q in m { assert m[q] == (m - {p})[q] == (n - {p})[q] == n[q]; }
  }

  /** Two ways round from `m`: through `m0` changing `p` first, through `n0` changing `q` first. */
  lemma SameMembers(m: Json.Members, m0: Json.Members, n0: Json.Members, m1: Json.Members, n1: Json.Members,
                    p: string, q: string)
    requires m0 - {p} == m - {p} && m1 - {q} == m0 - {q} && n0 - {q} == m - {q} && n1 - {p} == n0 - {p} && p != q
    requires (q in m1 <==> q in n0) && (q in m1 ==> m1[q] == n0[q])
    requires (p in m0 <==> p in n1) && (p in m0 ==> m0[p] == n1[p])
    ensures m1 == n1
  {
    forall k ensures (k in m1 <==> k in n1) && (k in m1 ==> m1[k] == n1[k]) {
      if k == p {
        SameElsewhere(m1, m0, q, k);
      } else if k == q {
        SameElsewhere(n1, n0, p, k);
      } else {
        SameElsewhere(m0, m, p, k);
        SameElsewhere(m1, m0, q, k);
        SameElsewhere(n0, m, q, k);
        SameElsewhere(n1, n0, p, k);
      }
    }
  }

  /** The member an edit leaves behind depends only on the member it found. */
  lemma HeadEffect(m: Json.Members, n: Json.Members, edit: Edit)
    requires edit.tokens != []
    requires edit.tokens[0] in m <==> edit.tokens[0] in n
    requires edit.tokens[0] in m ==> m[edit.tokens[0]] == n[edit.tokens[0]]
    ensures
      var p := edit.tokens[0];
      var one := ApplyEdit(Json.Object(m), edit.tokens, edit.value);
      var other := ApplyEdit(Json.Object(n), edit.tokens, edit.value);
      && (one.Some? <==> other.Some?)
      && (one.Some? ==>
            && (p in one.value.members <==> p in other.value.members)
            && (p in one.value.members ==> one.value.members[p] == other.value.members[p]))
  {}

  /** Edits whose pointers are apart commute, failures included. */
  lemma {:induction false} EditsCommute(document: Json.Value, a: Edit, b: Edit)
    requires a.tokens != [] && b.tokens != [] && Apart(a.tokens, b.tokens)
    ensures Then(ApplyEdit(document, a.tokens, a.value), b) == Then(ApplyEdit(document, b.tokens, b.value), a)
    decreases |a.tokens|
  {
    if a.tokens[0] != b.tokens[0] {
      EditsApartAtHead(document, a, b);
    } else if document.Object? && a.tokens[0] in document.members {
      var p := a.tokens[0];
      LongerThanOne(a.tokens, b.tokens);
      var a', b' := Edit(a.tokens[1..], a.value), Edit(b.tokens[1..], b.value);
      EditsCommute(document.members[p], a', b');
      ThroughHead(document, p, a, b);
      ThroughHead(document, p, b, a);
    } else {
      LongerThanOne(a.tokens, b.tokens);
    }
  }

  lemma LongerThanOne(a: Tokens, b: Tokens)
    requires a != [] && b != [] && a[0] == b[0] && Apart(a, b)
    ensures |a| > 1 && |b| > 1 && Apart(a[1..], b[1..])
  {
    assert a == [a[0]] + a[1..] && b == [b[0]] + b[1..];
  }

  lemma ThroughHead(document: Json.Value, p: string, a: Edit, b: Edit)
    requires |a.tokens| > 1 && |b.tokens| > 1 && a.tokens[0] == b.tokens[0] == p
    requires document.Object? && p in document.members
    ensures
      var inner := Then(ApplyEdit(document.members[p], a.tokens[1..], a.value), Edit(b.tokens[1..], b.value));
      Then(ApplyEdit(document, a.tokens, a.value), b)
        == if inner.None? then None else Some(Json.Object(document.members[p := inner.value]))
  {
    var first := ApplyEdit(document.members[p], a.tokens[1..], a.value);
    if first.Some? {
      var members := document.members[p := first.value];
      assert members[p] == first.value;
      var second := ApplyEdit(first.value, b.tokens[1..], b.value);
      if second.Some? { assert members[p := second.value] == document.members[p := second.value]; }
    }
  }

  function ApplyAll(document: Option<Json.Value>, edits: seq<Edit>): Option<Json.Value>
    requires forall i :: 0 <= i < |edits| ==> edits[i].tokens != []
    decreases |edits|
  {
    if edits == [] then document else ApplyAll(Then(document, edits[0]), edits[1..])
  }

  ghost predicate AllApart(edits: seq<Edit>) {
    && (forall i :: 0 <= i < |edits| ==> edits[i].tokens != [])
    && (forall i, j :: 0 <= i < |edits| && 0 <= j < |edits| && i != j ==> Apart(edits[i].tokens, edits[j].tokens))
  }

  lemma WithoutFirst(edits: seq<Edit>)
    requires AllApart(edits) && edits != []
    ensures AllApart(edits[1..]) && multiset(edits[1..]) == multiset(edits) - multiset{edits[0]}
  {
    var rest := edits[1..];
    assert edits == [edits[0]] + rest;
    forall j | 0 <= j < |rest| ensures rest[j] == edits[j + 1] {}
  }

  lemma FirstThenRest(document: Option<Json.Value>, e: Edit, rest: seq<Edit>)
    requires e.tokens != [] && forall i :: 0 <= i < |rest| ==> rest[i].tokens != []
    ensures ApplyAll(document, [e] + rest) == ApplyAll(Then(document, e), rest)
  {
    assert ([e] + rest)[0] == e && ([e] + rest)[1..] == rest;
  }

  lemma SwapFirst(document: Option<Json.Value>, a: Edit, b: Edit, rest: seq<Edit>)
    requires a.tokens != [] && b.tokens != [] && Apart(a.tokens, b.tokens)
    requires forall i :: 0 <= i < |rest| ==> rest[i].tokens != []
    ensures ApplyAll(Then(document, a), [b] + rest) == ApplyAll(Then(document, b), [a] + rest)
  {
    FirstThenRest(Then(document, a), b, rest);
    FirstThenRest(Then(document, b), a, rest);
    if document.Some? { EditsCommute(document.value, a, b); }
  }

  lemma {:induction false} MoveToFront(document: Option<Json.Value>, edits: seq<Edit>, i: nat)
    requires AllApart(edits) && i < |edits|
    ensures ApplyAll(document, edits) == ApplyAll(document, [edits[i]] + (edits[..i] + edits[i + 1..]))
    decreases i
  {
    var e := edits[i];
    if i == 0 {
      assert [e] + (edits[..0] + edits[1..]) == edits;
    } else {
      var head, tail := edits[0], edits[1..];
      WithoutFirst(edits);
      MoveToFront(Then(document, head), tail, i - 1);
      var rest := tail[..i - 1] + tail[i..];
      SwapFirst(document, head, e, rest);
      assert edits[..i] + edits[i + 1..] == [head] + rest;
      FirstThenRest(document, e, [head] + rest);
    }
  }

  lemma WithoutOne(edits: seq<Edit>, i: nat)
    requires AllApart(edits) && i < |edits|
    ensures AllApart(edits[..i] + edits[i + 1..])
    ensures multiset(edits[..i] + edits[i + 1..]) == multiset(edits) - multiset{edits[i]}
  {
    var rest := edits[..i] + edits[i + 1..];
    assert edits == edits[..i] + [edits[i]] + edits[i + 1..];
    forall j | 0 <= j < |rest| ensures rest[j] == edits[if j < i then j else j + 1] {}
  }

  /** Pulling one edit out of two lists of the same edits leaves lists of the same edits. */
  lemma PullOut(one: seq<Edit>, other: seq<Edit>) returns (i: nat)
    requires one != [] && AllApart(one) && AllApart(other) && multiset(one) == multiset(other)
    ensures i < |other| && other[i] == one[0]
    ensures AllApart(one[1..]) && AllApart(other[..i] + other[i + 1..])
    ensures multiset(one[1..]) == multiset(other[..i] + other[i + 1..])
  {
    assert one[0] in multiset(other);
    i :| 0 <= i < |other| && other[i] == one[0];
    WithoutFirst(one);
    WithoutOne(other, i);
  }

  /** The edits of a prefix-free patch give the same object in whatever order they are applied. */
  lemma {:induction false} OrderOfEditsIsFree(document: Option<Json.Value>, one: seq<Edit>, other: seq<Edit>)
    requires AllApart(one) && AllApart(other) && multiset(one) == multiset(other)
    ensures ApplyAll(document, one) == ApplyAll(document, other)
    decreases |one|
  {
    if one == [] {
      assert |multiset(other)| == 0;
    } else {
      var i := PullOut(one, other);
      var e, rest := one[0], other[..i] + other[i + 1..];
      MoveToFront(document, other, i);
      FirstThenRest(document, e, rest);
      OrderOfEditsIsFree(Then(document, e), one[1..], rest);
    }
  }

  /** The edits of a patch, in some order of its keys. */
  function EditsOf(order: seq<string>, held: map<string, Tokens>, values: map<string, Json.Value>): seq<Edit>
    requires forall i :: 0 <= i < |order| ==> order[i] in held && order[i] in values
  {
    seq(|order|, i requires 0 <= i < |order| => Edit(held[order[i]], values[order[i]]))
  }

  lemma EditsAreApart(order: seq<string>, held: map<string, Tokens>, values: map<string, Json.Value>)
    requires Lists(order, held) && PrefixFree(held) && values.Keys == held.Keys
    requires forall k :: k in held ==> held[k] != []
    ensures forall i :: 0 <= i < |order| ==> order[i] in held && order[i] in values
    ensures AllApart(EditsOf(order, held, values)) && NoRepeats(EditsOf(order, held, values))
  {
    var edits := EditsOf(order, held, values);
    forall i, j | 0 <= i < |edits| && 0 <= j < |edits| && i != j
      ensures Apart(edits[i].tokens, edits[j].tokens) && edits[i] != edits[j]
    {
      assert order[i] != order[j];
    }
  }

  lemma SameEdits(one: seq<string>, other: seq<string>, held: map<string, Tokens>, values: map<string, Json.Value>)
    requires Lists(one, held) && Lists(other, held) && values.Keys == held.Keys
    ensures forall e | e in EditsOf(one, held, values) :: e in EditsOf(other, held, values)
  {
    forall e | e in EditsOf(one, held, values) ensures e in EditsOf(other, held, values) {
      var i :| 0 <= i < |one| && e == EditsOf(one, held, values)[i];
      assert one[i] in other;
      var j :| 0 <= j < |other| && other[j] == one[i];
      assert EditsOf(other, held, values)[j] == e;
    }
  }

  /** A patch the builder holds means one thing: its edits may be applied in any order of its keys. */
  lemma HeldPatchHasOneMeaning(document: Json.Value, held: map<string, Tokens>, values: map<string, Json.Value>,
                               one: seq<string>, other: seq<string>)
    requires PrefixFree(held) && values.Keys == held.Keys && Lists(one, held) && Lists(other, held)
    requires forall k :: k in held ==> held[k] != []
    ensures AllApart(EditsOf(one, held, values)) && AllApart(EditsOf(other, held, values))
    ensures ApplyAll(Some(document), EditsOf(one, held, values))
         == ApplyAll(Some(document), EditsOf(other, held, values))
  {
    EditsAreApart(one, held, values);
    EditsAreApart(other, held, values);
    SameEdits(one, other, held, values);
    SameEdits(other, one, held, values);
    SameElements(EditsOf(one, held, values), EditsOf(other, held, values));
    OrderOfEditsIsFree(Some(document), EditsOf(one, held, values), EditsOf(other, held, values));
  }

  /** A key accepted under the JMAP rules never stands for the whole object. */
  lemma JmapKeysAreNotEmpty(key: string, mapProperties: set<string>)
    requires KeyTokens(key, JMAP, mapProperties).Success?
    ensures KeyTokens(key, JMAP, mapProperties).value != []
  {}
}
