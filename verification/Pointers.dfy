/** JSON Pointers with JMAP's `*` token (src/jmap/core/pointer.py). */
module Pointers {
  import opened Wrappers
  import opened Decimals
  import Json

  datatype PointerError = Malformed | Unresolved

  // ---------------------------------------------------------------------------
  // Escaping one token
  // ---------------------------------------------------------------------------

  /** Replaces every `c` by `with`. */
  function ReplaceChar(s: string, c: char, with: string): string {
    if s == "" then "" else (if s[0] == c then with else [s[0]]) + ReplaceChar(s[1..], c, with)
  }

  /** Replaces every occurrence of the pair `a b`, found from the left, by `with`. */
  function ReplacePair(s: string, a: char, b: char, with: char): string {
    if |s| < 2 then s
    else if s[0] == a && s[1] == b then [with] + ReplacePair(s[2..], a, b, with)
    else [s[0]] + ReplacePair(s[1..], a, b, with)
  }

  function UnescapeToken(token: string): string {
    ReplacePair(ReplacePair(token, '~', '1', '/'), '~', '0', '~')
  }

  function EscapeToken(token: string): string {
    ReplaceChar(ReplaceChar(token, '~', "~0"), '/', "~1")
  }

  /** Section 3 of RFC 6901 read from left to right, one escape at a time. */
  function DecodeToken(token: string): string {
    if token == "" then ""
    else if |token| >= 2 && token[0] == '~' && token[1] == '1' then "/" + DecodeToken(token[2..])
    else if |token| >= 2 && token[0] == '~' && token[1] == '0' then "~" + DecodeToken(token[2..])
    else [token[0]] + DecodeToken(token[1..])
  }

  /** Section 3 of RFC 6901 written the other way. */
  function EncodeToken(token: string): string {
    if token == "" then ""
    else (if token[0] == '~' then "~0" else if token[0] == '/' then "~1" else [token[0]])
         + EncodeToken(token[1..])
  }

  /** No bare slash, and every tilde starts an escape. */
  predicate WellEscaped(token: string) {
    if token == "" then true
    else if token[0] == '~' then
      |token| >= 2 && (token[1] == '0' || token[1] == '1') && WellEscaped(token[2..])
    else token[0] != '/' && WellEscaped(token[1..])
  }

  lemma {:induction false} ReplacePairStart(s: string)
    requires s != ""
    ensures ReplacePair(s, '~', '1', '/') != ""
    ensures ReplacePair(s, '~', '1', '/')[0] == '0' <==> s[0] == '0'
  {}

  lemma {:induction false} UnescapeIsDecode(token: string)
    ensures UnescapeToken(token) == DecodeToken(token)
    decreases |token|
  {
    var once := ReplacePair(token, '~', '1', '/');
    if |token| < 2 {
    } else if token[0] == '~' && token[1] == '1' {
      UnescapeIsDecode(token[2..]);
      var rest := ReplacePair(token[2..], '~', '1', '/');
      assert once == ['/'] + rest && once[1..] == rest;
    } else if token[0] == '~' && token[1] == '0' {
      UnescapeIsDecode(token[2..]);
      var rest := ReplacePair(token[2..], '~', '1', '/');
      var tail := token[1..];
      assert tail[0] == '0' && tail[1..] == token[2..];
      assert ReplacePair(tail, '~', '1', '/') == ['0'] + rest;
      assert once == ['~'] + (['0'] + rest) && once[2..] == rest;
    } else {
      UnescapeIsDecode(token[1..]);
      ReplacePairStart(token[1..]);
      var rest := ReplacePair(token[1..], '~', '1', '/');
      assert once == [token[0]] + rest && once[1..] == rest;
    }
  }

  lemma {:induction false} ReplaceCharConcat(s: string, t: string, c: char, with: string)
    ensures ReplaceChar(s + t, c, with) == ReplaceChar(s, c, with) + ReplaceChar(t, c, with)
  {
    if s == "" {
      assert s + t == t;
    } else {
      ReplaceCharConcat(s[1..], t, c, with);
      var head := if s[0] == c then with else [s[0]];
      assert (s + t)[0] == s[0] && (s + t)[1..] == s[1..] + t;
      assert head + (ReplaceChar(s[1..], c, with) + ReplaceChar(t, c, with))
          == (head + ReplaceChar(s[1..], c, with)) + ReplaceChar(t, c, with);
    }
  }

  lemma {:induction false} EscapeIsEncode(token: string)
    ensures EscapeToken(token) == EncodeToken(token)
  {
    if token != "" {
      EscapeIsEncode(token[1..]);
      var first := if token[0] == '~' then "~0" else [token[0]];
      ReplaceCharConcat(first, ReplaceChar(token[1..], '~', "~0"), '/', "~1");
      assert "~0"[1..] == "0" && "0"[1..] == "" && [token[0]][1..] == "";
    }
  }

  lemma {:induction false} DecodeEncode(token: string)
    ensures DecodeToken(EncodeToken(token)) == token
    ensures WellEscaped(EncodeToken(token))
  {
    if token != "" {
      DecodeEncode(token[1..]);
      var rest := EncodeToken(token[1..]);
      assert ("~0" + rest)[2..] == rest && ("~1" + rest)[2..] == rest && ([token[0]] + rest)[1..] == rest;
    }
  }

  lemma {:induction false} EncodeDecode(token: string)
    requires WellEscaped(token)
    ensures EncodeToken(DecodeToken(token)) == token
    decreases |token|
  {
    if token == "" {
    } else if token[0] == '~' {
      EncodeDecode(token[2..]);
      var rest := DecodeToken(token[2..]);
      assert ("/" + rest)[1..] == rest && ("~" + rest)[1..] == rest;
      assert token == [token[0], token[1]] + token[2..];
    } else {
      EncodeDecode(token[1..]);
      var rest := DecodeToken(token[1..]);
      assert ([token[0]] + rest)[1..] == rest;
    }
  }

  /** Decoding undoes escaping on every string. */
  lemma UnescapeEscape(token: string)
    ensures UnescapeToken(EscapeToken(token)) == token
  {
    EscapeIsEncode(token);
    UnescapeIsDecode(EncodeToken(token));
    DecodeEncode(token);
  }

  /** Escaping undoes decoding on exactly the well-escaped tokens. */
  lemma EscapeUnescape(token: string)
    ensures EscapeToken(UnescapeToken(token)) == token <==> WellEscaped(token)
  {
    UnescapeIsDecode(token);
    EscapeIsEncode(DecodeToken(token));
    DecodeEncode(DecodeToken(token));
    if WellEscaped(token) { EncodeDecode(token); }
  }

  // ---------------------------------------------------------------------------
  // Splitting and building
  // ---------------------------------------------------------------------------

  function SplitSlash(s: string): (parts: seq<string>)
    ensures |parts| >= 1
  {
    if s == "" then [""]
    else
      var rest := SplitSlash(s[1..]);
      if s[0] == '/' then [""] + rest else [[s[0]] + rest[0]] + rest[1..]
  }

  function UnescapeAll(parts: seq<string>): seq<string> {
    seq(|parts|, i requires 0 <= i < |parts| => UnescapeToken(parts[i]))
  }

  /** A reference path carries its leading slash; a patch key leaves it out. */
  function SplitPointer(pointer: string, leadingSlashRequired: bool): Result<seq<string>, PointerError> {
    if pointer == "" then Success([])
    else if pointer[0] == '/' then Success(UnescapeAll(SplitSlash(pointer[1..])))
    else if leadingSlashRequired then Failure(Malformed)
    else Success(UnescapeAll(SplitSlash(pointer)))
  }

  function EscapeUnlessWildcard(token: string): string {
    if token == "*" then token else EscapeToken(token)
  }

  function EscapeAll(tokens: seq<string>): seq<string> {
    seq(|tokens|, i requires 0 <= i < |tokens| => EscapeToken(tokens[i]))
  }

  /** The parts with a slash between them. */
  function JoinSlash(parts: seq<string>): string {
    if parts == [] then "" else if |parts| == 1 then parts[0] else parts[0] + "/" + JoinSlash(parts[1..])
  }

  /** The parts with a slash before each. */
  function LeadSlash(parts: seq<string>): string {
    if parts == [] then "" else "/" + parts[0] + LeadSlash(parts[1..])
  }

  function BuildPointer(tokens: seq<string>): string {
    LeadSlash(seq(|tokens|, i requires 0 <= i < |tokens| => EscapeUnlessWildcard(tokens[i])))
  }

  /** The tokens escaped and joined by slashes, with no leading one (src/jmap/core/patch.py). */
  function PatchKey(tokens: seq<string>): string {
    JoinSlash(EscapeAll(tokens))
  }

  lemma {:induction false} SplitSlashless(s: string)
    requires '/' !in s
    ensures SplitSlash(s) == [s]
  {
    if s != "" {
      SplitSlashless(s[1..]);
      assert [s[0]] + s[1..] == s;
    }
  }

  lemma {:induction false} SplitAtSlash(s: string, t: string)
    requires '/' !in s
    ensures SplitSlash(s + "/" + t) == [s] + SplitSlash(t)
  {
    var whole := s + "/" + t;
    if s == "" {
      assert whole[1..] == t;
    } else {
      SplitAtSlash(s[1..], t);
      assert whole[1..] == s[1..] + "/" + t;
      assert [whole[0]] + s[1..] == s;
    }
  }

  lemma {:induction false} EncodedIsSlashless(token: string)
    ensures '/' !in EncodeToken(token)
  {
    if token != "" { EncodedIsSlashless(token[1..]); }
  }

  lemma EscapedIsSlashless(token: string)
    ensures '/' !in EscapeToken(token)
  {
    EscapeIsEncode(token);
    EncodedIsSlashless(token);
  }

  predicate Slashless(parts: seq<string>) {
    forall i :: 0 <= i < |parts| ==> '/' !in parts[i]
  }

  /** Splitting at slashes undoes joining with them. */
  lemma {:induction false} SplitJoin(parts: seq<string>)
    requires parts != [] && Slashless(parts)
    ensures SplitSlash(JoinSlash(parts)) == parts
  {
    if |parts| == 1 {
      SplitSlashless(parts[0]);
    } else {
      SplitJoin(parts[1..]);
      SplitAtSlash(parts[0], JoinSlash(parts[1..]));
    }
  }

  lemma {:induction false} LeadIsJoin(parts: seq<string>)
    requires parts != []
    ensures LeadSlash(parts) == "/" + JoinSlash(parts)
  {
    var rest := parts[1..];
    if rest == [] {
      assert "/" + parts[0] + "" == "/" + parts[0];
    } else {
      LeadIsJoin(rest);
      assert "/" + parts[0] + ("/" + JoinSlash(rest)) == "/" + (parts[0] + "/" + JoinSlash(rest));
    }
  }

  lemma EscapedParts(tokens: seq<string>)
    ensures Slashless(EscapeAll(tokens)) && UnescapeAll(EscapeAll(tokens)) == tokens
  {
    forall i | 0 <= i < |tokens|
      ensures '/' !in EscapeToken(tokens[i]) && UnescapeToken(EscapeToken(tokens[i])) == tokens[i]
    {
      EscapedIsSlashless(tokens[i]);
      UnescapeEscape(tokens[i]);
    }
  }

  lemma PatchKeyParts(tokens: seq<string>)
    requires tokens != []
    ensures UnescapeAll(SplitSlash(PatchKey(tokens))) == tokens
  {
    EscapedParts(tokens);
    SplitJoin(EscapeAll(tokens));
  }

  lemma WildcardNeedsNoEscape(token: string)
    ensures EscapeUnlessWildcard(token) == EscapeToken(token)
  {
    if token == "*" {
      EscapeIsEncode(token);
      assert token[1..] == "";
    }
  }

  /** A pointer is a slash and the patch key of its tokens, the wildcard needing no escape. */
  lemma BuildPointerIsKey(tokens: seq<string>)
    requires tokens != []
    ensures BuildPointer(tokens) == "/" + PatchKey(tokens)
  {
    var parts := seq(|tokens|, i requires 0 <= i < |tokens| => EscapeUnlessWildcard(tokens[i]));
    forall i | 0 <= i < |tokens| ensures parts[i] == EscapeAll(tokens)[i] { WildcardNeedsNoEscape(tokens[i]); }
    assert parts == EscapeAll(tokens);
    LeadIsJoin(parts);
  }

  /** Splitting a built pointer gives back its tokens, whatever they are. */
  lemma PointerRoundTrip(tokens: seq<string>)
    ensures SplitPointer(BuildPointer(tokens), true) == Success(tokens)
  {
    if tokens != [] {
      BuildPointerIsKey(tokens);
      PatchKeyParts(tokens);
      assert ("/" + PatchKey(tokens))[1..] == PatchKey(tokens);
    }
  }

  lemma EscapeEmpty(token: string)
    ensures EscapeToken(token) == "" <==> token == ""
    ensures token != "" ==> EscapeToken(token)[0] != '/'
  {
    EscapeIsEncode(token);
    EncodedIsSlashless(token);
  }

  lemma KeyStart(tokens: seq<string>)
    requires tokens != []
    ensures tokens[0] != "" ==> PatchKey(tokens) != "" && PatchKey(tokens)[0] != '/'
    ensures tokens[0] == "" && |tokens| == 1 ==> PatchKey(tokens) == ""
    ensures tokens[0] == "" && |tokens| > 1 ==> PatchKey(tokens) == "/" + PatchKey(tokens[1..])
  {
    EscapeEmpty(tokens[0]);
    var parts := EscapeAll(tokens);
    assert parts[0] == EscapeToken(tokens[0]) && parts[1..] == EscapeAll(tokens[1..]);
  }

  /** The slashless form loses its first token exactly when that token is empty. */
  lemma PatchKeyRoundTrip(tokens: seq<string>)
    ensures SplitPointer(PatchKey(tokens), false) == Success(tokens) <==> tokens == [] || tokens[0] != ""
  {
    if tokens != [] {
      KeyStart(tokens);
      if tokens[0] != "" {
        PatchKeyParts(tokens);
      } else if |tokens| > 1 {
        PatchKeyParts(tokens[1..]);
        assert PatchKey(tokens)[1..] == PatchKey(tokens[1..]);
      }
    }
  }

  // ---------------------------------------------------------------------------
  // Resolving
  // ---------------------------------------------------------------------------

  /** ASCII digits without a leading zero, and no more than fifteen of them. */
  predicate IsArrayIndex(token: string) {
    && 1 <= |token| <= 15
    && AllDigits(token)
    && (|token| > 1 ==> token[0] != '0')
  }

  function IndexArray(items: seq<Json.Value>, token: string): Result<Json.Value, PointerError> {
    if IsArrayIndex(token) && Value(token) < |items| then Success(items[Value(token)])
    else Failure(Unresolved)
  }

  /** One ordinary token: a property of an object or an element of an array. */
  function Step(value: Json.Value, token: string): Result<Json.Value, PointerError> {
    match value
    case Object(members) => if token in members then Success(members[token]) else Failure(Unresolved)
    case Array(items) => IndexArray(items, token)
    case _ => Failure(Unresolved)
  }

  /** The flattening rule: an array result is concatenated one level, anything else is appended. */
  function Flatten(result: Json.Value): seq<Json.Value> {
    if result.Array? then result.items else [result]
  }

  function ResolveTokens(value: Json.Value, tokens: seq<string>): Result<Json.Value, PointerError>
    decreases |tokens|, 0, 0
  {
    if tokens == [] then Success(value)
    else if tokens[0] == "*" then
      if !value.Array? then Failure(Unresolved)
      else if |tokens| == 1 then Success(value)
      else
        match ResolveEach(value.items, tokens[1..])
        case Success(collected) => Success(Json.Array(collected))
        case Failure(e) => Failure(e)
    else
      match Step(value, tokens[0])
      case Success(inner) => ResolveTokens(inner, tokens[1..])
      case Failure(e) => Failure(e)
  }

  function ResolveEach(items: seq<Json.Value>, tokens: seq<string>): Result<seq<Json.Value>, PointerError>
    decreases |tokens|, 1, |items|
  {
    if items == [] then Success([])
    else
      match ResolveTokens(items[0], tokens)
      case Failure(e) => Failure(e)
      case Success(result) =>
        match ResolveEach(items[1..], tokens)
        case Failure(e) => Failure(e)
        case Success(rest) => Success(Flatten(result) + rest)
  }

  function Resolve(document: Json.Value, pointer: string): Result<Json.Value, PointerError> {
    match SplitPointer(pointer, true)
    case Failure(e) => Failure(e)
    case Success(tokens) => ResolveTokens(document, tokens)
  }

  /** Ordinary tokens compose: a pointer may be followed in two stages. */
  lemma {:induction false} ResolveInStages(value: Json.Value, first: seq<string>, rest: seq<string>)
    requires "*" !in first
    ensures ResolveTokens(value, first + rest) ==
            match ResolveTokens(value, first)
            case Success(inner) => ResolveTokens(inner, rest)
            case Failure(e) => Failure(e)
    decreases |first|
  {
    if first == [] {
      assert first + rest == rest;
    } else {
      assert (first + rest)[0] == first[0] && (first + rest)[1..] == first[1..] + rest;
      if Step(value, first[0]).Success? {
        ResolveInStages(Step(value, first[0]).value, first[1..], rest);
      }
    }
  }

  lemma {:induction false} ResolveEachAppend(items: seq<Json.Value>, next: Json.Value, tokens: seq<string>)
    ensures ResolveEach(items + [next], tokens) ==
            if ResolveEach(items, tokens).Failure? then ResolveEach(items, tokens)
            else if ResolveTokens(next, tokens).Failure? then Failure(ResolveTokens(next, tokens).error)
            else Success(ResolveEach(items, tokens).value + Flatten(ResolveTokens(next, tokens).value))
    decreases |items|
  {
    var longer := items + [next];
    if items == [] {
      assert longer == [next] && longer[1..] == [];
      var last := ResolveTokens(next, tokens);
      if last.Success? { assert Flatten(last.value) + [] == Flatten(last.value) == [] + Flatten(last.value); }
    } else {
      assert longer[0] == items[0] && longer[1..] == items[1..] + [next];
      ResolveEachAppend(items[1..], next, tokens);
      var head, last := ResolveTokens(items[0], tokens), ResolveTokens(next, tokens);
      var rest := ResolveEach(items[1..], tokens);
      if head.Success? && rest.Success? && last.Success? {
        assert Flatten(head.value) + (rest.value + Flatten(last.value))
            == (Flatten(head.value) + rest.value) + Flatten(last.value);
      }
    }
  }

  lemma {:induction false} ResolveEachFails(items: seq<Json.Value>, i: nat, tokens: seq<string>)
    requires i <= |items|
    requires ResolveEach(items[..i], tokens).Failure?
    ensures ResolveEach(items, tokens) == ResolveEach(items[..i], tokens)
    decreases |items|
  {
    assert items[..i][0] == items[0] && items[..i][1..] == items[1..][..i - 1];
    if ResolveTokens(items[0], tokens).Success? { ResolveEachFails(items[1..], i - 1, tokens); }
  }

  /** The loop of `_resolve_tokens`, which recurs only below a wildcard. */
  method ResolveByLoop(document: Json.Value, tokens: seq<string>)
    returns (result: Result<Json.Value, PointerError>)
    ensures result == ResolveTokens(document, tokens)
    decreases |tokens|
  {
    var value := document;
    for position := 0 to |tokens|
      invariant ResolveTokens(document, tokens) == ResolveTokens(value, tokens[position..])
    {
      var token := tokens[position];
      var rest := tokens[position + 1..];
      assert tokens[position..][1..] == rest;
      if token == "*" {
        if !value.Array? { return Failure(Unresolved); }
        if rest == [] { return Success(value); }
        var collected: seq<Json.Value> := [];
        for i := 0 to |value.items|
          invariant ResolveEach(value.items[..i], rest) == Success(collected)
        {
          assert value.items[..i + 1] == value.items[..i] + [value.items[i]];
          ResolveEachAppend(value.items[..i], value.items[i], rest);
          var found := ResolveByLoop(value.items[i], rest);
          if found.Failure? {
            ResolveEachFails(value.items, i + 1, rest);
            return Failure(found.error);
          }
          collected := collected + Flatten(found.value);
        }
        assert value.items[..|value.items|] == value.items;
        return Success(Json.Array(collected));
      }
      var next := Step(value, token);
      if next.Failure? { return Failure(next.error); }
      value := next.value;
    }
    return Success(value);
  }
}
