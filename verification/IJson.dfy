/** The I-JSON checks (src/jmap/core/ijson.py; RFC 7493, section 1.3 of RFC 8620). */
module IJson {
  import opened Wrappers
  import Decimals

  const MAX_SAFE_INT := 0x1F_FFFF_FFFF_FFFF
  const MIN_SAFE_INT := -MAX_SAFE_INT

  // Python text is code points, lone surrogates included, which `char` leaves out.
  type CodePoint = c: int | 0 <= c < 0x11_0000
  type Text = seq<CodePoint>

  datatype Key = TextKey(text: Text) | OtherKey

  /**
   * What the checks can be handed: decoded JSON, and from a caller also keys that are not
   * text and values of a type no JSON value has. A tuple is an array.
   */
  datatype Tree =
    | Null
    | Boolean(value: bool)
    | Integer(number: int)
    | Float
    | String(text: Text)
    | Array(items: seq<Tree>)
    | Object(members: seq<Member>)
    | Unfamiliar

  datatype Member = Member(key: Key, value: Tree)

  predicate IsSafe(n: int) {
    MIN_SAFE_INT <= n <= MAX_SAFE_INT
  }

  predicate IsAscii(s: Text) {
    forall i :: 0 <= i < |s| ==> s[i] < 0x80
  }

  predicate IsSurrogate(c: CodePoint) {
    0xD800 <= c <= 0xDFFF
  }

  predicate HasSurrogate(s: Text) {
    exists i :: 0 <= i < |s| && IsSurrogate(s[i])
  }

  // ---------------------------------------------------------------------------
  // The authority
  // ---------------------------------------------------------------------------

  datatype Step = Name(key: Text) | Index(i: nat)

  type Path = seq<Step>

  datatype Defect = OutOfRange | LoneSurrogate | KeyNotText

  datatype Violation = Violation(path: Path, defect: Defect)

  function CheckString(s: Text, path: Path): Option<Violation> {
    if IsAscii(s) then None
    else if HasSurrogate(s) then Some(Violation(path, LoneSurrogate))
    else None
  }

  /** The first violation the recursive walk raises, and where. */
  function CheckTree(tree: Tree, path: Path): Option<Violation>
    decreases tree
  {
    match tree
    case Integer(n) => if IsSafe(n) then None else Some(Violation(path, OutOfRange))
    case String(s) => CheckString(s, path)
    case Array(_) => CheckItems(tree, 0, path)
    case Object(_) => CheckMembers(tree, 0, path)
    case _ => None
  }

  function CheckItems(tree: Tree, i: nat, path: Path): Option<Violation>
    requires tree.Array? && i <= |tree.items|
    decreases tree, |tree.items| - i
  {
    if i == |tree.items| then None
    else
      var found := CheckTree(tree.items[i], path + [Index(i)]);
      if found.Some? then found else CheckItems(tree, i + 1, path)
  }

  function CheckMembers(tree: Tree, i: nat, path: Path): Option<Violation>
    requires tree.Object? && i <= |tree.members|
    decreases tree, |tree.members| - i
  {
    if i == |tree.members| then None
    else
      var found := CheckMember(tree.members[i], path);
      if found.Some? then found else CheckMembers(tree, i + 1, path)
  }

  function CheckMember(member: Member, path: Path): Option<Violation>
    decreases member
  {
    if member.key.OtherKey? then Some(Violation(path, KeyNotText))
    else
      var child := path + [Name(member.key.text)];
      var found := CheckString(member.key.text, child);
      if found.Some? then found else CheckTree(member.value, child)
  }

  // ---------------------------------------------------------------------------
  // What a clean tree is
  // ---------------------------------------------------------------------------

  predicate KeyClean(key: Key) {
    key.TextKey? && !HasSurrogate(key.text)
  }

  /** No violation anywhere in the tree, and no value of a type the scan does not know. */
  predicate Clean(tree: Tree) {
    match tree
    case Integer(n) => IsSafe(n)
    case String(s) => !HasSurrogate(s)
    case Array(items) => forall i :: 0 <= i < |items| ==> Clean(items[i])
    case Object(members) => forall i :: 0 <= i < |members| ==> KeyClean(members[i].key) && Clean(members[i].value)
    case Unfamiliar => false
    case _ => true
  }

  /** Only types JSON decodes to, at every depth. */
  predicate Familiar(tree: Tree) {
    match tree
    case Array(items) => forall i :: 0 <= i < |items| ==> Familiar(items[i])
    case Object(members) => forall i :: 0 <= i < |members| ==> Familiar(members[i].value)
    case Unfamiliar => false
    case _ => true
  }

  lemma AsciiHasNoSurrogate(s: Text)
    ensures IsAscii(s) ==> !HasSurrogate(s)
  {}

  /** The walk raises nothing on exactly the clean trees, whatever path it reports under. */
  lemma {:induction false} CheckFindsAll(tree: Tree, path: Path)
    ensures Clean(tree) <==> CheckTree(tree, path).None? && Familiar(tree)
    decreases tree
  {
    match tree {
      case String(s) => AsciiHasNoSurrogate(s);
      case Array(items) => ItemsFindAll(tree, 0, path);
      case Object(members) => MembersFindAll(tree, 0, path);
      case _ =>
    }
  }

  lemma {:induction false} ItemsFindAll(tree: Tree, i: nat, path: Path)
    requires tree.Array? && i <= |tree.items|
    ensures (forall k :: i <= k < |tree.items| ==> Clean(tree.items[k])) <==>
      CheckItems(tree, i, path).None? && forall k :: i <= k < |tree.items| ==> Familiar(tree.items[k])
    decreases tree, |tree.items| - i
  {
    if i < |tree.items| {
      CheckFindsAll(tree.items[i], path + [Index(i)]);
      ItemsFindAll(tree, i + 1, path);
    }
  }

  lemma {:induction false} MembersFindAll(tree: Tree, i: nat, path: Path)
    requires tree.Object? && i <= |tree.members|
    ensures (forall k :: i <= k < |tree.members| ==> KeyClean(tree.members[k].key) && Clean(tree.members[k].value)) <==>
      CheckMembers(tree, i, path).None? && forall k :: i <= k < |tree.members| ==> Familiar(tree.members[k].value)
    decreases tree, |tree.members| - i
  {
    if i < |tree.members| {
      var member := tree.members[i];
      if member.key.TextKey? {
        AsciiHasNoSurrogate(member.key.text);
        CheckFindsAll(member.value, path + [Name(member.key.text)]);
      }
      MembersFindAll(tree, i + 1, path);
    }
  }

  // ---------------------------------------------------------------------------
  // Where the walk says the violation is
  // ---------------------------------------------------------------------------

  /** `path` leads from the tree to this defect. */
  ghost predicate Shows(tree: Tree, path: Path, defect: Defect)
    decreases tree
  {
    if path == [] then
      match tree
      case Integer(n) => defect.OutOfRange? && !IsSafe(n)
      case String(s) => defect.LoneSurrogate? && HasSurrogate(s)
      case Object(members) => defect.KeyNotText? && exists i :: 0 <= i < |members| && members[i].key.OtherKey?
      case _ => false
    else
      match tree
      case Array(items) => path[0].Index? && path[0].i < |items| && Shows(items[path[0].i], path[1..], defect)
      case Object(members) => exists i :: 0 <= i < |members| && MemberShows(members[i], path, defect)
      case _ => false
  }

  ghost predicate MemberShows(member: Member, path: Path, defect: Defect)
    requires path != []
    decreases member
  {
    && member.key.TextKey? && path[0] == Name(member.key.text)
    && ((path[1..] == [] && defect.LoneSurrogate? && HasSurrogate(member.key.text))
        || Shows(member.value, path[1..], defect))
  }

  ghost predicate Locates(tree: Tree, path: Path, violation: Violation) {
    path <= violation.path && Shows(tree, violation.path[|path|..], violation.defect)
  }

  /** A violation the walk raises is really there, at the path it names. */
  lemma {:induction false} CheckLocates(tree: Tree, path: Path)
    requires CheckTree(tree, path).Some?
    ensures Locates(tree, path, CheckTree(tree, path).value)
    decreases tree
  {
    match tree {
      case Array(_) => ItemsLocate(tree, 0, path);
      case Object(_) => MembersLocate(tree, 0, path);
      case _ =>
    }
  }

  lemma {:induction false} ItemsLocate(tree: Tree, i: nat, path: Path)
    requires tree.Array? && i <= |tree.items| && CheckItems(tree, i, path).Some?
    ensures Locates(tree, path, CheckItems(tree, i, path).value)
    decreases tree, |tree.items| - i
  {
    var found := CheckTree(tree.items[i], path + [Index(i)]);
    if found.Some? {
      CheckLocates(tree.items[i], path + [Index(i)]);
      StepInto(path, Index(i), found.value.path);
    } else {
      ItemsLocate(tree, i + 1, path);
    }
  }

  lemma {:induction false} MembersLocate(tree: Tree, i: nat, path: Path)
    requires tree.Object? && i <= |tree.members| && CheckMembers(tree, i, path).Some?
    ensures Locates(tree, path, CheckMembers(tree, i, path).value)
    decreases tree, |tree.members| - i
  {
    var member := tree.members[i];
    var found := CheckMember(member, path);
    if found.None? {
      MembersLocate(tree, i + 1, path);
    } else if member.key.TextKey? {
      var child := path + [Name(member.key.text)];
      if CheckString(member.key.text, child).None? { CheckLocates(member.value, child); }
      StepInto(path, Name(member.key.text), found.value.path);
      assert MemberShows(member, found.value.path[|path|..], found.value.defect);
    }
  }

  lemma StepInto(path: Path, step: Step, whole: Path)
    requires path + [step] <= whole
    ensures path <= whole && whole[|path|..] != [] && whole[|path|..][0] == step
    ensures whole[|path|..][1..] == whole[|path + [step]|..]
  {}

  // ---------------------------------------------------------------------------
  // The worklist
  // ---------------------------------------------------------------------------

  function Size(tree: Tree): nat {
    match tree
    case Array(_) => 1 + ItemsSize(tree, 0)
    case Object(_) => 1 + MembersSize(tree, 0)
    case _ => 1
  }

  function ItemsSize(tree: Tree, i: nat): nat
    requires tree.Array? && i <= |tree.items|
    decreases tree, |tree.items| - i
  {
    if i == |tree.items| then 0 else Size(tree.items[i]) + ItemsSize(tree, i + 1)
  }

  function MembersSize(tree: Tree, i: nat): nat
    requires tree.Object? && i <= |tree.members|
    decreases tree, |tree.members| - i
  {
    if i == |tree.members| then 0 else MemberSize(tree.members[i]) + MembersSize(tree, i + 1)
  }

  function MemberSize(member: Member): nat {
    Size(member.value)
  }

  /** The nodes still to visit. */
  function Work(stack: seq<Tree>): nat {
    if stack == [] then 0 else Work(stack[..|stack| - 1]) + Size(stack[|stack| - 1])
  }

  lemma WorkPush(stack: seq<Tree>, tree: Tree)
    ensures Work(stack + [tree]) == Work(stack) + Size(tree)
  {
    assert (stack + [tree])[..|stack|] == stack;
  }

  lemma {:induction false} WorkExtend(stack: seq<Tree>, tree: Tree, i: nat)
    requires tree.Array? && i <= |tree.items|
    ensures Work(stack + tree.items[i..]) == Work(stack) + ItemsSize(tree, i)
    decreases |tree.items| - i
  {
    if i == |tree.items| {
      assert stack + tree.items[i..] == stack;
    } else {
      WorkPush(stack, tree.items[i]);
      WorkExtend(stack + [tree.items[i]], tree, i + 1);
      assert stack + tree.items[i..] == stack + [tree.items[i]] + tree.items[i + 1..];
    }
  }

  predicate AllClean(stack: seq<Tree>) {
    forall k :: 0 <= k < |stack| ==> Clean(stack[k])
  }

  lemma AllCleanConcat(a: seq<Tree>, b: seq<Tree>)
    ensures AllClean(a + b) <==> AllClean(a) && AllClean(b)
  {
    if AllClean(a + b) {
      forall k | 0 <= k < |a| ensures Clean(a[k]) { assert (a + b)[k] == a[k]; }
      forall k | 0 <= k < |b| ensures Clean(b[k]) { assert (a + b)[|a| + k] == b[k]; }
    }
  }

  lemma AllCleanPush(stack: seq<Tree>, tree: Tree)
    ensures AllClean(stack + [tree]) <==> AllClean(stack) && Clean(tree)
  {
    AllCleanConcat(stack, [tree]);
    assert [tree][0] == tree;
    if Clean(tree) { assert AllClean([tree]); }
  }

  method IsCleanText(s: Text) returns (clean: bool)
    ensures clean <==> !HasSurrogate(s)
  {
    AsciiHasNoSurrogate(s);
    clean := IsAscii(s) || !HasSurrogate(s);
  }

  predicate MemberClean(member: Member) {
    KeyClean(member.key) && Clean(member.value)
  }

  /** The first `n` members hold no violation. */
  predicate MembersClean(tree: Tree, n: nat)
    requires tree.Object? && n <= |tree.members|
  {
    n == 0 || (MembersClean(tree, n - 1) && MemberClean(tree.members[n - 1]))
  }

  lemma {:induction false} MembersCleanAt(tree: Tree, n: nat)
    requires tree.Object? && n <= |tree.members|
    ensures MembersClean(tree, n) <==> forall k :: 0 <= k < n ==> MemberClean(tree.members[k])
  {
    if n > 0 { MembersCleanAt(tree, n - 1); }
  }

  /** Pushes the members' values, unless a key is at fault. */
  method PushMembers(tree: Tree, stack: seq<Tree>) returns (keysClean: bool, pushed: seq<Tree>)
    requires tree.Object?
    ensures !keysClean ==> !Clean(tree)
    ensures keysClean ==> (AllClean(pushed) <==> AllClean(stack) && Clean(tree))
    ensures keysClean ==> Work(pushed) == Work(stack) + Size(tree) - 1
  {
    pushed := stack;
    MembersCleanAt(tree, |tree.members|);
    var i := 0;
    while i < |tree.members|
      invariant i <= |tree.members|
      invariant AllClean(pushed) <==> AllClean(stack) && MembersClean(tree, i)
      invariant Work(pushed) + MembersSize(tree, i) == Work(stack) + MembersSize(tree, 0)
    {
      var key, value := tree.members[i].key, tree.members[i].value;
      if key.OtherKey? { return false, pushed; }
      var textClean := IsCleanText(key.text);
      if !textClean { return false, pushed; }
      AllCleanPush(pushed, value);
      WorkPush(pushed, value);
      pushed := pushed + [value];
      i := i + 1;
    }
    keysClean := true;
  }

  /** The fast check: true exactly when the recursive one raises nothing and every type is known. */
  method Scan(value: Tree) returns (clean: bool)
    ensures clean <==> CheckTree(value, []).None? && Familiar(value)
  {
    CheckFindsAll(value, []);
    var stack := [value];
    assert AllClean(stack) <==> Clean(value) by { assert stack[0] == value; }
    while stack != []
      invariant AllClean(stack) <==> Clean(value)
      decreases Work(stack)
    {
      var last := |stack| - 1;
      var node, rest := stack[last], stack[..last];
      assert stack == rest + [node];
      AllCleanConcat(rest, [node]);
      assert AllClean([node]) <==> Clean(node) by { assert [node][0] == node; }
      assert Size(node) >= 1;
      match node {
        case String(s) =>
          var textClean := IsCleanText(s);
          if !textClean { return false; }
          stack := rest;
        case Integer(n) =>
          if n > MAX_SAFE_INT || n < MIN_SAFE_INT { return false; }
          stack := rest;
        case Object(_) =>
          var keysClean, pushed := PushMembers(node, rest);
          if !keysClean { return false; }
          stack := pushed;
        case Array(items) =>
          AllCleanConcat(rest, items);
          WorkExtend(rest, node, 0);
          assert items[0..] == items;
          stack := rest + items;
        case Unfamiliar => return false;
        case _ => stack := rest;
      }
    }
    clean := true;
  }

  /** Skipping the walk when the scan is satisfied changes no outcome. */
  method Validate(value: Tree) returns (violation: Option<Violation>)
    ensures violation == CheckTree(value, [])
  {
    var clean := Scan(value);
    if clean { return None; }
    return CheckTree(value, []);
  }

  // ---------------------------------------------------------------------------
  // Repeated members
  // ---------------------------------------------------------------------------

  function AsMap<V>(pairs: seq<(Text, V)>): map<Text, V> {
    if pairs == [] then map[] else AsMap(pairs[..|pairs| - 1])[pairs[|pairs| - 1].0 := pairs[|pairs| - 1].1]
  }

  predicate KeysDiffer<V>(pairs: seq<(Text, V)>) {
    forall i, j :: 0 <= i < j < |pairs| ==> pairs[i].0 != pairs[j].0
  }

  lemma {:induction false} AsMapHas<V>(pairs: seq<(Text, V)>, i: nat)
    requires i < |pairs|
    ensures pairs[i].0 in AsMap(pairs)
  {
    var last := |pairs| - 1;
    if i < last { AsMapHas(pairs[..last], i); }
  }

  lemma {:induction false} AsMapFrom<V>(pairs: seq<(Text, V)>, key: Text) returns (i: nat)
    requires key in AsMap(pairs)
    ensures i < |pairs| && pairs[i].0 == key
  {
    i := |pairs| - 1;
    if pairs[i].0 != key { i := AsMapFrom(pairs[..i], key); }
  }

  /** Comparing lengths is enough to tell whether a member is repeated. */
  lemma {:induction false} AsMapSize<V>(pairs: seq<(Text, V)>)
    ensures |AsMap(pairs)| <= |pairs|
    ensures |AsMap(pairs)| == |pairs| <==> KeysDiffer(pairs)
  {
    if pairs != [] {
      var last := |pairs| - 1;
      var init, key := pairs[..last], pairs[last].0;
      AsMapSize(init);
      assert AsMap(pairs).Keys == AsMap(init).Keys + {key};
      if key in AsMap(init) {
        var i := AsMapFrom(init, key);
        assert pairs[i].0 == pairs[last].0;
      } else {
        assert |AsMap(pairs)| == |AsMap(init)| + 1;
        forall i | 0 <= i < last ensures pairs[i].0 != key { AsMapHas(init, i); }
        KeysDifferSnoc(pairs);
      }
    }
  }

  lemma KeysDifferSnoc<V>(pairs: seq<(Text, V)>)
    requires pairs != [] && forall i :: 0 <= i < |pairs| - 1 ==> pairs[i].0 != pairs[|pairs| - 1].0
    ensures KeysDiffer(pairs) <==> KeysDiffer(pairs[..|pairs| - 1])
  {
    var init := pairs[..|pairs| - 1];
    assert forall i :: 0 <= i < |init| ==> init[i] == pairs[i];
  }

  lemma NextKey<V>(pairs: seq<(Text, V)>, j: nat)
    requires j < |pairs| && KeysDiffer(pairs[..j])
    ensures AsMap(pairs[..j + 1]).Keys == AsMap(pairs[..j]).Keys + {pairs[j].0}
    ensures KeysDiffer(pairs[..j + 1]) <==> pairs[j].0 !in AsMap(pairs[..j])
  {
    var upTo, init := pairs[..j + 1], pairs[..j];
    assert upTo[..j] == init && upTo[j] == pairs[j];
    if pairs[j].0 in AsMap(init) {
      var i := AsMapFrom(init, pairs[j].0);
      assert upTo[i].0 == upTo[j].0;
    } else {
      forall i | 0 <= i < j ensures upTo[i].0 != upTo[j].0 { AsMapHas(init, i); }
      KeysDifferSnoc(upTo);
    }
  }

  /** At `j`, and no earlier, a key is met that an earlier pair already has. */
  predicate FirstRepeat<V>(pairs: seq<(Text, V)>, j: nat, key: Text) {
    j < |pairs| && pairs[j].0 == key && KeysDiffer(pairs[..j]) && !KeysDiffer(pairs[..j + 1])
  }

  lemma DifferThroughout<V>(pairs: seq<(Text, V)>, j: nat)
    requires j == |pairs| && KeysDiffer(pairs[..j])
    ensures KeysDiffer(pairs)
  {
    assert pairs[..j] == pairs;
  }

  /** The dictionary when no member is repeated; otherwise the first key met a second time. */
  method RejectDuplicates<V>(pairs: seq<(Text, V)>) returns (result: Result<map<Text, V>, Text>)
    ensures result.Success? <==> KeysDiffer(pairs)
    ensures result.Success? ==> result.value == AsMap(pairs)
    ensures result.Failure? ==> exists j :: FirstRepeat(pairs, j, result.error)
  {
    AsMapSize(pairs);
    if |AsMap(pairs)| == |pairs| { return Success(AsMap(pairs)); }
    var seen: set<Text> := {};
    var j := 0;
    while j < |pairs|
      invariant j <= |pairs|
      invariant seen == AsMap(pairs[..j]).Keys
      invariant KeysDiffer(pairs[..j])
    {
      var key := pairs[j].0;
      NextKey(pairs, j);
      if key in seen {
        assert FirstRepeat(pairs, j, key);
        return Failure(key);
      }
      seen := seen + {key};
      j := j + 1;
    }
    DifferThroughout(pairs, j);
    assert false;
  }

  // ---------------------------------------------------------------------------
  // Integer literals
  // ---------------------------------------------------------------------------

  const MAX_INT_LITERAL_LENGTH := 18

  predicate IsNatLiteral(digits: string) {
    digits != "" && Decimals.AllDigits(digits) && (digits[0] == '0' ==> |digits| == 1)
  }

  /** An integer as JSON's grammar writes it: no leading zero, no plus sign. */
  predicate IsIntLiteral(text: string) {
    if text != "" && text[0] == '-' then IsNatLiteral(text[1..]) else IsNatLiteral(text)
  }

  function IntValue(text: string): int
    requires IsIntLiteral(text)
  {
    if text[0] == '-' then 0 - Decimals.Value(text[1..]) else Decimals.Value(text)
  }

  function Power(n: nat): nat {
    if n == 0 then 1 else 10 * Power(n - 1)
  }

  lemma {:induction false} LiteralIsLarge(digits: string)
    requires IsNatLiteral(digits) && digits[0] != '0'
    ensures Decimals.Value(digits) >= Power(|digits| - 1)
  {
    if |digits| > 1 { LiteralIsLarge(digits[..|digits| - 1]); }
  }

  lemma {:induction false} PowerGrows(m: nat, n: nat)
    requires m <= n
    ensures Power(m) <= Power(n)
  {
    if m < n { PowerGrows(m, n - 1); }
  }

  lemma LongLiteralIsUnsafe(digits: string)
    requires IsNatLiteral(digits) && |digits| >= 17
    ensures Decimals.Value(digits) > MAX_SAFE_INT
  {
    LiteralIsLarge(digits);
    PowerGrows(16, |digits| - 1);
    assert Power(16) == 10000 * Power(12) && Power(12) == 10000 * Power(8);
    assert Power(8) == 10000 * Power(4) && Power(4) == 10000;
  }

  /** The parser's integer hook: a long literal is refused by its length alone. */
  function SafeInt(text: string): (result: Result<int, int>)
    requires IsIntLiteral(text)
  {
    if |text| > MAX_INT_LITERAL_LENGTH then
      PrefixIsLiteral(text);
      Failure(IntValue(text[..MAX_INT_LITERAL_LENGTH]) * 10)
    else if IsSafe(IntValue(text)) then Success(IntValue(text))
    else Failure(IntValue(text))
  }

  lemma PrefixIsLiteral(text: string)
    requires IsIntLiteral(text) && |text| > MAX_INT_LITERAL_LENGTH
    ensures IsIntLiteral(text[..MAX_INT_LITERAL_LENGTH])
  {
    var cut := text[..MAX_INT_LITERAL_LENGTH];
    if text[0] == '-' {
      assert forall i :: 0 <= i < |cut| - 1 ==> cut[1..][i] == text[1..][i];
    }
  }

  /** A literal of any length is accepted, with its value, exactly when the value is safe. */
  lemma SafeIntExactly(text: string)
    requires IsIntLiteral(text)
    ensures SafeInt(text).Success? <==> IsSafe(IntValue(text))
    ensures SafeInt(text).Success? ==> SafeInt(text).value == IntValue(text)
    ensures SafeInt(text).Failure? ==>
      !IsSafe(SafeInt(text).error) && (SafeInt(text).error < 0 <==> IntValue(text) < 0)
  {
    if |text| > MAX_INT_LITERAL_LENGTH {
      PrefixIsLiteral(text);
      var cut := text[..MAX_INT_LITERAL_LENGTH];
      if text[0] == '-' {
        LongLiteralIsUnsafe(text[1..]);
        LongLiteralIsUnsafe(cut[1..]);
      } else {
        LongLiteralIsUnsafe(text);
        LongLiteralIsUnsafe(cut);
      }
    }
  }
}
