/** Level 1 URI templates (src/jmap/core/uritemplate.py, section 3.2.2 of RFC 6570). */
module UriTemplates {
  import opened Wrappers

  type Octet = b: int | 0 <= b < 256

  // A value, as the octets its text encodes to.
  type Octets = seq<Octet>

  datatype Part = Literal(text: string) | Variable(name: string)

  datatype TemplateError = InvalidTemplate | UnsupportedTemplate | MissingVariable(name: string)

  // ---------------------------------------------------------------------------
  // Names
  // ---------------------------------------------------------------------------

  /** The operators of levels 2 and 3, and those kept for extensions (section 2.2 of RFC 6570). */
  predicate IsOperator(c: char) {
    c == '+' || c == '#' || c == '.' || c == '/' || c == ';' || c == '?' || c == '&' ||
    c == '=' || c == ',' || c == '!' || c == '@' || c == '|'
  }

  predicate IsAlphanumeric(c: char) {
    'A' <= c <= 'Z' || 'a' <= c <= 'z' || '0' <= c <= '9'
  }

  predicate IsHexDigit(c: char) {
    '0' <= c <= '9' || 'A' <= c <= 'F' || 'a' <= c <= 'f'
  }

  /** Runs of varchars with single dots between them; `due` when a varchar must come next. */
  predicate Varchars(s: string, due: bool) {
    if s == "" then !due
    else if s[0] == '.' then !due && Varchars(s[1..], true)
    else if s[0] == '%' then |s| >= 3 && IsHexDigit(s[1]) && IsHexDigit(s[2]) && Varchars(s[3..], false)
    else (IsAlphanumeric(s[0]) || s[0] == '_') && Varchars(s[1..], false)
  }

  /** None when the body of an expression is a variable name. */
  function NameError(body: string): Option<TemplateError> {
    if body == "" || '{' in body then Some(InvalidTemplate)
    else if IsOperator(body[0]) || ',' in body || ':' in body || body[|body| - 1] == '*' then
      Some(UnsupportedTemplate)
    else if !Varchars(body, true) then Some(InvalidTemplate)
    else None
  }

  // ---------------------------------------------------------------------------
  // Parsing
  // ---------------------------------------------------------------------------

  /** Where `c` first stands at or after `i`; the length when it does not. */
  function Find(s: string, c: char, i: nat): (k: nat)
    requires i <= |s|
    ensures i <= k <= |s|
    ensures k < |s| ==> s[k] == c
    ensures forall j :: i <= j < k ==> s[j] != c
    decreases |s| - i
  {
    if i == |s| || s[i] == c then i else Find(s, c, i + 1)
  }

  function LiteralPart(text: string): seq<Part> {
    if text == "" then [] else [Literal(text)]
  }

  /** What one turn of the scan finds: a malformed piece, the last literal, or a literal and a variable. */
  datatype Piece =
    | Malformed(error: TemplateError)
    | Tail(text: string)
    | Expression(text: string, name: string, next: nat)

  function NextPiece(s: string, i: nat): (piece: Piece)
    requires i < |s|
    ensures piece.Expression? ==> i < piece.next <= |s|
  {
    var start := Find(s, '{', i);
    if '}' in s[i..start] then Malformed(InvalidTemplate)
    else if start == |s| then Tail(s[i..])
    else
      var end := Find(s, '}', start + 1);
      if end == |s| then Malformed(InvalidTemplate)
      else
        var body := s[start + 1..end];
        if NameError(body).Some? then Malformed(NameError(body).value)
        else Expression(s[i..start], body, end + 1)
  }

  /** The parts of a template from `i` on. */
  function ParseFrom(s: string, i: nat): Result<seq<Part>, TemplateError>
    requires i <= |s|
    decreases |s| - i
  {
    if i == |s| then Success([])
    else
      match NextPiece(s, i)
      case Malformed(error) => Failure(error)
      case Tail(text) => Success(LiteralPart(text))
      case Expression(text, name, next) => Prefixed(LiteralPart(text) + [Variable(name)], ParseFrom(s, next))
  }

  function Parsed(s: string): Result<seq<Part>, TemplateError> {
    ParseFrom(s, 0)
  }

  function Prefixed(parts: seq<Part>, rest: Result<seq<Part>, TemplateError>): Result<seq<Part>, TemplateError> {
    match rest
    case Failure(error) => Failure(error)
    case Success(more) => Success(parts + more)
  }

  lemma PrefixedByNone(rest: Result<seq<Part>, TemplateError>)
    ensures Prefixed([], rest) == rest
  {
    if rest.Success? { assert [] + rest.value == rest.value; }
  }

  lemma PrefixedTwice(a: seq<Part>, b: seq<Part>, rest: Result<seq<Part>, TemplateError>)
    ensures Prefixed(a, Prefixed(b, rest)) == Prefixed(a + b, rest)
  {
    if rest.Success? { assert a + (b + rest.value) == (a + b) + rest.value; }
  }

  /** What one turn of the scan adds to the parts so far. */
  lemma ParseOn(s: string, i: nat, parts: seq<Part>, text: string, name: string, next: nat)
    requires i < |s| && NextPiece(s, i) == Expression(text, name, next)
    ensures Prefixed(parts, ParseFrom(s, i))
         == Prefixed(parts + LiteralPart(text) + [Variable(name)], ParseFrom(s, next))
  {
    PrefixedTwice(parts, LiteralPart(text) + [Variable(name)], ParseFrom(s, next));
    assert parts + (LiteralPart(text) + [Variable(name)]) == parts + LiteralPart(text) + [Variable(name)];
  }

  /** One turn of the scanning loop. */
  method TakePiece(template: string, position: nat) returns (piece: Piece)
    requires position < |template|
    ensures piece == NextPiece(template, position)
  {
    var start := Find(template, '{', position);
    var literal := template[position..start];
    if '}' in literal { return Malformed(InvalidTemplate); }
    if start == |template| {
      assert template[position..] == literal;
      return Tail(literal);
    }
    var end := Find(template, '}', start + 1);
    if end == |template| { return Malformed(InvalidTemplate); }
    var body := template[start + 1..end];
    var error := NameError(body);
    if error.Some? { return Malformed(error.value); }
    return Expression(literal, body, end + 1);
  }

  method Parse(template: string) returns (result: Result<seq<Part>, TemplateError>)
    ensures result == Parsed(template)
  {
    var parts: seq<Part> := [];
    var position := 0;
    PrefixedByNone(Parsed(template));
    while position < |template|
      invariant 0 <= position <= |template|
      invariant Parsed(template) == Prefixed(parts, ParseFrom(template, position))
    {
      var piece := TakePiece(template, position);
      if piece.Malformed? { return Failure(piece.error); }
      ghost var before := parts;
      if piece.text != "" { parts := parts + [Literal(piece.text)]; }
      assert parts == before + LiteralPart(piece.text);
      if piece.Tail? { return Success(parts); }
      ParseOn(template, position, before, piece.text, piece.name, piece.next);
      parts := parts + [Variable(piece.name)];
      position := piece.next;
    }
    assert parts + [] == parts;
    return Success(parts);
  }

  // ---------------------------------------------------------------------------
  // Printing
  // ---------------------------------------------------------------------------

  function PrintPart(part: Part): string {
    match part
    case Literal(text) => text
    case Variable(name) => "{" + name + "}"
  }

  function Print(parts: seq<Part>): string {
    if parts == [] then "" else PrintPart(parts[0]) + Print(parts[1..])
  }

  predicate PartOk(part: Part) {
    match part
    case Literal(text) => text != "" && '{' !in text && '}' !in text
    case Variable(name) => NameError(name).None? && '}' !in name
  }

  /** Parts as parsing gives them: no empty literal, no brace in one, no two side by side. */
  predicate Canonical(parts: seq<Part>) {
    parts != [] ==>
      && PartOk(parts[0])
      && (|parts| > 1 && parts[0].Literal? ==> parts[1].Variable?)
      && Canonical(parts[1..])
  }

  lemma PrependPart(part: Part, rest: seq<Part>)
    requires PartOk(part) && Canonical(rest) && (part.Literal? && rest != [] ==> rest[0].Variable?)
    ensures Print([part] + rest) == PrintPart(part) + Print(rest) && Canonical([part] + rest)
  {
    assert ([part] + rest)[1..] == rest;
  }

  lemma PrependLiteral(text: string, rest: seq<Part>)
    requires '{' !in text && '}' !in text && Canonical(rest) && (rest != [] ==> rest[0].Variable?)
    ensures Print(LiteralPart(text) + rest) == text + Print(rest) && Canonical(LiteralPart(text) + rest)
  {
    if text == "" {
      assert LiteralPart(text) + rest == rest && text + Print(rest) == Print(rest);
    } else {
      PrependPart(Literal(text), rest);
    }
  }

  lemma PrependExpression(text: string, name: string, rest: seq<Part>)
    requires '{' !in text && '}' !in text && Canonical(rest) && PartOk(Variable(name))
    ensures Print(LiteralPart(text) + [Variable(name)] + rest) == text + ("{" + name + "}" + Print(rest))
    ensures Canonical(LiteralPart(text) + [Variable(name)] + rest)
  {
    PrependPart(Variable(name), rest);
    PrependLiteral(text, [Variable(name)] + rest);
    assert LiteralPart(text) + [Variable(name)] + rest == LiteralPart(text) + ([Variable(name)] + rest);
  }

  lemma CutAt(s: string, i: nat, start: nat, end: nat)
    requires i <= start < end < |s| && s[start] == '{' && s[end] == '}'
    ensures s[i..] == s[i..start] + ("{" + s[start + 1..end] + "}" + s[end + 1..])
  {
    assert s[start..] == [s[start]] + s[start + 1..end] + [s[end]] + s[end + 1..];
    assert s[i..] == s[i..start] + s[start..];
  }

  lemma PieceText(s: string, i: nat)
    requires i < |s| && !NextPiece(s, i).Malformed?
    ensures var piece := NextPiece(s, i);
      && '{' !in piece.text && '}' !in piece.text
      && (piece.Tail? ==> piece.text == s[i..])
      && (piece.Expression? ==> PartOk(Variable(piece.name)))
  {
    if Find(s, '{', i) == |s| { assert s[i..|s|] == s[i..]; }
  }

  lemma ExpressionPiece(s: string, i: nat) returns (start: nat, end: nat)
    requires i < |s| && NextPiece(s, i).Expression?
    ensures i <= start < end < |s| && s[start] == '{' && s[end] == '}'
    ensures NextPiece(s, i) == Expression(s[i..start], s[start + 1..end], end + 1)
  {
    start := Find(s, '{', i);
    end := Find(s, '}', start + 1);
  }

  /** One turn of the scan takes exactly the text it reports off the front. */
  lemma PieceIsPrefix(s: string, i: nat)
    requires i < |s| && !NextPiece(s, i).Malformed?
    ensures var piece := NextPiece(s, i);
      && '{' !in piece.text && '}' !in piece.text
      && (piece.Tail? ==> piece.text == s[i..])
      && (piece.Expression? ==>
            PartOk(Variable(piece.name)) && s[i..] == piece.text + ("{" + piece.name + "}" + s[piece.next..]))
  {
    PieceText(s, i);
    if NextPiece(s, i).Expression? {
      var start, end := ExpressionPiece(s, i);
      CutAt(s, i, start, end);
    }
  }

  /** Printing the parts of a template gives the template back. */
  lemma {:induction false} PrintParse(s: string, i: nat)
    requires i <= |s| && ParseFrom(s, i).Success?
    ensures Print(ParseFrom(s, i).value) == s[i..]
    ensures Canonical(ParseFrom(s, i).value)
    decreases |s| - i
  {
    if i < |s| {
      PieceIsPrefix(s, i);
      match NextPiece(s, i) {
        case Tail(text) =>
          PrependLiteral(text, []);
          assert LiteralPart(text) + [] == LiteralPart(text) && text + "" == text;
        case Expression(text, name, next) =>
          PrintParse(s, next);
          PrependExpression(text, name, ParseFrom(s, next).value);
      }
    }
  }

  lemma FindIs(s: string, c: char, i: nat, k: nat)
    requires i <= k <= |s| && (k < |s| ==> s[k] == c) && c !in s[i..k]
    ensures Find(s, c, i) == k
  {
    forall j | i <= j < k ensures s[j] != c { assert s[j] == s[i..k][j - i]; }
  }

  /** Where the pieces of a printed expression lie in the string that ends with it. */
  lemma ExpressionAt(s: string, i: nat, text: string, name: string, after: string)
    requires i <= |s| && s[i..] == text + "{" + name + "}" + after
    ensures var start, end := i + |text|, i + |text| + 1 + |name|;
      && end < |s| && s[start] == '{' && s[end] == '}'
      && s[i..start] == text && s[start + 1..end] == name && s[end + 1..] == after
  {
    var prefix := s[..i];
    assert s == prefix + (text + "{" + name + "}" + after);
    var start, end := i + |text|, i + |text| + 1 + |name|;
    assert s[end + 1..] == after;
    assert s[start + 1..end] == name;
    assert s[i..start] == text;
  }

  lemma PieceBetween(s: string, i: nat, start: nat, end: nat)
    requires i <= start < end < |s| && s[start] == '{' && s[end] == '}'
    requires '{' !in s[i..start] && '}' !in s[i..start] && PartOk(Variable(s[start + 1..end]))
    ensures NextPiece(s, i) == Expression(s[i..start], s[start + 1..end], end + 1)
  {
    FindIs(s, '{', i, start);
    FindIs(s, '}', start + 1, end);
  }

  /** The scan finds the piece a text was printed from. */
  lemma PieceOfPrinted(s: string, i: nat, text: string, name: string, after: string)
    requires i <= |s| && s[i..] == text + "{" + name + "}" + after
    requires '{' !in text && '}' !in text && PartOk(Variable(name))
    ensures i < |s| && i + |text| + |name| + 2 <= |s|
    ensures NextPiece(s, i) == Expression(text, name, i + |text| + |name| + 2)
    ensures s[i + |text| + |name| + 2..] == after
  {
    ExpressionAt(s, i, text, name, after);
    PieceBetween(s, i, i + |text|, i + |text| + 1 + |name|);
  }

  lemma PrintExpression(text: string, name: string, rest: seq<Part>)
    ensures text + Print([Variable(name)] + rest) == text + "{" + name + "}" + Print(rest)
  {
    var parts, tail := [Variable(name)] + rest, Print(rest);
    assert parts[1..] == rest && PrintPart(parts[0]) == "{" + name + "}";
    assert text + ("{" + name + "}" + tail) == text + "{" + name + "}" + tail;
  }

  lemma ParseLast(s: string, i: nat, text: string)
    requires i <= |s| && s[i..] == text && '{' !in text && '}' !in text
    ensures ParseFrom(s, i) == Success(LiteralPart(text))
  {
    assert s[i..|s|] == text && |text| == |s| - i;
    FindIs(s, '{', i, |s|);
  }

  /** The scan at `i` reads the literal `text`, the variable `name` and leaves off at `next`. */
  predicate Finds(s: string, i: nat, text: string, name: string, next: nat) {
    i < |s| && NextPiece(s, i) == Expression(text, name, next)
  }

  /** The same for a variable at the head of a list, after the literal `text`. */
  lemma PieceOfParts(s: string, i: nat, text: string, name: string, rest: seq<Part>) returns (next: nat)
    requires i <= |s| && s[i..] == text + Print([Variable(name)] + rest)
    requires '{' !in text && '}' !in text && PartOk(Variable(name))
    ensures i < next <= |s| && Finds(s, i, text, name, next) && s[next..] == Print(rest)
  {
    PrintExpression(text, name, rest);
    PieceOfPrinted(s, i, text, name, Print(rest));
    next := i + |text| + |name| + 2;
  }

  lemma ParseOne(s: string, i: nat, text: string, name: string, next: nat, rest: seq<Part>)
    requires Finds(s, i, text, name, next) && ParseFrom(s, next) == Success(rest)
    ensures ParseFrom(s, i) == Success(LiteralPart(text) + [Variable(name)] + rest)
  {}

  lemma ParseHead(s: string, i: nat, text: string, name: string, rest: seq<Part>) returns (next: nat)
    requires i <= |s| && s[i..] == text + Print([Variable(name)] + rest)
    requires '{' !in text && '}' !in text && PartOk(Variable(name))
    ensures i < next <= |s| && s[next..] == Print(rest)
    ensures ParseFrom(s, next) == Success(rest) ==>
      ParseFrom(s, i) == Success(LiteralPart(text) + [Variable(name)] + rest)
  {
    next := PieceOfParts(s, i, text, name, rest);
    if ParseFrom(s, next) == Success(rest) { ParseOne(s, i, text, name, next, rest); }
  }

  /** A canonical list is a literal, possibly none, and then nothing or a variable and a canonical list. */
  lemma CanonicalShape(parts: seq<Part>) returns (text: string, tail: seq<Part>)
    requires Canonical(parts)
    ensures parts == LiteralPart(text) + tail && Print(parts) == text + Print(tail)
    ensures '{' !in text && '}' !in text
    ensures tail == [] ==> Print(parts) == text && parts == LiteralPart(text)
    ensures tail != [] ==>
      && tail[0].Variable? && PartOk(tail[0]) && Canonical(tail[1..]) && |tail| <= |parts|
      && tail == [tail[0]] + tail[1..] && parts == LiteralPart(text) + [tail[0]] + tail[1..]
  {
    if parts != [] && parts[0].Literal? {
      text, tail := parts[0].text, parts[1..];
      assert text + "" == text;
    } else {
      text, tail := "", parts;
      assert "" + Print(parts) == Print(parts);
    }
  }

  /** Parsing a printed canonical list gives the list back. */
  lemma {:induction false} ParsePrint(parts: seq<Part>, s: string, i: nat)
    requires Canonical(parts) && i <= |s| && s[i..] == Print(parts)
    ensures ParseFrom(s, i) == Success(parts)
    decreases |parts|
  {
    var text, tail := CanonicalShape(parts);
    if tail != [] {
      var name, rest := tail[0].name, tail[1..];
      var next := ParseHead(s, i, text, name, rest);
      ParsePrint(rest, s, next);
    } else {
      ParseLast(s, i, text);
    }
  }

  /** Parsing succeeds with exactly the canonical parts that print to the template. */
  lemma ParsedExactly(template: string, parts: seq<Part>)
    ensures Parsed(template) == Success(parts) <==> Canonical(parts) && Print(parts) == template
  {
    assert template[0..] == template;
    if Parsed(template) == Success(parts) { PrintParse(template, 0); }
    if Canonical(parts) && Print(parts) == template { ParsePrint(parts, template, 0); }
  }

  // ---------------------------------------------------------------------------
  // Encoding a value
  // ---------------------------------------------------------------------------

  predicate IsUnreserved(c: char) {
    IsAlphanumeric(c) || c == '_' || c == '.' || c == '-' || c == '~'
  }

  /** The characters an encoded value is made of. */
  predicate InValue(c: char) {
    IsUnreserved(c) || c == '%'
  }

  function HexDigit(n: nat): char
    requires n < 16
  {
    if n < 10 then '0' + n as char else 'A' + (n - 10) as char
  }

  function HexValue(c: char): nat {
    if '0' <= c <= '9' then (c - '0') as nat else if 'A' <= c <= 'F' then (c - 'A') as nat + 10 else 0
  }

  function QuoteOctet(b: Octet): string {
    if IsUnreserved(b as char) then [b as char] else ['%', HexDigit(b / 16), HexDigit(b % 16)]
  }

  /** `quote(value, safe="")`: everything outside the unreserved set is percent-encoded. */
  function Quote(value: Octets): string {
    if value == [] then "" else QuoteOctet(value[0]) + Quote(value[1..])
  }

  function OctetOf(c: char): Octet {
    if c as int < 256 then c as int else 0
  }

  function Unquote(s: string): Octets {
    if s == "" then []
    else if s[0] == '%' && |s| >= 3 then
      var b := HexValue(s[1]) * 16 + HexValue(s[2]);
      [if b < 256 then b else 0] + Unquote(s[3..])
    else [OctetOf(s[0])] + Unquote(s[1..])
  }

  lemma {:induction false} UnquoteQuote(value: Octets)
    ensures Unquote(Quote(value)) == value
    ensures forall i :: 0 <= i < |Quote(value)| ==> InValue(Quote(value)[i])
  {
    if value != [] {
      UnquoteQuote(value[1..]);
      var head, tail := QuoteOctet(value[0]), Quote(value[1..]);
      assert (head + tail)[|head|..] == tail;
      HexRoundTrip(value[0]);
      assert value == [value[0]] + value[1..];
    }
  }

  lemma HexRoundTrip(b: Octet)
    ensures HexValue(HexDigit(b / 16)) * 16 + HexValue(HexDigit(b % 16)) == b
    ensures IsAlphanumeric(HexDigit(b / 16)) && IsAlphanumeric(HexDigit(b % 16))
  {
    HexDigitValue(b / 16);
    HexDigitValue(b % 16);
  }

  lemma HexDigitValue(n: nat)
    requires n < 16
    ensures HexValue(HexDigit(n)) == n && IsAlphanumeric(HexDigit(n))
  {}

  // ---------------------------------------------------------------------------
  // Expanding
  // ---------------------------------------------------------------------------

  type Values = map<string, Octets>

  function ExpandPart(part: Part, values: Values): string
    requires part.Variable? ==> part.name in values
  {
    match part
    case Literal(text) => text
    case Variable(name) => Quote(values[name])
  }

  function ExpandParts(parts: seq<Part>, values: Values): Result<string, TemplateError> {
    if parts == [] then Success("")
    else if parts[0].Variable? && parts[0].name !in values then Failure(MissingVariable(parts[0].name))
    else
      PrefixedText(ExpandPart(parts[0], values), ExpandParts(parts[1..], values))
  }

  function Expanded(template: string, values: Values): Result<string, TemplateError> {
    match Parsed(template)
    case Failure(error) => Failure(error)
    case Success(parts) => ExpandParts(parts, values)
  }

  function PrefixedText(text: string, rest: Result<string, TemplateError>): Result<string, TemplateError> {
    match rest
    case Failure(error) => Failure(error)
    case Success(more) => Success(text + more)
  }

  lemma PrefixedTextStep(out: string, head: string, rest: Result<string, TemplateError>)
    ensures PrefixedText("", rest) == rest
    ensures PrefixedText(out, PrefixedText(head, rest)) == PrefixedText(out + head, rest)
  {
    if rest.Success? {
      assert "" + rest.value == rest.value;
      assert out + (head + rest.value) == (out + head) + rest.value;
    }
  }

  method Expand(template: string, values: Values) returns (result: Result<string, TemplateError>)
    ensures result == Expanded(template, values)
  {
    var parsed := Parse(template);
    if parsed.Failure? { return Failure(parsed.error); }
    var parts := parsed.value;
    var out := "";
    ghost var whole := ExpandParts(parts, values);
    PrefixedTextStep("", "", whole);
    assert parts[0..] == parts;
    for i := 0 to |parts|
      invariant whole == PrefixedText(out, ExpandParts(parts[i..], values))
    {
      var part := parts[i];
      assert parts[i..][0] == part && parts[i..][1..] == parts[i + 1..];
      if part.Variable? && part.name !in values { return Failure(MissingVariable(part.name)); }
      PrefixedTextStep(out, ExpandPart(part, values), ExpandParts(parts[i + 1..], values));
      out := out + ExpandPart(part, values);
    }
    assert parts[|parts|..] == [] && out + "" == out;
    return Success(out);
  }

  // ---------------------------------------------------------------------------
  // Reading the values back
  // ---------------------------------------------------------------------------

  /** A character that no encoded value contains stands somewhere in the text. */
  ghost predicate Delimits(text: string) {
    exists i :: 0 <= i < |text| && !InValue(text[i])
  }

  /** Between any two variables there is a literal that delimits. */
  ghost predicate Separated(parts: seq<Part>) {
    forall i, k :: 0 <= i < k < |parts| && parts[i].Variable? && parts[k].Variable? ==> DelimitedBetween(parts, i, k)
  }

  ghost predicate DelimitedBetween(parts: seq<Part>, i: int, k: int)
    requires 0 <= i < k < |parts|
  {
    exists m :: i < m < k && parts[m].Literal? && Delimits(parts[m].text)
  }

  /** Text that an encoded value cannot run into. */
  predicate Bounds(s: string) {
    s == "" || !InValue(s[0])
  }

  predicate AllInValue(s: string) {
    forall i :: 0 <= i < |s| ==> InValue(s[i])
  }

  /** How many characters of an encoded value a text starts with. */
  function ValueRun(s: string): (n: nat)
    ensures n <= |s| && AllInValue(s[..n]) && Bounds(s[n..])
  {
    if s == "" || !InValue(s[0]) then 0
    else
      assert s[..1 + ValueRun(s[1..])] == [s[0]] + s[1..][..ValueRun(s[1..])];
      1 + ValueRun(s[1..])
  }

  lemma {:induction false} ValueRunIs(a: string, r: string)
    requires Bounds(r) && AllInValue(a)
    ensures ValueRun(a + r) == |a|
  {
    if a == "" {
      assert a + r == r;
    } else {
      assert (a + r)[1..] == a[1..] + r;
      ValueRunIs(a[1..], r);
    }
  }

  /** The first character no value contains is the first one of the literal. */
  lemma RunIntoDelimiter(a: string, literal: string, r: string)
    requires AllInValue(a) && Delimits(literal)
    ensures ValueRun(a + (literal + r)) == |a| + ValueRun(literal)
  {
    var n := ValueRun(literal);
    assert literal[..|literal|] == literal;
    assert n < |literal|;
    CutInside(a, literal, r, n);
    ValueRunIs(a + literal[..n], literal[n..] + r);
  }

  lemma CutInside(a: string, literal: string, r: string, n: nat)
    requires n <= |literal|
    ensures a + (literal + r) == (a + literal[..n]) + (literal[n..] + r)
  {
    assert literal == literal[..n] + literal[n..];
  }

  /** Two values before one literal that delimits are told apart, whatever follows. */
  lemma SplitAtDelimiter(a: string, b: string, literal: string, r: string, t: string)
    requires a + (literal + r) == b + (literal + t) && Delimits(literal)
    requires AllInValue(a) && AllInValue(b)
    ensures a == b && r == t
  {
    RunIntoDelimiter(a, literal, r);
    RunIntoDelimiter(b, literal, t);
    SameHead(a, b, literal + r, literal + t);
    SameHead(literal, literal, r, t);
  }

  lemma SameHead(a: string, b: string, r: string, t: string)
    requires a + r == b + t && |a| == |b|
    ensures a == b && r == t
  {
    assert (a + r)[..|a|] == a && (b + t)[..|b|] == b;
    assert (a + r)[|a|..] == r && (b + t)[|b|..] == t;
  }

  lemma SplitAtSuffix(a: string, b: string, r: string)
    requires a + r == b + r
    ensures a == b
  {
    assert |a| == |b| && (a + r)[..|a|] == a && (b + r)[..|b|] == b;
  }

  lemma QuoteInjective(a: Octets, b: Octets)
    requires Quote(a) == Quote(b)
    ensures a == b
  {
    UnquoteQuote(a);
    UnquoteQuote(b);
  }

  lemma SeparatedRest(parts: seq<Part>)
    requires parts != [] && Separated(parts)
    ensures Separated(parts[1..])
  {
    var rest := parts[1..];
    forall i, k | 0 <= i < k < |rest| && rest[i].Variable? && rest[k].Variable? ensures DelimitedBetween(rest, i, k) {
      assert rest[i] == parts[i + 1] && rest[k] == parts[k + 1];
      assert DelimitedBetween(parts, i + 1, k + 1);
      var m :| i + 1 < m < k + 1 && parts[m].Literal? && Delimits(parts[m].text);
      assert rest[m - 1] == parts[m];
    }
  }

  /** What follows a variable: nothing, a last literal, or a literal that delimits. */
  lemma AfterVariable(parts: seq<Part>)
    requires Canonical(parts) && Separated(parts) && parts != [] && parts[0].Variable?
    ensures |parts| > 1 ==> parts[1].Literal? && (|parts| > 2 ==> Delimits(parts[1].text))
  {
    if |parts| > 1 {
      assert parts[1..][0] == parts[1];
      assert !DelimitedBetween(parts, 0, 1);
      if |parts| > 2 {
        assert parts[1..][1] == parts[2];
        if parts[1].Literal? { assert DelimitedBetween(parts, 0, 2); }
      }
    }
  }

  lemma ExpandLiteral(parts: seq<Part>, values: Values)
    requires parts != [] && parts[0].Literal? && ExpandParts(parts, values).Success?
    ensures ExpandParts(parts[1..], values).Success?
    ensures ExpandParts(parts, values).value == parts[0].text + ExpandParts(parts[1..], values).value
  {}

  /** One turn of reading back: the first value, and what is left of the URL. */
  lemma HeadDetermined(parts: seq<Part>, one: Values, other: Values)
    requires Canonical(parts) && Separated(parts) && parts != [] && parts[0].Variable?
    requires ExpandParts(parts, one).Success? && ExpandParts(parts, one) == ExpandParts(parts, other)
    ensures one[parts[0].name] == other[parts[0].name]
    ensures ExpandParts(parts[1..], one) == ExpandParts(parts[1..], other)
  {
    var rest := parts[1..];
    var x, y := one[parts[0].name], other[parts[0].name];
    var r, t := ExpandParts(rest, one).value, ExpandParts(rest, other).value;
    UnquoteQuote(x);
    UnquoteQuote(y);
    AfterVariable(parts);
    if rest == [] {
      SplitAtSuffix(Quote(x), Quote(y), "");
    } else {
      ExpandLiteral(rest, one);
      ExpandLiteral(rest, other);
      var r', t' := ExpandParts(rest[1..], one).value, ExpandParts(rest[1..], other).value;
      if |parts| == 2 {
        assert r' == t' == "";
        SplitAtSuffix(Quote(x), Quote(y), r);
      } else {
        SplitAtDelimiter(Quote(x), Quote(y), rest[0].text, r', t');
      }
    }
    QuoteInjective(x, y);
  }

  /** The variables of a separated template can be read back from the URL it expands to. */
  lemma {:induction false} ExpandInjective(parts: seq<Part>, one: Values, other: Values, name: string)
    requires Canonical(parts) && Separated(parts) && Variable(name) in parts
    requires ExpandParts(parts, one).Success? && ExpandParts(parts, one) == ExpandParts(parts, other)
    ensures name in one && name in other && one[name] == other[name]
    decreases |parts|
  {
    var part, rest := parts[0], parts[1..];
    assert parts == [part] + rest;
    if part.Variable? {
      HeadDetermined(parts, one, other);
    } else {
      var r, t := ExpandParts(rest, one).value, ExpandParts(rest, other).value;
      assert (part.text + r)[|part.text|..] == r && (part.text + t)[|part.text|..] == t;
    }
    SeparatedRest(parts);
    if part != Variable(name) { ExpandInjective(rest, one, other, name); }
  }

  predicate AgreeOn(name: string, one: Values, other: Values) {
    name in one && name in other && one[name] == other[name]
  }

  lemma TemplateAgrees(template: string, parts: seq<Part>, one: Values, other: Values, name: string)
    requires Parsed(template) == Success(parts) && Canonical(parts) && Separated(parts) && Variable(name) in parts
    requires Expanded(template, one).Success? && Expanded(template, one) == Expanded(template, other)
    ensures AgreeOn(name, one, other)
  {
    ExpandInjective(parts, one, other, name);
  }

  /** Value maps that give one URL agree on every variable the parts name. */
  ghost predicate Determines(template: string, parts: seq<Part>) {
    forall one, other, name ::
      && Variable(name) in parts && Expanded(template, one).Success?
      && Expanded(template, one) == Expanded(template, other)
      ==> AgreeOn(name, one, other)
  }

  /** The URL of a separated template determines its values, repeated variables and `%` in literals or not. */
  lemma TemplateDeterminesValues(template: string, parts: seq<Part>)
    requires Parsed(template) == Success(parts) && Separated(parts)
    ensures Determines(template, parts)
  {
    ParsedExactly(template, parts);
    forall one, other, name |
      && Variable(name) in parts && Expanded(template, one).Success?
      && Expanded(template, one) == Expanded(template, other)
      ensures AgreeOn(name, one, other)
    {
      TemplateAgrees(template, parts, one, other, name);
    }
  }

  /** A character outside the values right after each variable is the simplest way to separate them. */
  lemma DelimitedIsSeparated(parts: seq<Part>)
    requires forall i :: 0 <= i < |parts| - 1 && parts[i].Variable? ==>
      parts[i + 1].Literal? && parts[i + 1].text != "" && !InValue(parts[i + 1].text[0])
    ensures Separated(parts)
  {
    forall i, k | 0 <= i < k < |parts| && parts[i].Variable? && parts[k].Variable?
      ensures DelimitedBetween(parts, i, k)
    {
      assert !InValue(parts[i + 1].text[0]);
    }
  }

  // ---------------------------------------------------------------------------
  // Where the values cannot be read back
  // ---------------------------------------------------------------------------

  ghost predicate NamedOnce(parts: seq<Part>) {
    forall i, k :: 0 <= i < k < |parts| && parts[i].Variable? && parts[k].Variable? ==> parts[i].name != parts[k].name
  }

  predicate PercentFree(parts: seq<Part>) {
    forall i :: 0 <= i < |parts| && parts[i].Literal? ==> '%' !in parts[i].text
  }

  function NamesIn(parts: seq<Part>): set<string> {
    set i | 0 <= i < |parts| && parts[i].Variable? :: parts[i].name
  }

  predicate AllUnreserved(s: string) {
    forall i :: 0 <= i < |s| ==> IsUnreserved(s[i])
  }

  /** The octets of a text of unreserved characters, which encoding leaves alone. */
  function AsOctets(s: string): Octets
    requires AllUnreserved(s)
  {
    seq(|s|, i requires 0 <= i < |s| => s[i] as int)
  }

  lemma {:induction false} QuoteUnreserved(s: string)
    requires AllUnreserved(s)
    ensures Quote(AsOctets(s)) == s
  {
    if s != "" {
      assert AsOctets(s)[1..] == AsOctets(s[1..]);
      QuoteUnreserved(s[1..]);
      assert QuoteOctet(AsOctets(s)[0]) == [s[0]] && [s[0]] + s[1..] == s;
    }
  }

  lemma {:induction false} ExpandConcat(a: seq<Part>, b: seq<Part>, values: Values)
    requires ExpandParts(a, values).Success? && ExpandParts(b, values).Success?
    ensures ExpandParts(a + b, values) == Success(ExpandParts(a, values).value + ExpandParts(b, values).value)
  {
    if a == [] {
      assert a + b == b && "" + ExpandParts(b, values).value == ExpandParts(b, values).value;
    } else {
      assert (a + b)[0] == a[0] && (a + b)[1..] == a[1..] + b;
      ExpandConcat(a[1..], b, values);
      PrefixedTextStep(ExpandPart(a[0], values), ExpandParts(a[1..], values).value, ExpandParts(b, values));
    }
  }

  /** Where two value maps agree they expand alike. */
  lemma {:induction false} ExpandAgrees(parts: seq<Part>, one: Values, other: Values)
    requires forall i :: 0 <= i < |parts| && parts[i].Variable? ==> AgreeOn(parts[i].name, one, other)
    ensures ExpandParts(parts, one).Success? && ExpandParts(parts, one) == ExpandParts(parts, other)
  {
    if parts != [] {
      assert forall i :: 0 <= i < |parts| - 1 ==> parts[1..][i] == parts[i + 1];
      ExpandAgrees(parts[1..], one, other);
    }
  }

  lemma {:induction false} CanonicalAt(parts: seq<Part>, i: nat)
    requires Canonical(parts) && i + 1 < |parts| && parts[i].Literal?
    ensures parts[i + 1].Variable?
  {
    if i > 0 { CanonicalAt(parts[1..], i - 1); }
  }

  /** Two neighbouring variables with nothing, or an undelimiting literal, between them. */
  ghost predicate Merging(parts: seq<Part>, i: nat, k: nat, between: string) {
    && i < k < |parts| && parts[i].Variable? && parts[k].Variable?
    && parts[i + 1..k] == LiteralPart(between) && !Delimits(between)
  }

  lemma Unseparated(parts: seq<Part>) returns (i: nat, k: nat, between: string)
    requires Canonical(parts) && !Separated(parts)
    ensures Merging(parts, i, k, between)
  {
    var last: nat;
    i, last :| i < last < |parts| && parts[i].Variable? && parts[last].Variable? && !DelimitedBetween(parts, i, last);
    if parts[i + 1].Variable? {
      k, between := i + 1, "";
    } else {
      CanonicalAt(parts, i + 1);
      k, between := i + 2, parts[i + 1].text;
      PartAt(parts, i + 1);
    }
  }

  lemma {:induction false} PartAt(parts: seq<Part>, i: nat)
    requires Canonical(parts) && i < |parts|
    ensures PartOk(parts[i])
  {
    if i > 0 { PartAt(parts[1..], i - 1); }
  }

  /** A run of two variables with a literal between, expanded. */
  lemma ExpandPair(a: string, between: string, b: string, values: Values)
    requires a in values && b in values
    ensures ExpandParts([Variable(a)] + LiteralPart(between) + [Variable(b)], values)
         == Success(Quote(values[a]) + between + Quote(values[b]))
  {
    LastVariable(a, values);
    LastVariable(b, values);
    assert LiteralPart(between) != [] ==> LiteralPart(between)[1..] == [] && between + "" == between;
    ExpandConcat([Variable(a)], LiteralPart(between), values);
    ExpandConcat([Variable(a)] + LiteralPart(between), [Variable(b)], values);
  }

  lemma LastVariable(name: string, values: Values)
    requires name in values
    ensures ExpandParts([Variable(name)], values) == Success(Quote(values[name]))
  {
    assert [Variable(name)][1..] == [];
    assert Quote(values[name]) + "" == Quote(values[name]);
  }

  /** Every variable empty but two. */
  function PairValues(parts: seq<Part>, a: string, x: Octets, b: string, y: Octets): Values {
    (map name | name in NamesIn(parts) :: [])[a := x][b := y]
  }

  /** Two maps that expand the pair alike, and agree outside it, expand the whole alike. */
  lemma PairMakesWhole(parts: seq<Part>, i: nat, k: nat, between: string, one: Values, other: Values)
    requires NamedOnce(parts) && Merging(parts, i, k, between)
    requires forall name :: name in NamesIn(parts) && name != parts[i].name && name != parts[k].name ==>
      AgreeOn(name, one, other)
    requires parts[i].name in one && parts[k].name in one && parts[i].name in other && parts[k].name in other
    requires Quote(one[parts[i].name]) + between + Quote(one[parts[k].name])
          == Quote(other[parts[i].name]) + between + Quote(other[parts[k].name])
    ensures ExpandParts(parts, one).Success? && ExpandParts(parts, one) == ExpandParts(parts, other)
  {
    var a, b := parts[i].name, parts[k].name;
    var pair := [Variable(a)] + LiteralPart(between) + [Variable(b)];
    ExpandPair(a, between, b, one);
    ExpandPair(a, between, b, other);
    OutsideExpands(parts, i, k, one, other);
    ExpandAround(parts[..i], pair, parts[k + 1..], one);
    ExpandAround(parts[..i], pair, parts[k + 1..], other);
    SplitAround(parts, i, k, between);
  }

  lemma MovedText(between: string, moved: string)
    requires AllUnreserved(between) && moved == if between == "" then "A" else between
    ensures AllUnreserved(moved) && AsOctets(moved) != []
    ensures Quote([]) + between + Quote(AsOctets(moved)) == Quote(AsOctets(moved)) + between + Quote([])
  {
    QuoteUnreserved(moved);
    assert "" + between + moved == moved + between + "";
  }

  /** Between merging variables, text can move from one value to the other. */
  lemma MergingIsAmbiguous(parts: seq<Part>, i: nat, k: nat, between: string) returns (one: Values, other: Values)
    requires NamedOnce(parts) && PercentFree(parts) && Merging(parts, i, k, between)
    ensures Variable(parts[i].name) in parts && !AgreeOn(parts[i].name, one, other)
    ensures ExpandParts(parts, one).Success? && ExpandParts(parts, one) == ExpandParts(parts, other)
  {
    var a, b := parts[i].name, parts[k].name;
    var moved := if between == "" then "A" else between;
    MergingText(parts, i, k, between);
    MovedText(between, moved);
    one := PairValues(parts, a, [], b, AsOctets(moved));
    other := PairValues(parts, a, AsOctets(moved), b, []);
    PairMakesWhole(parts, i, k, between, one, other);
  }

  lemma SplitAround(parts: seq<Part>, i: nat, k: nat, between: string)
    requires Merging(parts, i, k, between)
    ensures parts
         == parts[..i] + ([Variable(parts[i].name)] + LiteralPart(between) + [Variable(parts[k].name)]) + parts[k + 1..]
  {
    assert parts == parts[..i] + ([parts[i]] + parts[i + 1..k] + [parts[k]]) + parts[k + 1..];
  }

  lemma OutsideExpands(parts: seq<Part>, i: nat, k: nat, one: Values, other: Values)
    requires NamedOnce(parts) && i < k < |parts| && parts[i].Variable? && parts[k].Variable?
    requires forall name :: name in NamesIn(parts) && name != parts[i].name && name != parts[k].name ==>
      AgreeOn(name, one, other)
    ensures ExpandParts(parts[..i], one).Success? && ExpandParts(parts[..i], one) == ExpandParts(parts[..i], other)
    ensures ExpandParts(parts[k + 1..], one).Success?
    ensures ExpandParts(parts[k + 1..], one) == ExpandParts(parts[k + 1..], other)
  {
    OutsideAgrees(parts, parts[..i], 0, i, k, one, other);
    OutsideAgrees(parts, parts[k + 1..], k + 1, i, k, one, other);
    ExpandAgrees(parts[..i], one, other);
    ExpandAgrees(parts[k + 1..], one, other);
  }

  lemma ExpandAround(before: seq<Part>, pair: seq<Part>, after: seq<Part>, values: Values)
    requires ExpandParts(before, values).Success? && ExpandParts(pair, values).Success?
    requires ExpandParts(after, values).Success?
    ensures ExpandParts(before + pair + after, values) == Success(
      ExpandParts(before, values).value + ExpandParts(pair, values).value + ExpandParts(after, values).value)
  {
    ExpandConcat(before, pair, values);
    ExpandConcat(before + pair, after, values);
  }

  /** The text between merging variables is unreserved throughout. */
  lemma MergingText(parts: seq<Part>, i: nat, k: nat, between: string)
    requires PercentFree(parts) && Merging(parts, i, k, between)
    ensures AllUnreserved(between)
  {
    if between != "" {
      assert parts[i + 1..k][0] == Literal(between) == parts[i + 1];
      forall j | 0 <= j < |between| ensures IsUnreserved(between[j]) {
        assert InValue(between[j]) && between[j] != '%';
      }
    }
  }

  /** Variables named once, apart from the pair, have one value in both maps. */
  lemma OutsideAgrees(parts: seq<Part>, some: seq<Part>, from: nat, i: nat, k: nat, one: Values, other: Values)
    requires NamedOnce(parts) && i < k < |parts| && parts[i].Variable? && parts[k].Variable?
    requires from + |some| <= |parts| && some == parts[from..from + |some|] && (from + |some| <= i || k < from)
    requires forall name :: name in NamesIn(parts) && name != parts[i].name && name != parts[k].name ==>
      AgreeOn(name, one, other)
    ensures forall j :: 0 <= j < |some| && some[j].Variable? ==> AgreeOn(some[j].name, one, other)
  {
    forall j | 0 <= j < |some| && some[j].Variable? ensures AgreeOn(some[j].name, one, other) {
      assert some[j] == parts[from + j] && parts[from + j].name in NamesIn(parts);
    }
  }

  /**
   * The exact condition. For a template that names each variable once and has no `%` in a
   * literal: its URL determines its values if and only if between any two variables there is
   * a literal with a character outside the unreserved set.
   */
  lemma DeterminesExactly(template: string, parts: seq<Part>)
    requires Parsed(template) == Success(parts) && NamedOnce(parts) && PercentFree(parts)
    ensures Determines(template, parts) <==> Separated(parts)
  {
    ParsedExactly(template, parts);
    if Separated(parts) {
      TemplateDeterminesValues(template, parts);
    } else {
      var i, k, between := Unseparated(parts);
      var one, other := MergingIsAmbiguous(parts, i, k, between);
      assert Expanded(template, one) == ExpandParts(parts, one);
      assert ExpandParts(parts, other) == Expanded(template, other);
      assert ExpandParts(parts, one) == ExpandParts(parts, other);
    }
  }

  /** Two variables side by side can trade characters. */
  lemma AdjacentVariablesAmbiguous(template: string, a: string, b: string)
    requires Parsed(template) == Success([Variable(a), Variable(b)]) && a != b
    ensures !Determines(template, [Variable(a), Variable(b)])
  {
    var parts := [Variable(a), Variable(b)];
    assert !DelimitedBetween(parts, 0, 1);
    DeterminesExactly(template, parts);
  }
}
