/**
 The lexical level of jsmn.h (default build: not strict, no parent links): where strings and
 primitives end, and what the parser meets at each position.
 */
module JsonLexer {
  import opened Basics

  datatype Kind = Undefined | Object | Array | String | Primitive

  /** The kinds that brackets enclose. */
  type Enclosing = k: Kind | k == Object || k == Array witness Object

  datatype Error = NoMem | Inval | Part

  /** Where a scan ends, or why it fails. */
  datatype Scan = Found(at: nat) | Bad(error: Error)

  /** The text ends at its length or at a zero character. */
  predicate AtEnd(js: seq<char>, p: nat) {
    p >= |js| || js[p] == '\0'
  }

  predicate Space(c: char) {
    c == '\t' || c == '\r' || c == '\n' || c == ' '
  }

  /** A primitive ends before these. */
  predicate Delimiter(c: char) {
    Space(c) || c == ':' || c == ',' || c == ']' || c == '}'
  }

  predicate Printable(c: char) {
    32 as char <= c < 127 as char
  }

  predicate Hex(c: char) {
    '0' <= c <= '9' || 'A' <= c <= 'F' || 'a' <= c <= 'f'
  }

  predicate SimpleEscape(c: char) {
    c == '"' || c == '/' || c == '\\' || c == 'b' || c == 'f' || c == 'r' || c == 'n' || c == 't'
  }

  function PrimitiveEnd(js: seq<char>, p: nat): (r: Scan)
    ensures r.Found? ==> r.at >= p && (p <= |js| ==> r.at <= |js|)
    ensures r.Found? && !AtEnd(js, p) && !Delimiter(js[p]) ==> r.at > p
    ensures r.Bad? ==> r.error == Inval
    decreases |js| - p
  {
    if AtEnd(js, p) || Delimiter(js[p]) then Found(p)
    else if !Printable(js[p]) then Bad(Inval)
    else PrimitiveEnd(js, p + 1)
  }

  /** Up to `k` hexadecimal digits; the text may end before them. */
  function HexEnd(js: seq<char>, p: nat, k: nat): (r: Scan)
    ensures r.Found? ==> p <= r.at <= p + k && (p <= |js| ==> r.at <= |js|)
    ensures r.Bad? ==> r.error == Inval
    decreases k
  {
    if k == 0 || AtEnd(js, p) then Found(p)
    else if !Hex(js[p]) then Bad(Inval)
    else HexEnd(js, p + 1, k - 1)
  }

  /** The closing quote of a string whose characters start at `p`. */
  function StringEnd(js: seq<char>, p: nat): (r: Scan)
    ensures r.Found? ==> p <= r.at < |js| && js[r.at] == '"'
    ensures r.Bad? ==> r.error != NoMem
    decreases |js| - p
  {
    if AtEnd(js, p) then Bad(Part)
    else if js[p] == '"' then Found(p)
    else if js[p] == '\\' && p + 1 < |js| then
      if SimpleEscape(js[p + 1]) then StringEnd(js, p + 2)
      else if js[p + 1] == 'u' then
        var h := HexEnd(js, p + 2, 4);
        if h.Bad? then h else StringEnd(js, h.at)
      else Bad(Inval)
    else StringEnd(js, p + 1)
  }

  /** What stands at a position. */
  datatype Lexeme =
    | Open(kind: Enclosing) | Close(kind: Enclosing) | Text(start: nat, end: nat) | Word(start: nat, end: nat)
    | Colon | Comma | Blank

  /** A lexeme and the position after it. */
  datatype Lexed = Item(lexeme: Lexeme, next: nat) | Fail(error: Error)

  function Lex(js: seq<char>, p: nat): (r: Lexed)
    requires !AtEnd(js, p)
    ensures r.Item? ==> p < r.next <= |js|
    ensures r.Fail? ==> r.error != NoMem
  {
    var c := js[p];
    if c == '{' then Item(Open(Object), p + 1)
    else if c == '[' then Item(Open(Array), p + 1)
    else if c == '}' then Item(Close(Object), p + 1)
    else if c == ']' then Item(Close(Array), p + 1)
    else if c == '"' then
      var e := StringEnd(js, p + 1);
      if e.Bad? then Fail(e.error) else Item(Text(p + 1, e.at), e.at + 1)
    else if Space(c) then Item(Blank, p + 1)
    else if c == ':' then Item(Colon, p + 1)
    else if c == ',' then Item(Comma, p + 1)
    else
      var e := PrimitiveEnd(js, p);
      if e.Bad? then Fail(e.error) else Item(Word(p, e.at), e.at)
  }

  /** Lexemes that become tokens. */
  predicate MakesToken(x: Lexeme) {
    x.Open? || x.Text? || x.Word?
  }

  // ----- brackets

  datatype Bracket = Bracket(kind: Kind, open: bool, at: nat)

  function BracketOf(x: Lexeme, p: nat): (r: seq<Bracket>) {
    match x
    case Open(k) => [Bracket(k, true, p)]
    case Close(k) => [Bracket(k, false, p)]
    case _ => []
  }

  /** The brackets from `p` on that are outside strings and primitives, up to an error or the end. */
  function Brackets(js: seq<char>, p: nat): seq<Bracket>
    decreases |js| - p
  {
    if AtEnd(js, p) then []
    else match Lex(js, p)
      case Fail(_) => []
      case Item(x, next) => BracketOf(x, p) + Brackets(js, next)
  }

  /** One bracket on a stack of open ones: pushed, or matched with the top. */
  function Shift(stack: Option<seq<Kind>>, b: Bracket): Option<seq<Kind>> {
    if stack.None? then None
    else
      var s := stack.value;
      if b.open then Some(s + [b.kind])
      else if s != [] && s[|s| - 1] == b.kind then Some(s[..|s| - 1])
      else None
  }

  /** The brackets strictly between positions `a` and `b` that are left open, if they match by kind. */
  function Reduce(ev: seq<Bracket>, a: int, b: int): Option<seq<Kind>> {
    if ev == [] then Some([])
    else
      var front, last := Reduce(ev[..|ev| - 1], a, b), ev[|ev| - 1];
      if a < last.at < b then Shift(front, last) else front
  }

  lemma ReduceAppend(ev: seq<Bracket>, e: Bracket, a: int, b: int)
    ensures Reduce(ev + [e], a, b) == if a < e.at < b then Shift(Reduce(ev, a, b), e) else Reduce(ev, a, b)
  {
    assert (ev + [e])[..|ev|] == ev;
  }

  predicate Balanced(ev: seq<Bracket>, a: int, b: int) {
    Reduce(ev, a, b) == Some([])
  }
}
