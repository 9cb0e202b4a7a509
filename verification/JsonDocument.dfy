/**
 Documents and the tokens that jsmn_parse makes of them: every container has as its size the number of
 its elements or members, every key has size one, and every token spans its own text.
 */
module JsonDocument {
  import opened Basics
  import opened JsonLexer
  import opened JsonParser
  import opened JsonStructure

  datatype Scalar = Quoted(body: seq<char>) | Bare(word: seq<char>)

  /** A scalar before a colon, with the blanks on both sides of the colon. */
  datatype Key = NoKey | Key(name: Scalar, before: seq<char>, after: seq<char>)

  /** A value; elements and members differ only in that members have keys. */
  datatype Value = Leaf(scalar: Scalar) | Nested(kind: Enclosing, items: Items, blanks: seq<char>)

  datatype Items = Nil | Cons(before: seq<char>, key: Key, value: Value, after: seq<char>, rest: Items)

  // ----- how a document is written

  function WriteScalar(s: Scalar): seq<char> {
    match s
    case Quoted(body) => ['"'] + body + ['"']
    case Bare(word) => word
  }

  function WriteKey(k: Key): seq<char> {
    match k
    case NoKey => []
    case Key(name, before, after) => WriteScalar(name) + (before + ([':'] + after))
  }

  function Write(v: Value): seq<char> {
    match v
    case Leaf(s) => WriteScalar(s)
    case Nested(kind, items, blanks) =>
      [OpenChar(kind)] + (WriteItems(items, true) + (blanks + [CloseChar(kind)]))
  }

  /** Items after the first one are preceded by a comma. */
  function WriteItems(items: Items, first: bool): seq<char> {
    match items
    case Nil => []
    case Cons(before, key, value, after, rest) =>
      (if first then [] else [',']) + (before + (WriteKey(key) + (Write(value) + (after + WriteItems(rest, false)))))
  }

  // ----- what may be written

  /** Blanks as section 2 of RFC 8259 has them. */
  predicate Blanks(s: seq<char>) {
    forall k :: 0 <= k < |s| ==> s[k] == ' ' || s[k] == '\t' || s[k] == '\n' || s[k] == '\r'
  }

  /** What may follow a backslash, other than a code in hexadecimal digits (section 7 of RFC 8259). */
  predicate Escapable(c: char) {
    c == '"' || c == '\\' || c == '/' || c == 'b' || c == 'f' || c == 'n' || c == 'r' || c == 't'
  }

  predicate HexDigit(c: char) {
    '0' <= c <= '9' || 'a' <= c <= 'f' || 'A' <= c <= 'F'
  }

  /** The characters of a string: escapes are complete, and no quote or zero stands alone. */
  predicate StringChars(s: seq<char>) {
    s == [] || (
      if s[0] == '\\' then
        |s| >= 2 && if s[1] == 'u' then |s| >= 6 && (forall k :: 2 <= k < 6 ==> HexDigit(s[k])) && StringChars(s[6..])
                    else Escapable(s[1]) && StringChars(s[2..])
      else s[0] != '"' && s[0] != '\0' && StringChars(s[1..]))
  }

  /** A number, a literal, or anything else without quotes that begins no string or container. */
  predicate WordChars(s: seq<char>) {
    && s != [] && s[0] != '"' && s[0] != '{' && s[0] != '['
    && forall k :: 0 <= k < |s| ==> ' ' < s[k] <= '~' && s[k] != ',' && s[k] != ':' && s[k] != ']' && s[k] != '}'
  }

  predicate ScalarOk(s: Scalar) {
    if s.Quoted? then StringChars(s.body) else WordChars(s.word)
  }

  predicate KeyOk(k: Key) {
    k.Key? ==> ScalarOk(k.name) && Blanks(k.before) && Blanks(k.after)
  }

  predicate Ok(v: Value) {
    match v
    case Leaf(s) => ScalarOk(s)
    case Nested(_, items, blanks) => ItemsOk(items) && Blanks(blanks)
  }

  predicate ItemsOk(items: Items) {
    items.Cons? ==>
      Blanks(items.before) && KeyOk(items.key) && Ok(items.value) && Blanks(items.after) && ItemsOk(items.rest)
  }

  // ----- the tokens of a document

  function ScalarToken(s: Scalar, at: nat, size: nat): Token {
    match s
    case Quoted(body) => Token(String, at + 1, at + 1 + |body|, size)
    case Bare(word) => Token(Primitive, at, at + |word|, size)
  }

  function Number(items: Items): nat {
    if items.Nil? then 0 else 1 + Number(items.rest)
  }

  function Tokens(v: Value, at: nat): seq<Token> {
    match v
    case Leaf(s) => [ScalarToken(s, at, 0)]
    case Nested(kind, items, _) => [Token(kind, at, at + |Write(v)|, Number(items))] + ItemTokens(items, true, at + 1)
  }

  /** A key stands before its value and has size one. */
  function KeyTokens(k: Key, at: nat): seq<Token> {
    if k.NoKey? then [] else [ScalarToken(k.name, at, 1)]
  }

  function ItemTokens(items: Items, first: bool, at: nat): seq<Token> {
    match items
    case Nil => []
    case Cons(before, key, value, after, rest) =>
      var keyAt := at + (if first then 0 else 1) + |before|;
      var valueAt := keyAt + |WriteKey(key)|;
      KeyTokens(key, keyAt) + (Tokens(value, valueAt)
                               + ItemTokens(rest, false, valueAt + |Write(value)| + |after|))
  }

  // ----- texts inside a text

  /** `w` stands at `p`. */
  predicate Holds(js: seq<char>, p: nat, w: seq<char>) {
    p + |w| <= |js| && js[p..p + |w|] == w
  }

  lemma HoldsSplit(js: seq<char>, p: nat, a: seq<char>, b: seq<char>)
    requires Holds(js, p, a + b)
    ensures Holds(js, p, a) && Holds(js, p + |a|, b)
  {
    assert js[p..p + |a|] == js[p..p + |a + b|][..|a|];
    assert js[p + |a|..p + |a| + |b|] == js[p..p + |a + b|][|a|..];
  }

  /** The text ends here, or goes on with something that ends a primitive. */
  predicate Stopped(js: seq<char>, p: nat) {
    AtEnd(js, p) || Delimiter(js[p])
  }

  lemma BlanksStop(js: seq<char>, p: nat, w: seq<char>)
    requires Holds(js, p, w) && Blanks(w) && Stopped(js, p + |w|)
    ensures Stopped(js, p)
  {
    if w != [] {
      assert js[p] == w[0];
    }
  }

  // ----- scanning

  /** The scan passes over a character, or over an escape. */
  lemma ScanStep(js: seq<char>, p: nat, body: seq<char>) returns (n: nat)
    requires Holds(js, p, body + ['"']) && StringChars(body) && body != []
    ensures 0 < n <= |body| && StringChars(body[n..]) && StringEnd(js, p) == StringEnd(js, p + n)
  {
    n := if body[0] != '\\' then 1 else if body[1] == 'u' then 6 else 2;
    FirstTwo(js, p, body + ['"']);
    hide Holds, HexEnd;
    if n == 6 {
      HexScan(js, p + 2, body);
    }
  }

  lemma {:induction false} StringScan(js: seq<char>, p: nat, body: seq<char>)
    requires Holds(js, p, body + ['"']) && StringChars(body)
    ensures StringEnd(js, p) == Found(p + |body|)
    decreases |body|
  {
    hide StringChars, Holds;
    if body == [] {
      FirstTwo(js, p, body + ['"']);
    } else {
      hide StringEnd;
      var n := ScanStep(js, p, body);
      assert body + ['"'] == body[..n] + (body[n..] + ['"']);
      HoldsSplit(js, p, body[..n], body[n..] + ['"']);
      StringScan(js, p + n, body[n..]);
    }
  }

  lemma FirstTwo(js: seq<char>, p: nat, w: seq<char>)
    requires Holds(js, p, w)
    ensures |w| >= 1 ==> p < |js| && js[p] == w[0]
    ensures |w| >= 2 ==> p + 1 < |js| && js[p + 1] == w[1]
  {
  }

  lemma HexScan(js: seq<char>, p: nat, body: seq<char>)
    requires 2 <= p && |body| >= 6 && Holds(js, p - 2, body + ['"']) && forall k :: 2 <= k < 6 ==> HexDigit(body[k])
    ensures HexEnd(js, p, 4) == Found(p + 4)
  {
    var w := body + ['"'];
    assert forall k :: 0 <= k < |w| ==> js[p - 2 + k] == w[k];
    assert js[p] == body[2] && js[p + 1] == body[3] && js[p + 2] == body[4] && js[p + 3] == body[5];
    assert HexEnd(js, p + 4, 0) == Found(p + 4);
    assert HexEnd(js, p + 3, 1) == Found(p + 4);
    assert HexEnd(js, p + 2, 2) == Found(p + 4);
  }

  lemma {:induction false} WordScan(js: seq<char>, p: nat, w: seq<char>)
    requires Holds(js, p, w) && Stopped(js, p + |w|) && forall k :: 0 <= k < |w| ==> Printable(w[k]) && !Delimiter(w[k])
    ensures PrimitiveEnd(js, p) == Found(p + |w|)
    decreases |w|
  {
    if w != [] {
      assert js[p] == w[0];
      assert w == w[..1] + w[1..];
      HoldsSplit(js, p, w[..1], w[1..]);
      WordScan(js, p + 1, w[1..]);
    }
  }

  lemma LexScalar(js: seq<char>, p: nat, s: Scalar)
    requires Holds(js, p, WriteScalar(s)) && ScalarOk(s) && Stopped(js, p + |WriteScalar(s)|)
    ensures !AtEnd(js, p)
    ensures var t := ScalarToken(s, p, 0);
      Lex(js, p) == Item(if s.Quoted? then Text(t.start, t.end) else Word(t.start, t.end), p + |WriteScalar(s)|)
  {
    hide StringEnd, PrimitiveEnd, StringChars, Holds;
    FirstTwo(js, p, WriteScalar(s));
    match s {
      case Quoted(body) =>
        assert WriteScalar(s) == ['"'] + (body + ['"']);
        HoldsSplit(js, p, ['"'], body + ['"']);
        StringScan(js, p + 1, body);
      case Bare(word) =>
        WordScan(js, p, word);
    }
  }

  // ----- runs of the parser

  /** The parse from `a` goes on as the parse from `b`. */
  ghost predicate Reaches(js: seq<char>, a: Snapshot, b: Snapshot, cap: nat) {
    Usable(a) && Usable(b) && Parse(js, a, cap) == Parse(js, b, cap)
  }

  /** Inside the open container `b`: the token that counts is the container, or a key. */
  predicate Inside(st: Snapshot, b: nat) {
    && Usable(st) && b < |st.toks| && IsOpen(st.toks[b]) && (forall i :: b < i < |st.toks| ==> !IsOpen(st.toks[i]))
    && b <= st.super && (b < st.super ==> !Container(st.toks[st.super].kind))
  }

  /** Token `b` with `n` more elements. */
  function Added(toks: seq<Token>, b: nat, n: nat): seq<Token>
    requires b < |toks|
  {
    toks[b := toks[b].(size := toks[b].size + n)]
  }

  lemma StepReaches(js: seq<char>, st: Snapshot, next: Snapshot, cap: nat)
    requires Usable(st) && !AtEnd(js, st.pos) && Step(js, st, cap) == Next(next)
    ensures Reaches(js, st, next, cap)
  {
  }

  lemma ReachesOn(js: seq<char>, a: Snapshot, b: Snapshot, c: Snapshot, cap: nat)
    requires Reaches(js, a, b, cap) && Reaches(js, b, c, cap)
    ensures Reaches(js, a, c, cap)
  {
    hide Parse, Usable;
  }

  lemma {:induction false} BlanksRun(js: seq<char>, st: Snapshot, w: seq<char>, cap: nat)
    requires Usable(st) && Holds(js, st.pos, w) && Blanks(w)
    ensures Reaches(js, st, st.(pos := st.pos + |w|), cap)
    decreases |w|
  {
    if w != [] {
      assert w == w[..1] + w[1..];
      BlankRuns(js, st, w[0], w[1..], cap);
      hide *;
      var next := st.(pos := st.pos + 1);
      BlanksRun(js, next, w[1..], cap);
      ReachesOn(js, st, next, st.(pos := st.pos + |w|), cap);
    }
  }

  /** One blank, and what is left to run over. */
  lemma BlankRuns(js: seq<char>, st: Snapshot, c: char, w: seq<char>, cap: nat)
    requires Usable(st) && Holds(js, st.pos, [c] + w) && Blanks([c] + w)
    ensures var next := st.(pos := st.pos + 1);
      Usable(next) && Holds(js, next.pos, w) && Blanks(w) && Reaches(js, st, next, cap)
  {
    var x := [c] + w;
    assert x[0] == c && x[1..] == w;
    HoldsSplit(js, st.pos, [c], w);
    StepReaches(js, st, st.(pos := st.pos + 1), cap);
  }

  lemma ScalarRuns(js: seq<char>, st: Snapshot, s: Scalar, cap: nat)
    requires Usable(st) && |st.toks| < cap
    requires Holds(js, st.pos, WriteScalar(s)) && ScalarOk(s) && Stopped(js, st.pos + |WriteScalar(s)|)
    ensures Reaches(js, st,
        Snapshot(st.pos + |WriteScalar(s)|, Grow(st.toks, st.super) + [ScalarToken(s, st.pos, 0)], st.super), cap)
  {
    LexScalar(js, st.pos, s);
    var t := ScalarToken(s, st.pos, 0);
    assert Grow(st.toks + [t], st.super) == Grow(st.toks, st.super) + [t];
    StepReaches(js, st, Snapshot(st.pos + |WriteScalar(s)|, Grow(st.toks, st.super) + [t], st.super), cap);
  }

  lemma CommaRuns(js: seq<char>, st: Snapshot, b: nat, cap: nat)
    requires Inside(st, b) && Holds(js, st.pos, [','])
    ensures Reaches(js, st, Snapshot(st.pos + 1, st.toks, b), cap)
  {
    assert js[st.pos] == ',';
    assert LastOpen(st.toks, |st.toks|) == b;
    StepReaches(js, st, Snapshot(st.pos + 1, st.toks, b), cap);
  }

  /** The parts of a key that stands at `p`. */
  lemma KeyParts(js: seq<char>, p: nat, k: Key)
    requires k.Key? && KeyOk(k) && Holds(js, p, WriteKey(k))
    ensures var name := WriteScalar(k.name);
      && |WriteKey(k)| == |name| + |k.before| + 1 + |k.after|
      && ScalarOk(k.name) && Holds(js, p, name) && Stopped(js, p + |name|)
      && Blanks(k.before) && Holds(js, p + |name|, k.before) && Holds(js, p + |name| + |k.before|, [':'])
      && Blanks(k.after) && Holds(js, p + |name| + |k.before| + 1, k.after)
  {
    hide *;
    var name := WriteScalar(k.name);
    KeyShape(k);
    HoldsFour(js, p, name, k.before, [':'], k.after);
    BlanksBefore(js, p + |name|, k.before, ':');
  }

  lemma KeyShape(k: Key)
    requires k.Key? && KeyOk(k)
    ensures WriteKey(k) == WriteScalar(k.name) + (k.before + ([':'] + k.after))
    ensures ScalarOk(k.name) && Blanks(k.before) && Blanks(k.after) && Delimiter(':')
  {
    hide ScalarOk, Blanks, WriteScalar;
  }

  lemma HoldsFour(js: seq<char>, p: nat, a: seq<char>, b: seq<char>, c: seq<char>, d: seq<char>)
    requires Holds(js, p, a + (b + (c + d)))
    ensures |a + (b + (c + d))| == |a| + |b| + |c| + |d|
    ensures Holds(js, p, a) && Holds(js, p + |a|, b)
    ensures Holds(js, p + |a| + |b|, c) && Holds(js, p + |a| + |b| + |c|, d)
  {
    hide *;
    HoldsSplit(js, p, a, b + (c + d));
    HoldsSplit(js, p + |a|, b, c + d);
    HoldsSplit(js, p + |a| + |b|, c, d);
  }

  lemma KeyRuns(js: seq<char>, st: Snapshot, k: Key, cap: nat)
    requires Usable(st) && |st.toks| < cap && k.Key? && KeyOk(k) && Holds(js, st.pos, WriteKey(k))
    ensures Reaches(js, st,
        Snapshot(st.pos + |WriteKey(k)|, Grow(st.toks, st.super) + [ScalarToken(k.name, st.pos, 0)], |st.toks|), cap)
  {
    hide *;
    GrowLastOpen(st);
    KeyParts(js, st.pos, k);
    ScalarRuns(js, st, k.name, cap);
    var s1 := Snapshot(st.pos + |WriteScalar(k.name)|, Grow(st.toks, st.super) + [ScalarToken(k.name, st.pos, 0)],
        st.super);
    BlanksReach(js, st, s1, k.before, cap);
    var s2 := s1.(pos := s1.pos + |k.before|);
    var s3 := ColonRuns(js, st, s2, cap);
    BlanksReach(js, st, s3, k.after, cap);
  }

  lemma BlanksReach(js: seq<char>, a: Snapshot, st: Snapshot, w: seq<char>, cap: nat)
    requires Reaches(js, a, st, cap) && Holds(js, st.pos, w) && Blanks(w)
    ensures Reaches(js, a, st.(pos := st.pos + |w|), cap)
  {
    BlanksRun(js, st, w, cap);
  }

  lemma ColonRuns(js: seq<char>, a: Snapshot, st: Snapshot, cap: nat) returns (next: Snapshot)
    requires Reaches(js, a, st, cap) && Holds(js, st.pos, [':'])
    ensures next == Snapshot(st.pos + 1, st.toks, |st.toks| - 1) && Reaches(js, a, next, cap)
  {
    assert js[st.pos] == ':';
    next := Snapshot(st.pos + 1, st.toks, |st.toks| - 1);
    StepReaches(js, st, next, cap);
  }

  lemma {:induction false} SameLastOpen(s: seq<Token>, t: seq<Token>, n: nat)
    requires n <= |s| && n <= |t| && forall i :: 0 <= i < n ==> (IsOpen(s[i]) <==> IsOpen(t[i]))
    ensures LastOpen(s, n) == LastOpen(t, n)
  {
    if n > 0 {
      SameLastOpen(s, t, n - 1);
    }
  }

  lemma OpenRuns(js: seq<char>, st: Snapshot, kind: Enclosing, cap: nat) returns (next: Snapshot)
    requires Usable(st) && |st.toks| < cap && Holds(js, st.pos, [OpenChar(kind)])
    ensures next == Snapshot(st.pos + 1, Grow(st.toks, st.super) + [Token(kind, st.pos, -1, 0)], |st.toks|)
    ensures Reaches(js, st, next, cap) && Inside(next, |st.toks|)
  {
    assert js[st.pos] == OpenChar(kind);
    next := Snapshot(st.pos + 1, Grow(st.toks, st.super) + [Token(kind, st.pos, -1, 0)], |st.toks|);
    StepReaches(js, st, next, cap);
  }

  lemma CloseRuns(js: seq<char>, st: Snapshot, b: nat, cap: nat)
    requires Inside(st, b) && Container(st.toks[b].kind) && Holds(js, st.pos, [CloseChar(st.toks[b].kind)])
    ensures Reaches(js, st, Snapshot(st.pos + 1, st.toks[b := st.toks[b].(end := st.pos + 1)], LastOpen(st.toks, b)),
        cap)
  {
    assert js[st.pos] == CloseChar(st.toks[b].kind);
    assert LastOpen(st.toks, |st.toks|) == b;
    var toks := st.toks[b := st.toks[b].(end := st.pos + 1)];
    SameLastOpen(st.toks, toks, b);
    StepReaches(js, st, Snapshot(st.pos + 1, toks, LastOpen(st.toks, b)), cap);
  }

  /** Closing completes the token of a container. */
  lemma ClosedTokens(toks: seq<Token>, open: Token, items: seq<Token>, n: nat, end: int)
    ensures var all := Added(toks + [open], |toks|, n) + items;
      all[|toks| := all[|toks|].(end := end)] == toks + ([open.(size := open.size + n, end := end)] + items)
  {
  }

  /** The parts of a container that stands at `p`. */
  lemma NestedParts(js: seq<char>, p: nat, kind: Enclosing, items: Items, blanks: seq<char>)
    requires Holds(js, p, Write(Nested(kind, items, blanks))) && Ok(Nested(kind, items, blanks))
    ensures ItemsOk(items) && Blanks(blanks) &&
        |Tokens(Nested(kind, items, blanks), p)| == 1 + |ItemTokens(items, true, p + 1)|
    ensures var w := WriteItems(items, true);
      && |Write(Nested(kind, items, blanks))| == 1 + |w| + |blanks| + 1
      && Holds(js, p, [OpenChar(kind)]) && Holds(js, p + 1, w) && Holds(js, p + 1 + |w|, blanks)
      && Holds(js, p + 1 + |w| + |blanks|, [CloseChar(kind)]) && Stopped(js, p + 1 + |w|)
  {
    hide Holds, Stopped, Blanks;
    var w := WriteItems(items, true);
    HoldsSplit(js, p, [OpenChar(kind)], w + (blanks + [CloseChar(kind)]));
    HoldsSplit(js, p + 1, w, blanks + [CloseChar(kind)]);
    HoldsSplit(js, p + 1 + |w|, blanks, [CloseChar(kind)]);
    BlanksBefore(js, p + 1 + |w|, blanks, CloseChar(kind));
  }

  /** The end of a container whose token is the one at `n`. */
  lemma NestedEnds(js: seq<char>, toks: seq<Token>, v: Value, at: nat, st: Snapshot, cap: nat) returns (next: Snapshot)
    requires v.Nested? && st.pos + 1 == at + |Write(v)| && Holds(js, st.pos, [CloseChar(v.kind)]) && Inside(st, |toks|)
    requires st.toks ==
        Added(toks + [Token(v.kind, at, -1, 0)], |toks|, Number(v.items)) + ItemTokens(v.items, true, at + 1)
    ensures next == Snapshot(at + |Write(v)|, toks + Tokens(v, at), LastOpen(toks, |toks|)) &&
        Reaches(js, st, next, cap)
  {
    hide Parse, Step, Accept, Lex, Holds, Write, Reaches, ItemTokens, Inside;
    CloseRuns(js, st, |toks|, cap);
    ClosedTokens(toks, Token(v.kind, at, -1, 0), ItemTokens(v.items, true, at + 1), Number(v.items), at + |Write(v)|);
    SameLastOpen(toks, st.toks, |toks|);
    next := Snapshot(at + |Write(v)|, toks + Tokens(v, at), LastOpen(toks, |toks|));
  }

  lemma GrowLastOpen(st: Snapshot)
    requires Usable(st)
    ensures -1 <= st.super < |st.toks|
    ensures LastOpen(Grow(st.toks, st.super), |st.toks|) == LastOpen(st.toks, |st.toks|)
  {
    SameLastOpen(st.toks, Grow(st.toks, st.super), |st.toks|);
  }

  /** A value counts for the token that counts, and adds its tokens. */
  lemma {:induction false} ValueRuns(js: seq<char>, st: Snapshot, v: Value, cap: nat)
    requires Usable(st) && Ok(v) && Holds(js, st.pos, Write(v)) && Stopped(js, st.pos + |Write(v)|)
    requires |st.toks| + |Tokens(v, st.pos)| <= cap
    ensures Reaches(js, st, Snapshot(st.pos + |Write(v)|, Grow(st.toks, st.super) + Tokens(v, st.pos),
                                     if v.Leaf? then st.super else LastOpen(st.toks, |st.toks|)), cap)
    decreases v, 0
  {
    hide *;
    GrowLastOpen(st);
    match v {
      case Leaf(s) => LeafRuns(js, st, s, cap);
      case Nested(kind, items, blanks) =>
        NestedParts(js, st.pos, kind, items, blanks);
        var n := |st.toks|;
        var s1 := OpenRuns(js, st, kind, cap);
        var s2 := ItemsRun(js, s1, items, true, n, cap);
        var s3 := BlanksInside(js, s2, n, blanks, cap);
        var s4 := NestedEnds(js, Grow(st.toks, st.super), v, st.pos, s3, cap);
        Chain(js, st, s1, s2, cap);
        Chain(js, st, s2, s3, cap);
        Chain(js, st, s3, s4, cap);
    }
  }

  lemma LeafRuns(js: seq<char>, st: Snapshot, s: Scalar, cap: nat)
    requires Usable(st) && Ok(Leaf(s)) && Holds(js, st.pos, Write(Leaf(s))) && Stopped(js, st.pos + |Write(Leaf(s))|)
    requires |st.toks| + |Tokens(Leaf(s), st.pos)| <= cap
    ensures Reaches(js, st,
        Snapshot(st.pos + |Write(Leaf(s))|, Grow(st.toks, st.super) + Tokens(Leaf(s), st.pos), st.super), cap)
  {
    hide Parse, Step, Accept, Lex, Holds, Usable, Stopped, ScalarOk, WriteScalar, ScalarToken, Reaches;
    ScalarRuns(js, st, s, cap);
  }

  /** An item of container `b`: a value with or without a key. */
  lemma {:induction false} ItemRuns(js: seq<char>, st: Snapshot, key: Key, v: Value, b: nat, cap: nat)
      returns (next: Snapshot)
    requires Inside(st, b) && st.super == b && KeyOk(key) && Ok(v)
    requires Holds(js, st.pos, WriteKey(key)) && Holds(js, st.pos + |WriteKey(key)|, Write(v))
    requires Stopped(js, st.pos + |WriteKey(key)| + |Write(v)|)
    requires |st.toks| + |KeyTokens(key, st.pos)| + |Tokens(v, st.pos + |WriteKey(key)|)| <= cap
    ensures Inside(next, b) && Reaches(js, st, next, cap) && next.pos == st.pos + |WriteKey(key)| + |Write(v)|
    ensures next.toks == Added(st.toks, b, 1) + (KeyTokens(key, st.pos) + Tokens(v, st.pos + |WriteKey(key)|))
    decreases v, 1
  {
    hide Parse, Step, Accept, Lex, Holds, Reaches, Write, Tokens, Stopped, WriteScalar, ScalarOk, Blanks, ScalarToken;
    var at := st.pos + |WriteKey(key)|;
    TokensClosed(v, at);
    next := Snapshot(at + |Write(v)|, Added(st.toks, b, 1) + (KeyTokens(key, st.pos) + Tokens(v, at)), b);
    if key.NoKey? {
      ValueRuns(js, st, v, cap);
      PlainItem(st, b, Tokens(v, at));
    } else {
      var s1 := KeyInside(js, st, key, b, cap);
      ValueRuns(js, s1, v, cap);
      KeyCounted(Added(st.toks, b, 1), key, st.pos, Tokens(v, at));
      next := next.(super := if v.Leaf? then |st.toks| else b);
      Chain(js, st, s1, next, cap);
    }
  }

  lemma PlainItem(st: Snapshot, b: nat, tokens: seq<Token>)
    requires Inside(st, b)
    ensures LastOpen(st.toks, |st.toks|) == b && Grow(st.toks, b) + tokens == Added(st.toks, b, 1) + ([] + tokens)
  {
  }

  /** A key of container `b`. */
  lemma KeyInside(js: seq<char>, st: Snapshot, key: Key, b: nat, cap: nat) returns (next: Snapshot)
    requires Inside(st, b) && st.super == b && key.Key? && KeyOk(key) && Holds(js, st.pos, WriteKey(key)) &&
        |st.toks| < cap
    ensures Inside(next, b) && Reaches(js, st, next, cap) && LastOpen(next.toks, |next.toks|) == b
    ensures next ==
        Snapshot(st.pos + |WriteKey(key)|, Added(st.toks, b, 1) + [ScalarToken(key.name, st.pos, 0)], |st.toks|)
    ensures !Container(next.toks[|st.toks|].kind)
  {
    hide Parse, Step, Accept, Lex, Holds, WriteKey, KeyOk, Reaches;
    KeyRuns(js, st, key, cap);
    next := Snapshot(st.pos + |WriteKey(key)|, Added(st.toks, b, 1) + [ScalarToken(key.name, st.pos, 0)], |st.toks|);
  }

  lemma KeyCounted(toks: seq<Token>, key: Key, at: nat, more: seq<Token>)
    requires key.Key?
    ensures Grow(toks + [ScalarToken(key.name, at, 0)], |toks|) + more == toks + (KeyTokens(key, at) + more)
  {
  }

  lemma Chain(js: seq<char>, a: Snapshot, b: Snapshot, c: Snapshot, cap: nat)
    requires Reaches(js, a, b, cap) && Reaches(js, b, c, cap)
    ensures Reaches(js, a, c, cap)
  {
  }

  lemma BlanksInside(js: seq<char>, st: Snapshot, b: nat, w: seq<char>, cap: nat) returns (next: Snapshot)
    requires Inside(st, b) && Holds(js, st.pos, w) && Blanks(w)
    ensures next == st.(pos := st.pos + |w|) && Inside(next, b) && Reaches(js, st, next, cap)
  {
    next := st.(pos := st.pos + |w|);
    BlanksRun(js, st, w, cap);
  }

  lemma BlanksBefore(js: seq<char>, p: nat, w: seq<char>, c: char)
    requires Holds(js, p, w) && Blanks(w) && Holds(js, p + |w|, [c]) && Delimiter(c)
    ensures Stopped(js, p)
  {
    assert js[p + |w|] == c;
    BlanksStop(js, p, w);
  }

  lemma CommaInside(js: seq<char>, st: Snapshot, first: bool, b: nat, cap: nat) returns (next: Snapshot)
    requires Inside(st, b) && (first ==> st.super == b) && (!first ==> Holds(js, st.pos, [',']))
    ensures next == Snapshot(st.pos + (if first then 0 else 1), st.toks, b) && Inside(next, b) &&
        Reaches(js, st, next, cap)
  {
    next := Snapshot(st.pos + (if first then 0 else 1), st.toks, b);
    if !first {
      CommaRuns(js, st, b, cap);
    }
  }

  /** Where the parts of the first item stand. */
  function KeyAt(items: Items, first: bool, at: nat): nat
    requires items.Cons?
  {
    at + (if first then 0 else 1) + |items.before|
  }

  function ValueAt(items: Items, first: bool, at: nat): nat
    requires items.Cons?
  {
    KeyAt(items, first, at) + |WriteKey(items.key)|
  }

  function RestAt(items: Items, first: bool, at: nat): nat
    requires items.Cons?
  {
    ValueAt(items, first, at) + |Write(items.value)| + |items.after|
  }

  lemma ItemsShape(items: Items, first: bool)
    requires items.Cons? && ItemsOk(items)
    ensures WriteItems(items, first) == (if first then [] else [',']) +
      (items.before + (WriteKey(items.key) + (Write(items.value) + (items.after + WriteItems(items.rest, false)))))
    ensures Blanks(items.after)
  {
    hide Blanks, WriteKey, Write;
  }

  lemma HoldsFive(js: seq<char>, p: nat, a: seq<char>, b: seq<char>, c: seq<char>, d: seq<char>, e: seq<char>)
    requires Holds(js, p, a + (b + (c + (d + e))))
    ensures Holds(js, p, a) && Holds(js, p + |a|, b) && Holds(js, p + |a| + |b|, c)
    ensures Holds(js, p + |a| + |b| + |c|, d) && Holds(js, p + |a| + |b| + |c| + |d|, e)
    ensures |a + (b + (c + (d + e)))| == |a| + |b| + |c| + |d| + |e|
  {
    hide Holds;
    HoldsSplit(js, p, a, b + (c + (d + e)));
    HoldsSplit(js, p + |a|, b, c + (d + e));
    HoldsSplit(js, p + |a| + |b|, c, d + e);
    HoldsSplit(js, p + |a| + |b| + |c|, d, e);
  }

  lemma ItemParts(js: seq<char>, p: nat, items: Items, first: bool)
    requires items.Cons? && ItemsOk(items)
    requires Holds(js, p, WriteItems(items, first)) && Stopped(js, p + |WriteItems(items, first)|)
    ensures !first ==> Holds(js, p, [','])
    ensures Holds(js, KeyAt(items, first, p) - |items.before|, items.before) &&
        Holds(js, KeyAt(items, first, p), WriteKey(items.key))
    ensures Holds(js, ValueAt(items, first, p), Write(items.value)) &&
        Stopped(js, ValueAt(items, first, p) + |Write(items.value)|)
    ensures Holds(js, ValueAt(items, first, p) + |Write(items.value)|, items.after)
    ensures Holds(js, RestAt(items, first, p), WriteItems(items.rest, false))
    ensures p + |WriteItems(items, first)| == RestAt(items, first, p) + |WriteItems(items.rest, false)|
  {
    hide Holds, Stopped, Blanks, WriteKey, Write, WriteItems, ItemsOk;
    ItemsShape(items, first);
    var comma := if first then [] else [','];
    var key, v, w := WriteKey(items.key), Write(items.value), WriteItems(items.rest, false);
    HoldsSplit(js, p, comma, items.before + (key + (v + (items.after + w))));
    HoldsFive(js, p + |comma|, items.before, key, v, items.after, w);
    RestStops(js, RestAt(items, first, p), items.rest);
    BlanksStop(js, ValueAt(items, first, p) + |v|, items.after);
  }

  /** The tokens of the first item, and of the rest. */
  lemma ItemTokensParts(toks: seq<Token>, b: nat, items: Items, first: bool, at: nat)
    requires b < |toks| && items.Cons?
    ensures var one := KeyTokens(items.key, KeyAt(items, first, at)) + Tokens(items.value, ValueAt(items, first, at));
      var more := ItemTokens(items.rest, false, RestAt(items, first, at));
      && ItemTokens(items, first, at) == one + more
      && Added(Added(toks, b, 1) + one, b, Number(items.rest)) + more ==
          Added(toks, b, Number(items)) + ItemTokens(items, first, at)
  {
    hide KeyTokens, Tokens, Write, WriteKey;
    var one := KeyTokens(items.key, KeyAt(items, first, at)) + Tokens(items.value, ValueAt(items, first, at));
    var more := ItemTokens(items.rest, false, RestAt(items, first, at));
    Associate(KeyTokens(items.key, KeyAt(items, first, at)), Tokens(items.value, ValueAt(items, first, at)), more);
    AddedTwice(toks, b, Number(items.rest), one, more);
  }

  /** The items of container `b`. */
  lemma {:induction false} ItemsRun(js: seq<char>, st: Snapshot, items: Items, first: bool, b: nat, cap: nat)
      returns (next: Snapshot)
    requires Inside(st, b) && (first ==> st.super == b) && ItemsOk(items)
    requires Holds(js, st.pos, WriteItems(items, first)) && Stopped(js, st.pos + |WriteItems(items, first)|)
    requires |st.toks| + |ItemTokens(items, first, st.pos)| <= cap
    ensures Inside(next, b) && Reaches(js, st, next, cap) && next.pos == st.pos + |WriteItems(items, first)|
    ensures next.toks == Added(st.toks, b, Number(items)) + ItemTokens(items, first, st.pos)
    decreases items
  {
    hide Parse, Step, Accept, Lex, Holds, Inside, Usable, Stopped, Reaches, Write, WriteKey, KeyOk, Ok, Blanks, Tokens,
        KeyTokens;
    Stay(js, st, b, cap);
    match items {
      case Nil =>
        next := st;
      case Cons(before, key, v, after, rest) =>
        ItemParts(js, st.pos, items, first);
        ItemTokensParts(st.toks, b, items, first, st.pos);
        hide WriteItems, ItemTokens, Number;
        var s1 := CommaInside(js, st, first, b, cap);
        var s2 := BlanksInside(js, s1, b, before, cap);
        var s3 := ItemRuns(js, s2, key, v, b, cap);
        var s4 := BlanksInside(js, s3, b, after, cap);
        next := ItemsRun(js, s4, rest, false, b, cap);
        Chain(js, st, s1, s2, cap);
        Chain(js, st, s2, s3, cap);
        Chain(js, st, s3, s4, cap);
        Chain(js, st, s4, next, cap);
    }
  }

  lemma Stay(js: seq<char>, st: Snapshot, b: nat, cap: nat)
    requires Inside(st, b)
    ensures b < |st.toks| && Reaches(js, st, st, cap) && st.toks == Added(st.toks, b, 0)
  {
  }

  lemma RestStops(js: seq<char>, p: nat, rest: Items)
    requires Holds(js, p, WriteItems(rest, false)) && Stopped(js, p + |WriteItems(rest, false)|)
    ensures Stopped(js, p)
  {
    if rest.Cons? {
      assert js[p] == WriteItems(rest, false)[0] == ',';
    }
  }

  lemma AddedTwice(toks: seq<Token>, b: nat, n: nat, some: seq<Token>, more: seq<Token>)
    requires b < |toks|
    ensures Added(Added(toks, b, 1) + some, b, n) + more == Added(toks, b, n + 1) + (some + more)
  {
  }

  predicate AllClosed(toks: seq<Token>) {
    forall i :: 0 <= i < |toks| ==> !IsOpen(toks[i])
  }

  lemma ClosedConcat(a: seq<Token>, b: seq<Token>)
    requires AllClosed(a) && AllClosed(b)
    ensures AllClosed(a + b)
  {
  }

  lemma KeyTokensClosed(k: Key, at: nat)
    ensures AllClosed(KeyTokens(k, at))
  {
  }

  lemma {:induction false} TokensClosed(v: Value, at: nat)
    ensures AllClosed(Tokens(v, at))
  {
    if v.Nested? {
      var t := Token(v.kind, at, at + |Write(v)|, Number(v.items));
      ItemTokensClosed(v.items, true, at + 1);
      hide Write, Number, ItemTokens;
      ClosedConcat([t], ItemTokens(v.items, true, at + 1));
    }
  }

  lemma {:induction false} ItemTokensClosed(items: Items, first: bool, at: nat)
    ensures AllClosed(ItemTokens(items, first, at))
  {
    hide KeyTokens, Tokens, Write, WriteKey;
    if items.Cons? {
      var k, v := KeyTokens(items.key, KeyAt(items, first, at)), Tokens(items.value, ValueAt(items, first, at));
      var more := ItemTokens(items.rest, false, RestAt(items, first, at));
      assert ItemTokens(items, first, at) == k + (v + more);
      hide *;
      KeyTokensClosed(items.key, KeyAt(items, first, at));
      TokensClosed(items.value, ValueAt(items, first, at));
      ItemTokensClosed(items.rest, false, RestAt(items, first, at));
      ClosedConcat(v, more);
      ClosedConcat(k, v + more);
    }
  }

  /** A text that is a document, between blanks, parses to exactly its tokens. */
  lemma DocumentParses(before: seq<char>, v: Value, after: seq<char>, cap: nat)
    requires Blanks(before) && Ok(v) && Blanks(after) && |Tokens(v, |before|)| <= cap
    ensures Parse(before + (Write(v) + after), START, cap)
         == (Count(|Tokens(v, |before|)|), Snapshot(|before| + |Write(v)| + |after|, Tokens(v, |before|), -1))
  {
    hide Write, Tokens, Step, Accept, Lex, Parse, Holds, Stopped, Blanks, Ok;
    var js := before + (Write(v) + after);
    WholeHolds(js);
    HoldsSplit(js, 0, before, Write(v) + after);
    HoldsSplit(js, |before|, Write(v), after);
    AtEndStops(js);
    var s1 := START.(pos := |before|);
    TokensClosed(v, s1.pos);
    BlanksRun(js, START, before, cap);
    BlanksStop(js, s1.pos + |Write(v)|, after);
    ValueRuns(js, s1, v, cap);
    var s2 := Snapshot(s1.pos + |Write(v)|, Tokens(v, s1.pos), -1);
    assert [] + Tokens(v, s1.pos) == Tokens(v, s1.pos);
    BlanksRun(js, s2, after, cap);
    EndOfText(js, s2.(pos := |js|), cap);
  }

  lemma WholeHolds(js: seq<char>)
    ensures Holds(js, 0, js)
  {
  }

  lemma AtEndStops(js: seq<char>)
    ensures Stopped(js, |js|)
  {
  }

  lemma EndOfText(js: seq<char>, st: Snapshot, cap: nat)
    requires Usable(st) && st.pos == |js| && forall i :: 0 <= i < |st.toks| ==> !IsOpen(st.toks[i])
    ensures Parse(js, st, cap) == (Count(|st.toks|), st)
  {
  }
}
