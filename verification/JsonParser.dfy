/**
 jsmn_parse of jsmn.h: the parser as a function of the text, its relation to the token array, and
 what its result means.
 */
module JsonParser {
  import opened Basics
  import opened JsonLexer

  /** jsmntok_t; `end` is -1 while a container is open. */
  datatype Token = Token(kind: Kind, start: int, end: int, size: int)

  /** The parser's position, the tokens made, and the index of the token that is counting, or -1. */
  datatype Snapshot = Snapshot(pos: nat, toks: seq<Token>, super: int)

  /** A count, or an error. */
  datatype Result = Count(n: nat) | Failed(error: Error)

  predicate IsOpen(t: Token) {
    t.start != -1 && t.end == -1
  }

  predicate Container(k: Kind) {
    k == Object || k == Array
  }

  /** The last open token before `n`, or -1. */
  function LastOpen(toks: seq<Token>, n: nat): (r: int)
    requires n <= |toks|
    ensures -1 <= r < n && (r >= 0 ==> IsOpen(toks[r]))
    ensures forall i :: r < i < n ==> !IsOpen(toks[i])
  {
    if n == 0 then -1 else if IsOpen(toks[n - 1]) then n - 1 else LastOpen(toks, n - 1)
  }

  /** One more element for token `i`, if it is one. */
  function Grow(toks: seq<Token>, i: int): (r: seq<Token>)
    requires -1 <= i < |toks|
    ensures |r| == |toks|
    ensures forall k :: 0 <= k < |r| ==> (r[k].kind, r[k].start, r[k].end) == (toks[k].kind, toks[k].start, toks[k].end)
  {
    if i == -1 then toks else toks[i := toks[i].(size := toks[i].size + 1)]
  }

  /** What keeps a state usable: only containers are open. */
  predicate Usable(st: Snapshot) {
    && -1 <= st.super < |st.toks|
    && forall i :: 0 <= i < |st.toks| && IsOpen(st.toks[i]) ==> Container(st.toks[i].kind)
  }

  datatype Outcome = Next(state: Snapshot) | Stop(error: Error)

  /** The effect of one lexeme at `st.pos` with room for `cap` tokens; `next` is the position after it. */
  function Accept(st: Snapshot, x: Lexeme, next: nat, cap: nat): (r: Outcome)
    requires Usable(st)
    ensures r.Next? ==>
        Usable(r.state) && r.state.pos == next && |r.state.toks| == |st.toks| + (if MakesToken(x) then 1 else 0)
    ensures r == Stop(NoMem) <==> MakesToken(x) && |st.toks| >= cap
  {
    var n := |st.toks|;
    match x
    case Open(k) =>
      if n >= cap then Stop(NoMem)
      else Next(Snapshot(next, Grow(st.toks, st.super) + [Token(k, st.pos, -1, 0)], n))
    case Close(k) =>
      var i := LastOpen(st.toks, n);
      if i == -1 || st.toks[i].kind != k then Stop(Inval)
      else
        var toks := st.toks[i := st.toks[i].(end := st.pos + 1)];
        Next(Snapshot(next, toks, LastOpen(toks, i)))
    case Text(start, end) =>
      if n >= cap then Stop(NoMem)
      else Next(Snapshot(next, Grow(st.toks + [Token(String, start, end, 0)], st.super), st.super))
    case Word(start, end) =>
      if n >= cap then Stop(NoMem)
      else Next(Snapshot(next, Grow(st.toks + [Token(Primitive, start, end, 0)], st.super), st.super))
    case Colon => Next(st.(pos := next, super := n - 1))
    case Comma =>
      var i := LastOpen(st.toks, n);
      if st.super != -1 && !Container(st.toks[st.super].kind) && i != -1 then Next(st.(pos := next, super := i))
      else Next(st.(pos := next))
    case Blank => Next(st.(pos := next))
  }

  function Step(js: seq<char>, st: Snapshot, cap: nat): (r: Outcome)
    requires Usable(st) && !AtEnd(js, st.pos)
    ensures r.Next? ==> Usable(r.state) && st.pos < r.state.pos <= |js|
  {
    match Lex(js, st.pos)
    case Fail(e) => Stop(e)
    case Item(x, next) => Accept(st, x, next, cap)
  }

  /** The parse from a state with room for `cap` tokens: the result and the state it leaves. */
  function Parse(js: seq<char>, st: Snapshot, cap: nat): (r: (Result, Snapshot))
    requires Usable(st)
    ensures Usable(r.1)
    decreases |js| - st.pos
  {
    if AtEnd(js, st.pos) then
      (if LastOpen(st.toks, |st.toks|) != -1 then Failed(Part) else Count(|st.toks|), st)
    else match Step(js, st, cap)
      case Stop(e) => (Failed(e), st)
      case Next(st') => Parse(js, st', cap)
  }

  const START := Snapshot(0, [], -1)

  /** The counting mode, without a token array. */
  function CountFrom(js: seq<char>, p: nat, n: nat): Result
    decreases |js| - p
  {
    if AtEnd(js, p) then Count(n)
    else match Lex(js, p)
      case Fail(e) => Failed(e)
      case Item(x, next) => CountFrom(js, next, n + if MakesToken(x) then 1 else 0)
  }

  // ----- the modes agree, and a parse can be continued

  /** If the token mode succeeds, the counting mode gives the same number. */
  lemma {:induction false} ModesAgree(js: seq<char>, st: Snapshot, cap: nat)
    requires Usable(st) && Parse(js, st, cap).0.Count?
    ensures CountFrom(js, st.pos, |st.toks|) == Parse(js, st, cap).0
    decreases |js| - st.pos
  {
    if !AtEnd(js, st.pos) {
      ModesAgree(js, Step(js, st, cap).state, cap);
    }
  }

  /**
   A parse runs out of room exactly when the parse with any amount of room makes more tokens than
   there is room for; otherwise the room makes no difference.
   */
  lemma {:induction false} RoomMatters(js: seq<char>, st: Snapshot, cap: nat, big: nat)
    requires Usable(st) && cap <= big && Parse(js, st, big).0 != Failed(NoMem) && |st.toks| <= cap
    ensures Parse(js, st, cap).0 == Failed(NoMem) <==> |Parse(js, st, big).1.toks| > cap
    ensures Parse(js, st, cap).0 != Failed(NoMem) ==> Parse(js, st, cap) == Parse(js, st, big)
    decreases |js| - st.pos
  {
    if !AtEnd(js, st.pos) {
      var a, b := Step(js, st, cap), Step(js, st, big);
      if b.Next? {
        TokensOnlyGrow(js, b.state, big);
        if a.Next? {
          RoomMatters(js, b.state, cap, big);
        }
      }
    }
  }

  lemma {:induction false} TokensOnlyGrow(js: seq<char>, st: Snapshot, cap: nat)
    requires Usable(st)
    ensures |Parse(js, st, cap).1.toks| >= |st.toks|
    decreases |js| - st.pos
  {
    if !AtEnd(js, st.pos) && Step(js, st, cap).Next? {
      TokensOnlyGrow(js, Step(js, st, cap).state, cap);
    }
  }

  /** Room for as many tokens as the counting mode counts is always enough. */
  lemma {:induction false} CountedIsEnough(js: seq<char>, st: Snapshot, cap: nat)
    requires Usable(st)
    requires var c := CountFrom(js, st.pos, |st.toks|); c.Count? && c.n <= cap
    ensures Parse(js, st, cap).0 != Failed(NoMem)
    decreases |js| - st.pos
  {
    if !AtEnd(js, st.pos) {
      var x := Lex(js, st.pos);
      CountGrows(js, x.next, |st.toks| + if MakesToken(x.lexeme) then 1 else 0);
      if Step(js, st, cap).Next? {
        CountedIsEnough(js, Step(js, st, cap).state, cap);
      }
    }
  }

  lemma {:induction false} CountGrows(js: seq<char>, p: nat, n: nat)
    ensures CountFrom(js, p, n).Count? ==> CountFrom(js, p, n).n >= n
    decreases |js| - p
  {
    if !AtEnd(js, p) && Lex(js, p).Item? {
      var x := Lex(js, p);
      CountGrows(js, x.next, n + if MakesToken(x.lexeme) then 1 else 0);
    }
  }

  /** A parse that ran out of room and is continued with more ends like one parse with that room. */
  lemma {:induction false} Resumes(js: seq<char>, st: Snapshot, cap: nat, more: nat)
    requires Usable(st) && cap <= more && Parse(js, st, cap).0 == Failed(NoMem)
    ensures Parse(js, Parse(js, st, cap).1, more) == Parse(js, st, more)
    decreases |js| - st.pos
  {
    var a := Step(js, st, cap);
    if a.Next? {
      assert Step(js, st, more) == a;
      Resumes(js, a.state, cap, more);
    }
  }
}
