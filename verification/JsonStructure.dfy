/**
 What a successful jsmn_parse means: brackets balance by kind, and the tokens form a forest whose
 containers span their matching brackets.
 */
module JsonStructure {
  import opened Basics
  import opened JsonLexer
  import opened JsonParser

  /** Two tokens, the first one made earlier, are disjoint or nested. */
  predicate Apart(a: Token, b: Token) {
    a.start < b.start && (a.end == -1 || a.end <= b.start || (b.end != -1 && b.end <= a.end))
  }

  /** Starts increase, and no two tokens overlap in part. */
  predicate Layout(toks: seq<Token>, pos: nat) {
    && (forall i :: 0 <= i < |toks| ==>
        0 <= toks[i].start < pos && (toks[i].end == -1 || toks[i].start <= toks[i].end <= pos))
    && (forall i, j :: 0 <= i < j < |toks| ==> Apart(toks[i], toks[j]))
  }

  function OpenChar(k: Kind): char {
    if k == Object then '{' else '['
  }

  function CloseChar(k: Kind): char {
    if k == Object then '}' else ']'
  }

  /** A closed container begins and ends with its brackets, and those between them balance. */
  predicate Encloses(js: seq<char>, ev: seq<Bracket>, t: Token) {
    && 0 <= t.start < t.end - 1 < |js|
    && js[t.start] == OpenChar(t.kind) && js[t.end - 1] == CloseChar(t.kind)
    && Balanced(ev, t.start, t.end - 1)
  }

  /** The kinds of the open tokens from `a` up to `n`. */
  function OpenKinds(toks: seq<Token>, a: nat, n: nat): seq<Kind>
    requires n <= |toks|
  {
    if n <= a then [] else OpenKinds(toks, a, n - 1) + if IsOpen(toks[n - 1]) then [toks[n - 1].kind] else []
  }

  /** The brackets since an open container are those of the open tokens after it. */
  predicate Pending(js: seq<char>, ev: seq<Bracket>, toks: seq<Token>, i: nat, pos: nat)
    requires i < |toks|
  {
    && 0 <= toks[i].start < |js| && js[toks[i].start] == OpenChar(toks[i].kind)
    && Reduce(ev, toks[i].start, pos) == Some(OpenKinds(toks, i + 1, |toks|))
  }

  /** What every step of a parse keeps; `ev` are the brackets met. */
  ghost predicate Inv(js: seq<char>, st: Snapshot, ev: seq<Bracket>) {
    && Usable(st) && Layout(st.toks, st.pos)
    && (forall k :: 0 <= k < |ev| ==> ev[k].at < st.pos)
    && Reduce(ev, -1, st.pos) == Some(OpenKinds(st.toks, 0, |st.toks|))
    && (forall i :: 0 <= i < |st.toks| && IsOpen(st.toks[i]) ==> Pending(js, ev, st.toks, i, st.pos))
    && (forall i :: 0 <= i < |st.toks| && !IsOpen(st.toks[i]) && Container(st.toks[i].kind) ==>
        Encloses(js, ev, st.toks[i]))
  }

  // ----- facts about open tokens

  lemma {:induction false} SameOpenKinds(s: seq<Token>, t: seq<Token>, a: nat, n: nat)
    requires n <= |s| && n <= |t|
    requires forall i :: a <= i < n ==> (s[i].kind, s[i].start, s[i].end) == (t[i].kind, t[i].start, t[i].end)
    ensures OpenKinds(s, a, n) == OpenKinds(t, a, n)
  {
    if n > a {
      SameOpenKinds(s, t, a, n - 1);
    }
  }

  lemma {:induction false} NoOpenKinds(toks: seq<Token>, a: nat, n: nat)
    requires n <= |toks| && forall i :: a <= i < n ==> !IsOpen(toks[i])
    ensures OpenKinds(toks, a, n) == []
  {
    if n > a {
      NoOpenKinds(toks, a, n - 1);
    }
  }

  /** The last open token is the top of the stack; closing it pops. */
  lemma {:induction false} ClosePops(toks: seq<Token>, t: nat, closed: Token, a: nat, n: nat)
    requires a <= t < n <= |toks| && IsOpen(toks[t]) && !IsOpen(closed)
    requires forall i :: t < i < n ==> !IsOpen(toks[i])
    ensures OpenKinds(toks, a, n) == OpenKinds(toks[t := closed], a, n) + [toks[t].kind]
  {
    if n == t + 1 {
      SameOpenKinds(toks, toks[t := closed], a, t);
    } else {
      ClosePops(toks, t, closed, a, n - 1);
    }
  }

  // ----- facts about brackets

  lemma {:induction false} ReduceWiden(ev: seq<Bracket>, a: int, b: int, c: int)
    requires forall k :: 0 <= k < |ev| ==> ev[k].at < b && ev[k].at < c
    ensures Reduce(ev, a, b) == Reduce(ev, a, c)
  {
    if ev != [] {
      ReduceWiden(ev[..|ev| - 1], a, b, c);
    }
  }

  lemma {:induction false} ReduceNothing(ev: seq<Bracket>, a: int, b: int)
    requires forall k :: 0 <= k < |ev| ==> ev[k].at <= a
    ensures Reduce(ev, a, b) == Some([])
  {
    if ev != [] {
      ReduceNothing(ev[..|ev| - 1], a, b);
    }
  }

  // ----- steps

  /** Steps that change neither the open tokens nor the brackets. */
  lemma QuietStep(js: seq<char>, st: Snapshot, ev: seq<Bracket>, st': Snapshot)
    requires Inv(js, st, ev) && Usable(st') && st.pos <= st'.pos && Layout(st'.toks, st'.pos)
    requires |st.toks| <= |st'.toks|
    requires forall i :: 0 <= i < |st.toks| ==>
      (st.toks[i].kind, st.toks[i].start, st.toks[i].end) == (st'.toks[i].kind, st'.toks[i].start, st'.toks[i].end)
    requires forall i :: |st.toks| <= i < |st'.toks| ==> !IsOpen(st'.toks[i]) && !Container(st'.toks[i].kind)
    ensures Inv(js, st', ev)
  {
    hide Reduce, OpenKinds, Layout;
    var n, m := |st.toks|, |st'.toks|;
    QuietKinds(st.toks, st'.toks, 0);
    ReduceWiden(ev, -1, st.pos, st'.pos);
    forall i | 0 <= i < m && IsOpen(st'.toks[i])
      ensures Pending(js, ev, st'.toks, i, st'.pos)
    {
      assert Pending(js, ev, st.toks, i, st.pos);
      QuietKinds(st.toks, st'.toks, i + 1);
      ReduceWiden(ev, st.toks[i].start, st.pos, st'.pos);
    }
    forall i | 0 <= i < m && !IsOpen(st'.toks[i]) && Container(st'.toks[i].kind)
      ensures Encloses(js, ev, st'.toks[i])
    {
      assert Encloses(js, ev, st.toks[i]);
    }
  }

  lemma {:induction false} QuietKinds(s: seq<Token>, t: seq<Token>, a: nat)
    requires |s| <= |t| && a <= |s|
    requires forall i :: 0 <= i < |s| ==> (s[i].kind, s[i].start, s[i].end) == (t[i].kind, t[i].start, t[i].end)
    requires forall i :: |s| <= i < |t| ==> !IsOpen(t[i])
    ensures OpenKinds(s, a, |s|) == OpenKinds(t, a, |t|)
    decreases |t|
  {
    if |s| == |t| {
      SameOpenKinds(s, t, a, |s|);
    } else {
      QuietKinds(s, t[..|t| - 1], a);
      SameOpenKinds(t, t[..|t| - 1], a, |t| - 1);
    }
  }

  /** An opening bracket. */
  lemma OpenStep(js: seq<char>, st: Snapshot, ev: seq<Bracket>, k: Enclosing, cap: nat)
    requires Inv(js, st, ev) && st.pos < |js| && js[st.pos] == OpenChar(k) && |st.toks| < cap
    ensures Inv(js, Accept(st, Open(k), st.pos + 1, cap).state, ev + [Bracket(k, true, st.pos)])
  {
    hide Reduce, OpenKinds;
    var st', e := Accept(st, Open(k), st.pos + 1, cap).state, Bracket(k, true, st.pos);
    var ev', n, p := ev + [e], |st.toks|, st.pos;
    assert Layout(st'.toks, p + 1);
    OpenKindsPush(st.toks, st'.toks, 0);
    ReduceWiden(ev, -1, p, p + 1);
    ReduceAppend(ev, e, -1, p + 1);
    forall i | 0 <= i < n + 1 && IsOpen(st'.toks[i])
      ensures Pending(js, ev', st'.toks, i, p + 1)
    {
      OpenKindsPush(st.toks, st'.toks, i + 1);
      if i < n {
        assert Pending(js, ev, st.toks, i, p);
        ReduceWiden(ev, st.toks[i].start, p, p + 1);
        ReduceAppend(ev, e, st.toks[i].start, p + 1);
      } else {
        ReduceNothing(ev', p, p + 1);
      }
    }
    forall i | 0 <= i < n + 1 && !IsOpen(st'.toks[i]) && Container(st'.toks[i].kind)
      ensures Encloses(js, ev', st'.toks[i])
    {
      assert Encloses(js, ev, st.toks[i]);
      ReduceAppend(ev, e, st.toks[i].start, st.toks[i].end - 1);
    }
  }

  lemma OpenKindsPush(s: seq<Token>, t: seq<Token>, a: nat)
    requires |t| == |s| + 1 && IsOpen(t[|s|])
    requires forall i :: 0 <= i < |s| ==> (s[i].kind, s[i].start, s[i].end) == (t[i].kind, t[i].start, t[i].end)
    ensures a <= |s| ==> OpenKinds(t, a, |t|) == OpenKinds(s, a, |s|) + [t[|s|].kind]
    ensures a > |s| ==> OpenKinds(t, a, |t|) == []
  {
    if a <= |s| {
      SameOpenKinds(s, t, a, |s|);
    }
  }

  /** A closing bracket that matches the last open container. */
  lemma CloseStep(js: seq<char>, st: Snapshot, ev: seq<Bracket>, k: Enclosing, cap: nat)
    requires Inv(js, st, ev) && st.pos < |js| && js[st.pos] == CloseChar(k)
    requires Accept(st, Close(k), st.pos + 1, cap).Next?
    ensures Inv(js, Accept(st, Close(k), st.pos + 1, cap).state, ev + [Bracket(k, false, st.pos)])
  {
    hide Reduce, OpenKinds, Layout;
    var st', e := Accept(st, Close(k), st.pos + 1, cap).state, Bracket(k, false, st.pos);
    var ev', n, p := ev + [e], |st.toks|, st.pos;
    var t := LastOpen(st.toks, n);
    var closed := st.toks[t].(end := p + 1);
    assert Pending(js, ev, st.toks, t, p);
    CloseLayout(st.toks, t, p);
    NoOpenKinds(st.toks, t + 1, n);
    ReduceAppend(ev, e, st.toks[t].start, p);
    ClosePops(st.toks, t, closed, 0, n);
    ReduceWiden(ev, -1, p, p + 1);
    ReduceAppend(ev, e, -1, p + 1);
    forall i | 0 <= i < n && IsOpen(st'.toks[i])
      ensures Pending(js, ev', st'.toks, i, p + 1)
    {
      assert i < t;
      assert Pending(js, ev, st.toks, i, p);
      ClosePops(st.toks, t, closed, i + 1, n);
      ReduceWiden(ev, st.toks[i].start, p, p + 1);
      StartsBefore(st.toks, i, p);
      ReduceAppend(ev, e, st.toks[i].start, p + 1);
    }
    forall i | 0 <= i < n && !IsOpen(st'.toks[i]) && Container(st'.toks[i].kind)
      ensures Encloses(js, ev', st'.toks[i])
    {
      if i == t {
        StartsBefore(st.toks, t, p);
      } else {
        assert Encloses(js, ev, st.toks[i]);
        StartsBefore(st.toks, i, p);
        ReduceAppend(ev, e, st.toks[i].start, st.toks[i].end - 1);
      }
    }
  }

  lemma StartsBefore(toks: seq<Token>, i: nat, pos: nat)
    requires Layout(toks, pos) && i < |toks|
    ensures 0 <= toks[i].start < pos && toks[i].end <= pos
  {
  }

  lemma CloseLayout(toks: seq<Token>, t: nat, pos: nat)
    requires Layout(toks, pos) && t < |toks| && IsOpen(toks[t]) && forall i :: t < i < |toks| ==> !IsOpen(toks[i])
    ensures Layout(toks[t := toks[t].(end := pos + 1)], pos + 1)
  {
    var r := toks[t := toks[t].(end := pos + 1)];
    forall i, j | 0 <= i < j < |r|
      ensures Apart(r[i], r[j])
    {
      assert Apart(toks[i], toks[j]);
    }
  }

  lemma TokenLayout(toks: seq<Token>, super: int, t: Token, pos: nat, next: nat)
    requires Layout(toks, pos) && -1 <= super < |toks| && pos <= t.start <= t.end <= next && t.start < next
    ensures Layout(Grow(toks + [t], super), next)
  {
    var r := Grow(toks + [t], super);
    forall i, j | 0 <= i < j < |r|
      ensures Apart(r[i], r[j])
    {
      assert j < |toks| ==> Apart(toks[i], toks[j]);
    }
  }

  lemma LayoutLater(toks: seq<Token>, pos: nat, next: nat)
    requires Layout(toks, pos) && pos <= next
    ensures Layout(toks, next)
  {
  }

  /** A string or primitive. */
  lemma TokenStep(js: seq<char>, st: Snapshot, ev: seq<Bracket>, t: Token, next: nat)
    requires Inv(js, st, ev) && !Container(t.kind) && st.pos <= t.start <= t.end <= next && t.start < next
    ensures Inv(js, Snapshot(next, Grow(st.toks + [t], st.super), st.super), ev + [])
  {
    hide Reduce, OpenKinds, Pending, Encloses;
    TokenLayout(st.toks, st.super, t, st.pos, next);
    hide Layout;
    Quiet(js, st, ev, Snapshot(next, Grow(st.toks + [t], st.super), st.super));
  }

  /** Punctuation between tokens. */
  lemma PunctuationStep(js: seq<char>, st: Snapshot, ev: seq<Bracket>, super: int, next: nat)
    requires Inv(js, st, ev) && -1 <= super < |st.toks| && st.pos <= next
    ensures Inv(js, Snapshot(next, st.toks, super), ev + [])
  {
    hide Reduce, OpenKinds, Pending, Encloses;
    LayoutLater(st.toks, st.pos, next);
    hide Layout;
    Quiet(js, st, ev, Snapshot(next, st.toks, super));
  }

  /** Every step keeps the invariant. */
  lemma StepKeeps(js: seq<char>, st: Snapshot, ev: seq<Bracket>, cap: nat)
    requires Usable(st) && Inv(js, st, ev) && !AtEnd(js, st.pos) && Step(js, st, cap).Next?
    ensures Inv(js, Step(js, st, cap).state, ev + BracketOf(Lex(js, st.pos).lexeme, st.pos))
  {
    hide Inv, Grow, StringEnd, PrimitiveEnd;
    var x := Lex(js, st.pos);
    match x.lexeme {
      case Open(k) => OpenStep(js, st, ev, k, cap);
      case Close(k) => CloseStep(js, st, ev, k, cap);
      case Text(a, b) => TokenStep(js, st, ev, Token(String, a, b, 0), x.next);
      case Word(a, b) => TokenStep(js, st, ev, Token(Primitive, a, b, 0), x.next);
      case _ => PunctuationStep(js, st, ev, Step(js, st, cap).state.super, x.next);
    }
  }

  lemma Quiet(js: seq<char>, st: Snapshot, ev: seq<Bracket>, st': Snapshot)
    requires Inv(js, st, ev) && Usable(st') && st.pos <= st'.pos && Layout(st'.toks, st'.pos)
    requires |st.toks| <= |st'.toks|
    requires forall i :: 0 <= i < |st.toks| ==>
      (st.toks[i].kind, st.toks[i].start, st.toks[i].end) == (st'.toks[i].kind, st'.toks[i].start, st'.toks[i].end)
    requires forall i :: |st.toks| <= i < |st'.toks| ==> !IsOpen(st'.toks[i]) && !Container(st'.toks[i].kind)
    ensures Inv(js, st', ev + [])
  {
    QuietStep(js, st, ev, st');
    assert ev + [] == ev;
  }

  lemma {:induction false} RunKeeps(js: seq<char>, st: Snapshot, ev: seq<Bracket>, cap: nat)
    requires Usable(st) && Inv(js, st, ev) && Parse(js, st, cap).0.Count?
    ensures Inv(js, Parse(js, st, cap).1, ev + Brackets(js, st.pos))
    ensures AtEnd(js, Parse(js, st, cap).1.pos)
    decreases |js| - st.pos
  {
    hide Inv;
    if AtEnd(js, st.pos) {
      assert ev + Brackets(js, st.pos) == ev;
    } else {
      StepKeeps(js, st, ev, cap);
      var x, st' := Lex(js, st.pos), Step(js, st, cap).state;
      var e := BracketOf(x.lexeme, st.pos);
      assert ev + (e + Brackets(js, x.next)) == ev + e + Brackets(js, x.next);
      RunKeeps(js, st', ev + e, cap);
    }
  }

  /**
   After a successful parse: the brackets outside strings and primitives balance by kind, no token is
   open, starts increase, any two tokens are nested or disjoint, and each container spans from its
   opening bracket to just past the matching closing one.
   */
  lemma Structure(js: seq<char>, cap: nat)
    requires Parse(js, START, cap).0.Count?
    ensures var toks := Parse(js, START, cap).1.toks;
      var ev := Brackets(js, 0);
      && Balanced(ev, -1, |js|)
      && (forall i :: 0 <= i < |toks| ==> 0 <= toks[i].start <= toks[i].end <= |js|)
      && (forall i, j :: 0 <= i < j < |toks| ==>
            toks[i].start < toks[j].start && (toks[i].end <= toks[j].start || toks[j].end <= toks[i].end))
      && (forall i :: 0 <= i < |toks| && Container(toks[i].kind) ==> Encloses(js, ev, toks[i]))
  {
    hide Parse, Brackets;
    assert Inv(js, START, []);
    RunKeeps(js, START, [], cap);
    var st, ev := Parse(js, START, cap).1, Brackets(js, 0);
    assert [] + ev == ev;
    NothingOpen(js, START, cap);
    NoOpenKinds(st.toks, 0, |st.toks|);
    ReduceWiden(ev, -1, st.pos, |js|);
    forall i, j | 0 <= i < j < |st.toks|
      ensures st.toks[i].start < st.toks[j].start &&
          (st.toks[i].end <= st.toks[j].start || st.toks[j].end <= st.toks[i].end)
    {
      assert Apart(st.toks[i], st.toks[j]);
    }
  }

  lemma {:induction false} NothingOpen(js: seq<char>, st: Snapshot, cap: nat)
    requires Usable(st) && st.pos <= |js| && Parse(js, st, cap).0.Count?
    ensures var r := Parse(js, st, cap).1; r.pos <= |js| && forall i :: 0 <= i < |r.toks| ==> !IsOpen(r.toks[i])
    decreases |js| - st.pos
  {
    if !AtEnd(js, st.pos) {
      NothingOpen(js, Step(js, st, cap).state, cap);
    }
  }

  // ----- when a parse succeeds

  lemma {:induction false} FailurePersists(ev: seq<Bracket>, more: seq<Bracket>, a: int, b: int)
    requires Reduce(ev, a, b).None?
    ensures Reduce(ev + more, a, b).None?
  {
    if more == [] {
      assert ev + more == ev;
    } else {
      var n := |more| - 1;
      FailurePersists(ev, more[..n], a, b);
      assert (ev + more)[..|ev| + n] == ev + more[..n];
    }
  }

  lemma TopIsOpen(toks: seq<Token>, n: nat)
    requires n <= |toks| && LastOpen(toks, n) != -1
    ensures OpenKinds(toks, 0, n) != [] &&
        OpenKinds(toks, 0, n)[|OpenKinds(toks, 0, n)| - 1] == toks[LastOpen(toks, n)].kind
  {
    var t := LastOpen(toks, n);
    ClosePops(toks, t, toks[t].(end := 0), 0, n);
  }

  /** A closing bracket is refused only when the brackets do not match. */
  lemma RefusalMeansMismatch(js: seq<char>, st: Snapshot, ev: seq<Bracket>, k: Enclosing, cap: nat)
    requires Inv(js, st, ev) && st.pos < |js| && Accept(st, Close(k), st.pos + 1, cap).Stop?
    ensures Reduce(ev + [Bracket(k, false, st.pos)], -1, |js|).None?
  {
    hide Pending, Encloses, Layout;
    var e, n := Bracket(k, false, st.pos), |st.toks|;
    ReduceWiden(ev, -1, st.pos, |js|);
    ReduceAppend(ev, e, -1, |js|);
    if LastOpen(st.toks, n) == -1 {
      NoOpenKinds(st.toks, 0, n);
    } else {
      TopIsOpen(st.toks, n);
    }
  }

  lemma {:induction false} BalancedSucceeds(js: seq<char>, st: Snapshot, ev: seq<Bracket>, cap: nat)
    requires Usable(st) && Inv(js, st, ev) && st.pos <= |js| && Balanced(ev + Brackets(js, st.pos), -1, |js|)
    requires var c := CountFrom(js, st.pos, |st.toks|); c.Count? && c.n <= cap
    ensures Parse(js, st, cap).0.Count?
    decreases |js| - st.pos
  {
    if AtEnd(js, st.pos) {
      assert ev + Brackets(js, st.pos) == ev;
      EndSucceeds(js, st, ev);
    } else {
      hide Inv, Accept, Reduce, Lex;
      var x := Lex(js, st.pos);
      var e := BracketOf(x.lexeme, st.pos);
      assert ev + (e + Brackets(js, x.next)) == ev + e + Brackets(js, x.next);
      CountedIsEnough(js, st, cap);
      if Step(js, st, cap).Stop? {
        OnlyCloseRefuses(st, x.lexeme, x.next, cap);
        RefusalMeansMismatch(js, st, ev, x.lexeme.kind, cap);
        FailurePersists(ev + e, Brackets(js, x.next), -1, |js|);
      } else {
        StepKeeps(js, st, ev, cap);
        BalancedSucceeds(js, Step(js, st, cap).state, ev + e, cap);
      }
    }
  }

  lemma OnlyCloseRefuses(st: Snapshot, x: Lexeme, next: nat, cap: nat)
    requires Usable(st) && Accept(st, x, next, cap).Stop?
    ensures x.Close? || Accept(st, x, next, cap) == Stop(NoMem)
  {
  }

  lemma EndSucceeds(js: seq<char>, st: Snapshot, ev: seq<Bracket>)
    requires Inv(js, st, ev) && st.pos <= |js| && Balanced(ev, -1, |js|)
    ensures LastOpen(st.toks, |st.toks|) == -1
  {
    ReduceWiden(ev, -1, st.pos, |js|);
    if LastOpen(st.toks, |st.toks|) != -1 {
      TopIsOpen(st.toks, |st.toks|);
    }
  }

  /**
   With room for the tokens counted, a text whose strings and primitives are well formed parses
   exactly when its brackets balance by kind.
   */
  lemma SucceedsIffBalanced(js: seq<char>, cap: nat)
    requires var c := CountFrom(js, 0, 0); c.Count? && c.n <= cap
    ensures Parse(js, START, cap).0.Count? <==> Balanced(Brackets(js, 0), -1, |js|)
  {
    hide Parse, Brackets, CountFrom;
    if Parse(js, START, cap).0.Count? {
      Structure(js, cap);
    }
    if Balanced(Brackets(js, 0), -1, |js|) {
      assert Inv(js, START, []);
      assert [] + Brackets(js, 0) == Brackets(js, 0);
      BalancedSucceeds(js, START, [], cap);
    }
  }

  // ----- brackets inside primitives

  /** Opening brackets among the characters of a primitive; closing ones would have ended it. */
  function Swallowed(js: seq<char>, a: nat, b: nat): (s: seq<Bracket>)
    requires b <= |js|
    ensures forall k :: 0 <= k < |s| ==> s[k].open && s[k].at < |js|
  {
    if b <= a then [] else Swallowed(js, a, b - 1) + OpeningAt(js[b - 1], b - 1)
  }

  function OpeningAt(c: char, p: nat): (s: seq<Bracket>)
    ensures forall k :: 0 <= k < |s| ==> s[k].open && s[k].at == p
    ensures |s| == 0 <==> !Opening(c)
  {
    if c == '{' then [Bracket(Object, true, p)] else if c == '[' then [Bracket(Array, true, p)] else []
  }

  /** All brackets outside strings, those inside primitives included. */
  function RawBrackets(js: seq<char>, p: nat): seq<Bracket>
    decreases |js| - p
  {
    if AtEnd(js, p) then []
    else match Lex(js, p)
      case Fail(_) => []
      case Item(Word(a, b), next) => Swallowed(js, a, b) + RawBrackets(js, next)
      case Item(x, next) => BracketOf(x, p) + RawBrackets(js, next)
  }

  predicate Opening(c: char) {
    c == '{' || c == '['
  }

  predicate NoOpening(js: seq<char>, a: nat, b: nat)
    requires b <= |js|
  {
    forall k :: a <= k < b ==> !Opening(js[k])
  }

  /** No primitive contains an opening bracket. */
  predicate PlainWords(js: seq<char>, p: nat)
    decreases |js| - p
  {
    if AtEnd(js, p) then true
    else match Lex(js, p)
      case Fail(_) => true
      case Item(Word(a, b), next) => NoOpening(js, a, b) && PlainWords(js, next)
      case Item(_, next) => PlainWords(js, next)
  }

  /** Opening brackets less closing ones. */
  function Net(ev: seq<Bracket>): int {
    if ev == [] then 0 else Net(ev[..|ev| - 1]) + if ev[|ev| - 1].open then 1 else -1
  }

  lemma {:induction false} NetConcat(a: seq<Bracket>, b: seq<Bracket>)
    ensures Net(a + b) == Net(a) + Net(b)
  {
    if b == [] {
      assert a + b == a;
    } else {
      NetConcat(a, b[..|b| - 1]);
      assert (a + b)[..|a + b| - 1] == a + b[..|b| - 1];
    }
  }

  lemma {:induction false} DepthIsNet(ev: seq<Bracket>, n: int)
    requires forall k :: 0 <= k < |ev| ==> ev[k].at < n
    ensures Reduce(ev, -1, n).Some? ==> |Reduce(ev, -1, n).value| == Net(ev)
  {
    if ev != [] {
      DepthIsNet(ev[..|ev| - 1], n);
    }
  }

  /** Only opening brackets: their number. */
  lemma {:induction false} NetOfOpening(s: seq<Bracket>)
    requires forall k :: 0 <= k < |s| ==> s[k].open
    ensures Net(s) == |s|
  {
    if s != [] {
      NetOfOpening(s[..|s| - 1]);
    }
  }

  /** Nothing is swallowed exactly where there is no opening bracket. */
  lemma {:induction false} SwallowedNone(js: seq<char>, a: nat, b: nat)
    requires a <= b <= |js|
    ensures |Swallowed(js, a, b)| == 0 <==> NoOpening(js, a, b)
  {
    hide OpeningAt, Opening;
    if b > a {
      SwallowedNone(js, a, b - 1);
    }
  }

  lemma {:induction false} InText(js: seq<char>, p: nat)
    requires p <= |js|
    ensures forall k :: 0 <= k < |RawBrackets(js, p)| ==> RawBrackets(js, p)[k].at < |js|
    ensures forall k :: 0 <= k < |Brackets(js, p)| ==> Brackets(js, p)[k].at < |js|
    decreases |js| - p
  {
    hide StringEnd, PrimitiveEnd, Swallowed;
    if !AtEnd(js, p) && Lex(js, p).Item? {
      var x := Lex(js, p);
      InText(js, x.next);
    }
  }

  /** Brackets inside primitives only add opening ones. */
  lemma {:induction false} RawNet(js: seq<char>, p: nat)
    requires p <= |js|
    ensures Net(RawBrackets(js, p)) >= Net(Brackets(js, p))
    ensures Net(RawBrackets(js, p)) == Net(Brackets(js, p)) <==> PlainWords(js, p)
    ensures PlainWords(js, p) ==> RawBrackets(js, p) == Brackets(js, p)
    decreases |js| - p
  {
    hide Net, StringEnd, PrimitiveEnd, Swallowed;
    if !AtEnd(js, p) && Lex(js, p).Item? {
      var x := Lex(js, p);
      RawNet(js, x.next);
      NetConcat(BracketOf(x.lexeme, p), Brackets(js, x.next));
      if x.lexeme.Word? {
        var a, b := x.lexeme.start, x.lexeme.end;
        NetOfOpening(Swallowed(js, a, b));
        SwallowedNone(js, a, b);
        NetConcat(Swallowed(js, a, b), RawBrackets(js, x.next));
        assert [] + Brackets(js, x.next) == Brackets(js, x.next);
      } else {
        NetConcat(BracketOf(x.lexeme, p), RawBrackets(js, x.next));
      }
    }
  }

  /**
   A primitive may swallow opening brackets, so that a successful parse does not mean that all
   brackets outside strings balance: they do exactly when no primitive contains one.
   */
  lemma RawBalancedIffPlain(js: seq<char>, cap: nat)
    requires Parse(js, START, cap).0.Count?
    ensures Balanced(RawBrackets(js, 0), -1, |js|) <==> PlainWords(js, 0)
  {
    hide Parse, Brackets, RawBrackets, PlainWords, Reduce, Net;
    Structure(js, cap);
    RawNet(js, 0);
    InText(js, 0);
    DepthIsNet(Brackets(js, 0), |js|);
    DepthIsNet(RawBrackets(js, 0), |js|);
  }

  /** For example, this text parses as an array of one primitive. */
  lemma SwallowedBracket()
    ensures Parse("[a[]", START, 2).0 == Count(2) && !PlainWords("[a[]", 0)
    ensures !Balanced(RawBrackets("[a[]", 0), -1, 4)
  {
    var js := "[a[]";
    assert PrimitiveEnd(js, 3) == Found(3);
    assert PrimitiveEnd(js, 2) == Found(3);
    assert Lex(js, 1) == Item(Word(1, 3), 3);
    var s1 := Step(js, START, 2).state;
    var s2 := Step(js, s1, 2).state;
    var s3 := Step(js, s2, 2).state;
    assert s1 == Snapshot(1, [Token(Array, 0, -1, 0)], 0);
    assert s2 == Snapshot(3, [Token(Array, 0, -1, 1), Token(Primitive, 1, 3, 0)], 0);
    assert LastOpen(s2.toks, 2) == 0;
    assert s3 == Snapshot(4, [Token(Array, 0, 4, 1), Token(Primitive, 1, 3, 0)], -1);
    assert Parse(js, s3, 2).0 == Count(2);
    assert js[2] == '[';
    assert !PlainWords(js, 1);
    RawBalancedIffPlain(js, 2);
  }
}
