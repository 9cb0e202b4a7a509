/**
 What the scans accept, exactly, and that a document that is cut short is reported as partial, so that
 the caller can wait for more.
 */
module JsonPartial {
  import opened Basics
  import opened JsonLexer
  import opened JsonParser
  import opened JsonDocument

  // ----- what is a string, and what is a primitive

  /** The digits after \u, of which at most four are wanted. */
  lemma {:induction false} HexEndExact(js: seq<char>, p: nat, k: nat)
    requires p <= |js| && k <= 4
    ensures HexEnd(js, p, k).Found? ==> HexEnd(js, p, k).at <= |js|
    ensures HexEnd(js, p, k).Found? && HexEnd(js, p, k).at < p + k ==> AtEnd(js, HexEnd(js, p, k).at)
    ensures HexEnd(js, p, k) == Found(p + k) ==> p + k <= |js| && forall i :: p <= i < p + k ==> HexDigit(js[i])
    ensures p + k <= |js| && (forall i :: p <= i < p + k ==> HexDigit(js[i])) ==> HexEnd(js, p, k) == Found(p + k)
    decreases k
  {
    if k > 0 && !AtEnd(js, p) && Hex(js[p]) {
      HexEndExact(js, p + 1, k - 1);
    }
  }

  lemma NothingAtEnd(js: seq<char>, p: nat)
    requires AtEnd(js, p)
    ensures StringEnd(js, p) == Bad(Part)
  {
  }

  /**
   A string that starts at `p` ends at `e` exactly if a quote is there and what is between are characters
   of a string.
   */
  lemma {:induction false} StringEndExact(js: seq<char>, p: nat, e: nat)
    requires p <= e < |js|
    ensures StringEnd(js, p) == Found(e) <==> js[e] == '"' && StringChars(js[p..e])
    decreases |js| - p, 2
  {
    if p < e && js[p] != '"' && js[p] != '\0' {
      var body := js[p..e];
      if js[p] == '\\' {
        EscapeExact(js, p, e);
      } else {
        assert body[1..] == js[p + 1..e];
        StringEndExact(js, p + 1, e);
      }
    }
  }

  lemma {:induction false} EscapeExact(js: seq<char>, p: nat, e: nat)
    requires p < e < |js| && js[p] == '\\'
    ensures StringEnd(js, p) == Found(e) <==> js[e] == '"' && StringChars(js[p..e])
    decreases |js| - p, 1
  {
    var body := js[p..e];
    if SimpleEscape(js[p + 1]) {
      if p + 2 <= e {
        assert body[2..] == js[p + 2..e];
        StringEndExact(js, p + 2, e);
      }
    } else if js[p + 1] == 'u' {
      CodeExact(js, p, e);
    }
  }

  lemma {:induction false} CodeExact(js: seq<char>, p: nat, e: nat)
    requires p + 1 < |js| && p < e < |js| && js[p] == '\\' && js[p + 1] == 'u'
    ensures StringEnd(js, p) == Found(e) <==> js[e] == '"' && StringChars(js[p..e])
    decreases |js| - p, 0
  {
    var body, h := js[p..e], HexEnd(js, p + 2, 4);
    HexEndExact(js, p + 2, 4);
    if h.Found? {
      if AtEnd(js, h.at) {
        NothingAtEnd(js, h.at);
      }
      if p + 6 <= e {
        assert body[6..] == js[p + 6..e];
        StringEndExact(js, p + 6, e);
      }
    }
  }

  predicate WordChar(c: char) {
    ' ' < c <= '~' && c != ',' && c != ':' && c != ']' && c != '}'
  }

  /** Where a primitive can end. */
  predicate WordEnd(js: seq<char>, e: nat) {
    e >= |js| || js[e] in {'\0', ' ', '\t', '\r', '\n', ',', ':', ']', '}'}
  }

  /** A primitive that starts at `p` ends at `e` exactly if its characters are and such a place follows. */
  lemma {:induction false} PrimitiveEndExact(js: seq<char>, p: nat, e: nat)
    requires p <= e <= |js|
    ensures PrimitiveEnd(js, p) == Found(e) <==> WordEnd(js, e) && forall k :: p <= k < e ==> WordChar(js[k])
    decreases |js| - p
  {
    if p < e && !AtEnd(js, p) && !Delimiter(js[p]) && Printable(js[p]) {
      PrimitiveEndExact(js, p + 1, e);
    }
  }

  // ----- the beginning of a text

  lemma {:induction false} HexCut(js: seq<char>, n: nat, p: nat, k: nat)
    requires p <= n <= |js| && k <= 4 && HexEnd(js, p, k).Found?
    ensures var e := HexEnd(js, p, k).at; HexEnd(js[..n], p, k) == Found(if e <= n then e else n)
    decreases k
  {
    if k > 0 && !AtEnd(js, p) && p < n {
      HexCut(js, n, p + 1, k - 1);
    }
  }

  /** A string that is cut before its closing quote is incomplete; before that nothing changes. */
  lemma {:induction false} StringCut(js: seq<char>, n: nat, p: nat)
    requires p <= n <= |js| && StringEnd(js, p).Found?
    ensures StringEnd(js[..n], p) == if StringEnd(js, p).at < n then StringEnd(js, p) else Bad(Part)
    decreases |js| - p
  {
    if p < n && js[p] != '"' {
      if js[p] == '\\' && js[p + 1] == 'u' {
        var h := HexEnd(js, p + 2, 4);
        if p + 2 <= n {
          HexCut(js, n, p + 2, 4);
          if h.at <= n {
            StringCut(js, n, h.at);
          }
        }
      } else {
        var next := if js[p] == '\\' then p + 2 else p + 1;
        if next <= n {
          StringCut(js, n, next);
        }
      }
    }
  }

  lemma {:induction false} PrimitiveCut(js: seq<char>, n: nat, p: nat)
    requires p <= n <= |js| && PrimitiveEnd(js, p).Found?
    ensures PrimitiveEnd(js[..n], p) == Found(Min(PrimitiveEnd(js, p).at, n))
    decreases |js| - p
  {
    if p < n && !AtEnd(js, p) && !Delimiter(js[p]) {
      PrimitiveCut(js, n, p + 1);
    }
  }

  /** What stands at `p` in a text that is cut at `n`. */
  lemma LexCut(js: seq<char>, n: nat, p: nat)
    requires p < n <= |js| && !AtEnd(js, p) && Lex(js, p).Item?
    ensures !AtEnd(js[..n], p)
    ensures var x := Lex(js, p);
      if x.next <= n then
        Lex(js[..n], p) == x
      else if x.lexeme.Word? then
        Lex(js[..n], p) == Item(Word(p, n), n)
      else
        Lex(js[..n], p) == Fail(Part)
  {
    hide StringEnd, PrimitiveEnd;
    assert js[..n][p] == js[p];
    var c := js[p];
    if c == '"' {
      StringCut(js, n, p + 1);
    } else if c != '{' && c != '[' && !Delimiter(c) {
      PrimitiveCut(js, n, p);
    }
  }

  // ----- documents that are cut short

  /** The first token of the end state of a parse. */
  function First(js: seq<char>, st: Snapshot, cap: nat): Token
    requires Usable(st)
  {
    var toks := Parse(js, st, cap).1.toks;
    if toks == [] then Token(Undefined, -1, -1, 0) else toks[0]
  }

  lemma StepNext(js: seq<char>, st: Snapshot, cap: nat)
    requires Usable(st) && Parse(js, st, cap).0.Count? && !AtEnd(js, st.pos)
    ensures Lex(js, st.pos).Item? && Step(js, st, cap).Next?
    ensures Parse(js, st, cap) == Parse(js, Step(js, st, cap).state, cap)
  {
  }

  /** A token that is closed stays as it is, but for its size. */
  lemma {:induction false} ClosedStays(js: seq<char>, st: Snapshot, cap: nat)
    requires Usable(st) && Parse(js, st, cap).0.Count? && st.toks != [] && !IsOpen(st.toks[0])
    ensures var f := First(js, st, cap); (f.kind, f.start, f.end) == (st.toks[0].kind, st.toks[0].start, st.toks[0].end)
    decreases |js| - st.pos
  {
    if !AtEnd(js, st.pos) {
      StepNext(js, st, cap);
      hide Parse, Lex;
      ClosedStays(js, Step(js, st, cap).state, cap);
    }
  }

  /** The first token is made at the position of its first character, or later. */
  lemma {:induction false} FirstIsAhead(js: seq<char>, st: Snapshot, cap: nat)
    requires Usable(st) && Parse(js, st, cap).0.Count? && st.toks == [] && Container(First(js, st, cap).kind)
    ensures st.pos <= First(js, st, cap).start && !AtEnd(js, st.pos)
    decreases |js| - st.pos
  {
    if !AtEnd(js, st.pos) {
      StepNext(js, st, cap);
      var next := Step(js, st, cap).state;
      hide Parse;
      if next.toks == [] {
        FirstIsAhead(js, next, cap);
      } else {
        FirstMade(js, st, cap);
      }
    }
  }

  /** A first token that is a container is made open, where the bracket is. */
  lemma FirstMade(js: seq<char>, st: Snapshot, cap: nat)
    requires Usable(st) && Parse(js, st, cap).0.Count? && st.toks == [] && Container(First(js, st, cap).kind)
    requires !AtEnd(js, st.pos) && Step(js, st, cap).Next? && Step(js, st, cap).state.toks != []
    ensures Lex(js, st.pos).Item? && Lex(js, st.pos).lexeme.Open? && IsOpen(Step(js, st, cap).state.toks[0])
    ensures First(js, st, cap).start == st.pos
  {
    StepNext(js, st, cap);
    var next := Step(js, st, cap).state;
    if IsOpen(next.toks[0]) {
      StartStays(js, next, cap);
    } else {
      ClosedStays(js, next, cap);
    }
  }

  lemma {:induction false} StartStays(js: seq<char>, st: Snapshot, cap: nat)
    requires Usable(st) && Parse(js, st, cap).0.Count? && st.toks != []
    ensures First(js, st, cap).start == st.toks[0].start
    decreases |js| - st.pos
  {
    if !AtEnd(js, st.pos) {
      StepNext(js, st, cap);
      hide Parse, Lex;
      StartStays(js, Step(js, st, cap).state, cap);
    }
  }

  /** The container is open, or its bracket is ahead and not cut off. */
  predicate Within(st: Snapshot, first: Token, n: nat) {
    first.end > n && (if st.toks == [] then st.pos <= first.start < n else st.pos <= n && IsOpen(st.toks[0]))
  }

  lemma {:induction false} CutFails(js: seq<char>, st: Snapshot, cap: nat, n: nat)
    requires Usable(st) && n <= |js| && Parse(js, st, cap).0.Count? && Container(First(js, st, cap).kind)
    requires Within(st, First(js, st, cap), n)
    ensures Parse(js[..n], st, cap).0 == Failed(Part)
    decreases |js| - st.pos
  {
    if st.pos < n {
      NotYetAtEnd(js, st, cap);
      StepNext(js, st, cap);
      LexCut(js, n, st.pos);
      var x, next := Lex(js, st.pos), Step(js, st, cap).state;
      if x.next <= n {
        assert Step(js[..n], st, cap) == Next(next);
        StaysWithin(js, st, cap, n);
        CutFails(js, next, cap, n);
      } else if x.lexeme.Word? {
        CutWord(js, st, cap, n);
      }
    } else {
      assert AtEnd(js[..n], n);
    }
  }

  lemma NotYetAtEnd(js: seq<char>, st: Snapshot, cap: nat)
    requires Usable(st) && Parse(js, st, cap).0.Count? && Container(First(js, st, cap).kind)
    requires st.toks != [] ==> IsOpen(st.toks[0])
    ensures !AtEnd(js, st.pos)
  {
    if st.toks == [] {
      FirstIsAhead(js, st, cap);
    }
  }

  lemma StaysWithin(js: seq<char>, st: Snapshot, cap: nat, n: nat)
    requires Usable(st) && n <= |js| && Parse(js, st, cap).0.Count? && Container(First(js, st, cap).kind)
    requires Within(st, First(js, st, cap), n) && st.pos < n && !AtEnd(js, st.pos)
    requires Step(js, st, cap).Next? && Lex(js, st.pos).Item? && Lex(js, st.pos).next <= n
    ensures Within(Step(js, st, cap).state, First(js, st, cap), n)
  {
    StepNext(js, st, cap);
    var next := Step(js, st, cap).state;
    if next.toks == [] {
      FirstIsAhead(js, next, cap);
    } else if st.toks == [] {
      FirstMade(js, st, cap);
    } else if !IsOpen(next.toks[0]) {
      ClosedStays(js, next, cap);
    }
  }

  /** A primitive that is cut off becomes a shorter one, and the container stays open. */
  lemma CutWord(js: seq<char>, st: Snapshot, cap: nat, n: nat)
    requires Usable(st) && n <= |js| && Parse(js, st, cap).0.Count? && Container(First(js, st, cap).kind)
    requires Within(st, First(js, st, cap), n) && st.pos < n && !AtEnd(js, st.pos)
    requires Lex(js, st.pos).Item? && Lex(js, st.pos).lexeme.Word? && !AtEnd(js[..n], st.pos)
    requires Lex(js[..n], st.pos) == Item(Word(st.pos, n), n)
    ensures Parse(js[..n], st, cap).0 == Failed(Part)
  {
    StepNext(js, st, cap);
    if st.toks == [] {
      FirstMade(js, st, cap);
    } else {
      var next := Step(js[..n], st, cap).state;
      assert IsOpen(next.toks[0]);
      assert AtEnd(js[..n], next.pos);
      assert LastOpen(next.toks, |next.toks|) >= 0;
    }
  }

  /**
   A text that is cut anywhere inside its first container is reported as partial, whatever the cut goes
   through: never as invalid, and never as complete.
   */
  lemma CutIsPartial(js: seq<char>, cap: nat, n: nat)
    requires n <= |js| && Parse(js, START, cap).0.Count?
    requires var f := First(js, START, cap); Container(f.kind) && f.start < n < f.end
    ensures Parse(js[..n], START, cap).0 == Failed(Part)
  {
    hide Parse;
    FirstIsAhead(js, START, cap);
    CutFails(js, START, cap, n);
  }
}
