/**
 From a list of codes to the tree that mkhufftbl.py makes of it, and back: what is encoded with the
 codes is what the table decodes.
 */
module CodeList {
  import opened Basics
  import opened BitStrings
  import opened HuffmanTree
  import opened NibbleTable
  import opened TableGenerator

  /** The tree after all codes are added. */
  function Build(codes: seq<Code>): (t: Tree)
    ensures t.Node?
  {
    if codes == [] then HuffmanTree.Node(None, Absent, Absent)
    else Insert(Build(codes[..|codes| - 1]), codes[|codes| - 1].symbol, codes[|codes| - 1].word)
  }

  /** Every string that is no shorter than any code begins with a code. */
  ghost predicate Complete(codes: seq<Code>) {
    forall s: seq<bool> :: Longest(codes) <= |s| ==> Begins(codes, s)
  }

  function Longest(codes: seq<Code>): (n: nat)
    ensures forall i :: 0 <= i < |codes| ==> |codes[i].word| <= n
  {
    if codes == [] then 0
    else
      var n, m := Longest(codes[..|codes| - 1]), |codes[|codes| - 1].word|;
      if m > n then m else n
  }

  /** Some code begins the string. */
  ghost predicate Begins(codes: seq<Code>, s: seq<bool>) {
    exists i :: 0 <= i < |codes| && codes[i].word <= s
  }

  /** The string begins some code. */
  ghost predicate IsPrefix(codes: seq<Code>, p: seq<bool>) {
    exists i :: 0 <= i < |codes| && p <= codes[i].word
  }

  ghost predicate IsCode(codes: seq<Code>, p: seq<bool>) {
    exists i :: 0 <= i < |codes| && codes[i].word == p
  }

  // ----- the nodes of the tree

  lemma {:induction false} InsertNode(t: Tree, sym: nat, bits: seq<bool>, q: seq<bool>)
    ensures At(Insert(t, sym, bits), q).Node? <==> q <= bits || At(t, q).Node?
    decreases |bits|
  {
    var n := if t.Absent? then HuffmanTree.Node(None, Absent, Absent) else t;
    if q != [] {
      AbsentBelow(q[1..]);
      AbsentBelow(q);
      assert At(n, q).Node? <==> At(t, q).Node?;
      if bits != [] {
        assert q == [q[0]] + q[1..] && bits == [bits[0]] + bits[1..];
        if q[0] == bits[0] {
          InsertNode(Child(n, q[0]), sym, bits[1..], q[1..]);
          assert q <= bits <==> q[1..] <= bits[1..];
        }
      }
    }
  }

  /** The nodes are the beginnings of codes. */
  lemma {:induction false} NodesArePrefixes(codes: seq<Code>, p: seq<bool>)
    ensures At(Build(codes), p).Node? <==> p == [] || IsPrefix(codes, p)
  {
    if codes == [] {
      if p != [] {
        AbsentBelow(p[1..]);
      }
    } else {
      var front, last := codes[..|codes| - 1], codes[|codes| - 1];
      NodesArePrefixes(front, p);
      InsertNode(Build(front), last.symbol, last.word, p);
      PrefixSplit(codes, p);
    }
  }

  lemma PrefixSplit(codes: seq<Code>, p: seq<bool>)
    requires codes != []
    ensures IsPrefix(codes, p) <==> IsPrefix(codes[..|codes| - 1], p) || p <= codes[|codes| - 1].word
  {
    var front := codes[..|codes| - 1];
    if IsPrefix(front, p) {
      var i :| 0 <= i < |front| && p <= front[i].word;
      assert p <= codes[i].word;
    }
    if IsPrefix(codes, p) && !(p <= codes[|codes| - 1].word) {
      var i :| 0 <= i < |codes| && p <= codes[i].word;
      assert p <= front[i].word;
    }
  }

  /** The symbols stand at the codes. */
  lemma {:induction false} TermsAreCodes(codes: seq<Code>, p: seq<bool>)
    requires PrefixFree(codes)
    ensures TermAt(Build(codes), p).Some? <==> IsCode(codes, p)
    ensures forall i :: 0 <= i < |codes| && codes[i].word == p ==> TermAt(Build(codes), p) == Some(codes[i].symbol)
  {
    if codes == [] {
      if p != [] {
        AbsentBelow(p[1..]);
      }
    } else {
      var n := |codes| - 1;
      var front, last := codes[..n], codes[n];
      TermsAreCodes(front, p);
      InsertTerm(Build(front), last.symbol, last.word, p);
      assert last.word == p ==> IsCode(codes, p);
      if IsCode(front, p) {
        var i :| 0 <= i < |front| && front[i].word == p;
        assert codes[i].word == p;
      }
      if IsCode(codes, p) && last.word != p {
        var i :| 0 <= i < |codes| && codes[i].word == p;
        assert front[i].word == p;
      }
    }
  }

  // ----- the tree is full

  /** A code that begins the beginning of a code is that code. */
  lemma ShortMeansCode(codes: seq<Code>, p: seq<bool>, i: nat, j: nat)
    requires PrefixFree(codes) && i < |codes| && j < |codes| && p <= codes[j].word
    ensures codes[i].word <= p ==> IsCode(codes, p)
  {
    if codes[i].word <= p {
      assert codes[i].word == codes[j].word[..|codes[i].word|];
      assert codes[i].word <= codes[j].word;
    }
  }

  /** An inner node has both children: completeness leaves no way out, prefix-freeness no other. */
  lemma BothChildren(codes: seq<Code>, p: seq<bool>, bit: bool)
    requires PrefixFree(codes) && Complete(codes) && codes != []
    requires (p == [] || IsPrefix(codes, p)) && !IsCode(codes, p)
    ensures IsPrefix(codes, p + [bit]) && |p| < Longest(codes)
  {
    var s := p + [bit] + seq(Longest(codes), _ => false);
    assert Begins(codes, s);
    hide Complete, Longest;
    var i :| 0 <= i < |codes| && codes[i].word <= s;
    assert p == [] ==> p <= codes[0].word;
    assert IsPrefix(codes, p);
    var j :| 0 <= j < |codes| && p <= codes[j].word;
    ShortMeansCode(codes, p, i, j);
    PrefixesCompare(codes[i].word, p, bit, s);
    assert p + [bit] <= codes[i].word;
  }

  lemma PrefixesCompare(c: seq<bool>, p: seq<bool>, bit: bool, s: seq<bool>)
    requires c <= s && p + [bit] <= s
    ensures c <= p || p + [bit] <= c
  {
    if |c| <= |p| {
      assert c == s[..|c|] == (p + [bit])[..|c|] == p[..|c|];
    } else {
      assert p + [bit] == s[..|p| + 1] == c[..|p| + 1];
    }
  }

  lemma {:induction false} FullFrom(codes: seq<Code>, p: seq<bool>)
    requires PrefixFree(codes) && Complete(codes) && codes != [] && (p == [] || IsPrefix(codes, p))
    ensures Full(At(Build(codes), p))
    decreases Longest(codes) + 1 - |p|
  {
    var t := Build(codes);
    NodesArePrefixes(codes, p);
    TermsAreCodes(codes, p);
    AtNext(t, p, false);
    AtNext(t, p, true);
    if IsCode(codes, p) {
      NothingBelow(codes, p, false);
      NothingBelow(codes, p, true);
    } else {
      BothChildren(codes, p, false);
      BothChildren(codes, p, true);
      FullFrom(codes, p + [false]);
      FullFrom(codes, p + [true]);
    }
  }

  lemma NothingBelow(codes: seq<Code>, p: seq<bool>, bit: bool)
    requires PrefixFree(codes) && IsCode(codes, p)
    ensures At(Build(codes), p + [bit]).Absent?
  {
    var i :| 0 <= i < |codes| && codes[i].word == p;
    forall j | 0 <= j < |codes|
      ensures !(p + [bit] <= codes[j].word)
    {
      Shorter(p, bit, codes[j].word);
    }
    NodesArePrefixes(codes, p + [bit]);
  }

  lemma Shorter(p: seq<bool>, bit: bool, c: seq<bool>)
    ensures p + [bit] <= c ==> p <= c && p != c
  {
    if p + [bit] <= c {
      assert p == (p + [bit])[..|p|] == c[..|p|];
    }
  }

  /** A new path that meets no leaf adds one. */
  lemma {:induction false} LeavesInsert(t: Tree, sym: nat, bits: seq<bool>)
    requires At(t, bits).Absent? && forall q :: q <= bits ==> !IsLeaf(At(t, q))
    ensures Leaves(Insert(t, sym, bits)) == Leaves(t) + 1
    decreases |bits|
  {
    assert At(t, []) == t;
    if bits != [] {
      var n := if t.Absent? then HuffmanTree.Node(None, Absent, Absent) else t;
      var c := Child(n, bits[0]);
      assert [] <= bits;
      forall q | q <= bits[1..]
        ensures !IsLeaf(At(c, q))
      {
        var r := [bits[0]] + q;
        assert r <= bits && r[1..] == q;
        if t.Absent? {
          AbsentBelow(q);
        } else {
          assert !IsLeaf(At(t, r));
        }
      }
      if t.Absent? {
        AbsentBelow(bits[1..]);
      }
      LeavesInsert(c, sym, bits[1..]);
    }
  }

  /** The last code of a list goes where nothing is yet, and past no leaf. */
  lemma NewPath(codes: seq<Code>, q: seq<bool>)
    requires PrefixFree(codes) && codes != [] && codes[|codes| - 1].word != []
    ensures At(Build(codes[..|codes| - 1]), codes[|codes| - 1].word).Absent?
    ensures q <= codes[|codes| - 1].word ==> !IsLeaf(At(Build(codes[..|codes| - 1]), q))
  {
    var n := |codes| - 1;
    var front, last := codes[..n], codes[n];
    assert forall i :: 0 <= i < n ==> front[i] == codes[i];
    NodesArePrefixes(front, last.word);
    TermsAreCodes(front, q);
  }

  lemma {:induction false} LeavesCount(codes: seq<Code>)
    requires PrefixFree(codes) && forall i :: 0 <= i < |codes| ==> codes[i].word != []
    ensures Leaves(Build(codes)) == |codes|
  {
    if codes != [] {
      var n := |codes| - 1;
      var front, last := codes[..n], codes[n];
      LeavesCount(front);
      hide PrefixFree, Leaves, Insert, IsLeaf;
      forall q | q <= last.word
        ensures !IsLeaf(At(Build(front), q))
      {
        NewPath(codes, q);
      }
      NewPath(codes, []);
      LeavesInsert(Build(front), last.symbol, last.word);
    }
  }

  /** A complete, prefix-free list of 257 codes of at least four bits makes a tree the table is right for. */
  lemma ListIsUsable(codes: seq<Code>)
    requires PrefixFree(codes) && Complete(codes) && |codes| == 257
    requires forall i :: 0 <= i < |codes| ==> |codes[i].word| >= 4
    ensures Usable(Build(codes))
  {
    FullFrom(codes, []);
    LeavesCount(codes);
    var t := Build(codes);
    if !CodesAtLeast(t, 4) {
      var s := ShortCode(t, 4);
      TermsAreCodes(codes, s);
    }
  }

  // ----- encoding

  /** The code of a symbol. */
  ghost predicate Stands(codes: seq<Code>, sym: nat, bits: seq<bool>) {
    exists i :: 0 <= i < |codes| && codes[i] == Code(sym, bits)
  }

  /** The bits are the codes of the symbols, one after the other. */
  ghost predicate Encodes(codes: seq<Code>, symbols: seq<nat>, bits: seq<bool>)
    decreases |symbols|
  {
    if symbols == [] then bits == []
    else exists k :: 0 <= k <= |bits| && Stands(codes, symbols[0], bits[..k]) && Encodes(codes, symbols[1..], bits[k..])
  }

  /** The rest of a code, read bit by bit, ends in its symbol. */
  lemma {:induction false} DecodeCode(codes: seq<Code>, i: nat, out: seq<nat>, k: nat)
    requires PrefixFree(codes) && i < |codes| && k < |codes[i].word| && codes[i].symbol != EOS
    ensures DecodeBits(Build(codes), Reading(out, codes[i].word[..k]), codes[i].word[k..]) ==
        Reading(out + [codes[i].symbol], [])
    decreases |codes[i].word| - k
  {
    var t, c := Build(codes), codes[i].word;
    var next, rest := c[..k] + [c[k]], c[k..];
    assert next == c[..k + 1] && rest[0] == c[k] && rest[1..] == c[k + 1..];
    TermsAreCodes(codes, next);
    if k + 1 == |c| {
      assert next == c && rest[1..] == [];
      NodesArePrefixes(codes, c);
    } else {
      NotYetCode(codes, i, k + 1);
      DecodeCode(codes, i, out, k + 1);
    }
  }

  lemma ProperPrefix(a: seq<bool>, b: seq<bool>, k: nat)
    requires k < |b|
    ensures a == b[..k] ==> a <= b && a != b
  {
  }

  lemma NotYetCode(codes: seq<Code>, i: nat, k: nat)
    requires PrefixFree(codes) && i < |codes| && k < |codes[i].word|
    ensures !IsCode(codes, codes[i].word[..k])
  {
    forall j | 0 <= j < |codes|
      ensures codes[j].word != codes[i].word[..k]
    {
      ProperPrefix(codes[j].word, codes[i].word, k);
    }
  }

  lemma DecodeOne(codes: seq<Code>, i: nat, out: seq<nat>, rest: seq<bool>)
    requires PrefixFree(codes) && i < |codes| && codes[i].word != [] && codes[i].symbol != EOS
    ensures DecodeBits(Build(codes), Reading(out, []), codes[i].word + rest) ==
        DecodeBits(Build(codes), Reading(out + [codes[i].symbol], []), rest)
  {
    hide PrefixFree, DecodeBits;
    var c := codes[i].word;
    assert c[..0] == [] && c[0..] == c;
    DecodeCode(codes, i, out, 0);
    DecodeConcat(Build(codes), Reading(out, []), c, rest);
  }

  lemma NoBits(t: Tree, state: Progress)
    ensures DecodeBits(t, state, []) == state
  {
  }

  /** The first symbol of an encoding. */
  lemma FirstCode(codes: seq<Code>, symbols: seq<nat>, bits: seq<bool>) returns (i: nat, rest: seq<bool>)
    requires Encodes(codes, symbols, bits) && symbols != []
    ensures i < |codes| && codes[i].symbol == symbols[0] && bits == codes[i].word + rest &&
        Encodes(codes, symbols[1..], rest)
  {
    var k :| 0 <= k <= |bits| && Stands(codes, symbols[0], bits[..k]) && Encodes(codes, symbols[1..], bits[k..]);
    i :| 0 <= i < |codes| && codes[i] == Code(symbols[0], bits[..k]);
    rest := bits[k..];
  }

  lemma {:induction false} DecodeSymbols(codes: seq<Code>, symbols: seq<nat>, bits: seq<bool>, out: seq<nat>)
    requires PrefixFree(codes) && Encodes(codes, symbols, bits) && EOS !in symbols
    requires forall i :: 0 <= i < |codes| ==> codes[i].word != []
    ensures DecodeBits(Build(codes), Reading(out, []), bits) == Reading(out + symbols, [])
    decreases |symbols|
  {
    hide PrefixFree, Build, DecodeBits, DecodeBit;
    if symbols == [] {
      NoBits(Build(codes), Reading(out, []));
      assert out + symbols == out && bits == [];
    } else {
      hide Encodes;
      var i, rest := FirstCode(codes, symbols, bits);
      DecodeOne(codes, i, out, rest);
      DecodeSymbols(codes, symbols[1..], rest, out + [symbols[0]]);
      assert out + [symbols[0]] + symbols[1..] == out + symbols;
    }
  }

  /** Ones are the beginning of EOS and no code. */
  lemma {:induction false} DecodePad(codes: seq<Code>, e: nat, out: seq<nat>, k: nat, n: nat)
    requires PrefixFree(codes) && e < |codes| && AllOnes(codes[e].word) && k <= n < |codes[e].word|
    ensures DecodeBits(Build(codes), Reading(out, codes[e].word[..k]), codes[e].word[k..n]) ==
        Reading(out, codes[e].word[..n])
    decreases n - k
  {
    if k < n {
      var c := codes[e].word;
      var rest := c[k..n];
      assert rest[0] == c[k] && rest[1..] == c[k + 1..n] && c[..k] + [c[k]] == c[..k + 1];
      TermsAreCodes(codes, c[..k + 1]);
      NotYetCode(codes, e, k + 1);
      DecodePad(codes, e, out, k + 1, n);
    }
  }

  /**
   What is encoded with the codes and padded with at most seven ones of EOS comes back: running the
   table over the nibbles gives the symbols, and the run ends in an accepting state.
   */
  lemma EncodedComesBack(codes: seq<Code>, e: nat, symbols: seq<nat>, bits: seq<bool>, pad: seq<bool>,
      nibbles: seq<nat>)
    requires PrefixFree(codes) && Complete(codes) && |codes| == 257
    requires forall i :: 0 <= i < |codes| ==> |codes[i].word| >= 4
    requires e < |codes| && codes[e].symbol == EOS && AllOnes(codes[e].word) && |codes[e].word| >= 8
    requires Encodes(codes, symbols, bits) && EOS !in symbols
    requires AllOnes(pad) && |pad| <= 7
    requires Bits(nibbles) == bits + pad && forall i :: 0 <= i < |nibbles| ==> nibbles[i] < 16
    ensures var run := RunTable(Table(Build(codes)), Run(0, true, []), nibbles);
      run.out == symbols && run.accepted && run.id != FAIL
  {
    var t := Build(codes);
    hide Usable, Table, RunTable, Complete, Encodes;
    ListIsUsable(codes);
    DecodeSymbols(codes, symbols, bits, []);
    DecodeConcat(t, Reading([], []), bits, pad);
    var c := codes[e].word;
    assert [] + symbols == symbols && c[..0] == [];
    assert c[0..|pad|] == c[..|pad|] == pad;
    DecodePad(codes, e, symbols, 0, |pad|);
    TableDecodes(t, nibbles);
  }

  // ----- the script

  /** The calls of huffman_tree_add, and all that follows. */
  method GenerateFromCodes(codes: seq<Code>) returns (table: seq<seq<Cell>>)
    requires PrefixFree(codes) && Complete(codes) && |codes| == 257
    requires forall i :: 0 <= i < |codes| ==> |codes[i].word| >= 4
    ensures table == Table(Build(codes))
  {
    hide PrefixFree, Complete, Table, CodesAtLeast, Full, Leaves;
    var root := AddAll(codes);
    ListIsUsable(codes);
    table := Generate(root);
  }

  method AddAll(codes: seq<Code>) returns (root: TableGenerator.Node)
    ensures fresh(root) && root.Valid() && root.Model() == Build(codes) && root.Blank() && NoTransitions(root) &&
        fresh(root.repr)
  {
    root := new TableGenerator.Node();
    for i := 0 to |codes|
      invariant root.Valid() && root.Model() == Build(codes[..i]) && root.Blank() && NoTransitions(root) &&
          fresh(root.repr)
    {
      assert codes[..i + 1][..i] == codes[..i];
      root.AddCode(codes[i].symbol, codes[i].word);
    }
    assert codes[..|codes|] == codes;
  }
}
