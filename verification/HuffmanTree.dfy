/**
 Prefix-code trees and bit-by-bit decoding (section 5.2 of RFC 7541), the reference for the table
 that mkhufftbl.py generates.  A node is named by the path of bits that leads to it.
 */
module HuffmanTree {
  import opened Basics

  /** A node of the tree; `term` is its symbol if it is a leaf. */
  datatype Tree = Absent | Node(term: Option<nat>, left: Tree, right: Tree)

  const EOS: nat := 256

  function Child(t: Tree, bit: bool): Tree {
    if t.Absent? then Absent else if bit then t.right else t.left
  }

  function At(t: Tree, path: seq<bool>): Tree {
    if path == [] then t else At(Child(t, path[0]), path[1..])
  }

  predicate IsLeaf(t: Tree) {
    t.Node? && t.term.Some?
  }

  /** Every node is either a leaf with a symbol or has two children: the codes are prefix-free and complete. */
  predicate Full(t: Tree) {
    t.Node? && if t.term.Some? then t.left.Absent? && t.right.Absent? else Full(t.left) && Full(t.right)
  }

  /** All codes have at least `n` bits. */
  predicate CodesAtLeast(t: Tree, n: nat) {
    n == 0 || (!IsLeaf(t) && (t.Node? ==> CodesAtLeast(t.left, n - 1) && CodesAtLeast(t.right, n - 1)))
  }

  lemma {:induction false} AtConcat(t: Tree, p: seq<bool>, q: seq<bool>)
    ensures At(t, p + q) == At(At(t, p), q)
  {
    if p == [] {
      assert p + q == q;
    } else {
      AtConcat(Child(t, p[0]), p[1..], q);
      assert (p + q)[1..] == p[1..] + q;
    }
  }

  lemma AtNext(t: Tree, p: seq<bool>, bit: bool)
    ensures At(t, p + [bit]) == Child(At(t, p), bit)
  {
    AtConcat(t, p, [bit]);
    assert At(At(t, p), [bit]) == At(Child(At(t, p), bit), []);
  }

  lemma {:induction false} AtFull(t: Tree, p: seq<bool>)
    requires Full(t) && At(t, p).Node?
    ensures Full(At(t, p))
  {
    if p != [] {
      if IsLeaf(t) {
        AbsentBelow(p[1..]);
      } else {
        AtFull(Child(t, p[0]), p[1..]);
      }
    }
  }

  /** The path of an inner node: a state of the decoder. */
  predicate Inner(root: Tree, p: seq<bool>) {
    At(root, p).Node? && !IsLeaf(At(root, p))
  }

  lemma InnerChild(root: Tree, p: seq<bool>, bit: bool)
    requires Full(root) && Inner(root, p)
    ensures At(root, p + [bit]).Node?
  {
    AtFull(root, p);
    AtNext(root, p, bit);
  }

  /** No leaf is reached in fewer than `n` bits. */
  lemma {:induction false} NoShortCode(t: Tree, n: nat, p: seq<bool>)
    requires CodesAtLeast(t, n) && |p| < n
    ensures !IsLeaf(At(t, p))
  {
    if p != [] {
      if t.Absent? {
        AbsentBelow(p);
      } else {
        NoShortCode(Child(t, p[0]), n - 1, p[1..]);
      }
    }
  }

  lemma {:induction false} AbsentBelow(p: seq<bool>)
    ensures At(Absent, p) == Absent
  {
    if p != [] {
      AbsentBelow(p[1..]);
    }
  }

  // ----- bit-by-bit decoding

  /** What decoding has produced: symbols, and the bits read since the last of them, or EOS was met. */
  datatype Progress = Reading(symbols: seq<nat>, pending: seq<bool>) | Stopped(symbols: seq<nat>)

  function DecodeBit(root: Tree, state: Progress, bit: bool): Progress {
    match state
    case Stopped(_) => state
    case Reading(symbols, pending) =>
      var node := At(root, pending + [bit]);
      if !IsLeaf(node) then Reading(symbols, pending + [bit])
      else if node.term.value == EOS then Stopped(symbols)
      else Reading(symbols + [node.term.value], [])
  }

  function DecodeBits(root: Tree, state: Progress, bits: seq<bool>): Progress
    decreases |bits|
  {
    if bits == [] then state else DecodeBits(root, DecodeBit(root, state, bits[0]), bits[1..])
  }

  lemma {:induction false} DecodeConcat(root: Tree, state: Progress, a: seq<bool>, b: seq<bool>)
    ensures DecodeBits(root, state, a + b) == DecodeBits(root, DecodeBits(root, state, a), b)
    decreases |a|
  {
    if a == [] {
      assert a + b == b;
    } else {
      DecodeConcat(root, DecodeBit(root, state, a[0]), a[1..], b);
      assert (a + b)[1..] == a[1..] + b;
    }
  }

  /** A valid decoder state waits at an inner node. */
  predicate StateOk(root: Tree, state: Progress) {
    state.Reading? ==> Inner(root, state.pending)
  }

  lemma {:induction false} DecodeKeepsState(root: Tree, state: Progress, bits: seq<bool>)
    requires Full(root) && !IsLeaf(root) && StateOk(root, state)
    ensures StateOk(root, DecodeBits(root, state, bits))
    decreases |bits|
  {
    if bits != [] {
      if state.Reading? {
        InnerChild(root, state.pending, bits[0]);
      }
      DecodeKeepsState(root, DecodeBit(root, state, bits[0]), bits[1..]);
    }
  }
}
