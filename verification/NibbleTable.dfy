/**
 The decoding table of mkhufftbl.py: for every inner node of the tree, what four more bits lead to.
 Running the table over nibbles is proved to be bit-by-bit decoding.
 */
module NibbleTable {
  import opened Basics
  import opened BitStrings
  import opened HuffmanTree

  /** One element of node.trans: the node reached (None for the fail state) and the symbol completed. */
  datatype Entry = Entry(node: Option<seq<bool>>, sym: Option<nat>)

  /** Where a walk from a leaf goes on: at the root. */
  function Restart(root: Tree, p: seq<bool>): seq<bool> {
    if IsLeaf(At(root, p)) then [] else p
  }

  function Completed(root: Tree, p: seq<bool>, sym: Option<nat>): Option<nat> {
    if IsLeaf(At(root, p)) then At(root, p).term else sym
  }

  function Final(p: seq<bool>, sym: Option<nat>): Entry {
    if sym == Some(EOS) then Entry(None, None) else Entry(Some(p), sym)
  }

  /** _traverse: what it appends to start_node.trans, in order. */
  function Traverse(root: Tree, p: seq<bool>, sym: Option<nat>, left: nat): seq<Entry>
    decreases left
  {
    if left == 0 then [Final(p, sym)]
    else
      var q0, q1 := Restart(root, p) + [false], Restart(root, p) + [true];
      Traverse(root, q0, Completed(root, q0, sym), left - 1) + Traverse(root, q1, Completed(root, q1, sym), left - 1)
  }

  /** The assertion in _traverse that no second symbol is completed holds throughout. */
  predicate AssertionHolds(root: Tree, p: seq<bool>, sym: Option<nat>, left: nat)
    decreases left
  {
    left == 0 ||
    var q0, q1 := Restart(root, p) + [false], Restart(root, p) + [true];
    && (IsLeaf(At(root, q0)) ==> sym.None?) && AssertionHolds(root, q0, Completed(root, q0, sym), left - 1)
    && (IsLeaf(At(root, q1)) ==> sym.None?) && AssertionHolds(root, q1, Completed(root, q1, sym), left - 1)
  }

  /** One path of _traverse. */
  function Walk(root: Tree, p: seq<bool>, sym: Option<nat>, bits: seq<bool>): Entry
    decreases |bits|
  {
    if bits == [] then Final(p, sym)
    else
      var q := Restart(root, p) + [bits[0]];
      Walk(root, q, Completed(root, q, sym), bits[1..])
  }

  lemma {:induction false} TraverseLength(root: Tree, p: seq<bool>, sym: Option<nat>, left: nat)
    ensures |Traverse(root, p, sym, left)| == Pow2(left)
    decreases left
  {
    hide Restart, Completed, Final;
    if left > 0 {
      var q0, q1 := Restart(root, p) + [false], Restart(root, p) + [true];
      TraverseLength(root, q0, Completed(root, q0, sym), left - 1);
      TraverseLength(root, q1, Completed(root, q1, sym), left - 1);
    }
  }

  lemma PickHalf<T>(zeros: seq<T>, ones: seq<T>, v: nat)
    requires v < |zeros| == |ones|
    ensures (zeros + ones)[v] == zeros[v] && (zeros + ones)[|zeros| + v] == ones[v]
  {
  }

  /** The entry that the bits select is the one that walking along them gives. */
  lemma {:induction false} TraverseSelects(root: Tree, p: seq<bool>, sym: Option<nat>, bits: seq<bool>)
    ensures Value(bits) < Pow2(|bits|) == |Traverse(root, p, sym, |bits|)|
    ensures Traverse(root, p, sym, |bits|)[Value(bits)] == Walk(root, p, sym, bits)
    decreases |bits|
  {
    hide Restart, Completed, Final, Value;
    TraverseLength(root, p, sym, |bits|);
    NoValue(0);
    BitsOfValue(bits);
    if bits != [] {
      ValueFirst(bits);
      var q0, q1, n := Restart(root, p) + [false], Restart(root, p) + [true], |bits| - 1;
      var zeros, ones := Traverse(root, q0, Completed(root, q0, sym), n),
          Traverse(root, q1, Completed(root, q1, sym), n);
      TraverseLength(root, q0, Completed(root, q0, sym), n);
      TraverseLength(root, q1, Completed(root, q1, sym), n);
      var rest := bits[1..];
      PickHalf(zeros, ones, Value(rest));
      if bits[0] {
        TraverseSelects(root, q1, Completed(root, q1, sym), rest);
      } else {
        TraverseSelects(root, q0, Completed(root, q0, sym), rest);
      }
    }
  }

  // ----- one nibble is four bits

  /** The decoder state that a traversal has reached when `before` had been decoded ahead of it. */
  function View(root: Tree, before: seq<nat>, p: seq<bool>, sym: Option<nat>): Progress {
    match sym
    case None => Reading(before, Restart(root, p))
    case Some(s) => if s == EOS then Stopped(before) else Reading(before + [s], Restart(root, p))
  }

  ghost function EntryView(root: Tree, before: seq<nat>, e: Entry): Progress {
    if e.node.None? then Stopped(before) else View(root, before, e.node.value, e.sym)
  }

  /**
   With codes of at least four bits no second symbol can be completed: after the first, fewer than
   four bits follow.
   */
  lemma {:induction false} WalkDecodes(root: Tree, before: seq<nat>, p: seq<bool>, sym: Option<nat>, bits: seq<bool>)
    requires CodesAtLeast(root, 4)
    requires sym.Some? ==> |Restart(root, p)| + |bits| < 4
    requires |bits| <= 4
    ensures EntryView(root, before, Walk(root, p, sym, bits)) == DecodeBits(root, View(root, before, p, sym), bits)
    decreases |bits|
  {
    if bits != [] {
      var q := Restart(root, p) + [bits[0]];
      if sym.Some? {
        NoShortCode(root, 4, q);
      }
      NoShortCode(root, 4, []);
      WalkDecodes(root, before, q, Completed(root, q, sym), bits[1..]);
      assert DecodeBit(root, View(root, before, p, sym), bits[0]) == View(root, before, q, Completed(root, q, sym));
    }
  }

  /** The assertion of _traverse never fails when no code is shorter than four bits. */
  lemma {:induction false} AssertionNeverFails(root: Tree, p: seq<bool>, sym: Option<nat>, left: nat)
    requires CodesAtLeast(root, 4) && left <= 4
    requires sym.Some? ==> |Restart(root, p)| + left < 4
    ensures AssertionHolds(root, p, sym, left)
    decreases left
  {
    if left > 0 {
      var q0, q1 := Restart(root, p) + [false], Restart(root, p) + [true];
      if sym.Some? {
        NoShortCode(root, 4, q0);
        NoShortCode(root, 4, q1);
      }
      AssertionNeverFails(root, q0, Completed(root, q0, sym), left - 1);
      AssertionNeverFails(root, q1, Completed(root, q1, sym), left - 1);
    }
  }

  /** A second symbol at the end of `bits` breaks the assertion. */
  lemma {:induction false} SecondSymbol(root: Tree, p: seq<bool>, sym: Option<nat>, left: nat, bits: seq<bool>)
    requires sym.Some? && 0 < |bits| <= left && !IsLeaf(At(root, p))
    requires IsLeaf(At(root, p + bits))
    ensures !AssertionHolds(root, p, sym, left)
    decreases |bits|
  {
    var q := p + [bits[0]];
    assert q + bits[1..] == p + bits;
    assert |bits| == 1 ==> q == p + bits;
    if !IsLeaf(At(root, q)) {
      SecondSymbol(root, q, sym, left - 1, bits[1..]);
    }
    assert q == Restart(root, p) + [if bits[0] then true else false];
  }

  lemma {:induction false} ShortCode(t: Tree, n: nat) returns (s: seq<bool>)
    requires !CodesAtLeast(t, n)
    ensures |s| < n && IsLeaf(At(t, s))
  {
    if IsLeaf(t) {
      s := [];
      assert At(t, s) == t;
    } else if !CodesAtLeast(t.left, n - 1) {
      var rest := ShortCode(t.left, n - 1);
      s := [false] + rest;
      assert s[1..] == rest;
    } else {
      var rest := ShortCode(t.right, n - 1);
      s := [true] + rest;
      assert s[1..] == rest;
    }
  }

  /** Exactly when the assertion of _traverse can never fail: no code is shorter than four bits. */
  lemma AssertionCondition(root: Tree)
    requires Full(root) && !IsLeaf(root)
    ensures (forall p :: Inner(root, p) ==> AssertionHolds(root, p, None, 4)) <==> CodesAtLeast(root, 4)
  {
    if CodesAtLeast(root, 4) {
      forall p | Inner(root, p)
        ensures AssertionHolds(root, p, None, 4)
      {
        AssertionNeverFails(root, p, None, 4);
      }
    } else {
      var s := ShortCode(root, 4);
      var p, last := s[..|s| - 1], s[|s| - 1];
      assert s == p + [last];
      AtNext(root, p, last);
      assert Inner(root, p) by { ParentOfLeaf(root, p, last); }
      // from p, the last bit of the code completes it, and the code itself fits once more
      var q := p + [last];
      assert At(root, []) == root;
      AssertionAfterLeaf(root, p, last, s);
    }
  }

  /** With two codes of one bit each a nibble completes four symbols, and the assertion fails. */
  lemma AssertionCanFail()
    ensures var root := Node(None, Node(Some(0), Absent, Absent), Node(Some(1), Absent, Absent));
      Full(root) && !CodesAtLeast(root, 4) && !AssertionHolds(root, [], None, 4)
  {
    var root := Node(None, Node(Some(0), Absent, Absent), Node(Some(1), Absent, Absent));
    assert At(root, [false]) == root.left && At(root, []) == root;
    assert [] + [false] == [false];
    AssertionAfterLeaf(root, [], false, [false]);
  }

  lemma ParentOfLeaf(root: Tree, p: seq<bool>, bit: bool)
    requires Full(root) && IsLeaf(Child(At(root, p), bit))
    ensures Inner(root, p)
  {
    AtFull(root, p);
  }

  lemma AssertionAfterLeaf(root: Tree, p: seq<bool>, bit: bool, s: seq<bool>)
    requires !IsLeaf(At(root, p)) && IsLeaf(At(root, p + [bit])) && !IsLeaf(root)
    requires 0 < |s| <= 3 && IsLeaf(At(root, s))
    ensures !AssertionHolds(root, p, None, 4)
  {
    var q := p + [bit];
    var sym := Completed(root, q, None);
    assert Restart(root, q) == [];
    assert [] + s == s;
    SecondSymbolFromLeaf(root, q, sym, 3, s);
  }

  lemma SecondSymbolFromLeaf(root: Tree, q: seq<bool>, sym: Option<nat>, left: nat, s: seq<bool>)
    requires sym.Some? && IsLeaf(At(root, q)) && !IsLeaf(root) && 0 < |s| <= left && IsLeaf(At(root, s))
    ensures !AssertionHolds(root, q, sym, left)
  {
    assert Restart(root, q) == Restart(root, []);
    assert [] + s == s;
    SecondSymbol(root, [], sym, left, s);
    assert AssertionHolds(root, q, sym, left) == AssertionHolds(root, [], sym, left);
  }

  // ----- node numbers and the printed table

  /** The number of inner nodes. */
  function Size(t: Tree): nat {
    if t.Absent? || IsLeaf(t) then 0 else 1 + Size(t.left) + Size(t.right)
  }

  function Leaves(t: Tree): nat {
    if t.Absent? then 0 else if IsLeaf(t) then 1 else Leaves(t.left) + Leaves(t.right)
  }

  /** With 257 symbols the inner nodes are numbered 0 to 255, and 256 is free for the fail state. */
  lemma {:induction false} SizeFromLeaves(t: Tree)
    requires Full(t)
    ensures Leaves(t) == Size(t) + 1
  {
    if !IsLeaf(t) {
      SizeFromLeaves(t.left);
      SizeFromLeaves(t.right);
    }
  }

  /** The id that _set_node_id gives to the inner node at `p`, counted from the one of `t`. */
  function Id(t: Tree, p: seq<bool>): nat {
    if p == [] || t.Absent? then 0
    else if p[0] then 1 + Size(t.left) + Id(t.right, p[1..])
    else 1 + Id(t.left, p[1..])
  }

  lemma {:induction false} IdRange(t: Tree, p: seq<bool>)
    requires Full(t) && Inner(t, p)
    ensures Id(t, p) < Size(t)
  {
    if p != [] {
      InnerDown(t, p);
      IdRange(Child(t, p[0]), p[1..]);
    }
  }

  /** node.accept: what is left unfinished may be padding (at most seven ones). */
  predicate Accepts(p: seq<bool>) {
    |p| <= 7 && AllOnes(p)
  }

  const ACCEPTED := 0x4000
  const SYM := 0x8000
  const FAIL := 256

  /** A printed cell: node id and flags, and the symbol. */
  datatype Cell = Cell(fstate: nat, sym: nat)

  function PrintCell(root: Tree, e: Entry): Cell {
    var symFlag, out := if e.sym.None? then 0 else SYM, if e.sym.None? then 0 else e.sym.value;
    match e.node
    case None => Cell(FAIL + symFlag, out)
    case Some(p) =>
      if IsLeaf(At(root, p)) then Cell(0 + ACCEPTED + symFlag, out)
      else if Accepts(p) then Cell(Id(root, p) + ACCEPTED + symFlag, out)
      else Cell(Id(root, p) + symFlag, out)
  }

  function PrintRow(root: Tree, entries: seq<Entry>): (row: seq<Cell>)
    ensures |row| == |entries|
    ensures forall i :: 0 <= i < |row| ==> row[i] == PrintCell(root, entries[i])
  {
    if entries == [] then [] else PrintRow(root, entries[..|entries| - 1]) + [PrintCell(root, entries[|entries| - 1])]
  }

  /** _print_transition_table: the rows of the inner nodes below `p`, parents first. */
  function Rows(root: Tree, t: Tree, p: seq<bool>): seq<seq<Cell>>
    decreases t
  {
    if t.Absent? || IsLeaf(t) then []
    else
      [PrintRow(root, Traverse(root, p, None, 4))] + Rows(root, t.left, p + [false]) + Rows(root, t.right, p + [true])
  }

  function FailRow(n: nat): (row: seq<Cell>)
    ensures |row| == n && forall i :: 0 <= i < n ==> row[i] == Cell(FAIL, 0)
  {
    if n == 0 then [] else FailRow(n - 1) + [Cell(FAIL, 0)]
  }

  /** The whole printed array. */
  function Table(root: Tree): seq<seq<Cell>> {
    Rows(root, root, []) + [FailRow(16)]
  }

  lemma PickRow<T>(first: T, lower: seq<T>, upper: seq<T>, i: nat)
    ensures i < |lower| ==> ([first] + lower + upper)[1 + i] == lower[i]
    ensures i < |upper| ==> ([first] + lower + upper)[1 + |lower| + i] == upper[i]
  {
  }

  /** Row number Id is the row of the node with that id. */
  lemma {:induction false} RowOfId(root: Tree, t: Tree, p: seq<bool>, q: seq<bool>)
    requires Full(t) && Inner(t, q)
    ensures |Rows(root, t, p)| == Size(t) > Id(t, q)
    ensures Rows(root, t, p)[Id(t, q)] == PrintRow(root, Traverse(root, p + q, None, 4))
    decreases t
  {
    hide Traverse, PrintRow;
    RowCount(root, t, p);
    IdRange(t, q);
    if q == [] {
      assert p + q == p;
    } else {
      InnerDown(t, q);
      var first, lower, upper := PrintRow(root, Traverse(root, p, None, 4)), Rows(root, t.left, p + [false]),
          Rows(root, t.right, p + [true]);
      assert Rows(root, t, p) == [first] + lower + upper;
      RowCount(root, t.left, p + [false]);
      if q[0] {
        RowOfId(root, t.right, p + [true], q[1..]);
        PickRow(first, lower, upper, Id(t.right, q[1..]));
        assert p + [true] + q[1..] == p + q;
      } else {
        RowOfId(root, t.left, p + [false], q[1..]);
        PickRow(first, lower, upper, Id(t.left, q[1..]));
        assert p + [false] + q[1..] == p + q;
      }
    }
  }

  lemma InnerDown(t: Tree, q: seq<bool>)
    requires Full(t) && Inner(t, q) && q != []
    ensures !IsLeaf(t) && Inner(Child(t, q[0]), q[1..])
  {
    if IsLeaf(t) {
      AbsentBelow(q[1..]);
    }
  }

  lemma {:induction false} RowCount(root: Tree, t: Tree, p: seq<bool>)
    ensures |Rows(root, t, p)| == Size(t)
    decreases t
  {
    hide Traverse, PrintRow;
    if !(t.Absent? || IsLeaf(t)) {
      RowCount(root, t.left, p + [false]);
      RowCount(root, t.right, p + [true]);
    }
  }

  // ----- running the table

  function CellId(c: Cell): nat { c.fstate % 0x4000 }

  predicate CellAccepted(c: Cell) { c.fstate / 0x4000 % 2 == 1 }

  predicate CellHasSym(c: Cell) { c.fstate / 0x8000 % 2 == 1 }

  /** The state of a decoder that runs the table: current row, acceptance flag, symbols put out. */
  datatype Run = Run(id: nat, accepted: bool, out: seq<nat>)

  function StepTable(table: seq<seq<Cell>>, run: Run, nibble: nat): Run {
    if run.id < |table| && nibble < |table[run.id]| then
      var c := table[run.id][nibble];
      Run(CellId(c), CellAccepted(c), if CellHasSym(c) then run.out + [c.sym] else run.out)
    else run
  }

  function RunTable(table: seq<seq<Cell>>, run: Run, nibbles: seq<nat>): Run {
    if nibbles == [] then run
    else StepTable(table, RunTable(table, run, nibbles[..|nibbles| - 1]), nibbles[|nibbles| - 1])
  }

  function Bits(nibbles: seq<nat>): seq<bool> {
    if nibbles == [] then [] else Bits(nibbles[..|nibbles| - 1]) + BitsOf(nibbles[|nibbles| - 1], 4)
  }

  lemma NibbleValue(n: nat)
    requires n < 16
    ensures Value(BitsOf(n, 4)) == n && Pow2(4) == 16
  {
    assert Pow2(4) == 16;
    ValueOfBits(n, 4);
  }

  /** The table run is in step with the bit-by-bit decoder. */
  ghost predicate Agrees(root: Tree, run: Run, state: Progress) {
    match state
    case Stopped(symbols) => run == Run(FAIL, false, symbols)
    case Reading(symbols, pending) => Inner(root, pending) && run == Run(Id(root, pending), Accepts(pending), symbols)
  }

  /** The trees the generator is for: complete, with 257 symbols and no code below four bits. */
  predicate Usable(root: Tree) {
    Full(root) && Leaves(root) == 257 && CodesAtLeast(root, 4)
  }

  lemma PrintedCell(root: Tree, before: seq<nat>, e: Entry, state: Progress)
    requires Usable(root) && state == EntryView(root, before, e) && StateOk(root, state)
    requires e.node.None? ==> e.sym.None?
    requires e.sym != Some(EOS)
    ensures
      var c := PrintCell(root, e);
      Agrees(root, Run(CellId(c), CellAccepted(c), if CellHasSym(c) then before + [c.sym] else before), state)
  {
    SizeFromLeaves(root);
    if state.Reading? {
      IdRange(root, state.pending);
    }
    assert Id(root, []) == 0 && Accepts([]);
  }

  lemma {:induction false} WalkEntry(root: Tree, p: seq<bool>, sym: Option<nat>, bits: seq<bool>)
    ensures var e := Walk(root, p, sym, bits); (e.node.None? ==> e.sym.None?) && e.sym != Some(EOS)
    decreases |bits|
  {
    if bits != [] {
      var q := Restart(root, p) + [bits[0]];
      WalkEntry(root, q, Completed(root, q, sym), bits[1..]);
    }
  }

  /** The cell that a nibble selects in the row of an inner node. */
  lemma LookupCell(root: Tree, p: seq<bool>, n: nat)
    requires Usable(root) && Inner(root, p) && n < 16
    ensures |Table(root)| == 257 && Id(root, p) < FAIL && |Table(root)[Id(root, p)]| == 16
    ensures Table(root)[Id(root, p)][n] == PrintCell(root, Walk(root, p, None, BitsOf(n, 4)))
  {
    hide Traverse, Walk, BitsOf, Rows, CodesAtLeast, PrintCell, Id;
    SizeFromLeaves(root);
    RowCount(root, root, []);
    NibbleValue(n);
    RowOfId(root, root, [], p);
    assert [] + p == p;
    TraverseSelects(root, p, None, BitsOf(n, 4));
  }

  lemma FailStep(root: Tree, run: Run, n: nat)
    requires Usable(root) && n < 16 && run.id == FAIL && !run.accepted
    ensures StepTable(Table(root), run, n) == run
  {
    hide Rows, CodesAtLeast;
    SizeFromLeaves(root);
    RowCount(root, root, []);
  }

  lemma ReadStep(root: Tree, symbols: seq<nat>, pending: seq<bool>, n: nat)
    requires Usable(root) && n < 16 && Inner(root, pending)
    ensures Agrees(root, StepTable(Table(root), Run(Id(root, pending), Accepts(pending), symbols), n),
                   DecodeBits(root, Reading(symbols, pending), BitsOf(n, 4)))
  {
    hide Table, Walk, BitsOf, CodesAtLeast, PrintCell, Id, CellId, CellAccepted, CellHasSym, DecodeBits, Agrees;
    var state := Reading(symbols, pending);
    LookupCell(root, pending, n);
    WalkDecodes(root, symbols, pending, None, BitsOf(n, 4));
    WalkEntry(root, pending, None, BitsOf(n, 4));
    NoShortCode(root, 4, []);
    DecodeKeepsState(root, state, BitsOf(n, 4));
    PrintedCell(root, symbols, Walk(root, pending, None, BitsOf(n, 4)), DecodeBits(root, state, BitsOf(n, 4)));
  }

  /** One table lookup does what four bits do. */
  lemma NibbleStep(root: Tree, run: Run, state: Progress, n: nat)
    requires Usable(root) && n < 16 && Agrees(root, run, state)
    ensures Agrees(root, StepTable(Table(root), run, n), DecodeBits(root, state, BitsOf(n, 4)))
  {
    hide Table, StepTable, DecodeBits, BitsOf, Usable;
    if state.Stopped? {
      FailStep(root, run, n);
      StoppedStays(root, state, BitsOf(n, 4));
    } else {
      ReadStep(root, state.symbols, state.pending, n);
    }
  }

  lemma {:induction false} StoppedStays(root: Tree, state: Progress, bits: seq<bool>)
    requires state.Stopped?
    ensures DecodeBits(root, state, bits) == state
    decreases |bits|
  {
    if bits != [] {
      StoppedStays(root, state, bits[1..]);
    }
  }

  /**
   Running the printed table over any nibbles gives the symbols of bit-by-bit decoding; it is in the
   fail state exactly when EOS was decoded, and accepts exactly when what is left unfinished is at
   most seven ones.
   */
  lemma {:induction false} TableDecodes(root: Tree, nibbles: seq<nat>)
    requires Usable(root) && forall i :: 0 <= i < |nibbles| ==> nibbles[i] < 16
    ensures
      var run := RunTable(Table(root), Run(0, true, []), nibbles);
      var state := DecodeBits(root, Reading([], []), Bits(nibbles));
      && run.out == state.symbols
      && (run.id == FAIL <==> state.Stopped?)
      && (run.accepted <==> state.Reading? && |state.pending| <= 7 && AllOnes(state.pending))
  {
    TableAgrees(root, nibbles);
    var state := DecodeBits(root, Reading([], []), Bits(nibbles));
    if state.Reading? {
      SizeFromLeaves(root);
      IdRange(root, state.pending);
    }
  }

  lemma {:induction false} TableAgrees(root: Tree, nibbles: seq<nat>)
    requires Usable(root) && forall i :: 0 <= i < |nibbles| ==> nibbles[i] < 16
    ensures Agrees(root, RunTable(Table(root), Run(0, true, []), nibbles),
        DecodeBits(root, Reading([], []), Bits(nibbles)))
  {
    hide StepTable, Table, BitsOf;
    if nibbles == [] {
      NoShortCode(root, 4, []);
      assert Id(root, []) == 0 && At(root, []) == root;
    } else {
      var init, last := nibbles[..|nibbles| - 1], nibbles[|nibbles| - 1];
      TableAgrees(root, init);
      DecodeConcat(root, Reading([], []), Bits(init), BitsOf(last, 4));
      NibbleStep(root, RunTable(Table(root), Run(0, true, []), init), DecodeBits(root, Reading([], []), Bits(init)),
          last);
    }
  }
}
