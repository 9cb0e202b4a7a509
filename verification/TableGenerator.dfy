/** mkhufftbl.py itself: linked nodes that are extended, numbered and given their transitions in place. */
module TableGenerator {
  import opened Basics
  import opened HuffmanTree
  import opened NibbleTable

  /** _add on tree values. */
  function Insert(t: Tree, sym: nat, bits: seq<bool>): Tree
    decreases |bits|
  {
    var n := if t.Absent? then HuffmanTree.Node(None, Absent, Absent) else t;
    if bits == [] then n.(term := Some(sym))
    else if bits[0] then n.(right := Insert(n.right, sym, bits[1..]))
    else n.(left := Insert(n.left, sym, bits[1..]))
  }

  function TermAt(t: Tree, p: seq<bool>): Option<nat> {
    if At(t, p).Node? then At(t, p).term else None
  }

  /** Adding a code gives its path the symbol and changes no other path. */
  lemma {:induction false} InsertTerm(t: Tree, sym: nat, bits: seq<bool>, q: seq<bool>)
    ensures TermAt(Insert(t, sym, bits), q) == if q == bits then Some(sym) else TermAt(t, q)
    decreases |bits|
  {
    var n := if t.Absent? then HuffmanTree.Node(None, Absent, Absent) else t;
    if q != [] {
      AbsentBelow(q[1..]);
      AbsentBelow(q);
      assert TermAt(n, q) == TermAt(t, q);
      if bits != [] {
        assert q == [q[0]] + q[1..] && bits == [bits[0]] + bits[1..];
        if q[0] == bits[0] {
          InsertTerm(Child(n, q[0]), sym, bits[1..], q[1..]);
        }
      }
    }
  }

  class Node {
    var term: Option<nat>
    var left: Node?
    var right: Node?
    var trans: seq<(Node?, Option<nat>)>
    var id: Option<nat>
    var accept: bool
    /** The nodes of this subtree. */
    ghost var repr: set<Node>

    ghost predicate Valid()
      reads this`left, this`right, this`repr, repr`left, repr`right, repr`repr
      decreases repr
    {
      && this in repr
      && (left != null ==> left in repr && left.repr <= repr - {this} && left.Valid())
      && (right != null ==> right in repr && right.repr <= repr - {this} && right.Valid())
      && (left != null && right != null ==> left.repr !! right.repr)
    }

    ghost function Model(): (t: Tree)
      requires Valid()
      reads this`left, this`right, this`repr, this`term, repr`left, repr`right, repr`repr, repr`term
      ensures t.Node?
      decreases repr
    {
      HuffmanTree.Node(term,
                       if left == null then Absent else left.Model(),
                       if right == null then Absent else right.Model())
    }

    constructor ()
      ensures Valid() && repr == {this} && Model() == HuffmanTree.Node(None, Absent, Absent)
      ensures trans == [] && id == None && !accept
    {
      term, left, right, trans, id, accept := None, null, null, [], None, false;
      repr := {this};
    }

    /** Nodes that are only made and linked. */
    static ghost predicate New(nodes: set<Node>)
      reads nodes`id, nodes`accept, nodes`trans
    {
      forall n :: n in nodes ==> n.id == None && !n.accept && n.trans == []
    }

    method EnsureLeft()
      requires Valid()
      modifies this`left, this`repr
      ensures Valid() && left != null && right == old(right)
      ensures fresh(repr - old(repr)) && old(repr) <= repr && New(repr - old(repr))
      ensures left.Model() == if old(left) == null then HuffmanTree.Node(None, Absent, Absent) else old(left.Model())
      ensures right != null ==> right.Model() == old(right.Model())
    {
      if left == null {
        left := new Node();
        repr := repr + left.repr;
      }
    }

    method EnsureRight()
      requires Valid()
      modifies this`right, this`repr
      ensures Valid() && right != null && left == old(left)
      ensures fresh(repr - old(repr)) && old(repr) <= repr && New(repr - old(repr))
      ensures right.Model() == if old(right) == null then HuffmanTree.Node(None, Absent, Absent) else old(right.Model())
      ensures left != null ==> left.Model() == old(left.Model())
    {
      if right == null {
        right := new Node();
        repr := repr + right.repr;
      }
    }

    /** _add */
    method AddCode(sym: nat, bits: seq<bool>)
      requires Valid()
      modifies repr`left, repr`right, repr`repr, repr`term
      ensures Valid() && fresh(repr - old(repr)) && old(repr) <= repr && New(repr - old(repr))
      ensures Model() == Insert(old(Model()), sym, bits)
      decreases |bits|, 1
    {
      if bits == [] {
        term := Some(sym);
      } else if !bits[0] {
        AddLeft(sym, bits);
      } else {
        AddRight(sym, bits);
      }
    }

    method AddLeft(sym: nat, bits: seq<bool>)
      requires Valid() && bits != [] && !bits[0]
      modifies repr`left, repr`right, repr`repr, repr`term
      ensures Valid() && fresh(repr - old(repr)) && old(repr) <= repr && New(repr - old(repr))
      ensures Model() == Insert(old(Model()), sym, bits)
      decreases |bits|, 0
    {
      EnsureLeft();
      left.AddCode(sym, bits[1..]);
      repr := repr + left.repr;
    }

    method AddRight(sym: nat, bits: seq<bool>)
      requires Valid() && bits != [] && bits[0]
      modifies repr`left, repr`right, repr`repr, repr`term
      ensures Valid() && fresh(repr - old(repr)) && old(repr) <= repr && New(repr - old(repr))
      ensures Model() == Insert(old(Model()), sym, bits)
      decreases |bits|, 0
    {
      EnsureRight();
      right.AddCode(sym, bits[1..]);
      repr := repr + right.repr;
    }

    /** The node at the end of a path. */
    ghost function Find(path: seq<bool>): (node: Node?)
      requires Valid()
      reads this`left, this`right, this`repr, repr`left, repr`right, repr`repr
      ensures node != null ==> node in repr && node.Valid()
      decreases |path|
    {
      if path == [] then this
      else
        var child := if path[0] then right else left;
        if child == null then null else child.Find(path[1..])
    }

    /** Find and At speak of the same nodes. */
    lemma {:induction false} FindModel(path: seq<bool>)
      requires Valid()
      ensures Find(path) == null <==> At(Model(), path).Absent?
      ensures Find(path) != null ==> Find(path).Model() == At(Model(), path)
      decreases |path|
    {
      if path != [] {
        var child := if path[0] then right else left;
        if child == null {
          AbsentBelow(path[1..]);
        } else {
          child.FindModel(path[1..]);
        }
      }
    }

    /** Every inner node below has the id and acceptance flag that its path calls for, and no leaf has an id. */
    ghost predicate Numbered(first: nat, prefix: seq<bool>)
      requires Valid()
      reads this`left, this`right, this`repr, this`term, repr`left, repr`right, repr`repr, repr`term, repr`id,
          repr`accept
    {
      forall q :: Find(q) != null ==>
        if IsLeaf(At(Model(), q)) then Find(q).id == None
        else Find(q).id == Some(first + Id(Model(), q)) && Find(q).accept == Accepts(prefix + q)
    }

    lemma NumberedNode(first: nat, prefix: seq<bool>)
      requires Valid() && Full(Model()) && term.None? && left != null && right != null
      requires id == Some(first) && accept == Accepts(prefix)
      requires left.Numbered(first + 1, prefix + [false])
      requires right.Numbered(first + 1 + Size(left.Model()), prefix + [true])
      ensures Numbered(first, prefix)
    {
      hide Accepts;
      forall q | Find(q) != null
        ensures if IsLeaf(At(Model(), q)) then Find(q).id == None
                else Find(q).id == Some(first + Id(Model(), q)) && Find(q).accept == Accepts(prefix + q)
      {
        if q == [] {
          assert prefix + q == prefix;
        } else if q[0] {
          assert prefix + [true] + q[1..] == prefix + q;
          assert right.Find(q[1..]) == Find(q);
        } else {
          assert prefix + [false] + q[1..] == prefix + q;
          assert left.Find(q[1..]) == Find(q);
        }
      }
    }

    lemma NumberedLeaf(first: nat, prefix: seq<bool>)
      requires Valid() && Full(Model()) && term.Some? && id == None
      ensures Numbered(first, prefix)
    {
      forall q | Find(q) != null
        ensures q == []
      {
      }
    }

    /** Ids and acceptance flags are not set yet. */
    ghost predicate Blank()
      reads this`repr, repr`id, repr`accept
    {
      forall n :: n in repr ==> n.id == None && !n.accept
    }

    method NumberChildren(nextId: nat, prefix: seq<bool>) returns (next: nat)
      requires Valid() && Full(Model()) && term.None? && left != null && right != null
      requires left.Blank() && right.Blank()
      modifies left.repr`id, left.repr`accept, right.repr`id, right.repr`accept
      ensures next == nextId + Size(left.Model()) + Size(right.Model())
      ensures left.Numbered(nextId, prefix + [false])
      ensures right.Numbered(nextId + Size(left.Model()), prefix + [true])
      decreases repr, 0
    {
      hide Numbered, Accepts;
      next := left.SetNodeId(nextId, prefix + [false]);
      next := right.SetNodeId(next, prefix + [true]);
    }

    /** _set_node_id */
    method SetNodeId(nextId: nat, prefix: seq<bool>) returns (next: nat)
      requires Valid() && Full(Model()) && Blank()
      modifies repr`id, repr`accept
      ensures next == nextId + Size(Model())
      ensures Numbered(nextId, prefix)
      decreases repr, 2
    {
      hide Numbered, Accepts;
      if term.Some? {
        NumberedLeaf(nextId, prefix);
        return nextId;
      }
      HasChildren();
      next := SetInnerId(nextId, prefix);
    }

    lemma HasChildren()
      requires Valid() && Full(Model()) && term.None?
      ensures left != null && right != null && Size(Model()) == 1 + Size(left.Model()) + Size(right.Model())
      ensures Blank() ==> left.Blank() && right.Blank()
    {
    }

    /** The part of _set_node_id for an inner node. */
    method SetInnerId(nextId: nat, prefix: seq<bool>) returns (next: nat)
      requires Valid() && Full(Model()) && Blank() && term.None? && left != null && right != null
      modifies repr`id, repr`accept
      ensures next == nextId + Size(Model())
      ensures Numbered(nextId, prefix)
      decreases repr, 1
    {
      hide Numbered, Accepts, Full, Size;
      HasChildren();
      if Accepts(prefix) {
        accept := true;
      }
      id := Some(nextId);
      next := NumberChildren(nextId + 1, prefix);
      NumberedNode(nextId, prefix);
    }

    /** Entries with the nodes that their paths name below this root. */
    ghost function Refs(entries: seq<Entry>): (refs: seq<(Node?, Option<nat>)>)
      requires Valid()
      reads this`left, this`right, this`repr, repr`left, repr`right, repr`repr
    {
      if entries == [] then []
      else Refs(entries[..|entries| - 1]) + [Ref(entries[|entries| - 1])]
    }

    ghost function Ref(e: Entry): (Node?, Option<nat>)
      requires Valid()
      reads this`left, this`right, this`repr, repr`left, repr`right, repr`repr
    {
      (if e.node.None? then null else Find(e.node.value), e.sym)
    }

    lemma {:induction false} RefsConcat(a: seq<Entry>, b: seq<Entry>)
      requires Valid()
      ensures Refs(a + b) == Refs(a) + Refs(b)
    {
      if b == [] {
        assert a + b == a;
      } else {
        RefsConcat(a, b[..|b| - 1]);
        assert (a + b)[..|a + b| - 1] == a + b[..|b| - 1];
      }
    }

    lemma {:induction false} RefsAt(entries: seq<Entry>)
      requires Valid()
      ensures |Refs(entries)| == |entries|
      ensures forall i :: 0 <= i < |entries| ==> Refs(entries)[i] == Ref(entries[i])
    {
      if entries != [] {
        RefsAt(entries[..|entries| - 1]);
      }
    }

    lemma {:induction false} FindNext(p: seq<bool>, bit: bool)
      requires Valid() && Find(p) != null
      ensures Find(p + [bit]) == if bit then Find(p).right else Find(p).left
      decreases |p|
    {
      if p != [] {
        var child := if p[0] then right else left;
        child.FindNext(p[1..], bit);
        assert (p + [bit])[1..] == p[1..] + [bit];
      }
    }
  }

  /** The nodes below `root` form the code tree `t`. */
  ghost predicate Represents(root: Node, t: Tree)
    reads root`left, root`right, root`repr, root`term, root.repr`left, root.repr`right, root.repr`repr, root.repr`term
  {
    root.Valid() && root.Model() == t && Full(t) && !IsLeaf(t)
  }

  /** The node at path `p`, if the nodes form a tree. */
  ghost predicate IsAt(root: Node, p: seq<bool>, node: Node?)
    reads root`left, root`right, root`repr, root.repr`left, root.repr`right, root.repr`repr
  {
    root.Valid() && root.Find(p) == node && node != null
  }

  /** What _traverse appends for the given entries. */
  ghost function Appended(root: Node, entries: seq<Entry>): seq<(Node?, Option<nat>)>
    reads root`left, root`right, root`repr, root.repr`left, root.repr`right, root.repr`repr
  {
    if root.Valid() then root.Refs(entries) else []
  }

  lemma ChildrenAt(root: Node, t: Tree, q: seq<bool>, node: Node)
    requires Represents(root, t) && Inner(t, q) && IsAt(root, q, node)
    ensures node.left != null && IsAt(root, q + [false], node.left)
    ensures node.right != null && IsAt(root, q + [true], node.right)
  {
    hide Full;
    root.FindModel(q);
    root.FindNext(q, false);
    root.FindNext(q, true);
    InnerChild(t, q, false);
    InnerChild(t, q, true);
    root.FindModel(q + [false]);
    root.FindModel(q + [true]);
  }

  /** Where a traversal goes on from the node at `p`: at its own children or at those of the root. */
  lemma RestartNode(root: Node, t: Tree, p: seq<bool>, node: Node)
    requires Represents(root, t) && IsAt(root, p, node)
    ensures Inner(t, Restart(t, p))
    ensures IsAt(root, Restart(t, p), if node.term.Some? then root else node)
  {
    hide Full;
    root.FindModel(p);
    assert At(t, []) == t;
  }

  lemma TermOfNode(root: Node, t: Tree, p: seq<bool>, node: Node)
    requires Represents(root, t) && IsAt(root, p, node)
    ensures At(t, p).Node? && node.term == At(t, p).term
  {
    root.FindModel(p);
  }

  lemma AppendedConcat(root: Node, a: seq<Entry>, b: seq<Entry>)
    ensures Appended(root, a + b) == Appended(root, a) + Appended(root, b)
  {
    if root.Valid() {
      root.RefsConcat(a, b);
    }
  }

  method AppendEntry(node: Node, sym: Option<nat>, start: Node, root: Node, ghost p: seq<bool>)
    requires IsAt(root, p, node)
    modifies start`trans
    ensures start.trans == old(start.trans) + Appended(root, [Final(p, sym)])
  {
    assert root.Refs([Final(p, sym)]) == root.Refs([]) + [root.Ref(Final(p, sym))];
    start.trans := start.trans + [if sym == Some(EOS) then (null, None) else (node, sym)];
  }

  /** Both directions from the inner node at `q`. */
  method TraverseBoth(from: Node, sym: Option<nat>, start: Node, root: Node, left: nat, ghost t: Tree,
      ghost q: seq<bool>)
    requires Represents(root, t) && Inner(t, q) && IsAt(root, q, from)
    requires IsLeaf(At(t, q + [false])) ==> sym.None?
    requires IsLeaf(At(t, q + [true])) ==> sym.None?
    requires AssertionHolds(t, q + [false], Completed(t, q + [false], sym), left)
    requires AssertionHolds(t, q + [true], Completed(t, q + [true], sym), left)
    modifies start`trans
    ensures start.trans ==
        old(start.trans) + Appended(root, Traverse(t, q + [false], Completed(t, q + [false], sym), left)
                                                             + Traverse(t, q + [true], Completed(t, q + [true], sym),
                                                                 left))
    decreases left, 2
  {
    hide Represents, IsAt, Appended, Completed, AssertionHolds, Traverse, Inner;
    ChildrenAt(root, t, q, from);
    AppendedConcat(root, Traverse(t, q + [false], Completed(t, q + [false], sym), left),
        Traverse(t, q + [true], Completed(t, q + [true], sym), left));
    StepDown(from.left, sym, start, root, left, t, q + [false]);
    StepDown(from.right, sym, start, root, left, t, q + [true]);
  }

  /** _traverse, for the node at path `p` of the tree `t`. */
  method TraverseNode(node: Node, sym: Option<nat>, start: Node, root: Node, left: nat, ghost t: Tree,
      ghost p: seq<bool>)
    requires Represents(root, t) && IsAt(root, p, node)
    requires AssertionHolds(t, p, sym, left)
    modifies start`trans
    ensures start.trans == old(start.trans) + Appended(root, Traverse(t, p, sym, left))
    decreases left, 0
  {
    hide Represents, IsAt, Appended, Restart, Completed, Final, Inner;
    if left == 0 {
      AppendEntry(node, sym, start, root, p);
    } else {
      RestartNode(root, t, p, node);
      var from := if node.term.Some? then root else node;
      TraverseBoth(from, sym, start, root, left - 1, t, Restart(t, p));
    }
  }

  /** The inner function `go` of _traverse. */
  method StepDown(node: Node?, sym: Option<nat>, start: Node, root: Node, left: nat, ghost t: Tree, ghost q: seq<bool>)
    requires Represents(root, t) && node != null && IsAt(root, q, node)
    requires IsLeaf(At(t, q)) ==> sym.None?
    requires AssertionHolds(t, q, Completed(t, q, sym), left)
    modifies start`trans
    ensures start.trans == old(start.trans) + Appended(root, Traverse(t, q, Completed(t, q, sym), left))
    decreases left, 1
  {
    TermOfNode(root, t, q, node);
    hide Represents, IsAt, Appended, AssertionHolds, Traverse;
    var next := sym;
    if node.term.Some? {
      assert sym == None;
      next := node.term;
    }
    TraverseNode(node, next, start, root, left, t, q);
  }

  /** Every node below `node` (at path `p`) has its sixteen transitions. */
  ghost predicate Built(root: Node, t: Tree, node: Node, p: seq<bool>)
    reads root`left, root`right, root`repr, root.repr`left, root.repr`right, root.repr`repr
    reads node`left, node`right, node`repr, node.repr`left, node.repr`right, node.repr`repr, node.repr`trans, node`trans
  {
    node.Valid() && forall q :: node.Find(q) != null ==>
        node.Find(q).trans == Appended(root, Traverse(t, p + q, None, 4))
  }

  ghost predicate NoTransitions(node: Node)
    reads node`repr, node.repr`trans
  {
    forall n :: n in node.repr ==> n.trans == []
  }

  lemma BuiltAt(root: Node, t: Tree, node: Node, p: seq<bool>, q: seq<bool>)
    requires node.Valid() && node.Find(q) != null && q != []
    requires node.left != null ==> Built(root, t, node.left, p + [false])
    requires node.right != null ==> Built(root, t, node.right, p + [true])
    ensures node.Find(q).trans == Appended(root, Traverse(t, p + q, None, 4))
  {
    hide Appended, Traverse;
    Onward(p, q);
    if q[0] {
      assert node.right.Find(q[1..]) == node.Find(q);
    } else {
      assert node.left.Find(q[1..]) == node.Find(q);
    }
  }

  lemma Onward(p: seq<bool>, q: seq<bool>)
    requires q != []
    ensures p + [q[0]] + q[1..] == p + q
  {
  }

  lemma BuiltNode(root: Node, t: Tree, node: Node, p: seq<bool>)
    requires node.Valid() && node.trans == Appended(root, Traverse(t, p, None, 4))
    requires node.left != null ==> Built(root, t, node.left, p + [false])
    requires node.right != null ==> Built(root, t, node.right, p + [true])
    ensures Built(root, t, node, p)
  {
    hide Appended, Traverse, Node.Valid;
    assert p + [] == p;
    forall q | node.Find(q) != null
      ensures node.Find(q).trans == Appended(root, Traverse(t, p + q, None, 4))
    {
      if q != [] {
        BuiltAt(root, t, node, p, q);
      }
    }
  }

  lemma ChildAt(root: Node, p: seq<bool>, node: Node)
    requires IsAt(root, p, node)
    ensures node.Valid()
    ensures node.left != null ==> IsAt(root, p + [false], node.left)
    ensures node.right != null ==> IsAt(root, p + [true], node.right)
  {
    root.FindNext(p, false);
    root.FindNext(p, true);
  }

  ghost function Footprint(node: Node?): set<Node>
    reads if node == null then {} else {node}
  {
    if node == null then {} else node.repr
  }

  /** _build_transition_table */
  method BuildTransitions(root: Node, node: Node?, ghost t: Tree, ghost p: seq<bool>)
    requires Represents(root, t) && CodesAtLeast(t, 4)
    requires node != null ==> IsAt(root, p, node) && NoTransitions(node)
    modifies Footprint(node)`trans
    ensures node != null ==> Built(root, t, node, p)
    decreases Footprint(node), 2
  {
    hide Represents, IsAt, Appended, Traverse, Built, CodesAtLeast, NoTransitions;
    if node != null {
      ChildAt(root, p, node);
      Apart(node);
      BuildNode(root, node, t, p);
      BuiltNode(root, t, node, p);
    }
  }

  /** The transitions of one node and, after it, of those below. */
  method BuildNode(root: Node, node: Node, ghost t: Tree, ghost p: seq<bool>)
    requires Represents(root, t) && CodesAtLeast(t, 4) && IsAt(root, p, node) && node.Valid() && node.trans == []
    requires node.left != null ==> IsAt(root, p + [false], node.left) && NoTransitions(node.left)
    requires node.right != null ==> IsAt(root, p + [true], node.right) && NoTransitions(node.right)
    requires node !in Footprint(node.left) + Footprint(node.right)
    modifies node`trans, Footprint(node.left)`trans, Footprint(node.right)`trans
    ensures node.trans == Appended(root, Traverse(t, p, None, 4))
    ensures node.left != null ==> Built(root, t, node.left, p + [false])
    ensures node.right != null ==> Built(root, t, node.right, p + [true])
    decreases node.repr, 1
  {
    hide Represents, IsAt, Appended, Traverse, Built, CodesAtLeast, NoTransitions;
    AssertionNeverFails(t, p, None, 4);
    TraverseNode(node, None, node, root, 4, t, p);
    BuildChildren(root, node, t, p);
  }

  /** Subtrees do not overlap with their parent or each other. */
  lemma Apart(node: Node)
    requires node.Valid()
    ensures node in node.repr && node !in Footprint(node.left) + Footprint(node.right)
    ensures Footprint(node.left) + Footprint(node.right) <= node.repr
    ensures NoTransitions(node) && node.left != null ==> NoTransitions(node.left)
    ensures NoTransitions(node) && node.right != null ==> NoTransitions(node.right)
    ensures NoTransitions(node) ==> node.trans == []
  {
  }

  method BuildChildren(root: Node, node: Node, ghost t: Tree, ghost p: seq<bool>)
    requires Represents(root, t) && CodesAtLeast(t, 4) && node.Valid()
    requires node.left != null ==> IsAt(root, p + [false], node.left) && NoTransitions(node.left)
    requires node.right != null ==> IsAt(root, p + [true], node.right) && NoTransitions(node.right)
    modifies Footprint(node.left)`trans, Footprint(node.right)`trans
    ensures node.left != null ==> Built(root, t, node.left, p + [false])
    ensures node.right != null ==> Built(root, t, node.right, p + [true])
    decreases node.repr, 0
  {
    hide Represents, IsAt, Built, CodesAtLeast;
    BuildTransitions(root, node.left, t, p + [false]);
    BuildTransitions(root, node.right, t, p + [true]);
  }

  lemma {:induction false} TraverseStays(t: Tree, p: seq<bool>, sym: Option<nat>, left: nat, i: nat)
    requires Full(t) && !IsLeaf(t) && At(t, p).Node?
    requires i < |Traverse(t, p, sym, left)|
    ensures var e := Traverse(t, p, sym, left)[i]; e.node.Some? ==> At(t, e.node.value).Node?
    decreases left
  {
    hide Completed;
    if left > 0 {
      var q := Restart(t, p);
      assert At(t, []) == t;
      InnerChild(t, q, false);
      InnerChild(t, q, true);
      var lower := Traverse(t, q + [false], Completed(t, q + [false], sym), left - 1);
      var upper := Traverse(t, q + [true], Completed(t, q + [true], sym), left - 1);
      assert Traverse(t, p, sym, left) == lower + upper;
      hide *;
      if i < |lower| {
        TraverseStays(t, q + [false], Completed(t, q + [false], sym), left - 1, i);
      } else {
        TraverseStays(t, q + [true], Completed(t, q + [true], sym), left - 1, i - |lower|);
      }
    }
  }

  /** One printed cell of _print_transition_table. */
  method PrintOne(nd: Node?, sym: Option<nat>) returns (c: Cell)
    ensures c == Cell((if nd == null then FAIL else if nd.id == None then ACCEPTED
                       else nd.id.value + if nd.accept then ACCEPTED else 0) + (if sym.None? then 0 else SYM),
                      if sym.None? then 0 else sym.value)
  {
    var flags, out := 0, 0;
    if sym.Some? {
      out := sym.value;
      flags := SYM;
    }
    var id := FAIL;
    if nd != null {
      if nd.id == None {
        id := 0;
        flags := flags + ACCEPTED;
      } else {
        id := nd.id.value;
        if nd.accept {
          flags := flags + ACCEPTED;
        }
      }
    }
    c := Cell(id + flags, out);
  }

  lemma CellOfNode(root: Node, t: Tree, e: Entry)
    requires Represents(root, t) && root.Numbered(0, [])
    requires e.node.Some? ==> At(t, e.node.value).Node?
    ensures
      var nd := root.Ref(e).0;
      PrintCell(t, e) == Cell((if nd == null then FAIL else if nd.id == None then ACCEPTED
                               else nd.id.value + if nd.accept then ACCEPTED else 0) + (if e.sym.None? then 0 else SYM),
                              if e.sym.None? then 0 else e.sym.value)
  {
    hide Full, Accepts;
    if e.node.Some? {
      root.FindModel(e.node.value);
      assert [] + e.node.value == e.node.value;
    }
  }

  method PrintTransitions(root: Node, trans: seq<(Node?, Option<nat>)>, ghost t: Tree, ghost entries: seq<Entry>)
      returns (row: seq<Cell>)
    requires Represents(root, t) && root.Numbered(0, []) && trans == root.Refs(entries)
    requires forall i :: 0 <= i < |entries| && entries[i].node.Some? ==> At(t, entries[i].node.value).Node?
    ensures row == PrintRow(t, entries)
  {
    hide PrintCell, Full;
    root.RefsAt(entries);
    row := [];
    for i := 0 to |trans|
      invariant |row| == i && forall j :: 0 <= j < i ==> row[j] == PrintCell(t, entries[j])
    {
      CellOfNode(root, t, entries[i]);
      var c := PrintOne(trans[i].0, trans[i].1);
      row := row + [c];
    }
  }

  /** What BuildTransitions left at one node. */
  lemma TransitionsAt(root: Node, t: Tree, p: seq<bool>, node: Node)
    requires Represents(root, t) && Built(root, t, root, []) && IsAt(root, p, node)
    ensures node.trans == Appended(root, Traverse(t, p, None, 4))
    ensures forall i :: 0 <= i < |Traverse(t, p, None, 4)| && Traverse(t, p, None, 4)[i].node.Some? ==>
      At(t, Traverse(t, p, None, 4)[i].node.value).Node?
  {
    hide Full, Traverse, Appended;
    assert [] + p == p;
    root.FindModel(p);
    forall i | 0 <= i < |Traverse(t, p, None, 4)| && Traverse(t, p, None, 4)[i].node.Some?
      ensures At(t, Traverse(t, p, None, 4)[i].node.value).Node?
    {
      TraverseStays(t, p, None, 4, i);
    }
  }

  /** _print_transition_table, for the node at path `p`. */
  method PrintRows(root: Node, node: Node, ghost t: Tree, ghost p: seq<bool>) returns (rows: seq<seq<Cell>>)
    requires Represents(root, t) && root.Numbered(0, []) && Built(root, t, root, []) && IsAt(root, p, node)
    ensures rows == Rows(t, At(t, p), p)
    decreases At(t, p)
  {
    hide Full, Traverse, PrintRow, Node.Numbered, Built;
    TermOfNode(root, t, p, node);
    if node.term.Some? {
      return [];
    }
    ChildrenAt(root, t, p, node);
    TransitionsAt(root, t, p, node);
    AtNext(t, p, false);
    AtNext(t, p, true);
    var row := PrintTransitions(root, node.trans, t, Traverse(t, p, None, 4));
    var lower := PrintRows(root, node.left, t, p + [false]);
    var upper := PrintRows(root, node.right, t, p + [true]);
    rows := [row] + lower + upper;
  }

  /** The whole generator, from the finished code tree to the printed array. */
  method Generate(root: Node) returns (table: seq<seq<Cell>>)
    requires root.Valid() && Full(root.Model()) && CodesAtLeast(root.Model(), 4) && Leaves(root.Model()) <= 0x4000 &&
        root.Blank() && NoTransitions(root)
    modifies root.repr
    ensures table == Table(old(root.Model()))
  {
    hide Full, Traverse, Node.Numbered, Built, Rows, CodesAtLeast, NoTransitions;
    ghost var t := root.Model();
    NoShortCode(t, 4, []);
    var _ := root.SetNodeId(0, []);
    BuildTransitions(root, root, t, []);
    var rows := PrintRows(root, root, t, []);
    table := rows + [FailRow(16)];
  }
}
