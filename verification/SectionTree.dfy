/** `compilationSectionTree`: from sections with depths back to the tree they were listed from. */
module SectionTree {
  import opened Wrappers
  import opened FingerprintCodec

  datatype Tree = Node(key: string, leaf: bool, children: seq<Tree>)

  /** A tree's sections from the root down, children in order. */
  function Preorder(t: Tree, depth: int): seq<Section> {
    [Section(depth, t.key, t.leaf)] + PreorderAll(t.children, depth + 1)
  }

  function PreorderAll(ts: seq<Tree>, depth: int): seq<Section> {
    if ts == [] then []
    else PreorderAll(ts[..|ts| - 1], depth) + Preorder(ts[|ts| - 1], depth)
  }

  // ---------------------------------------------------------------- the algorithm

  function AddChild(parent: Tree, child: Tree): Tree { parent.(children := parent.children + [child]) }

  /** The nodes on the stack, each without the one above it, cut down to n: the others have joined
      their parents. */
  function Cut(stack: seq<Tree>, n: nat): (r: seq<Tree>)
    requires 1 <= n <= |stack|
    ensures |r| == n
    decreases |stack|
  {
    var top := |stack| - 1;
    if top + 1 == n then stack
    else Cut(stack[..top - 1] + [AddChild(stack[top - 1], stack[top])], n)
  }

  datatype Progress = Empty | Open(stack: seq<Tree>) | Rejected

  /** One section. */
  function Add(p: Progress, s: Section): (r: Progress)
    requires s.depth >= 0 && (p.Open? ==> p.stack != [])
    ensures r.Open? ==> |r.stack| == s.depth + 1
  {
    var node := Node(s.key, s.leaf, []);
    match p
    case Rejected => Rejected
    case Empty => if s.depth == 0 then Open([node]) else Rejected
    case Open(stack) =>
      if s.depth == 0 || s.depth > |stack| then Rejected
      else Open(Cut(stack, s.depth) + [node])
  }

  predicate Depths(sections: seq<Section>) { forall i :: 0 <= i < |sections| ==> sections[i].depth >= 0 }

  function AddAll(p: Progress, sections: seq<Section>): (r: Progress)
    requires Depths(sections) && (p.Open? ==> p.stack != [])
    ensures r.Open? ==> r.stack != []
  {
    if sections == [] then p
    else Add(AddAll(p, sections[..|sections| - 1]), sections[|sections| - 1])
  }

  /** `compilationSectionTree`; depths that come out of the codec are never negative. */
  function TreeOf(sections: seq<Section>): Option<Tree>
    requires Depths(sections)
  {
    match AddAll(Empty, sections)
    case Open(stack) => Some(Cut(stack, 1)[0])
    case Empty => None
    case Rejected => None
  }

  method CompilationSectionTree(sections: seq<Section>) returns (root: Option<Tree>)
    requires Depths(sections)
    ensures root == TreeOf(sections)
  {
    var stack: seq<Tree> := [];
    var idx := 0;
    while idx < |sections|
      invariant idx <= |sections|
      invariant AddAll(Empty, sections[..idx]) == if stack == [] then Empty else Open(stack)
    {
      var section := sections[idx];
      var node := Node(section.key, section.leaf, []);
      assert sections[..idx + 1][..idx] == sections[..idx];
      if section.depth == 0 {
        if stack != [] {
          RejectedStays(sections, idx + 1);
          return None;
        }
        stack := [node];
      } else {
        if stack == [] || section.depth > |stack| {
          RejectedStays(sections, idx + 1);
          return None;
        }
        stack := Cut(stack, section.depth) + [node];
      }
      idx := idx + 1;
    }
    assert sections[..idx] == sections;
    return if stack == [] then None else Some(Cut(stack, 1)[0]);
  }

  lemma {:induction false} RejectedStays(sections: seq<Section>, n: nat)
    requires Depths(sections) && n <= |sections| && AddAll(Empty, sections[..n]) == Rejected
    ensures AddAll(Empty, sections) == Rejected
  {
    if n == |sections| {
      assert sections[..n] == sections;
    } else {
      var p := sections[..|sections| - 1];
      assert p[..n] == sections[..n];
      RejectedStays(p, n);
    }
  }

  // ---------------------------------------------------------------- what is accepted

  /** One root, and no section more than one level below the section before it. */
  predicate Wellformed(sections: seq<Section>) {
    && sections != [] && sections[0].depth == 0
    && forall i :: 0 < i < |sections| ==> 0 < sections[i].depth <= sections[i - 1].depth + 1
  }

  lemma {:induction false} WellformedMore(sections: seq<Section>)
    requires |sections| > 1
    ensures var n := |sections| - 1;
            Wellformed(sections) <==> Wellformed(sections[..n]) && 0 < sections[n].depth <= sections[n - 1].depth + 1
  {
    var n := |sections| - 1;
    var p := sections[..n];
    assert forall i :: 0 <= i < n ==> p[i] == sections[i];
    assert Wellformed(p) ==> forall i :: 0 < i < n ==> 0 < p[i].depth <= p[i - 1].depth + 1;
  }

  lemma {:induction false} AcceptsPrefix(sections: seq<Section>)
    requires Depths(sections) && sections != []
    ensures AddAll(Empty, sections).Open? <==> Wellformed(sections)
    ensures AddAll(Empty, sections).Open? ==> |AddAll(Empty, sections).stack| == sections[|sections| - 1].depth + 1
    ensures !AddAll(Empty, sections).Empty?
  {
    var n := |sections| - 1;
    var p := sections[..n];
    if n == 0 {
      assert p == [];
    } else {
      hide Cut, Wellformed;
      AcceptsPrefix(p);
      assert sections[n - 1] == p[n - 1];
      WellformedMore(sections);
    }
  }

  /** A tree is built exactly from the well-formed lists. */
  lemma {:induction false} Accepts(sections: seq<Section>)
    requires Depths(sections)
    ensures TreeOf(sections).Some? <==> Wellformed(sections)
  {
    if sections != [] { AcceptsPrefix(sections); }
  }

  // ---------------------------------------------------------------- the tree lists what it was built from

  /** The sections of a stack of open nodes. */
  function Listed(stack: seq<Tree>): seq<Section> {
    if stack == [] then []
    else Listed(stack[..|stack| - 1]) + Preorder(stack[|stack| - 1], |stack| - 1)
  }

  lemma {:induction false} ListedAppend(stack: seq<Tree>, t: Tree)
    ensures Listed(stack + [t]) == Listed(stack) + Preorder(t, |stack|)
  {
    assert (stack + [t])[..|stack|] == stack;
  }

  lemma {:induction false} PreorderAddChild(parent: Tree, child: Tree, depth: int)
    ensures Preorder(AddChild(parent, child), depth) == Preorder(parent, depth) + Preorder(child, depth + 1)
  {
    assert (parent.children + [child])[..|parent.children|] == parent.children;
  }

  lemma {:induction false} JoiningKeepsListed(rest: seq<Tree>, parent: Tree, child: Tree)
    ensures Listed(rest + [parent] + [child]) == Listed(rest + [AddChild(parent, child)])
  {
    ListedAppend(rest, parent);
    ListedAppend(rest + [parent], child);
    ListedAppend(rest, AddChild(parent, child));
    PreorderAddChild(parent, child, |rest|);
  }

  lemma {:induction false} CutKeepsListed(stack: seq<Tree>, n: nat)
    requires 1 <= n <= |stack|
    ensures Listed(Cut(stack, n)) == Listed(stack)
    decreases |stack|
  {
    var top := |stack| - 1;
    if top + 1 != n {
      JoiningKeepsListed(stack[..top - 1], stack[top - 1], stack[top]);
      assert stack == stack[..top - 1] + [stack[top - 1]] + [stack[top]];
      CutKeepsListed(stack[..top - 1] + [AddChild(stack[top - 1], stack[top])], n);
    }
  }

  lemma {:induction false} LeafPreorder(s: Section)
    ensures Preorder(Node(s.key, s.leaf, []), s.depth) == [s]
  {
  }

  lemma {:induction false} StackLists(sections: seq<Section>)
    requires Depths(sections) && AddAll(Empty, sections).Open?
    ensures Listed(AddAll(Empty, sections).stack) == sections
  {
    var n := |sections| - 1;
    var before, s := AddAll(Empty, sections[..n]), sections[n];
    LeafPreorder(s);
    var node := Node(s.key, s.leaf, []);
    assert sections == sections[..n] + [s];
    if before.Open? {
      StackLists(sections[..n]);
      CutKeepsListed(before.stack, s.depth);
      ListedAppend(Cut(before.stack, s.depth), node);
    } else {
      EmptyOnlyAtStart(sections[..n]);
      assert [node][..0] == [];
    }
  }

  lemma {:induction false} EmptyOnlyAtStart(sections: seq<Section>)
    requires Depths(sections)
    ensures AddAll(Empty, sections).Empty? ==> sections == []
  {
  }

  /** The tree that is built lists exactly the sections it was built from, in order. */
  lemma {:induction false} TreeLists(sections: seq<Section>)
    requires Depths(sections) && TreeOf(sections).Some?
    ensures Preorder(TreeOf(sections).value, 0) == sections
  {
    var stack := AddAll(Empty, sections).stack;
    StackLists(sections);
    CutKeepsListed(stack, 1);
    var root := Cut(stack, 1);
    assert root == [root[0]] && root[..0] == [];
  }

  // ---------------------------------------------------------------- and back

  lemma {:induction false} CutCut(stack: seq<Tree>, n: nat, m: nat)
    requires 1 <= n <= m <= |stack|
    ensures Cut(Cut(stack, m), n) == Cut(stack, n)
    decreases |stack|
  {
    var top := |stack| - 1;
    if top + 1 != m {
      CutCut(stack[..top - 1] + [AddChild(stack[top - 1], stack[top])], n, m);
    }
  }

  /** The stack cut to n with more children for its last node. */
  function Adopt(stack: seq<Tree>, ts: seq<Tree>): seq<Tree>
    requires stack != []
  {
    var top := |stack| - 1;
    stack[..top] + [stack[top].(children := stack[top].children + ts)]
  }

  lemma {:induction false} AdoptNone(stack: seq<Tree>)
    requires stack != []
    ensures Adopt(stack, []) == stack
  {
    var t := stack[|stack| - 1];
    assert t.children + [] == t.children;
  }

  lemma {:induction false} AdoptTwice(stack: seq<Tree>, ts: seq<Tree>, us: seq<Tree>)
    requires stack != []
    ensures Adopt(Adopt(stack, ts), us) == Adopt(stack, ts + us)
  {
    var cs := stack[|stack| - 1].children;
    assert cs + ts + us == cs + (ts + us);
  }

  lemma {:induction false} AdoptAll(stack: seq<Tree>, t: Tree)
    ensures Adopt(stack + [t.(children := [])], t.children) == stack + [t]
  {
    assert [] + t.children == t.children;
  }

  lemma {:induction false} AddAllAppend(p: Progress, a: seq<Section>, b: seq<Section>)
    requires Depths(a) && Depths(b) && (p.Open? ==> p.stack != [])
    ensures AddAll(p, a + b) == AddAll(AddAll(p, a), b)
  {
    if b == [] {
      assert a + b == a;
    } else {
      AddAllAppend(p, a, b[..|b| - 1]);
      assert (a + b)[..|a + b| - 1] == a + b[..|b| - 1];
    }
  }

  lemma {:induction false} PreorderDepths(ts: seq<Tree>, depth: nat)
    ensures Depths(PreorderAll(ts, depth))
    decreases ts
  {
    if ts != [] {
      PreorderDepths(ts[..|ts| - 1], depth);
      PreorderDepths(ts[|ts| - 1].children, depth + 1);
    }
  }

  /** Reading the list of some trees below depth n gives the last node of that depth these children. */
  lemma {:induction false} ReadAll(stack: seq<Tree>, ts: seq<Tree>, n: nat)
    requires 1 <= n <= |stack|
    ensures Depths(PreorderAll(ts, n))
    ensures var r := AddAll(Open(stack), PreorderAll(ts, n));
            r.Open? && n <= |r.stack| && Cut(r.stack, n) == Adopt(Cut(stack, n), ts)
    decreases ts
  {
    hide Adopt, Cut, Preorder, Depths;
    PreorderDepths(ts, n);
    if ts == [] {
      AdoptNone(Cut(stack, n));
    } else {
      var rest, t := ts[..|ts| - 1], ts[|ts| - 1];
      PreorderDepths(rest, n);
      ReadAll(stack, rest, n);
      var s1 := AddAll(Open(stack), PreorderAll(rest, n)).stack;
      ReadOne(s1, t, n);
      AddAllAppend(Open(stack), PreorderAll(rest, n), Preorder(t, n));
      AdoptTwice(Cut(stack, n), rest, [t]);
      assert ts == rest + [t];
    }
  }

  lemma {:induction false} ReadOne(stack: seq<Tree>, t: Tree, n: nat)
    requires 1 <= n <= |stack|
    ensures Depths(Preorder(t, n))
    ensures var r := AddAll(Open(stack), Preorder(t, n));
            r.Open? && n <= |r.stack| && Cut(r.stack, n) == Adopt(Cut(stack, n), [t])
    decreases t
  {
    var head := Section(n, t.key, t.leaf);
    var node := Node(t.key, t.leaf, []);
    var s1 := Cut(stack, n) + [node];
    PreorderDepths(t.children, n + 1);
    ReadAll(s1, t.children, n + 1);
    AddAllAppend(Open(stack), [head], PreorderAll(t.children, n + 1));
    assert [head][..0] == [];
    assert AddAll(Open(stack), [head]) == Open(s1);
    var s2 := AddAll(Open(s1), PreorderAll(t.children, n + 1)).stack;
    AdoptAll(Cut(stack, n), t);
    CutCut(s2, n, n + 1);
    CutOne(Cut(stack, n), t);
  }

  lemma {:induction false} CutOne(stack: seq<Tree>, t: Tree)
    requires stack != []
    ensures Cut(stack + [t], |stack|) == Adopt(stack, [t])
  {
    var both := stack + [t];
    assert both[..|stack| - 1] == stack[..|stack| - 1];
  }

  /** Every tree is rebuilt from its list. */
  lemma {:induction false} RebuildsTree(t: Tree)
    ensures Depths(Preorder(t, 0))
    ensures TreeOf(Preorder(t, 0)) == Some(t)
  {
    var head := Section(0, t.key, t.leaf);
    var node := Node(t.key, t.leaf, []);
    PreorderDepths(t.children, 1);
    AddAllAppend(Empty, [head], PreorderAll(t.children, 1));
    assert [head][..0] == [];
    assert AddAll(Empty, [head]) == Open([node]);
    ReadAll([node], t.children, 1);
    AdoptAll([], t);
    assert [] + [node] == [node];
  }
}
