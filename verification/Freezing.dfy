/** Copying an extension's exported values out of an arbitrary, possibly cyclic, heap
    graph into a frozen tree. */
module Freezing {

  datatype Value =
    | Primitive(text: string)   // null, undefined, string, boolean, bigint, finite number
    | Function(id: nat)
    | NonFinite
    | Unsupported               // a symbol
    | Ref(id: nat)

  datatype Property = Data(value: Value) | Accessor

  datatype Entry = Entry(key: string, property: Property)

  /** A heap object. `Plain` lists own enumerable properties in key order. */
  datatype Node = Array(items: seq<Value>) | Plain(entries: seq<Entry>) | Exotic

  type Heap = map<nat, Node>

  datatype Field = Field(key: string, tree: Tree)

  /** The frozen copy. */
  datatype Tree = Leaf(value: Value) | Items(items: seq<Tree>) | Record(fields: seq<Field>)

  datatype Outcome = Frozen(tree: Tree) | Circular | Rejected

  const FORBIDDEN_KEYS: set<string> := {"__proto__", "constructor", "prototype"}

  predicate Atom(v: Value) { v.Primitive? || v.Function? }

  predicate BadValue(v: Value) { v.NonFinite? || v.Unsupported? }

  predicate BadEntry(e: Entry) { e.key in FORBIDDEN_KEYS || e.property.Accessor? }

  predicate HasChild(n: Node, v: Value) {
    match n
    case Array(items) => v in items
    case Plain(entries) => exists i :: 0 <= i < |entries| && entries[i].property == Data(v)
    case Exotic => false
  }

  predicate BadNode(n: Node) {
    n.Exotic? || (n.Plain? && exists i :: 0 <= i < |n.entries| && BadEntry(n.entries[i]))
  }

  /** No reference dangles. */
  ghost predicate Closed(h: Heap) {
    forall n, v :: n in h && HasChild(h[n], v) && v.Ref? ==> v.id in h
  }

  /** A walk through the graph that starts at `root`. */
  ghost predicate Walk(h: Heap, root: Value, p: seq<nat>) {
    && |p| > 0 && root == Ref(p[0])
    && (forall i :: 0 <= i < |p| ==> p[i] in h)
    && (forall i :: 0 <= i < |p| - 1 ==> HasChild(h[p[i]], Ref(p[i + 1])))
  }

  ghost predicate Repeats(p: seq<nat>) {
    exists i, j :: 0 <= i < j < |p| && p[i] == p[j]
  }

  /** A cycle can be reached from the root. */
  ghost predicate Cyclic(h: Heap, root: Value) {
    exists p :: Walk(h, root, p) && Repeats(p)
  }

  /** Something that may not be exported can be reached from the root. */
  ghost predicate Tainted(h: Heap, root: Value) {
    BadValue(root) || exists p :: Walk(h, root, p) && TaintedNode(h[p[|p| - 1]])
  }

  predicate TaintedNode(n: Node) {
    BadNode(n) || HasChild(n, NonFinite) || HasChild(n, Unsupported)
  }

  /** `t` is the unfolding of `v`: the same atoms under the same indices and keys. */
  ghost predicate Denotes(h: Heap, v: Value, t: Tree)
    decreases t
  {
    match t
    case Leaf(a) => v == a && Atom(a)
    case Items(ts) =>
      v.Ref? && v.id in h && h[v.id].Array? && |h[v.id].items| == |ts|
      && forall i :: 0 <= i < |ts| ==> Denotes(h, h[v.id].items[i], ts[i])
    case Record(fs) =>
      v.Ref? && v.id in h && h[v.id].Plain? && |h[v.id].entries| == |fs|
      && forall i :: 0 <= i < |fs| ==> DenotesField(h, h[v.id].entries[i], fs[i])
  }

  ghost predicate DenotesField(h: Heap, e: Entry, f: Field)
    decreases f
  {
    e.key == f.key && !BadEntry(e) && Denotes(h, e.property.value, f.tree)
  }

  /** A value has at most one unfolding. */
  lemma {:induction false} DenotesUnique(h: Heap, v: Value, s: Tree, t: Tree)
    requires Denotes(h, v, s) && Denotes(h, v, t)
    ensures s == t
    decreases s
  {
    match s
    case Leaf(_) =>
    case Items(ss) =>
      forall i | 0 <= i < |ss|
        ensures ss[i] == t.items[i]
      {
        DenotesUnique(h, h[v.id].items[i], ss[i], t.items[i]);
      }
    case Record(fs) =>
      forall i | 0 <= i < |fs|
        ensures fs[i] == t.fields[i]
      {
        assert DenotesField(h, h[v.id].entries[i], fs[i]) && DenotesField(h, h[v.id].entries[i], t.fields[i]);
        DenotesUnique(h, h[v.id].entries[i].property.value, fs[i].tree, t.fields[i].tree);
      }
  }

  function Height(t: Tree): nat
    decreases t
  {
    match t
    case Leaf(_) => 0
    case Items(ts) => 1 + MaxHeight(ts)
    case Record(fs) => 1 + MaxFieldHeight(fs)
  }

  function MaxHeight(ts: seq<Tree>): (m: nat)
    ensures forall i :: 0 <= i < |ts| ==> Height(ts[i]) <= m
    decreases ts
  {
    if ts == [] then 0 else
    var m := MaxHeight(ts[1..]);
    assert forall i :: 1 <= i < |ts| ==> ts[i] == ts[1..][i - 1];
    if Height(ts[0]) < m then m else Height(ts[0])
  }

  function MaxFieldHeight(fs: seq<Field>): (m: nat)
    ensures forall i :: 0 <= i < |fs| ==> Height(fs[i].tree) <= m
    decreases fs
  {
    if fs == [] then 0 else
    var m := MaxFieldHeight(fs[1..]);
    assert forall i :: 1 <= i < |fs| ==> fs[i] == fs[1..][i - 1];
    if Height(fs[0].tree) < m then m else Height(fs[0].tree)
  }

  /** Every child of an unfolded node has an unfolding of its own, and a lower one. */
  lemma ChildUnfolds(h: Heap, v: Value, t: Tree, c: Value) returns (s: Tree)
    requires Denotes(h, v, t) && v.Ref? && HasChild(h[v.id], c)
    ensures Denotes(h, c, s) && Height(s) < Height(t)
  {
    match t
    case Items(ts) =>
      var i :| 0 <= i < |ts| && h[v.id].items[i] == c;
      s := ts[i];
    case Record(fs) =>
      var i :| 0 <= i < |fs| && h[v.id].entries[i].property == Data(c);
      assert DenotesField(h, h[v.id].entries[i], fs[i]);
      s := fs[i].tree;
  }

  /** Along a walk the unfoldings get strictly lower. */
  lemma {:induction false} WalkUnfolds(h: Heap, v: Value, t: Tree, p: seq<nat>, j: nat) returns (s: Tree)
    requires Denotes(h, v, t) && Walk(h, v, p) && j < |p|
    ensures Denotes(h, Ref(p[j]), s) && Height(s) + j <= Height(t)
    decreases j
  {
    if j == 0 {
      s := t;
    } else {
      var r := ChildUnfolds(h, v, t, Ref(p[1]));
      s := WalkUnfolds(h, Ref(p[1]), r, p[1..], j - 1);
    }
  }

  /** A walk through something that unfolds never comes back to a node. */
  lemma UnfoldedWalkIsSimple(h: Heap, v: Value, t: Tree, p: seq<nat>)
    requires Denotes(h, v, t) && Walk(h, v, p)
    ensures !Repeats(p)
  {
    forall i, j | 0 <= i < j < |p|
      ensures p[i] != p[j]
    {
      var a := WalkUnfolds(h, v, t, p, i);
      var b := WalkUnfolds(h, Ref(p[i]), a, p[i..], j - i);
      if p[i] == p[j] {
        DenotesUnique(h, Ref(p[i]), a, b);
      }
    }
  }

  lemma UnfoldedWalkIsClean(h: Heap, v: Value, t: Tree, p: seq<nat>)
    requires Denotes(h, v, t) && Walk(h, v, p)
    ensures !Repeats(p) && !TaintedNode(h[p[|p| - 1]])
  {
    UnfoldedWalkIsSimple(h, v, t, p);
    var s := WalkUnfolds(h, v, t, p, |p| - 1);
    UnfoldedNodeIsClean(h, p[|p| - 1], s);
  }

  /** What has an unfolding is neither cyclic nor tainted. */
  lemma UnfoldingIsClean(h: Heap, v: Value, t: Tree)
    requires Denotes(h, v, t)
    ensures !Cyclic(h, v) && !Tainted(h, v)
  {
    forall p | Walk(h, v, p)
      ensures !Repeats(p) && !TaintedNode(h[p[|p| - 1]])
    {
      UnfoldedWalkIsClean(h, v, t, p);
    }
  }

  lemma UnfoldedNodeIsClean(h: Heap, n: nat, t: Tree)
    requires Denotes(h, Ref(n), t)
    ensures n in h && !TaintedNode(h[n])
  {
    if t.Record? {
      forall i | 0 <= i < |t.fields|
        ensures !BadEntry(h[n].entries[i])
      {
        assert DenotesField(h, h[n].entries[i], t.fields[i]);
      }
    }
    if bad: Value :| BadValue(bad) && HasChild(h[n], bad) {
      var s := ChildUnfolds(h, Ref(n), t, bad);
      assert false;
    }
  }

  /** Where the traversal stands: `p` leads from the root to the holder of `v`. */
  ghost predicate Trail(h: Heap, root: Value, p: seq<nat>, v: Value) {
    if p == [] then v == root else Walk(h, root, p) && HasChild(h[p[|p| - 1]], v)
  }

  lemma TrailExtends(h: Heap, root: Value, p: seq<nat>, n: nat)
    requires Trail(h, root, p, Ref(n)) && n in h
    ensures Walk(h, root, p + [n])
    ensures n in p ==> Cyclic(h, root)
    ensures TaintedNode(h[n]) ==> Tainted(h, root)
  {
    var q := p + [n];
    assert Walk(h, root, q);
    if n in p {
      var i :| 0 <= i < |p| && p[i] == n;
      assert q[i] == q[|p|];
      assert Repeats(q);
    }
  }

  lemma BadValueTaints(h: Heap, root: Value, p: seq<nat>, v: Value)
    requires Trail(h, root, p, v) && BadValue(v)
    ensures Tainted(h, root)
  {
    if p != [] {
      assert TaintedNode(h[p[|p| - 1]]);
    }
  }

  class Freezer {
    const heap: Heap
    var seen: set<nat>  // the containers being copied right now

    constructor (heap: Heap)
      ensures this.heap == heap && seen == {}
    {
      this.heap, seen := heap, {};
    }

    /** Copies one value; `p` is the trail of open containers. */
    method FreezeValue(v: Value, ghost root: Value, ghost p: seq<nat>) returns (r: Outcome)
      requires Closed(heap) && (v.Ref? ==> v.id in heap) && Trail(heap, root, p, v)
      requires seen == set n | n in p
      modifies this`seen
      ensures r.Frozen? ==> Denotes(heap, v, r.tree) && seen == old(seen)
      ensures r.Circular? ==> Cyclic(heap, root)
      ensures r.Rejected? ==> Tainted(heap, root)
      decreases |heap.Keys - seen|, 1
    {
      if Atom(v) { return Frozen(Leaf(v)); }
      if BadValue(v) {
        BadValueTaints(heap, root, p, v);
        return Rejected;
      }
      var n := v.id;
      TrailExtends(heap, root, p, n);
      if n in seen { return Circular; }
      assert heap.Keys - (seen + {n}) == heap.Keys - seen - {n};
      assert n in heap.Keys - seen;
      seen := seen + {n};
      match heap[n] {
        case Array(items) => r := FreezeItems(n, items, root, p + [n]);
        case Plain(entries) => r := FreezeEntries(n, entries, root, p + [n]);
        case Exotic => return Rejected;
      }
      if r.Frozen? { seen := seen - {n}; }
    }

    method FreezeItems(n: nat, items: seq<Value>, ghost root: Value, ghost p: seq<nat>) returns (r: Outcome)
      requires Closed(heap) && n in heap && heap[n] == Array(items)
      requires Walk(heap, root, p) && p[|p| - 1] == n && seen == set k | k in p
      modifies this`seen
      ensures r.Frozen? ==> Denotes(heap, Ref(n), r.tree) && seen == old(seen)
      ensures r.Circular? ==> Cyclic(heap, root)
      ensures r.Rejected? ==> Tainted(heap, root)
      decreases |heap.Keys - seen|, 2
    {
      var copy: seq<Tree> := [];
      for i := 0 to |items|
        invariant seen == old(seen) && |copy| == i
        invariant forall k :: 0 <= k < i ==> Denotes(heap, items[k], copy[k])
      {
        assert HasChild(heap[n], items[i]);
        r := FreezeValue(items[i], root, p);
        if !r.Frozen? { return; }
        copy := copy + [r.tree];
      }
      return Frozen(Items(copy));
    }

    method FreezeEntries(n: nat, entries: seq<Entry>, ghost root: Value, ghost p: seq<nat>) returns (r: Outcome)
      requires Closed(heap) && n in heap && heap[n] == Plain(entries)
      requires Walk(heap, root, p) && p[|p| - 1] == n && seen == set k | k in p
      modifies this`seen
      ensures r.Frozen? ==> Denotes(heap, Ref(n), r.tree) && seen == old(seen)
      ensures r.Circular? ==> Cyclic(heap, root)
      ensures r.Rejected? ==> Tainted(heap, root)
      decreases |heap.Keys - seen|, 2
    {
      var copy: seq<Field> := [];
      for i := 0 to |entries|
        invariant seen == old(seen) && |copy| == i
        invariant forall k :: 0 <= k < i ==> DenotesField(heap, entries[k], copy[k])
      {
        var e := entries[i];
        if BadEntry(e) {
          assert TaintedNode(heap[n]);
          return Rejected;
        }
        assert HasChild(heap[n], e.property.value);
        r := FreezeValue(e.property.value, root, p);
        if !r.Frozen? { return; }
        copy := copy + [Field(e.key, r.tree)];
      }
      return Frozen(Record(copy));
    }
  }

  /** An object with one primitive property may be exported exactly when its key is not one that
      reaches a prototype. */
  lemma ForbiddenKeysAre(key: string, text: string)
    ensures var heap := map[0 := Plain([Entry(key, Data(Primitive(text)))])];
            Tainted(heap, Ref(0)) <==> key == "__proto__" || key == "constructor" || key == "prototype"
  {
    var e := Entry(key, Data(Primitive(text)));
    var heap := map[0 := Plain([e])];
    assert BadEntry(e) <==> key == "__proto__" || key == "constructor" || key == "prototype";
    if BadEntry(e) {
      assert BadEntry(heap[0].entries[0]);
      assert Walk(heap, Ref(0), [0]) && TaintedNode(heap[[0][0]]);
    } else {
      forall p | Walk(heap, Ref(0), p)
        ensures !TaintedNode(heap[p[|p| - 1]])
      {
        assert p[|p| - 1] == 0;
      }
    }
  }

  /** Freezing ends on every finite graph, succeeds exactly on the untainted acyclic
      ones, and then returns the one unfolding of the value. */
  method Freeze(heap: Heap, v: Value) returns (r: Outcome)
    requires Closed(heap) && (v.Ref? ==> v.id in heap)
    ensures r.Frozen? <==> !Cyclic(heap, v) && !Tainted(heap, v)
    ensures r.Frozen? ==> Denotes(heap, v, r.tree)
    ensures !r.Frozen? ==> forall t :: !Denotes(heap, v, t)
    ensures (r == Circular ==> Cyclic(heap, v)) && (r == Rejected ==> Tainted(heap, v))
  {
    var freezer := new Freezer(heap);
    r := freezer.FreezeValue(v, v, []);
    if r.Frozen? {
      UnfoldingIsClean(heap, v, r.tree);
    } else {
      forall t
        ensures !Denotes(heap, v, t)
      {
        if Denotes(heap, v, t) { UnfoldingIsClean(heap, v, t); }
      }
    }
  }
}
