/**
 * Wake payloads: cloning a JSON value out of an arbitrary object graph, and freezing the clone.
 *
 * Objects live in a heap of numbered nodes that may share and may contain cycles. Arrays and records differ
 * only in whether their children carry keys, so a node is a shape and its children in order.
 */
module WakePayload {
  import opened Wrappers
  import opened Seqs
  import opened Json

  /** `Foreign` stands for functions, symbols and bigints. */
  datatype Value =
    | NullValue | BoolValue(b: bool) | NumberValue(n: Number) | StringValue(s: string)
    | Ref(at: nat) | Undefined | Foreign

  datatype Shape = ArrayShape | RecordShape(keys: seq<string>)

  datatype Node = Node(shape: Shape, children: seq<Value>)

  type Graph = map<nat, Node>

  /** The plain JSON tree a value denotes when its references are followed. */
  datatype Tree = Leaf(value: Value) | Branch(shape: Shape, children: seq<Tree>)

  predicate IsJsonLeaf(v: Value) {
    v.NullValue? || v.BoolValue? || v.StringValue? || (v.NumberValue? && v.n.Finite?)
  }

  /** References of a JavaScript heap never dangle. */
  predicate InGraph(g: Graph, v: Value) {
    v.Ref? ==> v.at in g
  }

  ghost predicate Closed(g: Graph) {
    forall a, v :: a in g && v in g[a].children ==> InGraph(g, v)
  }

  // ---------------------------------------------------------------- what a value denotes

  ghost predicate Unfolds(g: Graph, v: Value, t: Tree)
    decreases t
  {
    match t
    case Leaf(w) => v == w && IsJsonLeaf(w)
    case Branch(shape, ts) =>
      v.Ref? && v.at in g && g[v.at].shape == shape && |g[v.at].children| == |ts| &&
      forall i :: 0 <= i < |ts| ==> Unfolds(g, g[v.at].children[i], ts[i])
  }

  function Size(t: Tree): (n: nat)
    ensures n > 0
  {
    match t
    case Leaf(_) => 1
    case Branch(_, ts) => 1 + SizeAll(ts)
  }

  function SizeAll(ts: seq<Tree>): nat {
    if ts == [] then 0 else Size(ts[0]) + SizeAll(ts[1..])
  }

  lemma {:induction false} ChildIsSmaller(ts: seq<Tree>, i: nat)
    requires i < |ts|
    ensures Size(ts[i]) <= SizeAll(ts)
  {
    if i > 0 {
      ChildIsSmaller(ts[1..], i - 1);
    }
  }

  lemma {:induction false} UnfoldingIsUnique(g: Graph, v: Value, t: Tree, u: Tree)
    requires Unfolds(g, v, t) && Unfolds(g, v, u)
    ensures t == u
    decreases t
  {
    if t.Branch? {
      forall i | 0 <= i < |t.children|
        ensures t.children[i] == u.children[i]
      {
        UnfoldingIsUnique(g, g[v.at].children[i], t.children[i], u.children[i]);
      }
      assert t.children == u.children;
    }
  }

  // ---------------------------------------------------------------- the walk with its path set

  /** The walk: `path` holds the nodes being visited; meeting one again, or a non-JSON leaf, refuses the value. */
  ghost function Walk(g: Graph, v: Value, path: set<nat>): Option<Tree>
    requires Closed(g) && InGraph(g, v)
    decreases g.Keys - path, 0, 0
  {
    if !v.Ref? then
      if IsJsonLeaf(v) then Some(Leaf(v)) else None
    else if v.at in path then None
    else
      match WalkAll(g, g[v.at].children, path + {v.at})
      case None => None
      case Some(ts) => Some(Branch(g[v.at].shape, ts))
  }

  ghost function WalkAll(g: Graph, vs: seq<Value>, path: set<nat>): Option<seq<Tree>>
    requires Closed(g) && forall v :: v in vs ==> InGraph(g, v)
    decreases g.Keys - path, 1, |vs|
  {
    if vs == [] then Some([])
    else
      match Walk(g, vs[0], path)
      case None => None
      case Some(t) =>
        match WalkAll(g, vs[1..], path)
        case None => None
        case Some(ts) => Some([t] + ts)
  }

  lemma {:induction false} WalkUnfolds(g: Graph, v: Value, path: set<nat>)
    requires Closed(g) && InGraph(g, v) && Walk(g, v, path).Some?
    ensures Unfolds(g, v, Walk(g, v, path).value)
    decreases g.Keys - path, 0, 0
  {
    if v.Ref? {
      WalkAllUnfolds(g, g[v.at].children, path + {v.at});
    }
  }

  lemma {:induction false} WalkAllUnfolds(g: Graph, vs: seq<Value>, path: set<nat>)
    requires Closed(g) && (forall v :: v in vs ==> InGraph(g, v)) && WalkAll(g, vs, path).Some?
    ensures var ts := WalkAll(g, vs, path).value;
            |ts| == |vs| && forall i :: 0 <= i < |vs| ==> Unfolds(g, vs[i], ts[i])
    decreases g.Keys - path, 1, |vs|
  {
    if vs != [] {
      WalkUnfolds(g, vs[0], path);
      WalkAllUnfolds(g, vs[1..], path);
    }
  }

  /** Every node on the path unfolds to a tree larger than `size`: the walk is strictly below all of them. */
  ghost predicate Below(g: Graph, size: nat, above: map<nat, Tree>) {
    forall a :: a in above ==> Unfolds(g, Ref(a), above[a]) && size < Size(above[a])
  }

  lemma {:induction false} WalkFindsUnfolding(g: Graph, v: Value, t: Tree, above: map<nat, Tree>)
    requires Closed(g) && InGraph(g, v) && Unfolds(g, v, t) && Below(g, Size(t), above)
    ensures Walk(g, v, above.Keys) == Some(t)
    decreases t, 0
  {
    if t.Branch? {
      if v.at in above {
        UnfoldingIsUnique(g, v, t, above[v.at]);
      }
      var deeper := above[v.at := t];
      assert deeper.Keys == above.Keys + {v.at};
      WalkAllFindsUnfoldings(g, g[v.at].children, t.children, deeper);
    }
  }

  lemma {:induction false} WalkAllFindsUnfoldings(g: Graph, vs: seq<Value>, ts: seq<Tree>, above: map<nat, Tree>)
    requires Closed(g) && |vs| == |ts|
    requires forall i :: 0 <= i < |vs| ==> InGraph(g, vs[i]) && Unfolds(g, vs[i], ts[i])
    requires Below(g, SizeAll(ts), above)
    ensures WalkAll(g, vs, above.Keys) == Some(ts)
    decreases ts, 1
  {
    if vs != [] {
      ChildIsSmaller(ts, 0);
      WalkFindsUnfolding(g, vs[0], ts[0], above);
      WalkAllFindsUnfoldings(g, vs[1..], ts[1..], above);
      assert ts == [ts[0]] + ts[1..];
    }
  }

  /** Starting with an empty path, the walk finds exactly the tree the value denotes, if it denotes one. */
  lemma WalkIsUnfolding(g: Graph, v: Value, t: Tree)
    requires Closed(g) && InGraph(g, v)
    ensures Walk(g, v, {}) == Some(t) <==> Unfolds(g, v, t)
  {
    if Unfolds(g, v, t) {
      var none: map<nat, Tree> := map[];
      assert none.Keys == {};
      WalkFindsUnfolding(g, v, t, none);
    }
    if Walk(g, v, {}) == Some(t) {
      WalkUnfolds(g, v, {});
    }
  }

  // ---------------------------------------------------------------- acyclic and plain

  /** Following references through the nodes `via`, in order, leads from `v` to `w`. */
  ghost predicate Reaches(g: Graph, v: Value, via: seq<nat>, w: Value)
    decreases |via|
  {
    if via == [] then v == w
    else v == Ref(via[0]) && via[0] in g && exists c :: c in g[via[0]].children && Reaches(g, c, via[1..], w)
  }

  ghost predicate OnCycle(g: Graph, w: Value) {
    exists loop :: loop != [] && Reaches(g, w, loop, w)
  }

  /** Everything reachable is plain JSON, and no reachable node contains itself. */
  ghost predicate AcyclicJson(g: Graph, v: Value) {
    forall via, w :: Reaches(g, v, via, w) ==> !OnCycle(g, w) && (w.Ref? || IsJsonLeaf(w))
  }

  lemma {:induction false} ReachedUnfolds(g: Graph, v: Value, t: Tree, via: seq<nat>, w: Value) returns (u: Tree)
    requires Unfolds(g, v, t) && Reaches(g, v, via, w)
    ensures Unfolds(g, w, u) && Size(u) + |via| <= Size(t)
    decreases |via|
  {
    if via == [] {
      u := t;
    } else {
      var c :| c in g[via[0]].children && Reaches(g, c, via[1..], w);
      var i :| 0 <= i < |t.children| && g[v.at].children[i] == c;
      ChildIsSmaller(t.children, i);
      u := ReachedUnfolds(g, c, t.children[i], via[1..], w);
    }
  }

  lemma UnfoldingIsAcyclic(g: Graph, v: Value, t: Tree)
    requires Unfolds(g, v, t)
    ensures AcyclicJson(g, v)
  {
    forall via, w | Reaches(g, v, via, w)
      ensures !OnCycle(g, w) && (w.Ref? || IsJsonLeaf(w))
    {
      var u := ReachedUnfolds(g, v, t, via, w);
      forall loop | Reaches(g, w, loop, w)
        ensures loop == []
      {
        var u' := ReachedUnfolds(g, w, u, loop, w);
        UnfoldingIsUnique(g, w, u, u');
      }
    }
  }

  lemma {:induction false} ReachesChild(g: Graph, v: Value, via: seq<nat>, a: nat, c: Value)
    requires Reaches(g, v, via, Ref(a)) && a in g && c in g[a].children
    ensures Reaches(g, v, via + [a], c)
    decreases |via|
  {
    if via == [] {
      assert [a][1..] == [];
      assert Reaches(g, c, [a][1..], c);
    } else {
      var d :| d in g[via[0]].children && Reaches(g, d, via[1..], Ref(a));
      ReachesChild(g, d, via[1..], a, c);
      assert (via + [a])[1..] == via[1..] + [a];
    }
  }

  /** The nodes of `trail` are the ancestors of `v`: each leads to `v` through the rest of the trail. */
  ghost predicate Trail(g: Graph, trail: seq<nat>, v: Value) {
    forall i :: 0 <= i < |trail| ==> Reaches(g, Ref(trail[i]), trail[i..], v)
  }

  /** A refusal always has a reason: a reachable non-JSON leaf or a reachable node on a cycle. */
  lemma {:induction false} RefusalHasReason(g: Graph, v: Value, trail: seq<nat>) returns (via: seq<nat>, w: Value)
    requires Closed(g) && InGraph(g, v) && Trail(g, trail, v)
    requires Walk(g, v, Elems(trail)).None?
    ensures Reaches(g, v, via, w)
    ensures OnCycle(g, w) || !(w.Ref? || IsJsonLeaf(w))
    decreases g.Keys - Elems(trail), 0, 0
  {
    if !v.Ref? {
      via, w := [], v;
    } else if v.at in trail {
      via, w := [], v;
      var i :| 0 <= i < |trail| && trail[i] == v.at;
      assert trail[i..] != [] && Reaches(g, v, trail[i..], v);
    } else {
      var longer := trail + [v.at];
      assert Elems(longer) == Elems(trail) + {v.at};
      var c, rest := RefusedChild(g, g[v.at].children, v, trail, 0);
      via, w := [v.at] + rest.0, rest.1;
      assert via[1..] == rest.0;
    }
  }

  lemma {:induction false} RefusedChild(g: Graph, vs: seq<Value>, v: Value, trail: seq<nat>, from: nat)
    returns (c: Value, rest: (seq<nat>, Value))
    requires Closed(g) && v.Ref? && v.at in g && Trail(g, trail, v) && v.at !in trail
    requires from <= |g[v.at].children| && vs == g[v.at].children[from..]
    requires WalkAll(g, vs, Elems(trail) + {v.at}).None?
    ensures c in g[v.at].children && Reaches(g, c, rest.0, rest.1)
    ensures OnCycle(g, rest.1) || !(rest.1.Ref? || IsJsonLeaf(rest.1))
    decreases g.Keys - (Elems(trail) + {v.at}), 1, |vs|
  {
    var longer := trail + [v.at];
    assert Elems(longer) == Elems(trail) + {v.at};
    assert vs != [] && vs[0] == g[v.at].children[from];
    if Walk(g, vs[0], Elems(longer)).None? {
      c := vs[0];
      forall i | 0 <= i < |longer|
        ensures Reaches(g, Ref(longer[i]), longer[i..], c)
      {
        if i < |trail| {
          ReachesChild(g, Ref(trail[i]), trail[i..], v.at, c);
          assert longer[i..] == trail[i..] + [v.at];
        } else {
          ReachesChild(g, v, [], v.at, c);
          assert longer[i..] == [] + [v.at];
        }
      }
      var via, w := RefusalHasReason(g, c, longer);
      rest := (via, w);
    } else {
      c, rest := RefusedChild(g, vs[1..], v, trail, from + 1);
    }
  }

  /** A value is accepted if and only if everything reachable from it is acyclic JSON; sharing is no obstacle. */
  lemma AcceptedExactlyWhenAcyclicJson(g: Graph, v: Value)
    requires Closed(g) && InGraph(g, v)
    ensures Walk(g, v, {}).Some? <==> AcyclicJson(g, v)
    ensures Walk(g, v, {}).Some? <==> exists t :: Unfolds(g, v, t)
  {
    if Walk(g, v, {}).Some? {
      var t := Walk(g, v, {}).value;
      WalkUnfolds(g, v, {});
      assert Unfolds(g, v, t);
      UnfoldingIsAcyclic(g, v, t);
    } else {
      forall t ensures !Unfolds(g, v, t) { WalkIsUnfolding(g, v, t); }
      assert Elems<nat>([]) == {};
      var via, w := RefusalHasReason(g, v, []);
    }
  }

  // ---------------------------------------------------------------- the clone's own nodes

  function Branches(t: Tree): nat {
    match t
    case Leaf(_) => 0
    case Branch(_, ts) => 1 + BranchesAll(ts)
  }

  function BranchesAll(ts: seq<Tree>): nat {
    if ts == [] then 0 else Branches(ts[0]) + BranchesAll(ts[1..])
  }

  /** The nodes from which `v` is built. */
  ghost function Nodes(g: Graph, v: Value, t: Tree): set<nat>
    requires Unfolds(g, v, t)
    decreases t, 0
  {
    match t
    case Leaf(_) => {}
    case Branch(_, ts) => {v.at} + NodesAll(g, g[v.at].children, ts)
  }

  ghost function NodesAll(g: Graph, vs: seq<Value>, ts: seq<Tree>): set<nat>
    requires |vs| == |ts| && forall i :: 0 <= i < |vs| ==> Unfolds(g, vs[i], ts[i])
    decreases ts, 1
  {
    if ts == [] then {} else Nodes(g, vs[0], ts[0]) + NodesAll(g, vs[1..], ts[1..])
  }

  ghost predicate Extends(g: Graph, h: Graph) {
    forall a :: a in g ==> a in h && h[a] == g[a]
  }

  /** Allocating more nodes changes neither what a value denotes nor the nodes it is built from. */
  lemma {:induction false} UnfoldsInExtension(g: Graph, h: Graph, v: Value, t: Tree)
    requires Extends(g, h) && Unfolds(g, v, t)
    ensures Unfolds(h, v, t) && Nodes(h, v, t) == Nodes(g, v, t)
    decreases t, 0
  {
    if t.Branch? {
      UnfoldsAllInExtension(g, h, g[v.at].children, t.children);
    }
  }

  lemma {:induction false} UnfoldsAllInExtension(g: Graph, h: Graph, vs: seq<Value>, ts: seq<Tree>)
    requires Extends(g, h)
    requires |vs| == |ts| && forall i :: 0 <= i < |vs| ==> Unfolds(g, vs[i], ts[i])
    ensures forall i :: 0 <= i < |vs| ==> Unfolds(h, vs[i], ts[i])
    ensures NodesAll(h, vs, ts) == NodesAll(g, vs, ts)
    decreases ts, 1
  {
    if ts != [] {
      UnfoldsInExtension(g, h, vs[0], ts[0]);
      UnfoldsAllInExtension(g, h, vs[1..], ts[1..]);
      assert forall i :: 0 < i < |vs| ==> vs[i] == vs[1..][i - 1] && ts[i] == ts[1..][i - 1];
    }
  }

  lemma {:induction false} AppendOne(g: Graph, vs: seq<Value>, ts: seq<Tree>, v: Value, t: Tree)
    requires |vs| == |ts| && (forall i :: 0 <= i < |vs| ==> Unfolds(g, vs[i], ts[i])) && Unfolds(g, v, t)
    ensures forall i :: 0 <= i < |vs| + 1 ==> Unfolds(g, (vs + [v])[i], (ts + [t])[i])
    ensures NodesAll(g, vs + [v], ts + [t]) == NodesAll(g, vs, ts) + Nodes(g, v, t)
    ensures BranchesAll(ts + [t]) == BranchesAll(ts) + Branches(t)
  {
    if ts == [] {
      assert ts + [t] == [t] && vs + [v] == [v] && [t][1..] == [] && [v][1..] == [];
      assert NodesAll(g, [v], [t]) == Nodes(g, v, t) + NodesAll(g, [], []);
    } else {
      AppendOne(g, vs[1..], ts[1..], v, t);
      assert (vs + [v])[1..] == vs[1..] + [v] && (ts + [t])[1..] == ts[1..] + [t];
    }
  }

  lemma {:induction false} WalkAllAppend(g: Graph, vs: seq<Value>, v: Value, path: set<nat>)
    requires Closed(g) && (forall w :: w in vs + [v] ==> InGraph(g, w))
    ensures v in vs + [v]
    ensures forall w :: w in vs ==> w in vs + [v]
    ensures WalkAll(g, vs + [v], path) ==
              match WalkAll(g, vs, path)
              case None => None
              case Some(ts) =>
                (match Walk(g, v, path)
                 case None => None
                 case Some(t) => Some(ts + [t]))
  {
    assert (vs + [v])[|vs|] == v;
    assert forall w :: w in vs ==> w in vs + [v];
    if vs == [] {
      assert vs + [v] == [v] && [v][1..] == [];
      assert forall t: Tree :: [t] + [] == [] + [t];
    } else {
      assert (vs + [v])[1..] == vs[1..] + [v];
      WalkAllAppend(g, vs[1..], v, path);
      assert forall t: Tree, ts: seq<Tree>, u: Tree :: [t] + (ts + [u]) == ([t] + ts) + [u];
    }
  }

  lemma {:induction false} WalkAllPrefix(g: Graph, vs: seq<Value>, k: nat, path: set<nat>)
    requires Closed(g) && (forall w :: w in vs ==> InGraph(g, w)) && k <= |vs|
    requires WalkAll(g, vs[..k], path).None?
    ensures WalkAll(g, vs, path).None?
    decreases |vs| - k
  {
    if k < |vs| {
      assert vs[..k + 1] == vs[..k] + [vs[k]];
      WalkAllAppend(g, vs[..k], vs[k], path);
      WalkAllPrefix(g, vs, k + 1, path);
    } else {
      assert vs[..k] == vs;
    }
  }

  /** A block of consecutive addresses. */
  ghost function Addresses(from: nat, to: nat): (block: set<nat>)
    ensures forall a :: a in block <==> from <= a < to
  {
    if to <= from then {} else Addresses(from, to - 1) + {to - 1}
  }

  /** The values `vs` unfold to `ts` out of exactly the nodes allocated between `from` and `to`. */
  ghost predicate Built(g: Graph, vs: seq<Value>, ts: seq<Tree>, from: nat, to: nat) {
    && |vs| == |ts|
    && (forall i :: 0 <= i < |ts| ==> Unfolds(g, vs[i], ts[i]))
    && (forall v :: v in vs ==> InGraph(g, v))
    && NodesAll(g, vs, ts) == Addresses(from, to)
    && to == from + BranchesAll(ts)
  }

  lemma BuiltFromNothing(g: Graph, at: nat)
    ensures Built(g, [], [], at, at)
  {
  }

  lemma BuiltWithOneMore(h: Graph, g: Graph, vs: seq<Value>, ts: seq<Tree>, v: Value, t: Tree,
                         from: nat, mid: nat, to: nat)
    requires Extends(h, g) && Built(h, vs, ts, from, mid)
    requires Unfolds(g, v, t) && InGraph(g, v) && Nodes(g, v, t) == Addresses(mid, to) && to == mid + Branches(t)
    ensures Built(g, vs + [v], ts + [t], from, to)
  {
    UnfoldsAllInExtension(h, g, vs, ts);
    AppendOne(g, vs, ts, v, t);
    assert Addresses(from, mid) + Addresses(mid, to) == Addresses(from, to);
  }

  // ---------------------------------------------------------------- the heap

  datatype Content = Payload(value: Value) | Continuation(ref: string)

  /** A field that is missing, `undefined` or null is absent. */
  predicate IsPresent(field: Option<Value>) {
    field.Some? && !field.value.NullValue? && !field.value.Undefined?
  }

  /** `node[key]` on a record. */
  function Field(node: Node, key: string): (v: Option<Value>)
    requires node.shape.RecordShape?
    ensures var keys := node.shape.keys;
            && (v.Some? ==>
                  exists i :: 0 <= i < |keys| && i < |node.children| && keys[i] == key && node.children[i] == v.value)
            && (v.None? ==> forall i :: 0 <= i < |keys| && i < |node.children| ==> keys[i] != key)
  {
    FieldFrom(node.shape.keys, node.children, key)
  }

  function FieldFrom(keys: seq<string>, children: seq<Value>, key: string): (v: Option<Value>)
    ensures v.Some? ==> exists i :: 0 <= i < |keys| && i < |children| && keys[i] == key && children[i] == v.value
    ensures v.None? ==> forall i :: 0 <= i < |keys| && i < |children| ==> keys[i] != key
  {
    if keys == [] || children == [] then None
    else if keys[0] == key then Some(children[0])
    else FieldFrom(keys[1..], children[1..], key)
  }

  predicate IsRecord(g: Graph, v: Value) {
    v.Ref? && v.at in g && g[v.at].shape.RecordShape?
  }

  function U64(field: Option<Value>): Option<nat> {
    match field
    case Some(NumberValue(n)) => Count(Some(Num(n)))
    case _ => None
  }

  function NonEmpty(field: Option<Value>): Option<string> {
    match field
    case Some(StringValue(s)) => if s != "" then Some(s) else None
    case _ => None
  }

  datatype Occurrence = Occurrence(
    sequence: nat, reasonKind: string, dedupeKey: string, payloadDigest: string, createdAtMs: nat, content: Content)

  /** Exactly one of a payload that is acyclic JSON and a continuation that is a non-empty string. */
  ghost predicate Decidable(g: Graph, payload: Option<Value>, continuation: Option<Value>) {
    if IsPresent(continuation) then !IsPresent(payload) && NonEmpty(continuation).Some?
    else IsPresent(payload) && AcyclicJson(g, payload.value)
  }

  /** The object heap, the nodes `Object.freeze` was called on, and the clone's shared `seen` set. */
  class Heap {
    var nodes: Graph
    var top: nat
    var frozen: set<nat>
    var seen: set<nat>

    ghost predicate Valid()
      reads this
    {
      Closed(nodes) && forall a :: a in nodes ==> a < top
    }

    /**
     * `cloneJsonValue`. `source` is the graph as it was when the outermost call began: it is never written to.
     * A clone that succeeds unfolds to the source's tree out of nodes allocated by this call, one for each
     * branch of the tree, and leaves `seen` as it found it.
     */
    method CloneJsonValue(value: Value, ghost source: Graph) returns (r: Option<Value>)
      requires Valid() && Closed(source) && InGraph(source, value) && Extends(source, nodes)
      modifies this`nodes, this`top, this`seen
      ensures Valid() && Extends(old(nodes), nodes) && top >= old(top)
      ensures r.Some? <==> Walk(source, value, old(seen)).Some?
      ensures r.Some? ==>
                && seen == old(seen)
                && var t := Walk(source, value, old(seen)).value;
                && Unfolds(nodes, r.value, t)
                && Nodes(nodes, r.value, t) == Addresses(old(top), top)
                && top == old(top) + Branches(t)
      decreases source.Keys - seen, 1, 0
    {
      if value.NullValue? || value.BoolValue? || value.StringValue? {
        return Some(value);
      }
      if value.NumberValue? {
        if !value.n.Finite? {
          return None;
        }
        return Some(value);
      }
      if !value.Ref? || value.at in seen {
        return None;
      }
      ghost var before := seen;
      var node := nodes[value.at];
      seen := seen + {value.at};
      var cloned := CloneChildren(node.children, source);
      if cloned.None? {
        return None;
      }
      seen := seen - {value.at};
      ghost var ts := WalkAll(source, node.children, before + {value.at}).value;
      ghost var h := nodes;
      var fresh' := Allocate(Node(node.shape, cloned.value));
      UnfoldsAllInExtension(h, nodes, cloned.value, ts);
      r := Some(Ref(fresh'));
      assert Unfolds(nodes, r.value, Branch(node.shape, ts));
      assert Addresses(old(top), top) == {fresh'} + Addresses(old(top), fresh');
    }

    method Allocate(node: Node) returns (at: nat)
      requires Valid() && forall v :: v in node.children ==> InGraph(nodes, v)
      modifies this`nodes, this`top
      ensures Valid() && Extends(old(nodes), nodes) && at == old(top) && top == at + 1
      ensures at in nodes && nodes[at] == node
    {
      ghost var before := nodes;
      at := top;
      nodes := nodes[at := node];
      top := top + 1;
      forall a, v | a in nodes && v in nodes[a].children
        ensures InGraph(nodes, v)
      {
        assert a != at ==> v in before[a].children;
        assert InGraph(before, v);
      }
    }

    /** The children of one array or record, in order. */
    method CloneChildren(children: seq<Value>, ghost source: Graph) returns (r: Option<seq<Value>>)
      requires Valid() && Closed(source) && Extends(source, nodes)
      requires forall v :: v in children ==> InGraph(source, v)
      modifies this`nodes, this`top, this`seen
      ensures Valid() && Extends(old(nodes), nodes) && top >= old(top)
      ensures r.Some? <==> WalkAll(source, children, old(seen)).Some?
      ensures r.Some? ==>
                seen == old(seen)
                && Built(nodes, r.value, WalkAll(source, children, old(seen)).value, old(top), top)
      decreases source.Keys - seen, 2, 0
    {
      hide Built;
      var cloned: seq<Value> := [];
      var i := 0;
      ghost var ts: seq<Tree> := [];
      BuiltFromNothing(nodes, top);
      while i < |children|
        invariant 0 <= i <= |children|
        invariant Valid() && Extends(old(nodes), nodes) && Extends(source, nodes) && top >= old(top)
        invariant seen == old(seen)
        invariant WalkAll(source, children[..i], seen) == Some(ts)
        invariant Built(nodes, cloned, ts, old(top), top)
      {
        ghost var h, mid := nodes, top;
        assert children[..i + 1] == children[..i] + [children[i]];
        WalkAllAppend(source, children[..i], children[i], seen);
        var child := CloneJsonValue(children[i], source);
        if child.None? {
          WalkAllPrefix(source, children, i + 1, old(seen));
          return None;
        }
        ghost var t := Walk(source, children[i], seen).value;
        BuiltWithOneMore(h, nodes, cloned, ts, child.value, t, old(top), mid, top);
        cloned := cloned + [child.value];
        ts := ts + [t];
        i := i + 1;
      }
      assert children[..i] == children;
      r := Some(cloned);
    }

    /** `deepFreeze` has no cycle guard; it terminates because what it is given unfolds to a finite tree. */
    method DeepFreeze(value: Value, ghost t: Tree)
      requires Unfolds(nodes, value, t)
      modifies this`frozen
      ensures frozen == old(frozen) + Nodes(nodes, value, t)
      decreases t
    {
      if value.Ref? {
        var children := nodes[value.at].children;
        var i := 0;
        assert NodesAll(nodes, children[..0], t.children[..0]) == {};
        while i < |children|
          invariant 0 <= i <= |children| == |t.children|
          invariant frozen == old(frozen) + NodesAll(nodes, children[..i], t.children[..i])
        {
          DeepFreeze(children[i], t.children[i]);
          AppendOne(nodes, children[..i], t.children[..i], children[i], t.children[i]);
          assert children[..i + 1] == children[..i] + [children[i]];
          assert t.children[..i + 1] == t.children[..i] + [t.children[i]];
          i := i + 1;
        }
        assert children[..i] == children && t.children[..i] == t.children;
        frozen := frozen + {value.at};
      }
    }

    /**
     * The content rule: exactly one of a payload and a continuation. A payload is accepted if and only if it is
     * acyclic JSON; what is returned denotes the same tree, is built from new nodes only and is frozen throughout,
     * and no node the caller had is changed or frozen.
     */
    method DecodeContent(payload: Option<Value>, continuation: Option<Value>) returns (r: Option<Content>)
      requires Valid() && (payload.Some? ==> InGraph(nodes, payload.value))
      modifies this
      ensures Valid() && Extends(old(nodes), nodes)
      ensures frozen * old(nodes).Keys == old(frozen) * old(nodes).Keys
      ensures r.Some? <==> Decidable(old(nodes), payload, continuation)
      ensures r.Some? ==> Delivers(old(nodes), payload, continuation, r.value)
    {
      var hasPayload := IsPresent(payload);
      var ref: Option<string> := None;
      if IsPresent(continuation) {
        if !continuation.value.StringValue? || continuation.value.s == "" {
          return None;
        }
        ref := Some(continuation.value.s);
      }
      if hasPayload == ref.Some? {
        return None;
      }
      if ref.Some? {
        return Some(Continuation(ref.value));
      }
      ghost var source := nodes;
      AcceptedExactlyWhenAcyclicJson(source, payload.value);
      seen := {};
      var cloned := CloneJsonValue(payload.value, source);
      if cloned.None? {
        return None;
      }
      ghost var t := Walk(source, payload.value, {}).value;
      WalkUnfolds(source, payload.value, {});
      DeepFreeze(cloned.value, t);
      assert IsCopy(source, payload.value, cloned.value, t);
      r := Some(Payload(cloned.value));
    }

    /** `copy` denotes the tree `t` that `v` denotes in `source`, on frozen nodes of its own. */
    ghost predicate IsCopy(source: Graph, v: Value, copy: Value, t: Tree)
      reads this
    {
      && Unfolds(source, v, t) && Unfolds(nodes, copy, t)
      && Nodes(nodes, copy, t) !! source.Keys
      && Nodes(nodes, copy, t) <= frozen
    }

    ghost predicate IsFrozenCopy(source: Graph, v: Value, copy: Value)
      reads this
    {
      exists t :: IsCopy(source, v, copy, t)
    }

    /** The content given is the continuation itself, or a frozen copy of the payload. */
    ghost predicate Delivers(source: Graph, payload: Option<Value>, continuation: Option<Value>, content: Content)
      reads this
    {
      if IsPresent(continuation) then content.Continuation? && NonEmpty(continuation) == Some(content.ref)
      else payload.Some? && content.Payload? && IsFrozenCopy(source, payload.value, content.value)
    }

    /** `decodeOccurrence`: the guards on the other fields, then the content. */
    method DecodeOccurrence(value: Value) returns (r: Option<Occurrence>)
      requires Valid() && InGraph(nodes, value)
      modifies this
      ensures Valid() && Extends(old(nodes), nodes)
      ensures frozen * old(nodes).Keys == old(frozen) * old(nodes).Keys
      ensures r.Some? <==>
                && value.Ref? && value.at in old(nodes) && old(nodes)[value.at].shape.RecordShape?
                && var node := old(nodes)[value.at];
                && U64(Field(node, "sequence")).Some? && NonEmpty(Field(node, "reason_kind")).Some?
                && NonEmpty(Field(node, "dedupe_key")).Some? && NonEmpty(Field(node, "payload_digest")).Some?
                && U64(Field(node, "created_at_ms")).Some?
                && Decidable(old(nodes), Field(node, "payload"), Field(node, "continuation_ref"))
      ensures r.Some? ==>
                var node := old(nodes)[value.at];
                && U64(Field(node, "sequence")) == Some(r.value.sequence)
                && NonEmpty(Field(node, "reason_kind")) == Some(r.value.reasonKind)
                && NonEmpty(Field(node, "dedupe_key")) == Some(r.value.dedupeKey)
                && NonEmpty(Field(node, "payload_digest")) == Some(r.value.payloadDigest)
                && U64(Field(node, "created_at_ms")) == Some(r.value.createdAtMs)
                && Delivers(old(nodes), Field(node, "payload"), Field(node, "continuation_ref"), r.value.content)
    {
      hide Valid, Decidable, Delivers;
      if !IsRecord(nodes, value) {
        return None;
      }
      var node := nodes[value.at];
      var sequence, reasonKind, dedupeKey :=
        U64(Field(node, "sequence")), NonEmpty(Field(node, "reason_kind")), NonEmpty(Field(node, "dedupe_key"));
      var payloadDigest, createdAtMs := NonEmpty(Field(node, "payload_digest")), U64(Field(node, "created_at_ms"));
      if sequence.None? || reasonKind.None? || dedupeKey.None? || payloadDigest.None? || createdAtMs.None? {
        return None;
      }
      FieldsAreInGraph(node, "payload");
      var content := DecodeContent(Field(node, "payload"), Field(node, "continuation_ref"));
      if content.None? {
        return None;
      }
      r := Some(Occurrence(sequence.value, reasonKind.value, dedupeKey.value, payloadDigest.value, createdAtMs.value,
                           content.value));
    }

    lemma FieldsAreInGraph(node: Node, key: string)
      requires Valid() && node.shape.RecordShape? && exists a :: a in nodes && nodes[a] == node
      ensures Field(node, key).Some? ==> InGraph(nodes, Field(node, key).value)
    {
    }
  }

  // ---------------------------------------------------------------- exactly what counts

  /** Everything but references, `undefined`, foreign values and non-finite numbers is a JSON leaf. */
  lemma LeavesExactly(v: Value)
    ensures !IsJsonLeaf(v) <==> v.Ref? || v.Undefined? || v.Foreign? || v == NumberValue(NonFinite)
  {
  }

  /** The field guards of an occurrence: present, a safe count, a non-empty text. */
  lemma GuardsExactly(field: Option<Value>, n: nat, s: string)
    ensures !IsPresent(field) <==> field == None || field == Some(NullValue) || field == Some(Undefined)
    ensures U64(field) == Some(n) <==> n <= 9007199254740991 && field == Some(NumberValue(Finite(n as real)))
    ensures NonEmpty(field) == Some(s) <==> s != "" && field == Some(StringValue(s))
  {
  }
}
