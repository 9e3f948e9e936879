/** The two walks over response payloads: is there a bigint anywhere, and a copy with every
    bigint replaced by its decimal string. Payloads are arbitrary graphs, cycles included. */
module BigIntWalk {
  type Ref = nat
  type Name = nat

  /** `Digits` is the decimal string of a number; `Other` is any other primitive. */
  datatype Value = BigInt(n: int) | Digits(n: int) | Other(x: nat) | Node(ref: Ref)

  /** Only plain objects and arrays are walked into. */
  datatype Cell = Plain(names: seq<Name>, values: seq<Value>) | List(items: seq<Value>) | Foreign

  type Graph = map<Ref, Cell>

  function CellAt(g: Graph, r: Ref): Cell {
    if r in g then g[r] else Foreign
  }

  predicate Inner(g: Graph, v: Value) {
    v.Node? && !CellAt(g, v.ref).Foreign?
  }

  function Children(g: Graph, r: Ref): seq<Value> {
    match CellAt(g, r)
    case Plain(_, values) => values
    case List(items) => items
    case Foreign => []
  }

  // ---- reachability -------------------------------------------------------------------------------

  /** The inner nodes `p` lead from `v` to a bigint. */
  ghost predicate Leads(g: Graph, v: Value, p: seq<Ref>)
    decreases p
  {
    if p == [] then v.BigInt?
    else Inner(g, v) && v.ref == p[0] && exists i ::
      0 <= i < |Children(g, p[0])| && Leads(g, Children(g, p[0])[i], p[1..])
  }

  ghost predicate ReachesBigInt(g: Graph, v: Value) { exists p :: Leads(g, v, p) }

  /** The inner nodes `p` lead from `v` to the inner node `r`. */
  ghost predicate LeadsTo(g: Graph, v: Value, p: seq<Ref>, r: Ref)
    decreases p
  {
    p != [] && Inner(g, v) && v.ref == p[0]
    && if |p| == 1 then p[0] == r
       else exists i :: 0 <= i < |Children(g, p[0])| && LeadsTo(g, Children(g, p[0])[i], p[1..], r)
  }

  ghost predicate ReachesNode(g: Graph, v: Value, r: Ref) { exists p :: LeadsTo(g, v, p, r) }

  // ---- is there a bigint? -------------------------------------------------------------------------

  function Has(g: Graph, v: Value, seen: set<Ref>): (r: (bool, set<Ref>))
    ensures seen <= r.1
    decreases g.Keys - seen, 0
  {
    if v.BigInt? then (true, seen)
    else if !Inner(g, v) || v.ref in seen then (false, seen)
    else HasAny(g, Children(g, v.ref), seen + {v.ref})
  }

  function HasAny(g: Graph, vs: seq<Value>, seen: set<Ref>): (r: (bool, set<Ref>))
    ensures seen <= r.1
    decreases g.Keys - seen, |vs|
  {
    if vs == [] then (false, seen)
    else
      var first := Has(g, vs[0], seen);
      if first.0 then first else HasAny(g, vs[1..], first.1)
  }

  // ---- the copy -----------------------------------------------------------------------------------

  /** What a walk returns: text for a bigint, something returned as it was, or a new node. */
  datatype Out = Text(n: int) | Kept(v: Value) | NewObject(names: seq<Name>, items: seq<Out>) | NewList(items: seq<Out>)

  function Rebuilt(c: Cell, items: seq<Out>): Out {
    if c.Plain? then NewObject(c.names, items) else NewList(items)
  }

  function Walk(g: Graph, v: Value, seen: set<Ref>): (r: (Out, set<Ref>))
    ensures seen <= r.1
    decreases g.Keys - seen, 0
  {
    if v.BigInt? then (Text(v.n), seen)
    else if !Inner(g, v) || v.ref in seen then (Kept(v), seen)
    else
      var (items, after) := WalkAll(g, Children(g, v.ref), seen + {v.ref});
      (Rebuilt(g[v.ref], items), after)
  }

  function WalkAll(g: Graph, vs: seq<Value>, seen: set<Ref>): (r: (seq<Out>, set<Ref>))
    ensures |r.0| == |vs| && seen <= r.1
    decreases g.Keys - seen, |vs|
  {
    if vs == [] then ([], seen)
    else
      var first := Walk(g, vs[0], seen);
      var rest := WalkAll(g, vs[1..], first.1);
      ([first.0] + rest.0, rest.1)
  }

  lemma WalkAllNone(g: Graph, seen: set<Ref>)
    ensures WalkAll(g, [], seen) == ([], seen)
  {
  }

  lemma WalkAllFrom(g: Graph, vs: seq<Value>, k: nat, seen: set<Ref>)
    requires k < |vs|
    ensures var first := Walk(g, vs[k], seen);
      var rest := WalkAll(g, vs[k + 1..], first.1);
      WalkAll(g, vs[k..], seen) == ([first.0] + rest.0, rest.1)
  {
    assert vs[k..][0] == vs[k] && vs[k..][1..] == vs[k + 1..];
  }

  // ---- the walkers --------------------------------------------------------------------------------

  /** The set of nodes a walk has been to, shared by its recursive calls. */
  class Seen {
    var refs: set<Ref>

    constructor ()
      ensures refs == {}
    {
      refs := {};
    }
  }

  method HasBigIntNode(g: Graph, v: Value, seen: Seen) returns (found: bool)
    modifies seen
    ensures (found, seen.refs) == Has(g, v, old(seen.refs))
    decreases g.Keys - seen.refs
  {
    if v.BigInt? {
      return true;
    }
    if !Inner(g, v) || v.ref in seen.refs {
      return false;
    }
    seen.refs := seen.refs + {v.ref};
    ghost var entered := seen.refs;
    var children := Children(g, v.ref);
    var k := 0;
    while k < |children|
      invariant k <= |children| && entered <= seen.refs
      invariant HasAny(g, children, entered) == HasAny(g, children[k..], seen.refs)
    {
      found := HasBigIntNode(g, children[k], seen);
      if found {
        return;
      }
      k := k + 1;
    }
    found := false;
  }

  method SerializeNode(g: Graph, v: Value, seen: Seen) returns (out: Out)
    modifies seen
    ensures (out, seen.refs) == Walk(g, v, old(seen.refs))
    decreases g.Keys - seen.refs
  {
    hide WalkAll, Children;
    if v.BigInt? {
      return Text(v.n);
    }
    if !Inner(g, v) || v.ref in seen.refs {
      return Kept(v);
    }
    seen.refs := seen.refs + {v.ref};
    ghost var entered := seen.refs;
    var children, items := Children(g, v.ref), [];
    var k := 0;
    assert children[0..] == children && [] + WalkAll(g, children, entered).0 == WalkAll(g, children, entered).0;
    while k < |children|
      invariant k <= |children| && entered <= seen.refs
      invariant WalkAll(g, children, entered).0 == items + WalkAll(g, children[k..], seen.refs).0
      invariant WalkAll(g, children, entered).1 == WalkAll(g, children[k..], seen.refs).1
    {
      WalkAllFrom(g, children, k, seen.refs);
      ghost var first := Walk(g, children[k], seen.refs);
      ghost var rest := WalkAll(g, children[k + 1..], first.1).0;
      assert items + ([first.0] + rest) == (items + [first.0]) + rest;
      var item := SerializeNode(g, children[k], seen);
      items := items + [item];
      k := k + 1;
    }
    assert children[k..] == [] && items + [] == items;
    WalkAllNone(g, seen.refs);
    out := Rebuilt(g[v.ref], items);
  }

  /** `hasBigInt`: true exactly when a bigint can be reached through plain objects and arrays. */
  method HasBigInt(g: Graph, v: Value) returns (found: bool)
    ensures found <==> ReachesBigInt(g, v)
  {
    var seen := new Seen();
    found := HasBigIntNode(g, v, seen);
    HasIffReaches(g, v);
  }

  /** `serializeBigInts` */
  method SerializeBigInts(g: Graph, v: Value) returns (out: Out)
    ensures out == Walk(g, v, {}).0 && Mirrors(g, v, out)
    ensures LeavesBigInt(g, out) <==> exists r :: Arrivals(g, v)[r] >= 2 && ReachesBigInt(g, Node(r))
    ensures !ReachesBigInt(g, v) ==> !Changed(out)
  {
    hide Walk, Mirrors, LeavesBigInt, ReachesBigInt, Changed, Arrivals;
    var seen := new Seen();
    out := SerializeNode(g, v, seen);
    WalkMirrors(g, v, {});
    BigIntLeftIff(g, v);
    if !ReachesBigInt(g, v) {
      NothingToChange(g, v);
    }
  }

  // ---- hasBigInt is reachability ------------------------------------------------------------------

  /** A walk may stop at `v`. */
  predicate Clean(g: Graph, v: Value, seen: set<Ref>) {
    !v.BigInt? && (Inner(g, v) ==> v.ref in seen)
  }

  predicate AllClean(g: Graph, vs: seq<Value>, seen: set<Ref>) {
    forall i :: 0 <= i < |vs| ==> Clean(g, vs[i], seen)
  }

  /** Nothing that follows these nodes is left to look at. */
  predicate Closed(g: Graph, nodes: set<Ref>, seen: set<Ref>) {
    forall r :: r in nodes ==> AllClean(g, Children(g, r), seen)
  }

  lemma {:induction false} HasNothing(g: Graph, v: Value, seen: set<Ref>)
    requires !Has(g, v, seen).0
    ensures Clean(g, v, Has(g, v, seen).1) && Closed(g, Has(g, v, seen).1 - seen, Has(g, v, seen).1)
    decreases g.Keys - seen, 0
  {
    hide Children;
    if Inner(g, v) && v.ref !in seen {
      HasNothingIn(g, Children(g, v.ref), seen + {v.ref});
    }
  }

  lemma {:induction false} HasNothingIn(g: Graph, vs: seq<Value>, seen: set<Ref>)
    requires !HasAny(g, vs, seen).0
    ensures AllClean(g, vs, HasAny(g, vs, seen).1) && Closed(g, HasAny(g, vs, seen).1 - seen, HasAny(g, vs, seen).1)
    decreases g.Keys - seen, |vs|
  {
    hide Children;
    if vs != [] {
      HasNothing(g, vs[0], seen);
      HasNothingIn(g, vs[1..], Has(g, vs[0], seen).1);
    }
  }

  lemma {:induction false} HasSomething(g: Graph, v: Value, seen: set<Ref>)
    requires Has(g, v, seen).0
    ensures ReachesBigInt(g, v)
    decreases g.Keys - seen, 0
  {
    if v.BigInt? {
      assert Leads(g, v, []);
    } else {
      var i := HasSomethingIn(g, Children(g, v.ref), seen + {v.ref});
      var p :| Leads(g, Children(g, v.ref)[i], p);
      assert ([v.ref] + p)[1..] == p;
      assert Leads(g, v, [v.ref] + p);
    }
  }

  lemma {:induction false} HasSomethingIn(g: Graph, vs: seq<Value>, seen: set<Ref>) returns (i: nat)
    requires HasAny(g, vs, seen).0
    ensures i < |vs| && ReachesBigInt(g, vs[i])
    decreases g.Keys - seen, |vs|
  {
    if Has(g, vs[0], seen).0 {
      HasSomething(g, vs[0], seen);
      i := 0;
    } else {
      i := HasSomethingIn(g, vs[1..], Has(g, vs[0], seen).1);
      i := i + 1;
    }
  }

  lemma {:induction false} ClosedLeadsNowhere(g: Graph, v: Value, nodes: set<Ref>, p: seq<Ref>)
    requires Clean(g, v, nodes) && Closed(g, nodes, nodes)
    ensures !Leads(g, v, p)
    decreases p
  {
    if p != [] && Leads(g, v, p) {
      var i :| 0 <= i < |Children(g, p[0])| && Leads(g, Children(g, p[0])[i], p[1..]);
      ClosedLeadsNowhere(g, Children(g, p[0])[i], nodes, p[1..]);
    }
  }

  lemma HasIffReaches(g: Graph, v: Value)
    ensures Has(g, v, {}).0 <==> ReachesBigInt(g, v)
  {
    hide Has, Leads, Clean, Closed;
    if Has(g, v, {}).0 {
      HasSomething(g, v, {});
    } else {
      HasNothing(g, v, {});
      var nodes := Has(g, v, {}).1;
      assert nodes - {} == nodes;
      forall p ensures !Leads(g, v, p) {
        ClosedLeadsNowhere(g, v, nodes, p);
      }
    }
  }

  // ---- the copy mirrors the payload ---------------------------------------------------------------

  predicate Same(o: Out, v: Value) { o.Kept? && o.v == v }

  /** Reading a copy: node by node it has the payload's shape, the payload's own values and nodes,
      and decimal strings for bigints. */
  predicate Mirrors(g: Graph, v: Value, o: Out)
    decreases o
  {
    match o
    case Text(n) => v == BigInt(n)
    case Kept(w) => w == v && !v.BigInt?
    case NewObject(names, items) =>
      v.Node? && CellAt(g, v.ref).Plain? && g[v.ref].names == names && MirrorsAll(g, g[v.ref].values, items)
    case NewList(items) =>
      v.Node? && CellAt(g, v.ref).List? && MirrorsAll(g, g[v.ref].items, items)
  }

  predicate MirrorsAll(g: Graph, vs: seq<Value>, os: seq<Out>)
    decreases os
  {
    |vs| == |os| && (os == [] || (Mirrors(g, vs[0], os[0]) && MirrorsAll(g, vs[1..], os[1..])))
  }

  lemma {:induction false} WalkMirrors(g: Graph, v: Value, seen: set<Ref>)
    ensures Mirrors(g, v, Walk(g, v, seen).0)
    decreases g.Keys - seen, 0
  {
    if Inner(g, v) && v.ref !in seen {
      WalkAllMirrors(g, Children(g, v.ref), seen + {v.ref});
    }
  }

  lemma {:induction false} WalkAllMirrors(g: Graph, vs: seq<Value>, seen: set<Ref>)
    ensures MirrorsAll(g, vs, WalkAll(g, vs, seen).0)
    decreases g.Keys - seen, |vs|
  {
    if vs != [] {
      WalkMirrors(g, vs[0], seen);
      WalkAllMirrors(g, vs[1..], Walk(g, vs[0], seen).1);
    }
  }

  /** Whether text stands for a bigint anywhere in a copy. */
  predicate Changed(o: Out)
    decreases o
  {
    match o
    case Text(_) => true
    case Kept(_) => false
    case NewObject(_, items) => exists i :: 0 <= i < |items| && Changed(items[i])
    case NewList(items) => exists i :: 0 <= i < |items| && Changed(items[i])
  }

  /** A copy changes something only where the payload has a bigint. */
  lemma {:induction false} MirrorChanged(g: Graph, v: Value, o: Out)
    requires Mirrors(g, v, o) && Changed(o)
    ensures ReachesBigInt(g, v)
    decreases o
  {
    if o.Text? {
      assert Leads(g, v, []);
    } else {
      var i :| 0 <= i < |o.items| && Changed(o.items[i]);
      MirrorsAt(g, Children(g, v.ref), o.items, i);
      MirrorChanged(g, Children(g, v.ref)[i], o.items[i]);
      var p :| Leads(g, Children(g, v.ref)[i], p);
      assert ([v.ref] + p)[1..] == p;
      assert Leads(g, v, [v.ref] + p);
    }
  }

  lemma {:induction false} MirrorsAt(g: Graph, vs: seq<Value>, os: seq<Out>, i: nat)
    requires MirrorsAll(g, vs, os) && i < |os|
    ensures Mirrors(g, vs[i], os[i])
    decreases i
  {
    if i > 0 {
      MirrorsAt(g, vs[1..], os[1..], i - 1);
    }
  }

  /** Without a bigint the copy reads as the payload itself: same shape, nothing changed. */
  lemma NothingToChange(g: Graph, v: Value)
    requires !ReachesBigInt(g, v)
    ensures Mirrors(g, v, Walk(g, v, {}).0) && !Changed(Walk(g, v, {}).0)
  {
    WalkMirrors(g, v, {});
    if Changed(Walk(g, v, {}).0) {
      MirrorChanged(g, v, Walk(g, v, {}).0);
    }
  }

  // ---- what is returned as it was -----------------------------------------------------------------

  function Enter(g: Graph, v: Value): multiset<Ref> {
    if Inner(g, v) then multiset{v.ref} else multiset{}
  }

  function EnterAll(g: Graph, vs: seq<Value>): multiset<Ref> {
    if vs == [] then multiset{} else Enter(g, vs[0]) + EnterAll(g, vs[1..])
  }

  /** The inner nodes of the payload that a copy still contains. */
  function Originals(g: Graph, o: Out): multiset<Ref>
    decreases o
  {
    match o
    case Text(_) => multiset{}
    case Kept(v) => Enter(g, v)
    case NewObject(_, items) => OriginalsAll(g, items)
    case NewList(items) => OriginalsAll(g, items)
  }

  function OriginalsAll(g: Graph, os: seq<Out>): multiset<Ref>
    decreases os
  {
    if os == [] then multiset{} else Originals(g, os[0]) + OriginalsAll(g, os[1..])
  }

  /** Every arrival at an inner node from the given nodes. */
  ghost function Edges(g: Graph, nodes: set<Ref>): multiset<Ref> {
    if nodes == {} then multiset{}
    else
      var r :| r in nodes;
      EnterAll(g, Children(g, r)) + Edges(g, nodes - {r})
  }

  lemma {:induction false} EdgesTake(g: Graph, nodes: set<Ref>, r: Ref)
    requires r in nodes
    ensures Edges(g, nodes) == EnterAll(g, Children(g, r)) + Edges(g, nodes - {r})
    decreases |nodes|
  {
    hide EnterAll, Children;
    var x :| x in nodes && Edges(g, nodes) == EnterAll(g, Children(g, x)) + Edges(g, nodes - {x});
    if x != r {
      EdgesTake(g, nodes - {x}, r);
      EdgesTake(g, nodes - {r}, x);
      assert nodes - {x} - {r} == nodes - {r} - {x};
    }
  }

  lemma NoEdges(g: Graph)
    ensures Edges(g, {}) == multiset{}
  {
  }

  lemma UnionMinus(a: set<Ref>, b: set<Ref>, r: Ref)
    requires r in a && a !! b
    ensures a + b - {r} == (a - {r}) + b
  {
  }

  lemma {:induction false} EdgesUnion(g: Graph, a: set<Ref>, b: set<Ref>)
    requires a !! b
    ensures Edges(g, a + b) == Edges(g, a) + Edges(g, b)
    decreases |a|
  {
    hide EnterAll, Children, Edges;
    if a == {} {
      assert a + b == b;
      NoEdges(g);
    } else {
      var r :| r in a;
      EdgesUnion(g, a - {r}, b);
      EdgesTake(g, a, r);
      EdgesTake(g, a + b, r);
      UnionMinus(a, b, r);
    }
  }

  /** Every arrival at an inner node either opens it, for the first time, or returns it as it
      was. */
  lemma {:induction false} Balance(g: Graph, v: Value, seen: set<Ref>)
    ensures var (o, after) := Walk(g, v, seen);
      Originals(g, o) + multiset(after - seen) == Enter(g, v) + Edges(g, after - seen)
    decreases g.Keys - seen, 0
  {
    hide Children, EnterAll;
    if v.BigInt? || !Inner(g, v) || v.ref in seen {
      assert seen - seen == {};
    } else {
      var r := v.ref;
      var (items, after) := WalkAll(g, Children(g, r), seen + {r});
      BalanceAll(g, Children(g, r), seen + {r});
      var later := after - (seen + {r});
      assert after - seen == {r} + later;
      EdgesTake(g, after - seen, r);
      assert after - seen - {r} == later;
      assert multiset(after - seen) == multiset{r} + multiset(later);
    }
  }

  lemma Regroup<T>(a: multiset<T>, b: multiset<T>, c: multiset<T>, d: multiset<T>,
      e: multiset<T>, f: multiset<T>, g: multiset<T>, h: multiset<T>)
    requires a + c == e + g && b + d == f + h
    ensures (a + b) + (c + d) == (e + f) + (g + h)
  {
    assert (a + b) + (c + d) == (a + c) + (b + d);
    assert (e + f) + (g + h) == (e + g) + (f + h);
  }

  lemma {:induction false} BalanceAll(g: Graph, vs: seq<Value>, seen: set<Ref>)
    ensures var (os, after) := WalkAll(g, vs, seen);
      OriginalsAll(g, os) + multiset(after - seen) == EnterAll(g, vs) + Edges(g, after - seen)
    decreases g.Keys - seen, |vs|
  {
    hide Children, Walk, Enter, Originals;
    if vs == [] {
      assert seen - seen == {};
    } else {
      var (o, mid) := Walk(g, vs[0], seen);
      var (os, after) := WalkAll(g, vs[1..], mid);
      Balance(g, vs[0], seen);
      BalanceAll(g, vs[1..], mid);
      assert after - seen == (mid - seen) + (after - mid);
      EdgesUnion(g, mid - seen, after - mid);
      assert multiset(after - seen) == multiset(mid - seen) + multiset(after - mid);
      assert WalkAll(g, vs, seen) == ([o] + os, after);
      assert ([o] + os)[1..] == os;
      assert OriginalsAll(g, [o] + os) == Originals(g, o) + OriginalsAll(g, os);
      Regroup(Originals(g, o), OriginalsAll(g, os), multiset(mid - seen), multiset(after - mid),
        Enter(g, vs[0]), EnterAll(g, vs[1..]), Edges(g, mid - seen), Edges(g, after - mid));
    }
  }

  // ---- the walk goes everywhere -------------------------------------------------------------------

  /** The inner nodes that can be reached. */
  ghost function Reached(g: Graph, v: Value): set<Ref> {
    set r | r in g && ReachesNode(g, v, r)
  }

  /** How often the walk comes to each inner node: once from every place that leads to it. */
  ghost function Arrivals(g: Graph, v: Value): multiset<Ref> {
    Enter(g, v) + Edges(g, Reached(g, v))
  }

  predicate Entered(g: Graph, v: Value, seen: set<Ref>) { Inner(g, v) ==> v.ref in seen }

  predicate AllEntered(g: Graph, nodes: set<Ref>, seen: set<Ref>) {
    forall r, i :: r in nodes && 0 <= i < |Children(g, r)| ==> Entered(g, Children(g, r)[i], seen)
  }

  lemma {:induction false} WalkEnters(g: Graph, v: Value, seen: set<Ref>)
    ensures var after := Walk(g, v, seen).1;
      && Entered(g, v, after) && AllEntered(g, after - seen, after)
      && forall r :: r in after - seen ==> ReachesNode(g, v, r)
    decreases g.Keys - seen, 0
  {
    if Inner(g, v) && v.ref !in seen {
      var after := Walk(g, v, seen).1;
      WalkAllEnters(g, Children(g, v.ref), seen + {v.ref});
      forall r | r in after - seen ensures ReachesNode(g, v, r) {
        if r == v.ref {
          assert LeadsTo(g, v, [r], r);
        } else {
          assert r in after - (seen + {v.ref});
          var i :| 0 <= i < |Children(g, v.ref)| && ReachesNode(g, Children(g, v.ref)[i], r);
          var p :| LeadsTo(g, Children(g, v.ref)[i], p, r);
          assert ([v.ref] + p)[1..] == p;
          assert LeadsTo(g, v, [v.ref] + p, r);
        }
      }
    }
  }

  lemma {:induction false} WalkAllEnters(g: Graph, vs: seq<Value>, seen: set<Ref>)
    ensures var after := WalkAll(g, vs, seen).1;
      && (forall i :: 0 <= i < |vs| ==> Entered(g, vs[i], after))
      && AllEntered(g, after - seen, after)
      && forall r :: r in after - seen ==> exists i :: 0 <= i < |vs| && ReachesNode(g, vs[i], r)
    decreases g.Keys - seen, |vs|
  {
    hide Children, ReachesNode, Walk;
    if vs != [] {
      var mid := Walk(g, vs[0], seen).1;
      WalkEnters(g, vs[0], seen);
      WalkAllEnters(g, vs[1..], mid);
      var after := WalkAll(g, vs, seen).1;
      forall r | r in after - seen ensures exists i :: 0 <= i < |vs| && ReachesNode(g, vs[i], r) {
        if r in mid - seen {
          assert ReachesNode(g, vs[0], r);
        } else {
          assert r in after - mid;
          var i :| 0 <= i < |vs[1..]| && ReachesNode(g, vs[1..][i], r);
          assert ReachesNode(g, vs[i + 1], r);
        }
      }
    }
  }

  lemma {:induction false} EnteredIsAll(g: Graph, v: Value, nodes: set<Ref>, p: seq<Ref>, r: Ref)
    requires Entered(g, v, nodes) && AllEntered(g, nodes, nodes) && LeadsTo(g, v, p, r)
    ensures r in nodes && r in g
    decreases p
  {
    if |p| > 1 {
      var i :| 0 <= i < |Children(g, p[0])| && LeadsTo(g, Children(g, p[0])[i], p[1..], r);
      EnteredIsAll(g, Children(g, p[0])[i], nodes, p[1..], r);
    }
  }

  lemma WalkReaches(g: Graph, v: Value)
    ensures Walk(g, v, {}).1 == Reached(g, v)
  {
    hide Walk, LeadsTo, Entered, AllEntered;
    var nodes := Walk(g, v, {}).1;
    WalkEnters(g, v, {});
    assert nodes - {} == nodes;
    forall r | ReachesNode(g, v, r) ensures r in nodes && r in g {
      var p :| LeadsTo(g, v, p, r);
      EnteredIsAll(g, v, nodes, p, r);
    }
  }

  /** The nodes a copy shares with its payload are those that the walk comes to again. */
  lemma OriginalsAreRevisits(g: Graph, v: Value, r: Ref)
    ensures r in Originals(g, Walk(g, v, {}).0) <==> Arrivals(g, v)[r] >= 2
    ensures Originals(g, Walk(g, v, {}).0) + multiset(Reached(g, v)) == Arrivals(g, v)
  {
    hide Walk, Edges, Enter, Originals;
    Balance(g, v, {});
    WalkReaches(g, v);
    assert Reached(g, v) - {} == Reached(g, v);
    if Arrivals(g, v)[r] > 0 && r !in Reached(g, v) {
      ArrivalsReached(g, v, r);
    }
  }

  lemma {:induction false} EnterAllFrom(g: Graph, vs: seq<Value>, r: Ref)
    requires r in EnterAll(g, vs)
    ensures exists i :: 0 <= i < |vs| && Inner(g, vs[i]) && vs[i].ref == r
    decreases |vs|
  {
    if r !in Enter(g, vs[0]) {
      EnterAllFrom(g, vs[1..], r);
      var i :| 0 <= i < |vs[1..]| && Inner(g, vs[1..][i]) && vs[1..][i].ref == r;
      assert vs[i + 1] == vs[1..][i];
    }
  }

  lemma {:induction false} EdgesFrom(g: Graph, nodes: set<Ref>, r: Ref)
    requires r in Edges(g, nodes)
    ensures exists q :: q in nodes && r in EnterAll(g, Children(g, q))
    decreases |nodes|
  {
    hide EnterAll, Children;
    var q :| q in nodes && Edges(g, nodes) == EnterAll(g, Children(g, q)) + Edges(g, nodes - {q});
    if r !in EnterAll(g, Children(g, q)) {
      EdgesFrom(g, nodes - {q}, r);
    }
  }

  /** Arriving at a node means reaching it. */
  lemma ArrivalsReached(g: Graph, v: Value, r: Ref)
    requires r in Arrivals(g, v)
    ensures r in Reached(g, v)
  {
    hide Walk, Edges, EnterAll, LeadsTo, Children;
    var nodes := Reached(g, v);
    WalkReaches(g, v);
    WalkEnters(g, v, {});
    assert nodes - {} == nodes;
    if r in Edges(g, nodes) {
      EdgesFrom(g, nodes, r);
      var q :| q in nodes && r in EnterAll(g, Children(g, q));
      EnterAllFrom(g, Children(g, q), r);
      var i :| 0 <= i < |Children(g, q)| && Inner(g, Children(g, q)[i]) && Children(g, q)[i].ref == r;
      assert Entered(g, Children(g, q)[i], nodes);
    }
  }

  // ---- is a bigint left? ------------------------------------------------------------------------

  /** Whether a bigint can still be reached in a copy: only through the payload's own nodes. */
  ghost predicate LeavesBigInt(g: Graph, o: Out)
    decreases o
  {
    match o
    case Text(_) => false
    case Kept(v) => ReachesBigInt(g, v)
    case NewObject(_, items) => exists i :: 0 <= i < |items| && LeavesBigInt(g, items[i])
    case NewList(items) => exists i :: 0 <= i < |items| && LeavesBigInt(g, items[i])
  }

  lemma {:induction false} LeavesThroughOriginals(g: Graph, v: Value, o: Out)
    requires Mirrors(g, v, o)
    ensures LeavesBigInt(g, o) <==> exists r :: r in Originals(g, o) && ReachesBigInt(g, Node(r))
    decreases o
  {
    hide ReachesBigInt;
    match o {
      case Text(_) =>
      case Kept(w) =>
        if ReachesBigInt(g, w) {
          OnlyInnerReaches(g, w);
          assert w.ref in Originals(g, o);
        }
      case NewObject(_, items) => AllLeaveThroughOriginals(g, g[v.ref].values, items);
      case NewList(items) => AllLeaveThroughOriginals(g, g[v.ref].items, items);
    }
  }

  lemma OnlyInnerReaches(g: Graph, v: Value)
    requires ReachesBigInt(g, v) && !v.BigInt?
    ensures Inner(g, v)
  {
  }

  lemma {:induction false} AllLeaveThroughOriginals(g: Graph, vs: seq<Value>, os: seq<Out>)
    requires MirrorsAll(g, vs, os)
    ensures (exists i :: 0 <= i < |os| && LeavesBigInt(g, os[i])) <==>
      exists r :: r in OriginalsAll(g, os) && ReachesBigInt(g, Node(r))
    decreases os
  {
    hide ReachesBigInt, Originals, LeavesBigInt, Mirrors;
    if os != [] {
      LeavesThroughOriginals(g, vs[0], os[0]);
      AllLeaveThroughOriginals(g, vs[1..], os[1..]);
      assert (exists i :: 0 <= i < |os| && LeavesBigInt(g, os[i])) <==>
        LeavesBigInt(g, os[0]) || exists i :: 0 <= i < |os[1..]| && LeavesBigInt(g, os[1..][i]) by {
        if i :| 0 <= i < |os| && LeavesBigInt(g, os[i]) {
          assert i > 0 ==> os[1..][i - 1] == os[i];
        }
        if i :| 0 <= i < |os[1..]| && LeavesBigInt(g, os[1..][i]) {
          assert os[i + 1] == os[1..][i];
        }
      }
    }
  }

  /** A bigint survives serialisation exactly when some node that leads to one is come to more
      than once: by sharing or by a cycle. */
  lemma BigIntLeftIff(g: Graph, v: Value)
    ensures LeavesBigInt(g, Walk(g, v, {}).0) <==>
      exists r :: Arrivals(g, v)[r] >= 2 && ReachesBigInt(g, Node(r))
  {
    hide Walk, Arrivals, ReachesBigInt, LeavesBigInt, Originals;
    WalkMirrors(g, v, {});
    LeavesThroughOriginals(g, v, Walk(g, v, {}).0);
    forall r ensures r in Originals(g, Walk(g, v, {}).0) <==> Arrivals(g, v)[r] >= 2 {
      OriginalsAreRevisits(g, v, r);
    }
  }

  /** A payload in which nothing is shared comes out without a bigint and without any of its own
      plain nodes. */
  lemma TreesComeOutClean(g: Graph, v: Value)
    requires forall r :: Arrivals(g, v)[r] <= 1
    ensures !LeavesBigInt(g, Walk(g, v, {}).0) && Originals(g, Walk(g, v, {}).0) == multiset{}
  {
    hide Walk, Arrivals, ReachesBigInt, LeavesBigInt, Originals;
    BigIntLeftIff(g, v);
    forall r ensures r !in Originals(g, Walk(g, v, {}).0) {
      OriginalsAreRevisits(g, v, r);
    }
  }

  /** The smallest case: a pair that holds one node with a bigint twice keeps it in the second
      place, with no cycle anywhere. */
  lemma SharedTwiceSurvives()
    ensures var g: Graph := map[0 := List([Node(1), Node(1)]), 1 := Plain([7], [BigInt(5)])];
      Walk(g, Node(0), {}).0 == NewList([NewObject([7], [Text(5)]), Kept(Node(1))])
  {
    var g: Graph := map[0 := List([Node(1), Node(1)]), 1 := Plain([7], [BigInt(5)])];
    var first := NewObject([7], [Text(5)]);
    var both: set<Ref> := {0, 1};
    assert [Text(5)] + [] == [Text(5)] && [BigInt(5)][1..] == [];
    assert WalkAll(g, [BigInt(5)], both) == ([Text(5)], both);
    assert {0} + {1} == both && {} + {0} == {0};
    assert Walk(g, Node(1), {0}) == (first, both);
    assert [Node(1)][1..] == [] && [Kept(Node(1))] + [] == [Kept(Node(1))];
    assert WalkAll(g, [Node(1)], both) == ([Kept(Node(1))], both);
    assert [Node(1), Node(1)][1..] == [Node(1)] && [first] + [Kept(Node(1))] == [first, Kept(Node(1))];
    assert WalkAll(g, [Node(1), Node(1)], {0}) == ([first, Kept(Node(1))], both);
  }
}
