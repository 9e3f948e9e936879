/** The size and depth of a tree by the ways down into it. A way down says at each node which child
    it takes; every node is at the end of exactly one. */
module TreePaths {
  import opened Chars
  import opened RichText

  type Path = seq<nat>

  function AllItems(items: seq<ListItem>): seq<Node> {
    if items == [] then [] else items[0].nodes + AllItems(items[1..])
  }

  /** What a node holds: its nodes, or those of all its items. */
  function Children(n: Node): seq<Node> {
    match n
    case Root(ns) => ns
    case Paragraph(ns) => ns
    case Heading(_, ns) => ns
    case Subtext(ns) => ns
    case Blockquote(ns) => ns
    case ListBlock(_, _, items) => AllItems(items)
    case _ => []
  }

  lemma {:induction false} ItemsMeasure(items: seq<ListItem>)
    ensures CountItems(items) == CountAll(AllItems(items)) && DepthItems(items) == DepthAll(AllItems(items))
    decreases items
  {
    if items != [] {
      ItemsMeasure(items[1..]);
      MeasureAppend(items[0].nodes, AllItems(items[1..]));
    }
  }

  lemma ChildrenMeasure(n: Node)
    ensures Count(n) == 1 + CountAll(Children(n)) && Depth(n) == 1 + DepthAll(Children(n))
  {
    if n.ListBlock? {
      ItemsMeasure(n.items);
    }
  }

  /** The way leads to a node. */
  predicate LeadsDown(n: Node, p: Path)
    decreases |p|
  {
    p == [] || (p[0] < |Children(n)| && LeadsDown(Children(n)[p[0]], p[1..]))
  }

  /** All ways down from a node. */
  function PathsOf(n: Node): set<Path>
    decreases Depth(n), 0
  {
    ChildrenMeasure(n);
    {[]} + PathsInto(Children(n), 0)
  }

  /** Those into the children from the `k`-th on, of which `ns` are the rest. */
  function PathsInto(ns: seq<Node>, k: nat): set<Path>
    decreases DepthAll(ns), |ns| + 1
  {
    if ns == [] then {} else Through(PathsOf(ns[0]), k) + PathsInto(ns[1..], k + 1)
  }

  function Through(paths: set<Path>, k: nat): set<Path> {
    set p | p in paths :: [k] + p
  }

  lemma OneWay(k: nat, p: Path, q: Path)
    ensures [k] + p == [k] + q <==> p == q
  {
    assert ([k] + p)[1..] == p && ([k] + q)[1..] == q;
  }

  lemma {:induction false} ThroughSize(paths: set<Path>, k: nat)
    ensures |Through(paths, k)| == |paths|
    decreases |paths|
  {
    if paths != {} {
      var p :| p in paths;
      ThroughSize(paths - {p}, k);
      assert Through(paths, k) == Through(paths - {p}, k) + {[k] + p};
      forall q: Path {
        OneWay(k, p, q);
      }
    }
  }

  lemma {:induction false} IntoStarts(ns: seq<Node>, k: nat)
    ensures forall p :: p in PathsInto(ns, k) ==> p != [] && p[0] >= k
    decreases |ns|
  {
    hide PathsOf;
    if ns != [] {
      IntoStarts(ns[1..], k + 1);
    }
  }

  /** There are as many ways down as nodes are counted. */
  lemma {:induction false} CountIsPaths(n: Node)
    ensures |PathsOf(n)| == Count(n)
    decreases Depth(n), 0
  {
    ChildrenMeasure(n);
    CountIsPathsInto(Children(n), 0);
    IntoStarts(Children(n), 0);
  }

  lemma {:induction false} CountIsPathsInto(ns: seq<Node>, k: nat)
    ensures |PathsInto(ns, k)| == CountAll(ns)
    decreases DepthAll(ns), |ns| + 1
  {
    hide PathsOf, Count, Depth;
    if ns != [] {
      CountIsPaths(ns[0]);
      CountIsPathsInto(ns[1..], k + 1);
      ThroughSize(PathsOf(ns[0]), k);
      IntoStarts(ns[1..], k + 1);
      assert Through(PathsOf(ns[0]), k) !! PathsInto(ns[1..], k + 1);
    }
  }

  /** They are the ways that lead to a node. */
  lemma {:induction false} PathsLead(n: Node, p: Path)
    ensures p in PathsOf(n) <==> LeadsDown(n, p)
    decreases |p|, |Children(n)| + 1
  {
    if p != [] {
      IntoLeads(Children(n), 0, p);
    }
  }

  lemma {:induction false} IntoLeads(ns: seq<Node>, k: nat, p: Path)
    requires p != []
    ensures p in PathsInto(ns, k) <==> k <= p[0] < k + |ns| && LeadsDown(ns[p[0] - k], p[1..])
    decreases |p|, |ns|
  {
    hide PathsOf, LeadsDown;
    if ns != [] {
      IntoLeads(ns[1..], k + 1, p);
      IntoStarts(ns[1..], k + 1);
      assert [p[0]] + p[1..] == p;
      if p[0] == k {
        PathsLead(ns[0], p[1..]);
        if p in Through(PathsOf(ns[0]), k) {
          var q :| q in PathsOf(ns[0]) && [k] + q == p;
          assert q == p[1..];
        }
      } else {
        assert p !in Through(PathsOf(ns[0]), k);
      }
    }
  }

  /** The depth is the number of nodes on the longest way down. */
  lemma {:induction false} DepthIsLongest(n: Node) returns (longest: Path)
    ensures LeadsDown(n, longest) && |longest| + 1 == Depth(n)
    ensures forall p :: LeadsDown(n, p) ==> |p| + 1 <= Depth(n)
    decreases Depth(n), 0
  {
    ChildrenMeasure(n);
    var children := Children(n);
    longest := [];
    if children != [] {
      var k, below := DepthInto(children);
      longest := [k] + below;
      assert longest[1..] == below;
    }
    forall p | LeadsDown(n, p) ensures |p| + 1 <= Depth(n) {
      if p != [] {
        assert LeadsDown(children[p[0]], p[1..]);
        ChildDepth(children, p[0]);
        var other := DepthIsLongest(children[p[0]]);
      }
    }
  }

  lemma {:induction false} ChildDepth(ns: seq<Node>, k: nat)
    requires k < |ns|
    ensures Depth(ns[k]) <= DepthAll(ns)
    decreases |ns|
  {
    hide Depth;
    if k > 0 {
      ChildDepth(ns[1..], k - 1);
    }
  }

  lemma {:induction false} DepthInto(ns: seq<Node>) returns (k: nat, below: Path)
    requires ns != []
    ensures k < |ns| && LeadsDown(ns[k], below) && |below| + 1 == DepthAll(ns)
    decreases DepthAll(ns), |ns| + 1
  {
    hide Depth, LeadsDown;
    DepthPositive(ns[0]);
    if ns[1..] == [] || Depth(ns[0]) >= DepthAll(ns[1..]) {
      k := 0;
      below := DepthIsLongest(ns[0]);
    } else {
      k, below := DepthInto(ns[1..]);
      k := k + 1;
    }
  }

  /** The node at the end of a way. */
  function NodeAt(n: Node, p: Path): Node
    requires LeadsDown(n, p)
    decreases |p|
  {
    if p == [] then n else NodeAt(Children(n)[p[0]], p[1..])
  }

  /** What the schema asks of a node on its own: inline nodes where a run stands, levels, indents and
      lengths within their bounds, identifiers of their form, safe links, and no root further down. */
  predicate Allowed(n: Node) {
    && !n.Root?
    && (n.Paragraph? || n.Heading? || n.Subtext? ==> forall i :: 0 <= i < |n.nodes| ==> IsInline(n.nodes[i]))
    && (n.Heading? ==> n.level in [1, 2, 3])
    && (n.ListBlock? ==> n.indent in [0, 1, 2, 3])
    && (n.CodeBlock? && n.lang.Some? ==> |n.lang.value| <= 32)
    && (n.Mention? ==> (UuidForm(n.id, IsHex) || IsCuid(n.id)) && (n.display.Some? ==> 1 <= |n.display.value| <= 100))
    && (n.Emoji? ==>
          && 1 <= |n.name| <= 64
          && (n.customId.Some? ==> UuidForm(n.customId.value, IsHex) || IsCuid(n.customId.value)))
    && (n.Link? ==> IsSafeLinkUrl(n.url))
  }

  lemma {:induction false} AllAllowed(ns: seq<Node>)
    ensures SchemaAll(ns) <==> forall i :: 0 <= i < |ns| ==> SchemaNode(ns[i])
    decreases |ns|
  {
    hide SchemaNode;
    if ns != [] {
      AllAllowed(ns[1..]);
      assert forall i :: 0 < i < |ns| ==> ns[i] == ns[1..][i - 1];
    }
  }

  lemma {:induction false} ItemsAllowed(items: seq<ListItem>)
    ensures SchemaItems(items) <==> SchemaAll(AllItems(items))
    decreases |items|
  {
    if items != [] {
      ItemsAllowed(items[1..]);
      SchemaAppend(items[0].nodes, AllItems(items[1..]));
    }
  }

  lemma SchemaHere(n: Node)
    ensures SchemaNode(n) <==> Allowed(n) && SchemaAll(Children(n))
  {
    hide UuidForm, IsCuid, IsSafeLinkUrl;
    if n.ListBlock? {
      ItemsAllowed(n.items);
    }
  }

  ghost predicate AllAllowedBelow(n: Node) {
    forall p :: LeadsDown(n, p) ==> Allowed(NodeAt(n, p))
  }

  lemma NotAllAllowed(n: Node, p: Path)
    requires LeadsDown(n, p) && !Allowed(NodeAt(n, p))
    ensures !AllAllowedBelow(n)
  {
    hide Allowed;
  }

  /** The schema takes a node exactly when it allows every node below and including it. */
  lemma {:induction false} SchemaNodeIff(n: Node)
    ensures SchemaNode(n) <==> AllAllowedBelow(n)
    decreases Depth(n)
  {
    hide SchemaNode, SchemaAll, Allowed, Depth, Children;
    var children := Children(n);
    SchemaHere(n);
    AllAllowed(children);
    ChildrenMeasure(n);
    forall i | 0 <= i < |children|
      ensures SchemaNode(children[i]) <==> AllAllowedBelow(children[i])
    {
      ChildDepth(children, i);
      SchemaNodeIff(children[i]);
    }
    if SchemaNode(n) {
      forall p | LeadsDown(n, p) ensures Allowed(NodeAt(n, p)) {
        if p == [] {
          assert NodeAt(n, p) == n;
        } else {
          assert SchemaNode(children[p[0]]) && LeadsDown(children[p[0]], p[1..]);
        }
      }
    } else if Allowed(n) {
      var i :| 0 <= i < |children| && !SchemaNode(children[i]);
      var p :| LeadsDown(children[i], p) && !Allowed(NodeAt(children[i], p));
      assert ([i] + p)[1..] == p;
      assert LeadsDown(n, [i] + p) && NodeAt(n, [i] + p) == NodeAt(children[i], p);
      NotAllAllowed(n, [i] + p);
    } else {
      NotAllAllowed(n, []);
    }
  }

  /** The schema takes a root whose nodes it takes, with at most 500 ways down, each of at most ten
      nodes. */
  lemma SchemaRootIff(n: Node)
    ensures SchemaRoot(n) <==>
      n.Root? && SchemaAll(n.nodes) && |PathsOf(n)| <= 500 && forall p :: LeadsDown(n, p) ==> |p| + 1 <= 10
  {
    hide SchemaAll, PathsOf, LeadsDown, Depth, Count;
    CountIsPaths(n);
    var longest := DepthIsLongest(n);
  }

  /** A link is safe if it is not blank and, when it names a scheme, that is http or https. */
  lemma SafeLinkIff(url: Str)
    ensures IsSafeLinkUrl(url) <==>
      && !AllOf(url, IsSpace)
      && forall scheme: Str :: IsSchemeOf(scheme, Trim(url)) ==> LowerAll(scheme) in [HTTP, HTTPS]
  {
    hide Trim, IsSchemeUnit, IsSpace;
    TrimSpec(url);
    var t := Trim(url);
    forall scheme: Str | IsSchemeOf(scheme, t)
      ensures HasScheme(t) && (LowerAll(scheme) in [HTTP, HTTPS] <==> HasHttpScheme(t))
    {
      SchemeIs(scheme, t);
    }
    if t != [] && HasScheme(t) {
      SchemeExists(t);
    }
  }

  /** The text begins with the scheme and a colon. */
  predicate IsSchemeOf(scheme: Str, t: Str) {
    && scheme + [0x3A] <= t && scheme != [] && IsLower(Lower(scheme[0])) && AllOf(scheme, IsSchemeUnit)
  }

  function LowerAll(s: Str): Str { seq(|s|, i requires 0 <= i < |s| => Lower(s[i])) }

  lemma SchemeExists(t: Str)
    requires HasScheme(t)
    ensures IsSchemeOf(t[..Run(t, 1, IsSchemeUnit)], t)
  {
    var k := Run(t, 1, IsSchemeUnit);
    assert t[..k] + [0x3A] == t[..k + 1];
  }

  lemma SchemeIs(scheme: Str, t: Str)
    requires IsSchemeOf(scheme, t)
    ensures HasScheme(t) && (LowerAll(scheme) in [HTTP, HTTPS] <==> HasHttpScheme(t))
  {
    var n := |scheme|;
    assert t[..n] == scheme && t[n] == 0x3A;
    assert forall i :: 0 <= i < n ==> t[i] == scheme[i];
    assert Run(t, 1, IsSchemeUnit) == n;
    if LowerAll(scheme) == HTTP || LowerAll(scheme) == HTTPS {
      assert forall i :: 0 <= i < n ==> LowerAll(scheme)[i] == Lower(t[i]);
    }
    if HasHttpScheme(t) {
      assert n == 4 || n == 5;
      assert LowerAll(scheme) == HTTP || LowerAll(scheme) == HTTPS;
    }
  }

  lemma DepthPositive(n: Node)
    ensures Depth(n) >= 1
  {
  }
}
