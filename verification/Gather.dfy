/** Gathering the configuration paths of all types reachable from a root type. */
module Gather {
  import opened Graph
  import opened Loops

  datatype Attribute =
    | Plain(name: string)
    | Pointer(name: string, pointee: nat)
    | Vector(name: string, item: nat)

  /** The type registry: attributes and path label per type, and which type descends from which. */
  datatype Registry = Registry(attributes: seq<seq<Attribute>>, labels: seq<string>, childOf: set<(nat, nat)>, objectType: nat)

  function Count(g: Registry): nat { |g.attributes| }

  predicate WellFormed(g: Registry) {
    && |g.labels| == Count(g)
    && forall t, i :: 0 <= t < Count(g) && 0 <= i < |g.attributes[t]| ==>
         match g.attributes[t][i]
         case Plain(_) => true
         case Pointer(_, pointee) => pointee < Count(g)
         case Vector(_, item) => item < Count(g)
  }

  predicate AggregatesOk(g: Registry, ag: seq<(nat, nat)>) {
    forall i :: 0 <= i < |ag| ==> ag[i].0 < Count(g) && ag[i].1 < Count(g)
  }

  // ----- the labelled graph of types

  datatype Edge = Edge(name: string, to: nat)

  /** The step an attribute offers: none for a plain one and for a pointer to a bare object. */
  function AttributeEdge(g: Registry, a: Attribute): seq<Edge> {
    match a
    case Plain(_) => []
    case Pointer(name, pointee) => if pointee == g.objectType then [] else [Edge(name, pointee)]
    case Vector(name, item) => [Edge(name + "/[i]", item)]
  }

  function AttributeEdges(g: Registry, attrs: seq<Attribute>): seq<Edge> {
    if attrs == [] then [] else AttributeEdges(g, attrs[..|attrs| - 1]) + AttributeEdge(g, attrs[|attrs| - 1])
  }

  /** The steps to the first n types that descend from t. */
  function ChildEdges(g: Registry, t: nat, n: nat): seq<Edge>
    requires n <= |g.labels|
  {
    if n == 0 then [] else ChildEdges(g, t, n - 1) + (if (n - 1, t) in g.childOf then [Edge(g.labels[n - 1], n - 1)] else [])
  }

  /** An aggregation leads both ways. */
  function AggregateEdge(g: Registry, t: nat, x: (nat, nat)): seq<Edge>
    requires x.0 < |g.labels| && x.1 < |g.labels|
  {
    if x.1 == t then [Edge(g.labels[x.0], x.0)] else if x.0 == t then [Edge(g.labels[x.1], x.1)] else []
  }

  function AggregateEdges(g: Registry, t: nat, ag: seq<(nat, nat)>): seq<Edge>
    requires WellFormed(g) && AggregatesOk(g, ag)
  {
    if ag == [] then [] else AggregateEdges(g, t, ag[..|ag| - 1]) + AggregateEdge(g, t, ag[|ag| - 1])
  }

  predicate Inside(g: Registry, es: seq<Edge>) {
    forall i :: 0 <= i < |es| ==> es[i].to < Count(g)
  }

  function Edges(g: Registry, ag: seq<(nat, nat)>, t: nat): (es: seq<Edge>)
    requires WellFormed(g) && AggregatesOk(g, ag) && t < Count(g)
  {
    AttributeEdges(g, g.attributes[t]) + ChildEdges(g, t, Count(g)) + AggregateEdges(g, t, ag)
  }

  lemma {:induction false} AttributeEdgesInside(g: Registry, t: nat, n: nat)
    requires WellFormed(g) && t < Count(g) && n <= |g.attributes[t]|
    ensures Inside(g, AttributeEdges(g, g.attributes[t][..n]))
  {
    if n > 0 {
      AttributeEdgesInside(g, t, n - 1);
      assert g.attributes[t][..n][..n - 1] == g.attributes[t][..n - 1];
    }
  }

  lemma {:induction false} ChildEdgesInside(g: Registry, t: nat, n: nat)
    requires n <= |g.labels| == Count(g)
    ensures Inside(g, ChildEdges(g, t, n))
  {
    if n > 0 { ChildEdgesInside(g, t, n - 1); }
  }

  lemma {:induction false} AggregateEdgesInside(g: Registry, t: nat, ag: seq<(nat, nat)>)
    requires WellFormed(g) && AggregatesOk(g, ag)
    ensures Inside(g, AggregateEdges(g, t, ag))
    decreases |ag|
  {
    if ag != [] { AggregateEdgesInside(g, t, ag[..|ag| - 1]); }
  }

  lemma EdgesInside(g: Registry, ag: seq<(nat, nat)>, t: nat)
    requires WellFormed(g) && AggregatesOk(g, ag) && t < Count(g)
    ensures Inside(g, Edges(g, ag, t))
  {
    AttributeEdgesInside(g, t, |g.attributes[t]|);
    assert g.attributes[t][..|g.attributes[t]|] == g.attributes[t];
    ChildEdgesInside(g, t, Count(g));
    AggregateEdgesInside(g, t, ag);
    hide AttributeEdges, ChildEdges, AggregateEdges;
  }

  /** The steps of the type graph: through a pointer attribute, except to a bare object; through a container attribute;
      to a type that descends from this one; and along an aggregation, from either end. */
  ghost predicate Offers(g: Registry, ag: seq<(nat, nat)>, t: nat, name: string, u: nat)
    requires WellFormed(g) && t < Count(g)
  {
    || (Pointer(name, u) in g.attributes[t] && u != g.objectType)
    || (exists base :: Vector(base, u) in g.attributes[t] && name == base + "/[i]")
    || (u < Count(g) && (u, t) in g.childOf && name == g.labels[u])
    || (u < Count(g) && ((t, u) in ag || (u, t) in ag) && name == g.labels[u])
  }

  lemma {:induction false} InAttributes(g: Registry, attrs: seq<Attribute>, name: string, u: nat)
    ensures Edge(name, u) in AttributeEdges(g, attrs)
      <==> (Pointer(name, u) in attrs && u != g.objectType) || exists base :: Vector(base, u) in attrs && name == base + "/[i]"
    decreases |attrs|
  {
    if attrs != [] {
      var init, a := attrs[..|attrs| - 1], attrs[|attrs| - 1];
      InAttributes(g, init, name, u);
      assert attrs == init + [a];
    }
  }

  lemma {:induction false} InChildren(g: Registry, t: nat, n: nat, name: string, u: nat)
    requires n <= |g.labels|
    ensures Edge(name, u) in ChildEdges(g, t, n) <==> u < n && (u, t) in g.childOf && name == g.labels[u]
  {
    if n > 0 { InChildren(g, t, n - 1, name, u); }
  }

  lemma {:induction false} InAggregates(g: Registry, t: nat, ag: seq<(nat, nat)>, name: string, u: nat)
    requires WellFormed(g) && AggregatesOk(g, ag)
    ensures Edge(name, u) in AggregateEdges(g, t, ag) <==> u < Count(g) && ((t, u) in ag || (u, t) in ag) && name == g.labels[u]
    decreases |ag|
  {
    if ag != [] {
      var init, x := ag[..|ag| - 1], ag[|ag| - 1];
      InAggregates(g, t, init, name, u);
      assert ag == init + [x];
      hide WellFormed;
    }
  }

  /** The edges a gathering walks along are those steps. */
  lemma EdgesAreOffered(g: Registry, ag: seq<(nat, nat)>, t: nat, name: string, u: nat)
    requires WellFormed(g) && AggregatesOk(g, ag) && t < Count(g)
    ensures Edge(name, u) in Edges(g, ag, t) <==> Offers(g, ag, t, name, u)
  {
    InAttributes(g, g.attributes[t], name, u);
    InChildren(g, t, Count(g), name, u);
    InAggregates(g, t, ag, name, u);
    hide AttributeEdges, ChildEdges, AggregateEdges;
  }

  /** `s` reads each name in turn with a slash in front. */
  ghost predicate Spells(names: seq<string>, s: string) {
    if names == [] then s == ""
    else
      var n := 1 + |names[0]|;
      |s| >= n && s[0] == '/' && s[1..n] == names[0] && Spells(names[1..], s[n..])
  }

  lemma {:induction false} JoinSpells(names: seq<string>, s: string)
    ensures s == Join(names) <==> Spells(names, s)
    decreases |names|
  {
    if names != [] {
      var n := 1 + |names[0]|;
      JoinFront(names);
      hide Join;
      if |s| >= n { JoinSpells(names[1..], s[n..]); }
      var front := "/" + names[0];
      assert front[1..] == names[0];
      if s == front + Join(names[1..]) {
        assert s[n..] == Join(names[1..]) && s[..n] == front && s[1..n] == s[..n][1..];
      }
      if Spells(names, s) {
        assert s == [s[0]] + s[1..n] + s[n..];
      }
    }
  }

  lemma {:induction false} JoinFront(names: seq<string>)
    requires names != []
    ensures Join(names) == "/" + names[0] + Join(names[1..])
    decreases |names|
  {
    var m := |names| - 1;
    if m > 0 {
      JoinFront(names[..m]);
      assert names[..m][1..] == names[1..][..m - 1];
    } else {
      assert names[..0] == [] && names[1..] == [];
    }
  }

  // ----- the depth-first walk as a function

  function Join(path: seq<string>): string {
    if path == [] then "" else Join(path[..|path| - 1]) + "/" + path[|path| - 1]
  }

  /** How many types are not on the stack. */
  ghost function Unstacked(g: Registry, stack: seq<nat>): nat {
    |set t: nat | t < Count(g) && t !in stack|
  }

  lemma PushShrinks(g: Registry, stack: seq<nat>, t: nat)
    requires t < Count(g) && t !in stack
    ensures Unstacked(g, stack + [t]) < Unstacked(g, stack)
  {
    var a, b := set x: nat | x < Count(g) && x !in stack, set x: nat | x < Count(g) && x !in stack + [t];
    assert a == b + {t};
  }

  ghost function Walk(g: Registry, ag: seq<(nat, nat)>, t: nat, path: seq<string>, stack: seq<nat>): seq<(nat, string)>
    requires WellFormed(g) && AggregatesOk(g, ag) && t < Count(g)
    decreases Unstacked(g, stack), 1, 0
  {
    if t in stack then []
    else
      EdgesInside(g, ag, t);
      [(t, Join(path))] + WalkEdges(g, ag, t, Edges(g, ag, t), path, stack)
  }

  ghost function WalkEdges(g: Registry, ag: seq<(nat, nat)>, t: nat, es: seq<Edge>, path: seq<string>, stack: seq<nat>): seq<(nat, string)>
    requires WellFormed(g) && AggregatesOk(g, ag) && t < Count(g) && t !in stack && Inside(g, es)
    decreases Unstacked(g, stack), 0, |es|
  {
    if es == [] then []
    else
      var n := |es| - 1;
      PushShrinks(g, stack, t);
      WalkEdges(g, ag, t, es[..n], path, stack) + Walk(g, ag, es[n].to, path + [es[n].name], stack + [t])
  }

  lemma {:induction false} WalkEdgesAppend(g: Registry, ag: seq<(nat, nat)>, t: nat, a: seq<Edge>, b: seq<Edge>, path: seq<string>, stack: seq<nat>)
    requires WellFormed(g) && AggregatesOk(g, ag) && t < Count(g) && t !in stack && Inside(g, a) && Inside(g, b)
    ensures Inside(g, a + b)
    ensures WalkEdges(g, ag, t, a + b, path, stack) == WalkEdges(g, ag, t, a, path, stack) + WalkEdges(g, ag, t, b, path, stack)
    decreases |b|
  {
    if b == [] {
      assert a + b == a;
    } else {
      var n := |b| - 1;
      var ab := a + b;
      assert ab[..|ab| - 1] == a + b[..n] && ab[|ab| - 1] == b[n];
      assert Inside(g, ab) && Inside(g, b[..n]);
      WalkUnfold(g, ag, t, ab, path, stack);
      WalkUnfold(g, ag, t, b, path, stack);
      hide *;
      WalkEdgesAppend(g, ag, t, a, b[..n], path, stack);
      Assoc(WalkEdges(g, ag, t, a, path, stack), WalkEdges(g, ag, t, b[..n], path, stack),
            Walk(g, ag, b[n].to, path + [b[n].name], stack + [t]));
    }
  }

  lemma WalkUnfold(g: Registry, ag: seq<(nat, nat)>, t: nat, es: seq<Edge>, path: seq<string>, stack: seq<nat>)
    requires WellFormed(g) && AggregatesOk(g, ag) && t < Count(g) && t !in stack && Inside(g, es) && es != []
    ensures var n := |es| - 1;
            Inside(g, es[..n]) && es[n].to < Count(g) && WalkEdges(g, ag, t, es, path, stack)
              == WalkEdges(g, ag, t, es[..n], path, stack) + Walk(g, ag, es[n].to, path + [es[n].name], stack + [t])
  {
    hide Walk, WellFormed, AggregatesOk;
  }

  lemma WalkOneMore(g: Registry, ag: seq<(nat, nat)>, t: nat, es: seq<Edge>, e: Edge, path: seq<string>, stack: seq<nat>)
    requires WellFormed(g) && AggregatesOk(g, ag) && t < Count(g) && t !in stack && Inside(g, es) && e.to < Count(g)
    ensures Inside(g, es + [e])
    ensures WalkEdges(g, ag, t, es + [e], path, stack)
         == WalkEdges(g, ag, t, es, path, stack) + Walk(g, ag, e.to, path + [e.name], stack + [t])
  {
    hide Walk, WellFormed, AggregatesOk;
    assert (es + [e])[..|es|] == es;
  }

  /** What the walk along a type's first steps has added to the output. */
  ghost predicate Walked(g: Registry, ag: seq<(nat, nat)>, t: nat, es: seq<Edge>, path: seq<string>, stack: seq<nat>,
                         before: seq<(nat, string)>, after: seq<(nat, string)>) {
    && WellFormed(g) && AggregatesOk(g, ag) && t < Count(g) && t !in stack && Inside(g, es)
    && after == before + WalkEdges(g, ag, t, es, path, stack)
  }

  lemma WalkedOneMore(g: Registry, ag: seq<(nat, nat)>, t: nat, es: seq<Edge>, e: Edge, path: seq<string>, stack: seq<nat>,
                      before: seq<(nat, string)>, after: seq<(nat, string)>)
    requires Walked(g, ag, t, es, path, stack, before, after) && e.to < Count(g)
    ensures Walked(g, ag, t, es + [e], path, stack, before, after + Walk(g, ag, e.to, path + [e.name], stack + [t]))
  {
    WalkOneMore(g, ag, t, es, e, path, stack);
    hide Walk, WalkEdges, WellFormed, AggregatesOk, Inside;
    Assoc(before, WalkEdges(g, ag, t, es, path, stack), Walk(g, ag, e.to, path + [e.name], stack + [t]));
  }

  lemma WalkedNothing(g: Registry, ag: seq<(nat, nat)>, t: nat, path: seq<string>, stack: seq<nat>, out: seq<(nat, string)>)
    requires WellFormed(g) && AggregatesOk(g, ag) && t < Count(g) && t !in stack
    ensures Walked(g, ag, t, [], path, stack, out, out)
  {
    assert out == out + [];
  }

  lemma WalkedAll(g: Registry, ag: seq<(nat, nat)>, t: nat, path: seq<string>, stack: seq<nat>,
                  before: seq<(nat, string)>, after: seq<(nat, string)>)
    requires WellFormed(g) && AggregatesOk(g, ag) && t < Count(g)
    requires Walked(g, ag, t, Edges(g, ag, t), path, stack, before + [(t, Join(path))], after)
    ensures after == before + Walk(g, ag, t, path, stack)
  {
    hide WalkEdges, Edges, WellFormed, AggregatesOk, Join;
  }

  lemma AttributeInside(g: Registry, t: nat, i: nat)
    requires WellFormed(g) && t < Count(g) && i < |g.attributes[t]|
    ensures g.attributes[t][i].Pointer? ==> g.attributes[t][i].pointee < Count(g)
    ensures g.attributes[t][i].Vector? ==> g.attributes[t][i].item < Count(g)
  {
  }

  lemma NoEdges(g: Registry, ag: seq<(nat, nat)>, t: nat)
    requires WellFormed(g) && AggregatesOk(g, ag) && t < Count(g)
    ensures AttributeEdges(g, g.attributes[t][..0]) == [] && AggregateEdges(g, t, ag[..0]) == []
  {
  }

  lemma EdgesExtend(g: Registry, ag: seq<(nat, nat)>, t: nat, i: nat)
    requires WellFormed(g) && AggregatesOk(g, ag) && t < Count(g)
    ensures i < |g.attributes[t]| ==> AttributeEdges(g, g.attributes[t][..i + 1])
                                      == AttributeEdges(g, g.attributes[t][..i]) + AttributeEdge(g, g.attributes[t][i])
    ensures i < |ag| ==> AggregateEdges(g, t, ag[..i + 1]) == AggregateEdges(g, t, ag[..i]) + AggregateEdge(g, t, ag[i])
  {
    if i < |g.attributes[t]| { assert g.attributes[t][..i + 1][..i] == g.attributes[t][..i]; }
    if i < |ag| { assert ag[..i + 1][..i] == ag[..i]; }
    hide WellFormed;
  }

  // ----- the walk finds exactly the simple paths

  /** A sequence of steps from t that repeats no type and avoids the stack. */
  ghost predicate Simple(g: Registry, ag: seq<(nat, nat)>, t: nat, stack: seq<nat>, es: seq<Edge>)
    requires WellFormed(g) && AggregatesOk(g, ag)
    decreases |es|
  {
    && t < Count(g) && t !in stack
    && (es != [] ==> es[0] in Edges(g, ag, t) && Simple(g, ag, es[0].to, stack + [t], es[1..]))
  }

  function Target(t: nat, es: seq<Edge>): nat {
    if es == [] then t else es[|es| - 1].to
  }

  function Names(es: seq<Edge>): seq<string> {
    if es == [] then [] else [es[0].name] + Names(es[1..])
  }

  /** The steps es lead from t to x, and the path then reads s. */
  ghost predicate Leads(g: Registry, ag: seq<(nat, nat)>, t: nat, path: seq<string>, stack: seq<nat>, x: nat, s: string, es: seq<Edge>)
    requires WellFormed(g) && AggregatesOk(g, ag)
  {
    Simple(g, ag, t, stack, es) && Target(t, es) == x && s == Join(path + Names(es))
  }

  ghost predicate LeadsVia(g: Registry, ag: seq<(nat, nat)>, t: nat, path: seq<string>, stack: seq<nat>, x: nat, s: string, e: Edge, es: seq<Edge>)
    requires WellFormed(g) && AggregatesOk(g, ag)
  {
    Leads(g, ag, e.to, path + [e.name], stack + [t], x, s, es)
  }

  lemma LeadsStep(g: Registry, ag: seq<(nat, nat)>, t: nat, path: seq<string>, stack: seq<nat>, x: nat, s: string, e: Edge, es: seq<Edge>)
    requires WellFormed(g) && AggregatesOk(g, ag) && t < Count(g) && t !in stack
    ensures Leads(g, ag, t, path, stack, x, s, [e] + es) <==> e in Edges(g, ag, t) && LeadsVia(g, ag, t, path, stack, x, s, e, es)
  {
    hide Edges, Join, WellFormed, AggregatesOk;
    var all := [e] + es;
    assert all[1..] == es && all[0] == e;
    assert path + Names(all) == path + [e.name] + Names(es);
  }

  lemma LeadsNowhere(g: Registry, ag: seq<(nat, nat)>, t: nat, path: seq<string>, stack: seq<nat>, x: nat, s: string)
    requires WellFormed(g) && AggregatesOk(g, ag) && t < Count(g) && t !in stack
    ensures Leads(g, ag, t, path, stack, x, s, []) <==> (x, s) == (t, Join(path))
  {
    hide Edges, Join, WellFormed, AggregatesOk;
    assert path + [] == path;
  }

  lemma {:induction false} WalkIsExact(g: Registry, ag: seq<(nat, nat)>, t: nat, path: seq<string>, stack: seq<nat>, x: nat, s: string)
    requires WellFormed(g) && AggregatesOk(g, ag) && t < Count(g)
    ensures (x, s) in Walk(g, ag, t, path, stack) <==> exists es :: Leads(g, ag, t, path, stack, x, s, es)
    decreases Unstacked(g, stack), 1, 0
  {
    if t !in stack {
      EdgesInside(g, ag, t);
      EdgesWalkIsExact(g, ag, t, Edges(g, ag, t), path, stack, x, s);
      LeadsSplit(g, ag, t, path, stack, x, s);
      hide WalkEdges, Edges, WellFormed, AggregatesOk, Join, Leads, Inside, Offered;
    }
  }

  /** A simple path stops at once or goes on along one of the edges. */
  lemma LeadsSplit(g: Registry, ag: seq<(nat, nat)>, t: nat, path: seq<string>, stack: seq<nat>, x: nat, s: string)
    requires WellFormed(g) && AggregatesOk(g, ag) && t < Count(g) && t !in stack
    ensures (exists es :: Leads(g, ag, t, path, stack, x, s, es))
            <==> (x, s) == (t, Join(path)) || Offered(g, ag, t, path, stack, x, s, Edges(g, ag, t))
  {
    hide Edges, WellFormed, AggregatesOk, Join, Leads, LeadsVia;
    LeadsNowhere(g, ag, t, path, stack, x, s);
    if es :| Leads(g, ag, t, path, stack, x, s, es) {
      if es != [] {
        assert es == [es[0]] + es[1..];
        LeadsStep(g, ag, t, path, stack, x, s, es[0], es[1..]);
      }
    }
    if e, es :| e in Edges(g, ag, t) && LeadsVia(g, ag, t, path, stack, x, s, e, es) {
      LeadsStep(g, ag, t, path, stack, x, s, e, es);
    }
  }

  lemma {:induction false} EdgesWalkIsExact(g: Registry, ag: seq<(nat, nat)>, t: nat, es0: seq<Edge>, path: seq<string>, stack: seq<nat>, x: nat, s: string)
    requires WellFormed(g) && AggregatesOk(g, ag) && t < Count(g) && t !in stack && Inside(g, es0)
    ensures (x, s) in WalkEdges(g, ag, t, es0, path, stack)
            <==> Offered(g, ag, t, path, stack, x, s, es0)
    decreases Unstacked(g, stack), 0, |es0|
  {
    if es0 != [] {
      var n := |es0| - 1;
      var e0, rest := es0[n], es0[..n];
      PushShrinks(g, stack, t);
      assert (x, s) in WalkEdges(g, ag, t, es0, path, stack)
             <==> (x, s) in WalkEdges(g, ag, t, rest, path, stack) || (x, s) in Walk(g, ag, e0.to, path + [e0.name], stack + [t]);
      assert es0 == rest + [e0];
      hide Walk, WalkEdges, WellFormed, AggregatesOk, Join, Leads, Unstacked;
      EdgesWalkIsExact(g, ag, t, rest, path, stack, x, s);
      WalkIsExact(g, ag, e0.to, path + [e0.name], stack + [t], x, s);
      OneMoreEdge(g, ag, t, path, stack, x, s, rest, e0);
    }
  }

  ghost predicate Offered(g: Registry, ag: seq<(nat, nat)>, t: nat, path: seq<string>, stack: seq<nat>, x: nat, s: string, es0: seq<Edge>)
    requires WellFormed(g) && AggregatesOk(g, ag)
  {
    exists e, es :: e in es0 && LeadsVia(g, ag, t, path, stack, x, s, e, es)
  }

  lemma OneMoreEdge(g: Registry, ag: seq<(nat, nat)>, t: nat, path: seq<string>, stack: seq<nat>, x: nat, s: string, rest: seq<Edge>, e0: Edge)
    requires WellFormed(g) && AggregatesOk(g, ag)
    ensures Offered(g, ag, t, path, stack, x, s, rest + [e0])
            <==> Offered(g, ag, t, path, stack, x, s, rest) || exists es :: Leads(g, ag, e0.to, path + [e0.name], stack + [t], x, s, es)
  {
    hide Leads, WellFormed, AggregatesOk;
    if Offered(g, ag, t, path, stack, x, s, rest) {
      var e, es :| e in rest && LeadsVia(g, ag, t, path, stack, x, s, e, es);
      assert e in rest + [e0];
    }
    if es :| Leads(g, ag, e0.to, path + [e0.name], stack + [t], x, s, es) {
      assert e0 in rest + [e0] && LeadsVia(g, ag, t, path, stack, x, s, e0, es);
    }
  }

  /** The types a sequence of steps from t comes through. */
  function Visits(t: nat, es: seq<Edge>): seq<nat>
    decreases |es|
  {
    if es == [] then [t] else [t] + Visits(es[0].to, es[1..])
  }

  /** Every step is one the graph offers where it is taken. */
  ghost predicate IsTrail(g: Registry, ag: seq<(nat, nat)>, t: nat, es: seq<Edge>)
    requires WellFormed(g) && AggregatesOk(g, ag)
    decreases |es|
  {
    t < Count(g) && (es != [] ==> Offers(g, ag, t, es[0].name, es[0].to) && IsTrail(g, ag, es[0].to, es[1..]))
  }

  ghost predicate Avoids(vs: seq<nat>, stack: seq<nat>) {
    forall v :: v in vs ==> v !in stack
  }

  lemma VisitsHead(t: nat, vs: seq<nat>, stack: seq<nat>)
    ensures NoDup([t] + vs) && Avoids([t] + vs, stack) <==> t !in stack && NoDup(vs) && Avoids(vs, stack + [t])
  {
    var all := [t] + vs;
    assert forall i :: 0 <= i < |vs| ==> all[i + 1] == vs[i];
    assert all[0] == t;
    assert forall v :: v in stack + [t] <==> v in stack || v == t;
    assert forall v :: v in all <==> v == t || v in vs;
  }

  lemma {:induction false} SimpleMeans(g: Registry, ag: seq<(nat, nat)>, t: nat, stack: seq<nat>, es: seq<Edge>)
    requires WellFormed(g) && AggregatesOk(g, ag)
    ensures Simple(g, ag, t, stack, es) <==> IsTrail(g, ag, t, es) && NoDup(Visits(t, es)) && Avoids(Visits(t, es), stack)
    decreases |es|
  {
    if es != [] && t < Count(g) {
      EdgesAreOffered(g, ag, t, es[0].name, es[0].to);
      assert es[0] == Edge(es[0].name, es[0].to);
    }
    hide Edges, Offers, WellFormed, AggregatesOk;
    if es == [] {
    } else {
      SimpleMeans(g, ag, es[0].to, stack + [t], es[1..]);
      VisitsHead(t, Visits(es[0].to, es[1..]), stack);
      hide NoDup, Avoids;
    }
  }

  /** What a gathering from a root has to find: each type with the joined names of every simple path to it. */
  ghost predicate FoundAt(g: Registry, ag: seq<(nat, nat)>, root: nat, x: nat, s: string)
    requires WellFormed(g) && AggregatesOk(g, ag)
  {
    exists es :: IsTrail(g, ag, root, es) && NoDup(Visits(root, es)) && Target(root, es) == x && Spells(Names(es), s)
  }

  lemma WalkFindsPaths(g: Registry, ag: seq<(nat, nat)>, root: nat, x: nat, s: string)
    requires WellFormed(g) && AggregatesOk(g, ag) && root < Count(g)
    ensures (x, s) in Walk(g, ag, root, [], []) <==> FoundAt(g, ag, root, x, s)
  {
    WalkIsExact(g, ag, root, [], [], x, s);
    hide Walk, Edges, WellFormed, AggregatesOk, Join, IsTrail, NoDup, Names, Spells;
    forall es ensures Leads(g, ag, root, [], [], x, s, es)
                      <==> IsTrail(g, ag, root, es) && NoDup(Visits(root, es)) && Target(root, es) == x && Spells(Names(es), s) {
      SimpleMeans(g, ag, root, [], es);
      JoinSpells(Names(es), s);
      assert [] + Names(es) == Names(es);
    }
  }

  // ----- the order of pairs of a type and a path

  predicate StringLess(a: string, b: string) {
    b != "" && (a == "" || a[0] < b[0] || (a[0] == b[0] && StringLess(a[1..], b[1..])))
  }

  /** The strings agree up to some place, where the first ends or has the smaller character. */
  ghost predicate LessAt(a: string, b: string, k: nat) {
    && k <= |a| && k < |b| && a[..k] == b[..k]
    && (k == |a| || a[k] < b[k])
  }

  lemma {:induction false} StringLessMeans(a: string, b: string)
    ensures StringLess(a, b) <==> exists k: nat :: LessAt(a, b, k)
    decreases |a|
  {
    forall k: nat | LessAt(a, b, k) && k > 0 ensures a[0] == b[0] {
      assert a[..k][0] == a[0] && b[..k][0] == b[0];
    }
    if a == "" || b == "" || a[0] != b[0] {
      if b != "" && (a == "" || a[0] < b[0]) { assert LessAt(a, b, 0); }
    } else {
      StringLessMeans(a[1..], b[1..]);
      if k: nat :| LessAt(a[1..], b[1..], k) {
        assert a[..k + 1] == [a[0]] + a[1..][..k] && b[..k + 1] == [b[0]] + b[1..][..k];
        assert LessAt(a, b, k + 1);
      }
      if k: nat :| LessAt(a, b, k) {
        assert k > 0 && a[1..][..k - 1] == a[..k][1..] && b[1..][..k - 1] == b[..k][1..];
        assert LessAt(a[1..], b[1..], k - 1);
      }
    }
  }

  predicate Less(a: (nat, string), b: (nat, string)) {
    a.0 < b.0 || (a.0 == b.0 && StringLess(a.1, b.1))
  }

  lemma {:induction false} StringOrder(a: string, b: string, c: string)
    ensures !StringLess(a, a)
    ensures StringLess(a, b) || a == b || StringLess(b, a)
    ensures StringLess(a, b) && StringLess(b, c) ==> StringLess(a, c)
    decreases |a|
  {
    if a != "" {
      StringOrder(a[1..], if b == "" then "" else b[1..], if c == "" then "" else c[1..]);
      if b != "" && a[0] == b[0] && a[1..] == b[1..] {
        assert a == [a[0]] + a[1..] && b == [b[0]] + b[1..];
      }
    }
  }

  lemma Order(a: (nat, string), b: (nat, string), c: (nat, string))
    ensures !Less(a, a)
    ensures Less(a, b) || a == b || Less(b, a)
    ensures Less(a, b) && Less(b, c) ==> Less(a, c)
  {
    StringOrder(a.1, b.1, c.1);
  }

  ghost predicate Sorted(s: seq<(nat, string)>) {
    forall i, j :: 0 <= i < j < |s| ==> !Less(s[j], s[i])
  }

  ghost predicate StrictlySorted(s: seq<(nat, string)>) {
    forall i, j :: 0 <= i < j < |s| ==> Less(s[i], s[j])
  }

  ghost predicate SameMembers(a: seq<(nat, string)>, b: seq<(nat, string)>) {
    forall x :: x in a <==> x in b
  }

  /** `std::sort`. */
  method Sort(s: seq<(nat, string)>) returns (r: seq<(nat, string)>)
    ensures Sorted(r) && multiset(r) == multiset(s)
  {
    hide Less;
    r := [];
    for n := 0 to |s|
      invariant Sorted(r) && multiset(r) == multiset(s[..n])
    {
      var k := 0;
      while k < |r| && !Less(s[n], r[k])
        invariant k <= |r| && forall i :: 0 <= i < k ==> !Less(s[n], r[i])
      {
        k := k + 1;
      }
      InsertedInOrder(r, k, s[n]);
      assert r == r[..k] + r[k..] && s[..n + 1] == s[..n] + [s[n]];
      r := r[..k] + [s[n]] + r[k..];
    }
    assert s[..|s|] == s;
  }

  lemma InsertedInOrder(r: seq<(nat, string)>, k: nat, x: (nat, string))
    requires Sorted(r) && k <= |r| && (forall i :: 0 <= i < k ==> !Less(x, r[i])) && (k < |r| ==> Less(x, r[k]))
    ensures Sorted(r[..k] + [x] + r[k..])
  {
    hide Less;
    forall j | k <= j < |r| ensures !Less(r[j], x) {
      Order(r[j], x, r[k]);
      Order(r[j], r[j], r[j]);
    }
  }

  /** `std::unique` and the erasure of what it leaves over. */
  method Unique(s: seq<(nat, string)>) returns (r: seq<(nat, string)>)
    requires Sorted(s)
    ensures StrictlySorted(r) && SameMembers(r, s)
  {
    hide Less;
    r := [];
    for n := 0 to |s|
      invariant StrictlySorted(r) && SameMembers(r, s[..n])
      invariant if n == 0 then r == [] else r != [] && r[|r| - 1] == s[n - 1]
    {
      assert s[..n + 1] == s[..n] + [s[n]];
      if n == 0 || s[n] != s[n - 1] {
        forall i | 0 <= i < |r| ensures Less(r[i], s[n]) {
          Order(s[n - 1], s[n], s[n]);
          Order(r[i], s[n - 1], s[n]);
        }
        r := r + [s[n]];
      }
    }
    assert s[..|s|] == s;
  }

  lemma SameMultisetSameMembers(a: seq<(nat, string)>, b: seq<(nat, string)>)
    requires multiset(a) == multiset(b)
    ensures SameMembers(a, b)
  {
    forall x ensures x in a <==> x in b {
      assert x in a <==> x in multiset(a);
      assert x in b <==> x in multiset(b);
    }
  }

  // ----- the class

  class StaticInformation {
    const g: Registry
    var output: seq<(nat, string)>
    var currentPath: seq<string>
    var alreadyProcessed: seq<nat>
    var aggregates: seq<(nat, nat)>

    constructor (g: Registry)
      requires WellFormed(g)
      ensures Valid() && this.g == g && output == [] && aggregates == []
    {
      this.g := g;
      output, currentPath, alreadyProcessed, aggregates := [], [], [], [];
    }

    ghost predicate Sound()
      reads this
    {
      WellFormed(g) && AggregatesOk(g, aggregates)
    }

    /** Between gatherings nothing is on the path or the stack. */
    ghost predicate Valid()
      reads this
    {
      Sound() && currentPath == [] && alreadyProcessed == []
    }

    method RecordAggregationInfo(a: nat, b: nat)
      requires Valid() && a < Count(g) && b < Count(g)
      modifies `aggregates
      ensures Valid() && aggregates == old(aggregates) + [(a, b)]
    {
      aggregates := aggregates + [(a, b)];
    }

    method GetCurrentPath() returns (s: string)
      ensures s == Join(currentPath) && Spells(currentPath, s)
    {
      JoinSpells(currentPath, Join(currentPath));
      s := "";
      for i := 0 to |currentPath|
        invariant s == Join(currentPath[..i])
      {
        assert currentPath[..i + 1][..i] == currentPath[..i];
        s := s + "/" + currentPath[i];
      }
      assert currentPath[..|currentPath|] == currentPath;
    }

    method RecordOutput(tid: nat)
      modifies `output
      ensures output == old(output) + [(tid, Join(currentPath))]
    {
      var s := GetCurrentPath();
      output := output + [(tid, s)];
    }

    method HasAlreadyBeenProcessed(tid: nat) returns (found: bool)
      ensures found <==> tid in alreadyProcessed
    {
      for i := 0 to |alreadyProcessed|
        invariant tid !in alreadyProcessed[..i]
      {
        if alreadyProcessed[i] == tid { return true; }
      }
      return false;
    }

    /** Records every type reachable from the root with the names of each simple path to it, each once, in order. */
    method Gather(root: nat)
      requires Valid() && root < Count(g)
      modifies `output, `currentPath, `alreadyProcessed
      ensures Valid() && StrictlySorted(output)
      ensures forall x: nat, s :: (x, s) in output <==> (x, s) in old(output) || FoundAt(g, aggregates, root, x, s)
    {
      hide Walk, WellFormed, AggregatesOk, FoundAt, StrictlySorted, Sorted;
      ghost var before := output;
      DoGather(root);
      ghost var gathered := output;
      forall x: nat, s ensures (x, s) in gathered <==> (x, s) in before || FoundAt(g, aggregates, root, x, s) {
        WalkFindsPaths(g, aggregates, root, x, s);
      }
      var sorted := Sort(output);
      SameMultisetSameMembers(sorted, gathered);
      output := Unique(sorted);
    }

    /** The paths recorded for a type. */
    method Get(tid: nat) returns (paths: seq<string>)
      ensures forall s :: s in paths <==> (tid, s) in output
      ensures StrictlySorted(output) ==> NoDup(paths)
    {
      paths := [];
      ghost var from: seq<nat> := [];
      for i := 0 to |output|
        invariant |from| == |paths| && forall k :: 0 <= k < |paths| ==> from[k] < i && output[from[k]] == (tid, paths[k])
        invariant forall k, l :: 0 <= k < l < |paths| ==> from[k] < from[l]
        invariant forall j :: 0 <= j < i && output[j].0 == tid ==> output[j].1 in paths
      {
        if output[i].0 == tid { paths, from := paths + [output[i].1], from + [i]; }
      }
      if StrictlySorted(output) {
        forall k, l | 0 <= k < l < |paths| ensures paths[k] != paths[l] {
          Order(output[from[k]], output[from[l]], output[from[l]]);
          assert Less(output[from[k]], output[from[l]]);
        }
      }
    }

    /** Gathers one step further; path and stack are as before. */
    method Step(tid: nat, e: Edge, ghost es: seq<Edge>, ghost base: seq<(nat, string)>)
      requires Walked(g, aggregates, tid, es, currentPath, alreadyProcessed, base, output) && e.to < Count(g)
      modifies `output, `currentPath, `alreadyProcessed
      ensures currentPath == old(currentPath) && alreadyProcessed == old(alreadyProcessed)
      ensures Walked(g, aggregates, tid, es + [e], currentPath, alreadyProcessed, base, output)
      decreases Unstacked(g, alreadyProcessed), 0
    {
      PushShrinks(g, alreadyProcessed, tid);
      WalkedOneMore(g, aggregates, tid, es, e, currentPath, alreadyProcessed, base, output);
      assert Sound();
      hide Walk, Unstacked, WellFormed, AggregatesOk, Walked;
      currentPath := currentPath + [e.name];
      alreadyProcessed := alreadyProcessed + [tid];
      DoGather(e.to);
      alreadyProcessed := alreadyProcessed[..|alreadyProcessed| - 1];
      currentPath := currentPath[..|currentPath| - 1];
    }

    /** Records a type and everything reachable from it, except through the types on the stack. */
    method DoGather(tid: nat)
      requires Sound() && tid < Count(g)
      modifies `output, `currentPath, `alreadyProcessed
      ensures currentPath == old(currentPath) && alreadyProcessed == old(alreadyProcessed)
      ensures output == old(output) + Walk(g, aggregates, tid, currentPath, alreadyProcessed)
      decreases Unstacked(g, alreadyProcessed), 2
    {
      var done := HasAlreadyBeenProcessed(tid);
      if done { return; }
      hide Walk, WalkEdges, Unstacked, WellFormed, AggregatesOk, Walked, AttributeEdges, ChildEdges, AggregateEdges;
      ghost var before := output;
      RecordOutput(tid);
      ghost var base := output;
      GatherAttributes(tid, base);
      GatherChildren(tid, base);
      GatherAggregates(tid, base);
      WalkedAll(g, aggregates, tid, currentPath, alreadyProcessed, before, output);
    }

    /** The loop over a type's attributes. */
    method GatherAttributes(tid: nat, ghost base: seq<(nat, string)>)
      requires Sound() && tid < Count(g) && tid !in alreadyProcessed && output == base
      modifies `output, `currentPath, `alreadyProcessed
      ensures currentPath == old(currentPath) && alreadyProcessed == old(alreadyProcessed)
      ensures Walked(g, aggregates, tid, AttributeEdges(g, g.attributes[tid]), currentPath, alreadyProcessed, base, output)
      decreases Unstacked(g, alreadyProcessed), 1
    {
      hide Unstacked, AggregatesOk, WellFormed, Walked, AttributeEdges, Walk, WalkEdges;
      var attrs := g.attributes[tid];
      WalkedNothing(g, aggregates, tid, currentPath, alreadyProcessed, output);
      NoEdges(g, aggregates, tid);
      for i := 0 to |attrs|
        invariant currentPath == old(currentPath) && alreadyProcessed == old(alreadyProcessed)
        invariant Walked(g, aggregates, tid, AttributeEdges(g, attrs[..i]), currentPath, alreadyProcessed, base, output)
      {
        EdgesExtend(g, aggregates, tid, i);
        ghost var es := AttributeEdges(g, attrs[..i]);
        assert es + [] == es;
        AttributeInside(g, tid, i);
        match attrs[i]
        case Pointer(name, pointee) =>
          if pointee != g.objectType {
            Step(tid, Edge(name, pointee), es, base);
          }
        case Vector(name, item) =>
          Step(tid, Edge(name + "/[i]", item), es, base);
        case Plain(_) =>
      }
      assert attrs[..|attrs|] == attrs;
    }

    /** The loop over all registered types, for those that descend from this one. */
    method GatherChildren(tid: nat, ghost base: seq<(nat, string)>)
      requires Sound() && tid < Count(g)
      requires Walked(g, aggregates, tid, AttributeEdges(g, g.attributes[tid]), currentPath, alreadyProcessed, base, output)
      modifies `output, `currentPath, `alreadyProcessed
      ensures currentPath == old(currentPath) && alreadyProcessed == old(alreadyProcessed)
      ensures Walked(g, aggregates, tid, AttributeEdges(g, g.attributes[tid]) + ChildEdges(g, tid, Count(g)),
                     currentPath, alreadyProcessed, base, output)
      decreases Unstacked(g, alreadyProcessed), 1
    {
      hide Unstacked, AggregatesOk, Walked, AttributeEdges;
      ghost var first := AttributeEdges(g, g.attributes[tid]);
      assert first + [] == first;
      for j := 0 to |g.labels|
        invariant currentPath == old(currentPath) && alreadyProcessed == old(alreadyProcessed)
        invariant Walked(g, aggregates, tid, first + ChildEdges(g, tid, j), currentPath, alreadyProcessed, base, output)
      {
        if (j, tid) in g.childOf {
          ghost var es := first + ChildEdges(g, tid, j);
          assert es + [Edge(g.labels[j], j)] == first + ChildEdges(g, tid, j + 1);
          Step(tid, Edge(g.labels[j], j), es, base);
        } else {
          assert ChildEdges(g, tid, j + 1) == ChildEdges(g, tid, j) + [] == ChildEdges(g, tid, j);
        }
      }
    }

    /** The loop over the recorded aggregations. */
    method GatherAggregates(tid: nat, ghost base: seq<(nat, string)>)
      requires Sound() && tid < Count(g)
      requires Walked(g, aggregates, tid, AttributeEdges(g, g.attributes[tid]) + ChildEdges(g, tid, Count(g)),
                      currentPath, alreadyProcessed, base, output)
      modifies `output, `currentPath, `alreadyProcessed
      ensures currentPath == old(currentPath) && alreadyProcessed == old(alreadyProcessed)
      ensures Walked(g, aggregates, tid, Edges(g, aggregates, tid), currentPath, alreadyProcessed, base, output)
      decreases Unstacked(g, alreadyProcessed), 1
    {
      hide Unstacked, Walked, AttributeEdges, ChildEdges, AggregateEdges;
      NoEdges(g, aggregates, tid);
      ghost var first := AttributeEdges(g, g.attributes[tid]) + ChildEdges(g, tid, Count(g));
      assert first + [] == first;
      for k := 0 to |aggregates|
        invariant currentPath == old(currentPath) && alreadyProcessed == old(alreadyProcessed)
        invariant Walked(g, aggregates, tid, first + AggregateEdges(g, tid, aggregates[..k]), currentPath, alreadyProcessed, base, output)
      {
        EdgesExtend(g, aggregates, tid, k);
        var pair := aggregates[k];
        ghost var es := first + AggregateEdges(g, tid, aggregates[..k]);
        assert es + AggregateEdge(g, tid, pair) == first + AggregateEdges(g, tid, aggregates[..k + 1]);
        if pair.0 == tid || pair.1 == tid {
          var other := pair.1;
          if pair.1 == tid { other := pair.0; }
          Step(tid, Edge(g.labels[other], other), es, base);
        } else {
          assert es + [] == es;
        }
      }
      assert aggregates[..|aggregates|] == aggregates;
    }
  }
}
