/** Reading the link lines: both ends of a line get a new device, and `nbr2if` records it in both directions. */
module Wiring {
  import opened Graph
  import opened TopologyGen

  /** The link table so far, and how many devices each node has besides its loopback. */
  datatype Wired = Wired(nb: Neighbours, devices: map<Node, nat>)

  function Devices(w: Wired, a: Node): nat {
    if a in w.devices then w.devices[a] else 0
  }

  /** One end of a line: `a` gets its next device, which leads to `b`. */
  function Attach(w: Wired, a: Node, b: Node, delay: nat, bw: nat): Wired {
    var row: map<Node, Interface> := if a in w.nb then w.nb[a] else map[];
    var idx := Devices(w, a) + 1;
    Wired(w.nb[a := row[b := Interface(idx, true, delay, bw)]], w.devices[a := idx])
  }

  function BitsPerSecond(rate: nat): nat {
    rate * 1_000_000_000
  }

  function AddLine(w: Wired, l: Link): Wired {
    Attach(Attach(w, l.src, l.dst, l.latency, BitsPerSecond(l.rate)), l.dst, l.src, l.latency, BitsPerSecond(l.rate))
  }

  function Wire(ls: seq<Link>): Wired {
    if ls == [] then Wired(map[], map[]) else AddLine(Wire(ls[..|ls| - 1]), ls[|ls| - 1])
  }

  /** One end gets a new device. */
  method AttachEnd(nb: Neighbours, devices: map<Node, nat>, a: Node, b: Node, delay: nat, bw: nat)
    returns (nb': Neighbours, devices': map<Node, nat>)
    ensures Wired(nb', devices') == Attach(Wired(nb, devices), a, b, delay, bw)
  {
    var idx := (if a in devices then devices[a] else 0) + 1;
    devices' := devices[a := idx];
    var row: map<Node, Interface> := if a in nb then nb[a] else map[];
    nb' := nb[a := row[b := Interface(idx, true, delay, bw)]];
  }

  method ReadLinks(ls: seq<Link>) returns (nbr2if: Neighbours, devices: map<Node, nat>)
    ensures Wired(nbr2if, devices) == Wire(ls)
  {
    nbr2if, devices := map[], map[];
    assert Wire(ls[..0]) == Wired(nbr2if, devices);
    hide Wire, Attach, BitsPerSecond;
    for i := 0 to |ls|
      invariant Wired(nbr2if, devices) == Wire(ls[..i])
    {
      WireSnoc(ls, i);
      var src, dst := ls[i].src, ls[i].dst;
      var delay, bw := ls[i].latency, BitsPerSecond(ls[i].rate);
      nbr2if, devices := AttachEnd(nbr2if, devices, src, dst, delay, bw);
      nbr2if, devices := AttachEnd(nbr2if, devices, dst, src, delay, bw);
    }
    assert ls[..|ls|] == ls;
  }

  lemma WireSnoc(ls: seq<Link>, i: nat)
    requires i < |ls|
    ensures Wire(ls[..i + 1]) == AddLine(Wire(ls[..i]), ls[i])
  {
    hide AddLine;
    assert ls[..i + 1][..i] == ls[..i];
  }

  predicate Joins(l: Link, a: Node, b: Node) {
    (l.src == a && l.dst == b) || (l.src == b && l.dst == a)
  }

  /** The interface from `a` to `b` is the one of line `l`. */
  ghost predicate From(nb: Neighbours, a: Node, b: Node, l: Link) {
    Up(nb, a, b) && Joins(l, a, b) && nb[a][b].delay == l.latency && nb[a][b].bw == BitsPerSecond(l.rate)
  }

  /** What one end of a line changes. */
  lemma AttachAt(w: Wired, a: Node, b: Node, delay: nat, bw: nat, x: Node, y: Node)
    ensures var w' := Attach(w, a, b, delay, bw);
      && Devices(w', x) == Devices(w, x) + (if x == a then 1 else 0)
      && if x == a && y == b then Up(w'.nb, x, y) && w'.nb[x][y] == Interface(Devices(w, a) + 1, true, delay, bw)
         else (Up(w'.nb, x, y) <==> Up(w.nb, x, y)) && (Up(w.nb, x, y) ==> w'.nb[x][y] == w.nb[x][y])
  {
  }

  /** What a line changes at one node, towards another. */
  lemma LineAt(w: Wired, l: Link, x: Node, y: Node)
    ensures var w' := AddLine(w, l);
      && Devices(w, x) <= Devices(w', x)
      && if Joins(l, x, y) then
           From(w'.nb, x, y, l) && Devices(w, x) < w'.nb[x][y].idx <= Devices(w', x)
         else (Up(w'.nb, x, y) <==> Up(w.nb, x, y)) && (Up(w.nb, x, y) ==> w'.nb[x][y] == w.nb[x][y])
  {
    var bw := BitsPerSecond(l.rate);
    var v := Attach(w, l.src, l.dst, l.latency, bw);
    AttachAt(w, l.src, l.dst, l.latency, bw, x, y);
    AttachAt(v, l.dst, l.src, l.latency, bw, x, y);
    hide Attach, Devices, BitsPerSecond;
  }

  /** Two nodes are neighbours exactly if a line joins them, and the interface is that of such a line. */
  lemma {:induction false} WiredLines(ls: seq<Link>, a: Node, b: Node)
    ensures Up(Wire(ls).nb, a, b) <==> exists l :: l in ls && Joins(l, a, b)
    ensures Up(Wire(ls).nb, a, b) ==> exists l :: l in ls && From(Wire(ls).nb, a, b, l)
    decreases |ls|
  {
    if ls != [] {
      var init, l := ls[..|ls| - 1], ls[|ls| - 1];
      WiredLines(init, a, b);
      LineAt(Wire(init), l, a, b);
      assert ls == init + [l] && Wire(ls) == AddLine(Wire(init), l);
      hide Wire, AddLine, Joins, Devices;
      if !Joins(l, a, b) && Up(Wire(init).nb, a, b) {
        var k :| k in init && From(Wire(init).nb, a, b, k);
        assert k in ls && From(Wire(ls).nb, a, b, k);
      }
    }
  }

  /** Links are up in both directions. */
  lemma WiredSymmetric(ls: seq<Link>)
    ensures Symmetric(Wire(ls).nb)
  {
    forall a, b ensures Up(Wire(ls).nb, a, b) <==> Up(Wire(ls).nb, b, a) {
      WiredLines(ls, a, b);
      WiredLines(ls, b, a);
    }
  }

  /** Ports are numbered from 1, and no two neighbours share one. */
  lemma {:induction false} WiredPorts(ls: seq<Link>, a: Node, b: Node, c: Node)
    requires Up(Wire(ls).nb, a, b) && Up(Wire(ls).nb, a, c) && b != c
    ensures 1 <= Wire(ls).nb[a][b].idx <= Devices(Wire(ls), a)
    ensures Wire(ls).nb[a][b].idx != Wire(ls).nb[a][c].idx
    decreases |ls|
  {
    var init, l := ls[..|ls| - 1], ls[|ls| - 1];
    var w := Wire(init);
    assert Wire(ls) == AddLine(w, l);
    LineAt(w, l, a, b);
    LineAt(w, l, a, c);
    hide Wire, AddLine, Devices;
    if !Joins(l, a, b) && !Joins(l, a, c) {
      WiredPorts(init, a, b, c);
    } else if !Joins(l, a, b) {
      PortBound(init, a, b);
    } else {
      PortBound(init, a, c);
    }
  }

  lemma {:induction false} PortBound(ls: seq<Link>, a: Node, b: Node)
    requires Up(Wire(ls).nb, a, b)
    ensures 1 <= Wire(ls).nb[a][b].idx <= Devices(Wire(ls), a)
    decreases |ls|
  {
    var init, l := ls[..|ls| - 1], ls[|ls| - 1];
    assert Wire(ls) == AddLine(Wire(init), l);
    LineAt(Wire(init), l, a, b);
    hide Wire, AddLine, Devices;
    if !Joins(l, a, b) { PortBound(init, a, b); }
  }
}
