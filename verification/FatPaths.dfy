/** The shortest paths between two ToRs of a single fat-tree, one by one, and how many ids they are given. */
module FatPaths {
  import opened Graph
  import opened Routing
  import opened Topology
  import opened TopologyGen
  import opened Fabric
  import opened PathIds
  import opened LoadBalancing
  import opened Setup
  import opened FatTree
  import opened FatPorts

  /** Two different ToRs of the tree. */
  predicate TorPair(p: Params, x: Role, y: Role) {
    Single(p) && Valid(p, x) && Valid(p, y) && x.Tor? && y.Tor? && x != y
  }

  /** Up through the a-th aggregation switch and, between pods, its c-th core. */
  function ByWayOf(x: Role, y: Role, a: nat, c: nat): seq<Role>
    requires x.Tor? && y.Tor?
  {
    if x.pod == y.pod then [x, Agg(0, x.pod, a), y]
    else [x, Agg(0, x.pod, a), Core(0, a, c), Agg(0, y.pod, a), y]
  }

  function Cores(p: Params, x: Role, y: Role): nat
    requires x.Tor? && y.Tor?
  {
    if x.pod == y.pod then 1 else Half(p)
  }

  predicate Choice(p: Params, x: Role, y: Role, a: nat, c: nat)
    requires x.Tor? && y.Tor?
  {
    a < Half(p) && c < Cores(p, x, y)
  }

  function Nodes(p: Params, rs: seq<Role>): (ns: seq<Node>)
    ensures |ns| == |rs| && forall i :: 0 <= i < |rs| ==> ns[i] == Id(p, rs[i])
  {
    if rs == [] then [] else Nodes(p, rs[..|rs| - 1]) + [Id(p, rs[|rs| - 1])]
  }

  function PortsBy(p: Params, x: Role, y: Role, a: nat, c: nat): seq<nat>
    requires x.Tor? && y.Tor?
  {
    if x.pod == y.pod then [ServersPerTor(p) + a + 1, y.tor + 1]
    else [ServersPerTor(p) + a + 1, Half(p) + c + 1, y.pod + 1, y.tor + 1]
  }

  // ----- the paths

  lemma WayIsValid(p: Params, x: Role, y: Role, a: nat, c: nat)
    requires TorPair(p, x, y) && Choice(p, x, y, a, c)
    ensures forall i :: 0 <= i < |ByWayOf(x, y, a, c)| ==> Valid(p, ByWayOf(x, y, a, c)[i]) && !ByWayOf(x, y, a, c)[i].Dci? && !ByWayOf(x, y, a, c)[i].Server?
    ensures forall i :: 0 <= i < |ByWayOf(x, y, a, c)| - 1 ==> Adjacent(p, ByWayOf(x, y, a, c)[i], ByWayOf(x, y, a, c)[i + 1])
  {
  }

  lemma WayIsPath(p: Params, nb: Neighbours, sw: set<Node>, x: Role, y: Role, a: nat, c: nat)
    requires TorPair(p, x, y) && IsTree(p, nb, sw) && Choice(p, x, y, a, c)
    ensures SwitchPath(nb, sw, Id(p, x), Id(p, y), Nodes(p, ByWayOf(x, y, a, c)))
  {
    var rs := ByWayOf(x, y, a, c);
    var q := Nodes(p, rs);
    WayIsValid(p, x, y, a, c);
    assert rs[0] == x && rs[|rs| - 1] == y;
    hide Id, Adjacent, Valid, ByWayOf;
    forall i | 0 <= i < |rs| ensures q[i] in sw { RoleInTree(p, nb, sw, rs[i]); }
    forall i | 0 <= i < |rs| - 1 ensures Up(nb, q[i], q[i + 1]) {
      assert FatLink(p, nb, rs[i], rs[i + 1]);
    }
  }

  lemma RoleInTree(p: Params, nb: Neighbours, sw: set<Node>, r: Role)
    requires Single(p) && IsTree(p, nb, sw) && Valid(p, r) && !r.Dci?
    ensures Id(p, r) in sw <==> !r.Server?
  {
    FatIds(p, r);
    hide Id, FatTotal, ServersPerDc, FatLink;
  }

  /** The roles along a path of switches: neighbours on it are neighbours in the tree. */
  ghost predicate RolesAre(p: Params, q: seq<Node>, rs: seq<Role>) {
    && q == Nodes(p, rs)
    && (forall i :: 0 <= i < |rs| ==> Valid(p, rs[i]) && !rs[i].Dci? && !rs[i].Server?)
    && (forall i :: 0 <= i < |rs| - 1 ==> Adjacent(p, rs[i], rs[i + 1]))
  }

  lemma PathRoles(p: Params, nb: Neighbours, sw: set<Node>, x: Role, y: Role, q: seq<Node>) returns (rs: seq<Role>)
    requires TorPair(p, x, y) && IsTree(p, nb, sw) && SwitchPath(nb, sw, Id(p, x), Id(p, y), q)
    ensures RolesAre(p, q, rs) && |rs| == |q| && rs[0] == x && rs[|rs| - 1] == y
  {
    forall i | 0 <= i < |q| ensures q[i] < FatTotal(p) && q[i] < NodeTotal(p) {
      FatRole(p, q[i]);
    }
    rs := seq(|q|, i requires 0 <= i < |q| => RoleOf(p, q[i]));
    forall i | 0 <= i < |q| ensures Valid(p, rs[i]) && !rs[i].Dci? && !rs[i].Server? {
      assert q[i] in sw;
      FatRole(p, q[i]);
    }
    hide Id, Valid, Adjacent, FatTotal, NodeTotal, IsTree;
    forall i | 0 <= i < |q| - 1 ensures Adjacent(p, rs[i], rs[i + 1]) {
      assert Up(nb, q[i], q[i + 1]);
      FatLinkRoles(p, nb, sw, q[i], q[i + 1]);
    }
    FatIds(p, x);
    FatIds(p, y);
    assert q == Nodes(p, rs);
  }

  /** No path is shorter than those, and no other is as short. */
  lemma ShortRoles(p: Params, x: Role, y: Role, q: seq<Node>, rs: seq<Role>) returns (a: nat, c: nat)
    requires TorPair(p, x, y) && RolesAre(p, q, rs) && rs != [] && rs[0] == x && rs[|rs| - 1] == y
    ensures |rs| >= |ByWayOf(x, y, 0, 0)|
    ensures |rs| == |ByWayOf(x, y, 0, 0)| ==> Choice(p, x, y, a, c) && rs == ByWayOf(x, y, a, c)
  {
    a, c := 0, 0;
    assert |rs| > 1;
    assert Adjacent(p, rs[0], rs[0 + 1]);
    assert rs[1].Agg? && rs[1].pod == x.pod;
    a := rs[1].agg;
    assert |rs| > 2;
    assert Adjacent(p, rs[1], rs[1 + 1]);
    if |rs| > 3 { assert Adjacent(p, rs[2], rs[2 + 1]); }
    if |rs| > 4 { assert Adjacent(p, rs[3], rs[3 + 1]); }
    if x.pod != y.pod && |rs| == 5 && rs[2].Core? { c := rs[2].c; }
  }

  /** The shortest paths between two ToRs are the ones by way of each choice. */
  lemma TreePaths(p: Params, nb: Neighbours, sw: set<Node>, x: Role, y: Role, q: seq<Node>)
    requires TorPair(p, x, y) && IsTree(p, nb, sw)
    ensures Shortest(nb, sw, Id(p, x), Id(p, y), q)
      <==> exists a, c :: Choice(p, x, y, a, c) && q == Nodes(p, ByWayOf(x, y, a, c))
  {
    assert Choice(p, x, y, 0, 0) && |ByWayOf(x, y, 0, 0)| in {3, 5};
    forall a: nat, c: nat ensures |ByWayOf(x, y, a, c)| == |ByWayOf(x, y, 0, 0)| {
    }
    hide Id, IsTree, Choice, ByWayOf, Nodes, RolesAre, TorPair;
    forall r | SwitchPath(nb, sw, Id(p, x), Id(p, y), r) ensures |r| >= |ByWayOf(x, y, 0, 0)| {
      var rs := PathRoles(p, nb, sw, x, y, r);
      var a, c := ShortRoles(p, x, y, r, rs);
    }
    WayIsPath(p, nb, sw, x, y, 0, 0);
    if Shortest(nb, sw, Id(p, x), Id(p, y), q) {
      var rs := PathRoles(p, nb, sw, x, y, q);
      var a, c := ShortRoles(p, x, y, q, rs);
      assert Choice(p, x, y, a, c) && q == Nodes(p, ByWayOf(x, y, a, c)) by { hide *; RolesGive(p, q, rs); }
    }
    if a, c :| Choice(p, x, y, a, c) && q == Nodes(p, ByWayOf(x, y, a, c)) {
      WayIsPath(p, nb, sw, x, y, a, c);
    }
  }

  lemma RolesGive(p: Params, q: seq<Node>, rs: seq<Role>)
    requires RolesAre(p, q, rs)
    ensures q == Nodes(p, rs)
  {
  }

  /** The ports along them. */
  lemma WayPorts(p: Params, x: Role, y: Role, a: nat, c: nat)
    requires TorPair(p, x, y) && Choice(p, x, y, a, c)
    ensures PathPorts(WiredTree(p), Nodes(p, ByWayOf(x, y, a, c))) == PortsBy(p, x, y, a, c)
  {
    PairIs(p, x, y, a, c);
    hide *;
    if x.pod == y.pod { SamePodPorts(p, WiredTree(p), x, y, a, c); } else { OtherPodPorts(p, WiredTree(p), x, y, a, c); }
  }

  lemma SamePodPorts(p: Params, nb: Neighbours, x: Role, y: Role, a: nat, c: nat)
    requires TorPair(p, x, y) && Choice(p, x, y, a, c) && x.pod == y.pod && nb == WiredTree(p)
    ensures PathPorts(nb, Nodes(p, ByWayOf(x, y, a, c))) == PortsBy(p, x, y, a, c)
  {
    var q := Nodes(p, ByWayOf(x, y, a, c));
    assert x.Tor? && y.Tor?;
    hide *;
    PairIs(p, x, y, a, c);
    PairUp(p, nb, x, a);
    PairDown(p, nb, y, a);
    ThreeNodes(nb, q);
  }

  lemma OtherPodPorts(p: Params, nb: Neighbours, x: Role, y: Role, a: nat, c: nat)
    requires TorPair(p, x, y) && Choice(p, x, y, a, c) && x.pod != y.pod && nb == WiredTree(p)
    ensures PathPorts(nb, Nodes(p, ByWayOf(x, y, a, c))) == PortsBy(p, x, y, a, c)
  {
    var q := Nodes(p, ByWayOf(x, y, a, c));
    assert x.Tor? && y.Tor?;
    hide *;
    PairIs(p, x, y, a, c);
    PairUp(p, nb, x, a);
    CoreUpDown(p, nb, x, y, a, c);
    PairDown(p, nb, y, a);
    PortsAre(nb, q, Id(p, x), Id(p, Agg(0, x.pod, a)), Id(p, Core(0, a, c)), Id(p, Agg(0, y.pod, a)), Id(p, y));
  }

  lemma PortsAre(nb: Neighbours, q: seq<Node>, a: Node, b: Node, c: Node, d: Node, e: Node)
    requires |q| == 5 && q[0] == a && q[1] == b && q[2] == c && q[3] == d && q[4] == e
    ensures PathPorts(nb, q) == [Port(nb, a, b), Port(nb, b, c), Port(nb, c, d), Port(nb, d, e)]
  {
    hide *;
    FiveNodes(nb, q);
  }

  lemma PairIs(p: Params, x: Role, y: Role, a: nat, c: nat)
    requires TorPair(p, x, y) && Choice(p, x, y, a, c)
    ensures IsTor(p, x) && IsTor(p, y) && a < Half(p) && (x.pod != y.pod ==> c < Half(p))
    ensures var q := Nodes(p, ByWayOf(x, y, a, c));
      && |q| == (if x.pod == y.pod then 3 else 5) && q[0] == Id(p, x) && q[1] == Id(p, Agg(0, x.pod, a)) && q[|q| - 1] == Id(p, y)
      && (x.pod != y.pod ==> q[2] == Id(p, Core(0, a, c)) && q[3] == Id(p, Agg(0, y.pod, a)))
    ensures PortsBy(p, x, y, a, c) == if x.pod == y.pod then [ServersPerTor(p) + a + 1, y.tor + 1]
                                      else [ServersPerTor(p) + a + 1, Half(p) + c + 1, y.pod + 1, y.tor + 1]
  {
    hide Id, Half, ServersPerTor, Nodes;
  }

  predicate IsTor(p: Params, x: Role) {
    Single(p) && x.Tor? && x.dc == 0 && x.pod < p.k && x.tor < Half(p)
  }

  lemma PairUp(p: Params, nb: Neighbours, x: Role, a: nat)
    requires IsTor(p, x) && a < Half(p) && nb == WiredTree(p)
    ensures Port(nb, Id(p, x), Id(p, Agg(0, x.pod, a))) == ServersPerTor(p) + a + 1
  {
    TorNumbers(p, x.pod, x.tor, a);
    assert x == Tor(0, x.pod, x.tor);
    hide Id, WiredTree, ServersPerTor;
  }

  lemma PairDown(p: Params, nb: Neighbours, y: Role, a: nat)
    requires IsTor(p, y) && a < Half(p) && nb == WiredTree(p)
    ensures Port(nb, Id(p, Agg(0, y.pod, a)), Id(p, y)) == y.tor + 1
  {
    TorNumbers(p, y.pod, y.tor, a);
    assert y == Tor(0, y.pod, y.tor);
    hide Id, WiredTree, ServersPerTor;
  }

  lemma CoreUpDown(p: Params, nb: Neighbours, x: Role, y: Role, a: nat, c: nat)
    requires IsTor(p, x) && IsTor(p, y) && a < Half(p) && c < Half(p) && nb == WiredTree(p)
    ensures Port(nb, Id(p, Agg(0, x.pod, a)), Id(p, Core(0, a, c))) == Half(p) + c + 1
    ensures Port(nb, Id(p, Core(0, a, c)), Id(p, Agg(0, y.pod, a))) == y.pod + 1
  {
    AggNumbers(p, x.pod, a, c);
    AggNumbers(p, y.pod, a, c);
    hide Id, WiredTree;
  }

  lemma ThreeNodes(nb: Neighbours, q: seq<Node>)
    requires |q| == 3
    ensures PathPorts(nb, q) == [Port(nb, q[0], q[1]), Port(nb, q[1], q[2])]
  {
    hide Port;
    assert PathPorts(nb, q[1..]) == [Port(nb, q[1], q[2])] + PathPorts(nb, q[1..][1..]);
  }

  lemma FiveNodes(nb: Neighbours, q: seq<Node>)
    requires |q| == 5
    ensures PathPorts(nb, q) == [Port(nb, q[0], q[1]), Port(nb, q[1], q[2]), Port(nb, q[2], q[3]), Port(nb, q[3], q[4])]
  {
    hide Port;
    ThreeNodes(nb, q[2..]);
    assert q[1..][1..] == q[2..];
    assert PathPorts(nb, q[1..]) == [Port(nb, q[1], q[2])] + PathPorts(nb, q[2..]);
  }

  // ----- counting

  ghost predicate Injective<T(!new)>(m: nat, n: nat, f: (nat, nat) -> T) {
    forall a: nat, c: nat, a': nat, c': nat :: a < m && c < n && a' < m && c' < n && f(a, c) == f(a', c') ==> a == a' && c == c'
  }

  ghost function Image<T(!new)>(m: nat, n: nat, f: (nat, nat) -> T): set<T> {
    set a: nat, c: nat | a < m && c < n :: f(a, c)
  }

  ghost function RowImage<T(!new)>(a: nat, n: nat, f: (nat, nat) -> T): set<T> {
    set c: nat | c < n :: f(a, c)
  }

  lemma {:induction false} RowSize<T(!new)>(a: nat, m: nat, n: nat, k: nat, f: (nat, nat) -> T)
    requires Injective(m, n, f) && a < m && k <= n
    ensures |RowImage(a, k, f)| == k
    decreases k
  {
    if k > 0 {
      RowSize(a, m, n, k - 1, f);
      assert RowImage(a, k, f) == RowImage(a, k - 1, f) + {f(a, k - 1)};
      assert f(a, k - 1) !in RowImage(a, k - 1, f);
    } else {
      assert RowImage(a, 0, f) == {};
    }
  }

  lemma {:induction false} ImageSize<T(!new)>(m: nat, n: nat, k: nat, f: (nat, nat) -> T)
    requires Injective(m, n, f) && k <= m
    ensures |Image(k, n, f)| == k * n
    decreases k
  {
    hide *;
    if k > 0 {
      OneMoreRow(m, n, k - 1, f);
      ImageSize(m, n, k - 1, f);
      RowSize(k - 1, m, n, n, f);
      DisjointSize(Image(k - 1, n, f), RowImage(k - 1, n, f));
      Times(k, n);
    } else {
      NoRows(n, f);
    }
  }

  lemma NoRows<T(!new)>(n: nat, f: (nat, nat) -> T)
    ensures Image(0, n, f) == {}
  {
  }

  lemma DisjointSize<T>(s: set<T>, t: set<T>)
    requires s !! t
    ensures |s + t| == |s| + |t|
  {
  }

  lemma Times(k: nat, n: nat)
    requires k > 0
    ensures (k - 1) * n + n == k * n
  {
  }

  lemma OneMoreRow<T(!new)>(m: nat, n: nat, k: nat, f: (nat, nat) -> T)
    requires Injective(m, n, f) && k < m
    ensures Image(k + 1, n, f) == Image(k, n, f) + RowImage(k, n, f) && Image(k, n, f) !! RowImage(k, n, f)
  {
    forall x | x in Image(k + 1, n, f) ensures x in Image(k, n, f) + RowImage(k, n, f) {
      var a: nat, c: nat :| a < k + 1 && c < n && x == f(a, c);
      if a == k { assert x in RowImage(k, n, f); } else { assert x in Image(k, n, f); }
    }
    forall x | x in RowImage(k, n, f) ensures x in Image(k + 1, n, f) && x !in Image(k, n, f) {
      var c: nat :| c < n && x == f(k, c);
    }
  }

  /** The set of shortest paths between two ToRs, and their ids. */
  ghost function PathsOf(p: Params, x: Role, y: Role): (nat, nat) -> seq<Node>
    requires x.Tor? && y.Tor?
  {
    (a: nat, c: nat) => Nodes(p, ByWayOf(x, y, a, c))
  }

  ghost function IdsOf(p: Params, x: Role, y: Role): (nat, nat) -> nat
    requires x.Tor? && y.Tor?
  {
    (a: nat, c: nat) => PackId(PortsBy(p, x, y, a, c))
  }

  lemma PathsDiffer(p: Params, x: Role, y: Role)
    requires TorPair(p, x, y)
    ensures Injective(Half(p), Cores(p, x, y), PathsOf(p, x, y))
  {
    forall a: nat, c: nat, a': nat, c': nat
      | Choice(p, x, y, a, c) && Choice(p, x, y, a', c') && PathsOf(p, x, y)(a, c) == PathsOf(p, x, y)(a', c')
      ensures a == a' && c == c'
    {
      SamePath(p, x, y, a, c, a', c');
    }
    hide Half, Cores, PathsOf, TorPair;
  }

  lemma SamePath(p: Params, x: Role, y: Role, a: nat, c: nat, a': nat, c': nat)
    requires TorPair(p, x, y) && Choice(p, x, y, a, c) && Choice(p, x, y, a', c')
    requires Nodes(p, ByWayOf(x, y, a, c)) == Nodes(p, ByWayOf(x, y, a', c'))
    ensures a == a' && c == c'
  {
    PairIs(p, x, y, a, c);
    PairIs(p, x, y, a', c');
    IdInjective(p, Agg(0, x.pod, a), Agg(0, x.pod, a'));
    if x.pod != y.pod { IdInjective(p, Core(0, a, c), Core(0, a', c')); }
    hide Id;
  }

  /** A byte tells at most 256 uplinks apart. */
  function Told(p: Params): nat {
    if Half(p) <= 256 then Half(p) else 256
  }

  lemma ByteTells(b: nat, a: nat, a': nat)
    requires a < 256 && a' < 256 && (b + a + 1) % 256 == (b + a' + 1) % 256
    ensures a == a'
  {
  }

  lemma IdBytes(p: Params, x: Role, y: Role, a: nat, c: nat, a': nat, c': nat)
    requires TorPair(p, x, y)
    ensures IdsOf(p, x, y)(a, c) == IdsOf(p, x, y)(a', c')
      <==> ((ServersPerTor(p) + a + 1) % 256 == (ServersPerTor(p) + a' + 1) % 256
            && (x.pod != y.pod ==> (Half(p) + c + 1) % 256 == (Half(p) + c' + 1) % 256))
  {
    var q, r := PortsBy(p, x, y, a, c), PortsBy(p, x, y, a', c');
    hide Half, ServersPerTor, TorPair;
    if PackId(q) == PackId(r) {
      FourDigits(ByteAt(q, 0), ByteAt(q, 1), ByteAt(q, 2), ByteAt(q, 3), ByteAt(r, 0), ByteAt(r, 1), ByteAt(r, 2), ByteAt(r, 3));
    }
  }

  lemma IdsDiffer(p: Params, x: Role, y: Role)
    requires TorPair(p, x, y)
    ensures Injective(Told(p), if x.pod == y.pod then 1 else Told(p), IdsOf(p, x, y))
  {
    var n := if x.pod == y.pod then 1 else Told(p);
    hide IdsOf, TorPair, ServersPerTor, Half;
    forall a: nat, c: nat, a': nat, c': nat
      | a < Told(p) && a' < Told(p) && c < n && c' < n && IdsOf(p, x, y)(a, c) == IdsOf(p, x, y)(a', c')
      ensures a == a' && c == c'
    {
      IdBytes(p, x, y, a, c, a', c');
      ByteTells(ServersPerTor(p), a, a');
      if x.pod != y.pod { ByteTells(Half(p), c, c'); }
    }
  }

  /** Choices a byte apart give the same id. */
  lemma IdsRepeat(p: Params, x: Role, y: Role, a: nat, c: nat)
    requires TorPair(p, x, y) && Choice(p, x, y, a, c)
    ensures var n := if x.pod == y.pod then 1 else Told(p);
      exists a': nat, c': nat :: a' < Told(p) && c' < n && IdsOf(p, x, y)(a, c) == IdsOf(p, x, y)(a', c')
  {
    var a', c' := if a < Told(p) then a else a % 256, if c < Told(p) then c else c % 256;
    Wraps(ServersPerTor(p), a);
    Wraps(Half(p), c);
    hide IdsOf, TorPair, ServersPerTor, Half;
    IdBytes(p, x, y, a, c, a', c');
  }

  lemma Wraps(b: nat, a: nat)
    ensures (b + a + 1) % 256 == (b + a % 256 + 1) % 256
  {
  }

  /** Which ids a pair has. */
  lemma IdsOfPair(p: Params, nb: Neighbours, sw: set<Node>, x: Role, y: Role, ids: set<nat>)
    requires TorPair(p, x, y) && nb == WiredTree(p) && IsTree(p, nb, sw) && AllIds(nb, sw, (Id(p, x), Id(p, y)), ids)
    ensures ids == Image(Half(p), Cores(p, x, y), IdsOf(p, x, y))
  {
    assert x.Tor? && y.Tor?;
    hide *;
    forall id: nat ensures id in ids <==> id in Image(Half(p), Cores(p, x, y), IdsOf(p, x, y)) {
      IdOfWay(p, nb, sw, x, y, id);
      IdIsFound(nb, sw, (Id(p, x), Id(p, y)), ids, id);
      IdInImage(p, x, y, id);
    }
  }

  lemma IdIsFound(nb: Neighbours, sw: set<Node>, k: Key, ids: set<nat>, id: nat)
    requires AllIds(nb, sw, k, ids)
    ensures id in ids <==> exists q :: PathWithId(nb, sw, k.0, k.1, id, q)
  {
    hide PathWithId;
  }

  lemma IdInImage(p: Params, x: Role, y: Role, id: nat)
    requires x.Tor? && y.Tor?
    ensures id in Image(Half(p), Cores(p, x, y), IdsOf(p, x, y)) <==> exists a, c :: Choice(p, x, y, a, c) && id == IdsOf(p, x, y)(a, c)
  {
    hide Half, Cores, IdsOf;
  }

  lemma IdOfWay(p: Params, nb: Neighbours, sw: set<Node>, x: Role, y: Role, id: nat)
    requires TorPair(p, x, y) && nb == WiredTree(p) && IsTree(p, nb, sw)
    ensures (exists q :: PathWithId(nb, sw, Id(p, x), Id(p, y), id, q))
      <==> exists a, c :: Choice(p, x, y, a, c) && id == IdsOf(p, x, y)(a, c)
  {
    assert x.Tor? && y.Tor?;
    hide TorPair, IsTree, WiredTree, Choice, IdsOf, PathWithId, Id;
    if q :| PathWithId(nb, sw, Id(p, x), Id(p, y), id, q) {
      var a, c := WayOfId(p, nb, sw, x, y, id, q);
    }
    if a, c :| Choice(p, x, y, a, c) && id == IdsOf(p, x, y)(a, c) {
      WayHasId(p, nb, sw, x, y, a, c);
    }
  }

  lemma WayOfId(p: Params, nb: Neighbours, sw: set<Node>, x: Role, y: Role, id: nat, q: seq<Node>) returns (a: nat, c: nat)
    requires TorPair(p, x, y) && nb == WiredTree(p) && IsTree(p, nb, sw) && PathWithId(nb, sw, Id(p, x), Id(p, y), id, q)
    ensures Choice(p, x, y, a, c) && id == IdsOf(p, x, y)(a, c)
  {
    assert x.Tor? && y.Tor?;
    hide TorPair, IsTree, WiredTree, Choice, Shortest, PathPorts, PortsBy, PackId, Id, Nodes, ByWayOf;
    TreePaths(p, nb, sw, x, y, q);
    a, c :| Choice(p, x, y, a, c) && q == Nodes(p, ByWayOf(x, y, a, c));
    WayPorts(p, x, y, a, c);
  }

  lemma WayHasId(p: Params, nb: Neighbours, sw: set<Node>, x: Role, y: Role, a: nat, c: nat)
    requires TorPair(p, x, y) && nb == WiredTree(p) && IsTree(p, nb, sw) && Choice(p, x, y, a, c)
    ensures PathWithId(nb, sw, Id(p, x), Id(p, y), IdsOf(p, x, y)(a, c), Nodes(p, ByWayOf(x, y, a, c)))
  {
    assert |ByWayOf(x, y, a, c)| in {3, 5};
    hide TorPair, IsTree, WiredTree, Choice, Shortest, PathPorts, PortsBy, PackId, Id, ByWayOf;
    TreePaths(p, nb, sw, x, y, Nodes(p, ByWayOf(x, y, a, c)));
    WayPorts(p, x, y, a, c);
  }

  /** Two ToRs of one pod have k/2 shortest paths and two of different pods (k/2)^2; a byte tells at most 256 uplinks
      apart, so that the ids are as many as the paths exactly if k/2 is at most 256. */
  lemma HowManyIds(p: Params, nb: Neighbours, sw: set<Node>, x: Role, y: Role, paths: set<seq<Node>>, ids: set<nat>)
    requires TorPair(p, x, y) && nb == WiredTree(p) && IsTree(p, nb, sw)
    requires forall q :: q in paths <==> Shortest(nb, sw, Id(p, x), Id(p, y), q)
    requires AllIds(nb, sw, (Id(p, x), Id(p, y)), ids)
    ensures |paths| == if x.pod == y.pod then Half(p) else Half(p) * Half(p)
    ensures |ids| == if x.pod == y.pod then Told(p) else Told(p) * Told(p)
    ensures |ids| == |paths| <==> Half(p) <= 256
  {
    hide *;
    NumberOfPaths(p, nb, sw, x, y, paths);
    NumberOfIds(p, nb, sw, x, y, ids);
    AtMostPaths(p);
    Squares(Told(p), Half(p));
  }

  lemma AtMostPaths(p: Params)
    ensures Told(p) <= Half(p) && (Told(p) == Half(p) <==> Half(p) <= 256)
  {
  }

  lemma NumberOfPaths(p: Params, nb: Neighbours, sw: set<Node>, x: Role, y: Role, paths: set<seq<Node>>)
    requires TorPair(p, x, y) && IsTree(p, nb, sw)
    requires forall q :: q in paths <==> Shortest(nb, sw, Id(p, x), Id(p, y), q)
    ensures |paths| == if x.pod == y.pod then Half(p) else Half(p) * Half(p)
  {
    assert x.Tor? && y.Tor? && Cores(p, x, y) == if x.pod == y.pod then 1 else Half(p);
    hide *;
    PathsAre(p, nb, sw, x, y, paths);
    PathsDiffer(p, x, y);
    ImageSize(Half(p), Cores(p, x, y), Half(p), PathsOf(p, x, y));
  }

  lemma NumberOfIds(p: Params, nb: Neighbours, sw: set<Node>, x: Role, y: Role, ids: set<nat>)
    requires TorPair(p, x, y) && nb == WiredTree(p) && IsTree(p, nb, sw) && AllIds(nb, sw, (Id(p, x), Id(p, y)), ids)
    ensures |ids| == if x.pod == y.pod then Told(p) else Told(p) * Told(p)
  {
    assert x.Tor? && y.Tor?;
    hide *;
    var n := if x.pod == y.pod then 1 else Told(p);
    IdsOfPair(p, nb, sw, x, y, ids);
    IdImages(p, x, y);
    IdsDiffer(p, x, y);
    ImageSize(Told(p), n, Told(p), IdsOf(p, x, y));
  }

  lemma Squares(a: nat, b: nat)
    requires a <= b
    ensures a * a == b * b <==> a == b
  {
    if a < b { assert a * a <= a * b && a * b <= b * b; assert b * b - a * b == (b - a) * b; }
  }

  lemma PathsAre(p: Params, nb: Neighbours, sw: set<Node>, x: Role, y: Role, paths: set<seq<Node>>)
    requires TorPair(p, x, y) && IsTree(p, nb, sw)
    requires forall q :: q in paths <==> Shortest(nb, sw, Id(p, x), Id(p, y), q)
    ensures paths == Image(Half(p), Cores(p, x, y), PathsOf(p, x, y))
  {
    forall q ensures q in paths <==> exists a, c :: Choice(p, x, y, a, c) && q == PathsOf(p, x, y)(a, c) {
      TreePaths(p, nb, sw, x, y, q);
    }
    hide Half, Cores, PathsOf, TorPair, IsTree, Shortest;
  }

  lemma IdImages(p: Params, x: Role, y: Role)
    requires TorPair(p, x, y)
    ensures Image(Half(p), Cores(p, x, y), IdsOf(p, x, y)) == Image(Told(p), if x.pod == y.pod then 1 else Told(p), IdsOf(p, x, y))
  {
    var n := if x.pod == y.pod then 1 else Told(p);
    var f := IdsOf(p, x, y);
    hide IdsOf, TorPair;
    forall id | id in Image(Half(p), Cores(p, x, y), f) ensures id in Image(Told(p), n, f) {
      var a: nat, c: nat :| a < Half(p) && c < Cores(p, x, y) && id == f(a, c);
      IdsRepeat(p, x, y, a, c);
      var a': nat, c': nat :| a' < Told(p) && c' < n && f(a, c) == f(a', c');
    }
    assert Told(p) <= Half(p) && n <= Cores(p, x, y);
  }

  // ----- the load balancers' table

  /** The first server of a ToR has it as its home. */
  lemma FirstServer(p: Params, nb: Neighbours, sw: set<Node>, home: map<Node, Node>, x: Role) returns (h: Role)
    requires Single(p) && p.os > 0 && Valid(p, x) && x.Tor? && IsTree(p, nb, sw) && home == HomeMap(Render(p, FatEnds(p)), sw)
    ensures Valid(p, h) && h.Server? && Id(p, h) < FatTotal(p) && Id(p, h) !in sw
    ensures Id(p, h) in home && home[Id(p, h)] == Id(p, x)
  {
    h := Server(x.dc, x.pod, x.tor, 0);
    ServersUnder(p);
    assert Valid(p, h);
    hide Render, FatEnds, Id, HomeMap, FatTotal, IsTree, Single, ServersPerTor, Half;
    FatIds(p, h);
    RoleInTree(p, nb, sw, h);
    FatHome(p, nb, sw, home, Id(p, h));
  }

  lemma ServersUnder(p: Params)
    ensures Half(p) > 0 && p.os > 0 ==> ServersPerTor(p) > 0
  {
  }

  lemma TorsArePaired(p: Params, nb: Neighbours, sw: set<Node>, home: map<Node, Node>, x: Role, y: Role)
    requires TorPair(p, x, y) && p.os > 0 && IsTree(p, nb, sw) && home == HomeMap(Render(p, FatEnds(p)), sw)
    ensures ToRPair(nb, sw, FatTotal(p), home, home.Values, (Id(p, x), Id(p, y)))
  {
    hide Render, FatEnds, Id, HomeMap, FatTotal, IsTree, Single, Reachable;
    var g := FirstServer(p, nb, sw, home, x);
    var h := FirstServer(p, nb, sw, home, y);
    FatDistance(p, nb, sw, h, x);
    if Id(p, x) == Id(p, y) { IdInjective(p, x, y); }
    assert home[Id(p, g)] in home.Values;
    assert IsPair(nb, sw, FatTotal(p), home, home.Values, Id(p, x), Id(p, h));
  }

  /** What the set-up leaves in the table for two ToRs, in closed form: how many ids, and the base round-trip time
      of two or four hops. */
  lemma TreeTable(p: Params, nb: Neighbours, sw: set<Node>, home: map<Node, Node>, oneHopDelay: nat,
                  table: map<Key, set<nat>>, rtts: map<Key, nat>, x: Role, y: Role)
    requires TorPair(p, x, y) && p.os > 0 && nb == WiredTree(p) && IsTree(p, nb, sw) && home == HomeMap(Render(p, FatEnds(p)), sw)
    requires forall k: Key :: ToRPair(nb, sw, FatTotal(p), home, home.Values, k) ==> Complete(nb, sw, oneHopDelay, k, table, rtts)
    ensures |Known(table, (Id(p, x), Id(p, y)))| == if x.pod == y.pod then Told(p) else Told(p) * Told(p)
    ensures (Id(p, x), Id(p, y)) in rtts
    ensures rtts[(Id(p, x), Id(p, y))] == if x.pod == y.pod then 4 * oneHopDelay else 8 * oneHopDelay
  {
    var k := (Id(p, x), Id(p, y));
    assert x.Tor? && y.Tor? && Choice(p, x, y, 0, 0) && Half(p) > 0;
    assert |ByWayOf(x, y, 0, 0)| == if x.pod == y.pod then 3 else 5;
    TorsArePaired(p, nb, sw, home, x, y);
    assert Complete(nb, sw, oneHopDelay, k, table, rtts);
    hide Render, FatEnds, Id, HomeMap, FatTotal, IsTree, TorPair, WiredTree, ToRPair, Choice, ByWayOf, Half, Shortest, AllIds;
    NumberOfIds(p, nb, sw, x, y, Known(table, k));
    SomeTold(p);
    var q := Nodes(p, ByWayOf(x, y, 0, 0));
    TreePaths(p, nb, sw, x, y, q);
    assert Shortest(nb, sw, Id(p, x), Id(p, y), q);
  }

  lemma SomeTold(p: Params)
    ensures Half(p) > 0 ==> Told(p) > 0 && Told(p) * Told(p) > 0
  {
    if Half(p) > 0 { assert Told(p) >= 1 && Told(p) * Told(p) >= 1 * Told(p); }
  }
}
