/** The distribution of flow completion times: run-length buckets and percentile slices. */
module Cdf {
  import opened Loops

  datatype Result<T> = Ok(value: T) | IndexError

  /** A quotient of the array of positions; with a single value it is 0/0. */
  datatype Position = NaN | At(x: real)

  datatype Bucket = Bucket(key: real, count: nat, accum: nat, p: Position)

  const EMPTY := Bucket(0.0, 0, 0, At(0.0))

  /** The position of index i among n values. */
  function PositionOf(i: int, n: nat): Position {
    if n == 1 then NaN else At(i as real / (n - 1) as real)
  }

  function CountAtMost(v: seq<real>, x: real): nat {
    if v == [] then 0 else CountAtMost(v[..|v| - 1], x) + (if v[|v| - 1] <= x then 1 else 0)
  }

  ghost predicate Sorted(v: seq<real>) {
    forall i, j :: 0 <= i < j < |v| ==> v[i] <= v[j]
  }

  /** What a bucket has to say about the values: how many equal its key, how many are at most its key, and the
      position of the last of them. */
  ghost predicate Exact(b: Bucket, v: seq<real>, n: nat) {
    b.count == multiset(v)[b.key] && b.accum == CountAtMost(v, b.key) && b.p == PositionOf(b.accum - 1, n)
  }

  lemma {:induction false} CountAppend(a: seq<real>, b: seq<real>, x: real)
    ensures CountAtMost(a + b, x) == CountAtMost(a, x) + CountAtMost(b, x)
    decreases |b|
  {
    if b == [] {
      assert a + b == a;
    } else {
      CountAppend(a, b[..|b| - 1], x);
      assert (a + b)[..|a + b| - 1] == a + b[..|b| - 1];
    }
  }

  lemma CountSnoc(w: seq<real>, x: real, y: real)
    ensures CountAtMost(w + [x], y) == CountAtMost(w, y) + (if x <= y then 1 else 0)
    ensures multiset(w + [x])[y] == multiset(w)[y] + (if x == y then 1 else 0)
  {
    assert (w + [x])[..|w|] == w;
  }

  lemma {:induction false} CountAll(w: seq<real>, x: real)
    requires forall i :: 0 <= i < |w| ==> w[i] <= x
    ensures CountAtMost(w, x) == |w|
    decreases |w|
  {
    if w != [] { CountAll(w[..|w| - 1], x); }
  }

  ghost predicate SameCounts(a: seq<real>, b: seq<real>) {
    multiset(a) == multiset(b) && forall x: real :: CountAtMost(a, x) == CountAtMost(b, x)
  }

  lemma InsertedCounts(r: seq<real>, k: nat, x: real, w: seq<real>)
    requires SameCounts(r, w) && k <= |r|
    ensures SameCounts(r[..k] + [x] + r[k..], w + [x])
  {
    assert r == r[..k] + r[k..];
    forall y: real ensures CountAtMost(r[..k] + [x] + r[k..], y) == CountAtMost(w + [x], y) {
      CountAppend(r[..k] + [x], r[k..], y);
      CountAppend(r[..k], [x], y);
      CountAppend(r[..k], r[k..], y);
      CountAppend(w, [x], y);
    }
  }

  method Sort(data: seq<real>) returns (r: seq<real>)
    ensures Sorted(r) && SameCounts(r, data)
  {
    r := [];
    assert SameCounts(r, data[..0]);
    hide SameCounts;
    for n := 0 to |data|
      invariant Sorted(r) && SameCounts(r, data[..n])
    {
      var k := 0;
      while k < |r| && r[k] <= data[n]
        invariant k <= |r| && forall i :: 0 <= i < k ==> r[i] <= data[n]
      {
        k := k + 1;
      }
      InsertedCounts(r, k, data[n], data[..n]);
      assert data[..n + 1] == data[..n] + [data[n]];
      r := r[..k] + [data[n]] + r[k..];
    }
    assert data[..|data|] == data;
  }

  // ----- the loop over the sorted values

  /** The closed buckets, without the first, and the open one. */
  function Buckets(od: seq<Bucket>, bkt: Bucket): seq<Bucket>
    requires od != []
  {
    od[1..] + [bkt]
  }

  ghost predicate AllExact(bs: seq<Bucket>, v: seq<real>, n: nat) {
    forall i :: 0 <= i < |bs| ==> Exact(bs[i], v, n) && bs[i].count > 0
  }

  ghost predicate KeysRise(bs: seq<Bucket>) {
    forall i, j :: 0 <= i < j < |bs| ==> bs[i].key < bs[j].key
  }

  ghost predicate HasKey(bs: seq<Bucket>, x: real) {
    exists i :: 0 <= i < |bs| && bs[i].key == x
  }

  /** Every value has its bucket, except that zeros have none if they come first. */
  ghost predicate Covers(bs: seq<Bucket>, v: seq<real>) {
    forall j :: 0 <= j < |v| ==> (HasKey(bs, v[j]) <==> !(v[j] == 0.0 && v[0] == 0.0))
  }

  /** The buckets after the values w, of n in all: the last one is open. */
  ghost predicate Tells(bs: seq<Bucket>, w: seq<real>, n: nat) {
    && bs != [] && w != [] && bs[|bs| - 1].key == w[|w| - 1] && bs[|bs| - 1].accum == |w|
    && AllExact(bs, w, n) && KeysRise(bs) && Covers(bs, w)
  }

  ghost predicate AllZero(w: seq<real>) {
    forall j :: 0 <= j < |w| ==> w[j] == 0.0
  }

  /** The loop's variables. Until a value other than 0 comes the initial bucket counts the zeros. */
  ghost predicate After(od: seq<Bucket>, bkt: Bucket, w: seq<real>, n: nat) {
    if od == [] then
      bkt.key == 0.0 && bkt.count == bkt.accum == |w| && AllZero(w)
    else
      Tells(Buckets(od, bkt), w, n) && !AllZero(w) && od[|od| - 1].key != bkt.key
  }

  lemma ExactStays(b: Bucket, w: seq<real>, x: real, n: nat)
    requires Exact(b, w, n) && b.key < x
    ensures Exact(b, w + [x], n)
  {
    CountSnoc(w, x, b.key);
    hide CountAtMost;
  }

  lemma ExactGrows(b: Bucket, w: seq<real>, x: real, n: nat)
    requires Exact(b, w, n) && b.key == x && b.accum == |w|
    ensures Exact(Bucket(x, b.count + 1, |w| + 1, PositionOf(|w|, n)), w + [x], n)
  {
    CountSnoc(w, x, x);
    hide CountAtMost;
  }

  lemma ExactStarts(w: seq<real>, x: real, n: nat)
    requires forall i :: 0 <= i < |w| ==> w[i] < x
    ensures Exact(Bucket(x, 1, |w| + 1, PositionOf(|w|, n)), w + [x], n)
  {
    CountSnoc(w, x, x);
    CountAll(w, x);
    assert x !in w;
    hide CountAtMost;
  }

  lemma CoversMore(bs: seq<Bucket>, b: Bucket, w: seq<real>, x: real)
    requires Covers(bs, w) && b.key == x && w != [] && x !in w && x > w[0]
    ensures Covers(bs + [b], w + [x])
  {
    var all := bs + [b];
    forall y ensures HasKey(all, y) <==> HasKey(bs, y) || y == x {
      if i :| 0 <= i < |bs| && bs[i].key == y { assert all[i].key == y; }
      assert all[|bs|].key == x;
    }
    hide HasKey;
  }

  lemma CoversSame(bs: seq<Bucket>, b: Bucket, w: seq<real>, x: real)
    requires bs != [] && Covers(bs, w) && w != [] && w[|w| - 1] == x && b.key == bs[|bs| - 1].key
    ensures Covers(bs[..|bs| - 1] + [b], w + [x])
  {
    var all := bs[..|bs| - 1] + [b];
    forall y ensures HasKey(all, y) <==> HasKey(bs, y) {
      if i :| 0 <= i < |bs| && bs[i].key == y { assert all[i].key == y; }
    }
    hide HasKey;
  }

  lemma TellsSame(bs: seq<Bucket>, w: seq<real>, x: real, n: nat)
    requires Tells(bs, w, n) && bs[|bs| - 1].key == x
    ensures var m := |bs| - 1; Tells(bs[..m] + [Bucket(x, bs[m].count + 1, |w| + 1, PositionOf(|w|, n))], w + [x], n)
  {
    hide Exact, Covers, HasKey, PositionOf, CountAtMost, Sorted;
    var m := |bs| - 1;
    var b := Bucket(x, bs[m].count + 1, |w| + 1, PositionOf(|w|, n));
    ExactGrows(bs[m], w, x, n);
    CoversSame(bs, b, w, x);
    forall i | 0 <= i < m ensures Exact(bs[i], w + [x], n) { ExactStays(bs[i], w, x, n); }
    var bs' := bs[..m] + [b];
    assert forall i :: 0 <= i < m ==> bs'[i] == bs[i];
    assert bs'[m] == b;
  }

  lemma LastIsGreatest(w: seq<real>, x: real)
    requires Sorted(w + [x]) && w != [] && w[|w| - 1] != x
    ensures forall i :: 0 <= i < |w| ==> w[i] < x
  {
    var w' := w + [x];
    assert w'[|w| - 1] <= w'[|w|];
    forall i | 0 <= i < |w| ensures w[i] < x { assert w'[i] == w[i] && (i < |w| - 1 ==> w'[i] <= w'[|w| - 1]); }
  }

  lemma TellsMore(bs: seq<Bucket>, w: seq<real>, x: real, n: nat)
    requires Tells(bs, w, n) && Sorted(w + [x]) && bs[|bs| - 1].key != x
    ensures Tells(bs + [Bucket(x, 1, |w| + 1, PositionOf(|w|, n))], w + [x], n)
  {
    var b, w' := Bucket(x, 1, |w| + 1, PositionOf(|w|, n)), w + [x];
    LastIsGreatest(w, x);
    KeysBelow(bs, x);
    ExactStarts(w, x, n);
    CoversMore(bs, b, w, x);
    hide Exact, Covers, Sorted, HasKey, PositionOf, KeysRise;
    forall i | 0 <= i < |bs| ensures Exact(bs[i], w', n) { ExactStays(bs[i], w, x, n); }
  }

  lemma KeysBelow(bs: seq<Bucket>, x: real)
    requires bs != [] && KeysRise(bs) && bs[|bs| - 1].key < x
    ensures forall i :: 0 <= i < |bs| ==> bs[i].key < x
    ensures forall b: Bucket :: b.key == x ==> KeysRise(bs + [b])
  {
  }

  /** The first value other than 0. */
  lemma TellsFirst(w: seq<real>, x: real, n: nat)
    requires AllZero(w) && Sorted(w + [x]) && x != 0.0
    ensures Tells([Bucket(x, 1, |w| + 1, PositionOf(|w|, n))], w + [x], n)
  {
    var b, w' := Bucket(x, 1, |w| + 1, PositionOf(|w|, n)), w + [x];
    forall i | 0 <= i < |w| ensures w[i] < x { assert w'[i] <= w'[|w|]; }
    ExactStarts(w, x, n);
    hide Exact;
    assert forall y :: HasKey([b], y) <==> y == x by { assert [b][0].key == x; }
  }

  lemma NotAllZero(w: seq<real>, x: real)
    requires !AllZero(w) || x != 0.0
    ensures !AllZero(w + [x])
  {
    var w' := w + [x];
    assert w'[|w|] == x;
    if i :| 0 <= i < |w| && w[i] != 0.0 { assert w'[i] != 0.0; }
  }

  lemma StepSame(od: seq<Bucket>, bkt: Bucket, w: seq<real>, x: real, n: nat)
    requires After(od, bkt, w, n) && bkt.key == x
    ensures After(od, Bucket(x, bkt.count + 1, |w| + 1, PositionOf(|w|, n)), w + [x], n)
  {
    hide Tells;
    if od != [] {
      TellsSame(Buckets(od, bkt), w, x, n);
      assert Buckets(od, bkt)[..|Buckets(od, bkt)| - 1] == od[1..];
      NotAllZero(w, x);
      hide AllZero;
    }
  }

  lemma StepNew(od: seq<Bucket>, bkt: Bucket, w: seq<real>, x: real, n: nat)
    requires After(od, bkt, w, n) && bkt.key != x && Sorted(w + [x])
    ensures After(od + [bkt], Bucket(x, 1, |w| + 1, PositionOf(|w|, n)), w + [x], n)
  {
    hide Tells;
    var b := Bucket(x, 1, |w| + 1, PositionOf(|w|, n));
    if od == [] {
      TellsFirst(w, x, n);
      assert Buckets([bkt], b) == [b];
    } else {
      TellsMore(Buckets(od, bkt), w, x, n);
      assert Buckets(od + [bkt], b) == Buckets(od, bkt) + [b];
    }
    NotAllZero(w, x);
    hide AllZero;
  }

  /** What the distribution has to be: rising keys, exact buckets, one for every value but leading zeros. */
  ghost predicate IsDistribution(bs: seq<Bucket>, data: seq<real>) {
    && KeysRise(bs) && AllExact(bs, data, |data|)
    && forall x: real :: HasKey(bs, x) <==> x in data && !(x == 0.0 && forall y :: y in data ==> y >= 0.0)
  }

  ghost function AtMost(v: seq<real>, n: nat, x: real): set<nat>
    requires n <= |v|
  {
    set i: nat | i < n && v[i] <= x
  }

  lemma {:induction false} AtMostCount(v: seq<real>, n: nat, x: real)
    requires n <= |v|
    ensures CountAtMost(v[..n], x) == |AtMost(v, n, x)|
    decreases n
  {
    if n > 0 {
      AtMostCount(v, n - 1, x);
      assert v[..n][..n - 1] == v[..n - 1] && CountAtMost(v[..n], x) == CountAtMost(v[..n - 1], x) + (if v[n - 1] <= x then 1 else 0);
      hide CountAtMost;
      OneMoreElement(AtMost(v, n - 1, x), AtMost(v, n, x), n - 1);
    }
  }

  lemma AtMostAll(v: seq<real>, x: real)
    ensures CountAtMost(v, x) == |set i: nat | i < |v| && v[i] <= x|
    ensures (forall y :: y in v ==> y <= x) ==> CountAtMost(v, x) == |v|
  {
    AtMostCount(v, |v|, x);
    assert v[..|v|] == v;
    if forall y :: y in v ==> y <= x {
      assert forall i :: 0 <= i < |v| ==> v[i] in v;
      CountAll(v, x);
    }
    hide CountAtMost;
  }

  lemma FullScale(n: nat)
    requires n > 1
    ensures (n - 1) as real / (n - 1) as real == 1.0
  {
  }

  /** In a distribution each bucket counts its key and the values up to it, and its position is that of the last of them
      on an even scale from 0 to 1; so the last bucket's is 1, unless there is a single value. */
  lemma BucketMeans(bs: seq<Bucket>, data: seq<real>, k: nat)
    requires IsDistribution(bs, data) && k < |bs|
    ensures bs[k].count == multiset(data)[bs[k].key]
    ensures bs[k].accum == |set i: nat | i < |data| && data[i] <= bs[k].key|
    ensures |data| == 1 ==> bs[k].p == NaN
    ensures |data| > 1 ==> bs[k].p == At((bs[k].accum - 1) as real / (|data| - 1) as real)
    ensures |data| > 1 && k == |bs| - 1 && (forall y :: y in data ==> y <= bs[k].key) ==> bs[k].p == At(1.0)
  {
    assert Exact(bs[k], data, |data|);
    AtMostAll(data, bs[k].key);
    hide CountAtMost, IsDistribution;
    if |data| > 1 { FullScale(|data|); }
  }

  lemma SortedMinimum(v: seq<real>)
    requires Sorted(v) && v != []
    ensures v[0] == 0.0 ==> forall y :: y in v ==> y >= 0.0
    ensures (0.0 in v && forall y :: y in v ==> y >= 0.0) ==> v[0] == 0.0
  {
    if 0.0 in v && forall y :: y in v ==> y >= 0.0 {
      var k :| 0 <= k < |v| && v[k] == 0.0;
      assert v[0] in v;
    }
  }

  lemma Sameness(v: seq<real>, data: seq<real>)
    requires SameCounts(v, data)
    ensures |v| == |data| && (forall x :: x in v <==> x in data)
    ensures forall b :: Exact(b, v, |v|) <==> Exact(b, data, |data|)
  {
    assert |multiset(v)| == |v| && |multiset(data)| == |data|;
    forall x ensures x in v <==> x in data {
      assert x in v <==> x in multiset(v);
      assert x in data <==> x in multiset(data);
    }
  }

  lemma BucketsAreDistribution(bs: seq<Bucket>, v: seq<real>, data: seq<real>)
    requires Tells(bs, v, |v|) && Sorted(v) && SameCounts(v, data)
    ensures IsDistribution(bs, data)
  {
    Sameness(v, data);
    SortedMinimum(v);
    hide SameCounts, Sorted, CountAtMost;
    forall x: real ensures HasKey(bs, x) <==> x in data && !(x == 0.0 && forall y :: y in data ==> y >= 0.0) {
      if i :| 0 <= i < |bs| && bs[i].key == x {
        assert Exact(bs[i], v, |v|);
        assert x in multiset(v);
      }
      if x in v {
        var j :| 0 <= j < |v| && v[j] == x;
        assert HasKey(bs, v[j]) <==> !(v[j] == 0.0 && v[0] == 0.0);
      }
    }
    forall i | 0 <= i < |bs| ensures Exact(bs[i], data, |data|) { assert Exact(bs[i], v, |v|); }
    hide Exact;
  }

  lemma ZerosAlike(v: seq<real>, data: seq<real>)
    requires SameCounts(v, data)
    ensures AllZero(v) <==> AllZero(data)
  {
    Sameness(v, data);
    hide SameCounts;
    if AllZero(v) {
      forall j | 0 <= j < |data| ensures data[j] == 0.0 {
        var y := data[j];
        assert y in data;
        assert y in v;
      }
    }
    if AllZero(data) {
      forall j | 0 <= j < |v| ensures v[j] == 0.0 {
        var y := v[j];
        assert y in v;
        assert y in data;
      }
    }
  }

  lemma AfterNothing(n: nat)
    ensures After([], EMPTY, [], n)
  {
  }

  lemma AfterAll(od: seq<Bucket>, bkt: Bucket, v: seq<real>)
    requires After(od, bkt, v, |v|)
    ensures od == [] <==> AllZero(v)
    ensures od != [] ==> Tells(od[1..] + [bkt], v, |v|) && od[|od| - 1].key != bkt.key
  {
    hide Tells, AllZero;
  }

  lemma SortedPrefix(v: seq<real>, i: nat)
    requires Sorted(v) && i < |v|
    ensures Sorted(v[..i] + [v[i]]) && v[..i + 1] == v[..i] + [v[i]]
  {
  }

  /** The loop over the sorted values. */
  method Scan(v: seq<real>) returns (od: seq<Bucket>, bkt: Bucket)
    requires Sorted(v)
    ensures After(od, bkt, v, |v|)
  {
    AfterNothing(|v|);
    hide *;
    od, bkt := [], EMPTY;
    var accum := 0;
    assert v[..0] == [];
    for i := 0 to |v|
      invariant accum == i && After(od, bkt, v[..i], |v|)
    {
      var key := v[i];
      accum := accum + 1;
      SortedPrefix(v, i);
      if bkt.key == key {
        StepSame(od, bkt, v[..i], key, |v|);
        bkt := Bucket(bkt.key, bkt.count + 1, accum, PositionOf(i, |v|));
      } else {
        StepNew(od, bkt, v[..i], key, |v|);
        od := od + [bkt];
        bkt := Bucket(key, 1, accum, PositionOf(i, |v|));
      }
    }
    assert v[..|v|] == v;
  }

  /** The distribution of the values; there is none if they are all 0, or if there are none. */
  method GetCdfFromArray(data: seq<real>) returns (r: Result<seq<Bucket>>)
    ensures r.IndexError? <==> AllZero(data)
    ensures r.Ok? ==> IsDistribution(r.value, data)
  {
    hide *;
    var v := Sort(data);
    ZerosAlike(v, data);
    Sameness(v, data);
    var od, bkt := Scan(v);
    AfterAll(od, bkt, v);
    if od == [] { return IndexError; }
    ghost var bs := od[1..] + [bkt];
    if od[|od| - 1].key != bkt.key { od := od + [bkt]; }
    assert od[1..] == bs;
    BucketsAreDistribution(bs, v, data);
    r := Ok(od[1..]);
  }

  /** The last bucket accounts for all values. */
  lemma LastIsAll(bs: seq<Bucket>, data: seq<real>)
    requires IsDistribution(bs, data) && bs != []
    ensures bs[|bs| - 1].accum == |data|
  {
    var b := bs[|bs| - 1];
    assert Exact(b, data, |data|) && HasKey(bs, b.key);
    forall i | 0 <= i < |data| ensures data[i] <= b.key {
      assert data[i] in data;
      if HasKey(bs, data[i]) {
        var k :| 0 <= k < |bs| && bs[k].key == data[i];
      }
    }
    CountAll(data, b.key);
  }

  // ----- percentile slices

  const STEP := 5

  /** Where the slice that starts at i percent of n sorted values begins. */
  function SliceStart(i: nat, n: nat): nat {
    i * n / 100
  }

  lemma SliceIsPercent(i: nat, n: nat)
    ensures 100 * SliceStart(i, n) <= i * n < 100 * (SliceStart(i, n) + 1)
  {
  }

  lemma SliceBounds(i: nat, n: nat)
    ensures i <= 100 ==> SliceStart(i, n) <= SliceStart(i + STEP, n) && SliceStart(i, n) <= n
    ensures SliceStart(0, n) == 0 && SliceStart(100, n) == n
  {
    var a, b := i * n, (i + STEP) * n;
    assert b == a + STEP * n;
    if i <= 100 { assert a <= 100 * n by { assert (100 - i) * n >= 0; } }
  }

  /** The slices taken in steps of 5 percent lie end to end and cover all values; none of them is empty, so that
      each has a largest size, exactly if there are at least 20 values. */
  lemma SlicesNonempty(n: nat)
    ensures forall i: nat :: i < 100 ==> SliceStart(i, n) <= SliceStart(i + STEP, n)
    ensures (forall i: nat :: i < 100 && i % STEP == 0 ==> SliceStart(i, n) < SliceStart(i + STEP, n)) <==> n >= 20
  {
    forall i: nat | i < 100 ensures SliceStart(i, n) <= SliceStart(i + STEP, n) { SliceBounds(i, n); }
    if n >= 20 {
      forall i: nat | i < 100 && i % STEP == 0 ensures SliceStart(i, n) < SliceStart(i + STEP, n) {
        assert (i + STEP) * n == i * n + STEP * n >= i * n + 100;
      }
    } else {
      assert SliceStart(0, n) == 0 && SliceStart(0 + STEP, n) == 0;
    }
  }
}
