/** What a counted loop that appends `f(0)`, `f(1)`, ... writes. */
module Loops {
  import opened Graph

  function Concat<T>(n: nat, f: nat -> seq<T>): seq<T> {
    if n == 0 then [] else Concat(n - 1, f) + f(n - 1)
  }

  lemma ConcatStep<T>(n: nat, f: nat -> seq<T>)
    ensures Concat(0, f) == [] && Concat(n + 1, f) == Concat(n, f) + f(n)
  {
  }

  lemma {:induction false} InConcat<T>(n: nat, f: nat -> seq<T>, x: T)
    ensures x in Concat(n, f) <==> exists i: nat :: i < n && x in f(i)
  {
    if n > 0 {
      InConcat(n - 1, f, x);
      if i: nat :| i < n && x in f(i) {
        if i < n - 1 { assert i < n - 1 && x in f(i); }
      }
    }
  }

  lemma {:induction false} ConcatLength<T>(n: nat, f: nat -> seq<T>, c: nat)
    requires forall i: nat :: i < n ==> |f(i)| == c
    ensures |Concat(n, f)| == n * c
  {
    if n > 0 {
      ConcatLength(n - 1, f, c);
      assert n * c == (n - 1) * c + c;
    }
  }

  /** With rounds of one length everything has its place. */
  lemma {:induction false} ConcatAt<T>(n: nat, f: nat -> seq<T>, c: nat, i: nat, j: nat)
    requires i < n && j < c && forall k: nat :: k < n ==> |f(k)| == c
    ensures |Concat(n, f)| == n * c && i * c + j < n * c && Concat(n, f)[i * c + j] == f(i)[j]
  {
    ConcatLength(n, f, c);
    ConcatLength(n - 1, f, c);
    Before(i, j, c, n);
    assert n * c == (n - 1) * c + c;
    if i < n - 1 {
      ConcatAt(n - 1, f, c, i, j);
    }
  }

  lemma Before(i: nat, j: nat, c: nat, n: nat)
    requires i < n && j < c
    ensures i * c + j < n * c
  {
    Longer(i + 1, n, c);
    assert (i + 1) * c == i * c + c;
  }

  lemma Longer(m: nat, n: nat, c: nat)
    requires m <= n
    ensures m * c <= n * c
  {
  }

  ghost predicate Apart<T(!new)>(n: nat, f: nat -> seq<T>) {
    && (forall i: nat :: i < n ==> NoDup(f(i)))
    && (forall i: nat, j: nat, x :: i < n && j < n && x in f(i) && x in f(j) ==> i == j)
  }

  /** If no two rounds write the same thing, nothing is written twice. */
  lemma {:induction false} ConcatNoDup<T(!new)>(n: nat, f: nat -> seq<T>)
    requires Apart(n, f)
    ensures NoDup(Concat(n, f))
  {
    if n > 0 {
      var a, b := Concat(n - 1, f), f(n - 1);
      ConcatNoDup(n - 1, f);
      forall i, j | 0 <= i < |a| && 0 <= j < |b| ensures a[i] != b[j] {
        InConcat(n - 1, f, a[i]);
        var k: nat :| k < n - 1 && a[i] in f(k);
        assert b[j] in f(n - 1);
      }
    }
  }

  lemma NoDupAppend<T(!new)>(a: seq<T>, b: seq<T>)
    requires NoDup(a) && NoDup(b) && forall x :: x in a && x in b ==> false
    ensures NoDup(a + b)
  {
    forall i, j | 0 <= i < |a| && 0 <= j < |b| ensures a[i] != b[j] {
      assert a[i] in a && b[j] in b;
    }
  }

  /** A set that has at most one more element. */
  lemma OneMoreElement(s: set<nat>, t: set<nat>, n: nat)
    requires n !in s && ((forall i: nat :: i in t <==> i in s || i == n) || (forall i: nat :: i in t <==> i in s))
    ensures |t| == |s| + (if n in t then 1 else 0)
  {
    if n in t { assert t == s + {n}; } else { assert t == s; }
  }

  lemma Assoc<T>(a: seq<T>, b: seq<T>, c: seq<T>)
    ensures a + (b + c) == a + b + c
  {
  }
}
