/** The parts of System.Collections.Generic.List<T> the core relies on, over sequences. */
module Lists {

  /** No element occurs twice. */
  predicate NoDup<T(==)>(xs: seq<T>) {
    forall i, j :: 0 <= i < j < |xs| ==> xs[i] != xs[j]
  }

  /** IndexOf: the position of the first element equal to x. */
  function IndexOf<T(==)>(xs: seq<T>, x: T): (i: nat)
    requires x in xs
    ensures i < |xs| && xs[i] == x
    ensures forall j :: 0 <= j < i ==> xs[j] != x
  {
    if xs[0] == x then 0 else 1 + IndexOf(xs[1..], x)
  }

  /** List<T>.Remove: drops the first element equal to x and keeps the others in order;
      nothing changes when x is absent. */
  function RemoveFirst<T(==)>(xs: seq<T>, x: T): (r: seq<T>)
    ensures x !in xs ==> r == xs
    ensures x in xs ==> |r| == |xs| - 1
    ensures x in xs ==> forall k :: 0 <= k < |r| ==> r[k] == (if k < IndexOf(xs, x) then xs[k] else xs[k + 1])
    ensures multiset(r) == multiset(xs) - multiset{x}
    ensures forall y :: y in r ==> y in xs
  {
    if x in xs then
      var i := IndexOf(xs, x);
      assert xs == xs[..i] + [xs[i]] + xs[i + 1..];
      xs[..i] + xs[i + 1..]
    else
      xs
  }

  /** In a list without duplicates, Remove takes x out completely and keeps it duplicate-free. */
  lemma RemoveFirstNoDup<T>(xs: seq<T>, x: T)
    requires NoDup(xs)
    ensures NoDup(RemoveFirst(xs, x))
    ensures forall y :: y in RemoveFirst(xs, x) <==> y in xs && y != x
  {
    if x in xs {
      var i := IndexOf(xs, x);
      assert RemoveFirst(xs, x) == xs[..i] + xs[i + 1..];
      DropAtNoDup(xs, i);
    }
  }

  /** Dropping one position of a duplicate-free list keeps it duplicate-free and loses
      exactly the element that was there. */
  lemma DropAtNoDup<T>(xs: seq<T>, i: nat)
    requires NoDup(xs) && i < |xs|
    ensures NoDup(xs[..i] + xs[i + 1..])
    ensures forall y :: y in xs[..i] + xs[i + 1..] <==> y in xs && y != xs[i]
  {
    var r := xs[..i] + xs[i + 1..];
    assert forall k :: 0 <= k < |r| ==> r[k] == xs[if k < i then k else k + 1];
    forall y ensures y in r <==> y in xs && y != xs[i] {
      if y in r {
        var k :| 0 <= k < |r| && r[k] == y;
        assert y == xs[if k < i then k else k + 1];
      }
      if y in xs && y != xs[i] {
        var k :| 0 <= k < |xs| && xs[k] == y;
        assert r[if k < i then k else k - 1] == y;
      }
    }
  }


  /** Remove takes out the first occurrence: the one after a prefix that does not hold x. */
  lemma RemoveFirstAfter<T>(xs: seq<T>, x: T, ys: seq<T>)
    requires x !in xs
    ensures RemoveFirst(xs + [x] + ys, x) == xs + ys
  {
    var zs := xs + [x] + ys;
    assert zs[|xs|] == x;
    forall j | 0 <= j < |xs| ensures zs[j] != x {
      assert zs[j] == xs[j];
    }
    assert IndexOf(zs, x) == |xs|;
    assert zs[..|xs|] == xs && zs[|xs| + 1..] == ys;
  }

  /** List<T>.Add after a Contains check: x is appended unless already present. */
  function AddOnce<T(==,!new)>(xs: seq<T>, x: T): (r: seq<T>)
    ensures x in r
    ensures forall y :: y in r <==> y in xs || y == x
    ensures NoDup(xs) ==> NoDup(r)
    ensures x in xs ==> r == xs
    ensures x !in xs ==> |r| == |xs| + 1 && r[..|xs|] == xs && r[|xs|] == x
  {
    if x in xs then xs else xs + [x]
  }

  /** A subset is no larger than its superset. */
  lemma {:induction false} SubsetCardinality<T>(a: set<T>, b: set<T>)
    requires a <= b
    ensures |a| <= |b|
    decreases |b|
  {
    if a != {} {
      var x :| x in a;
      SubsetCardinality(a - {x}, b - {x});
    }
  }

  /** The last `n` elements of a sequence, or all of them when there are fewer. */
  function LastN<T>(xs: seq<T>, n: nat): (r: seq<T>)
    ensures |r| == if |xs| <= n then |xs| else n
    ensures r == xs[|xs| - |r|..]
  {
    if |xs| <= n then xs else xs[|xs| - n..]
  }

  /** Keeping the last n, then appending at most one element and keeping the last n again, is
      the same as appending first. */
  lemma LastNAppend<T>(xs: seq<T>, ys: seq<T>, n: nat)
    requires |ys| <= 1
    ensures LastN(LastN(xs, n) + ys, n) == LastN(xs + ys, n)
  {
    var zs := LastN(xs, n);
    var a, b := LastN(zs + ys, n), LastN(xs + ys, n);
    assert |a| == |b|;
    forall i | 0 <= i < |a| ensures a[i] == b[i] {
      var k := |a| - 1 - i;
      if k < |ys| {
        assert a[i] == ys[|ys| - 1 - k] == b[i];
      } else {
        assert a[i] == zs[|zs| - 1 - (k - |ys|)] == xs[|xs| - 1 - (k - |ys|)] == b[i];
      }
    }
  }
}
