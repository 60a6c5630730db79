/**
 Sequence helpers mirroring the JavaScript array methods the services use:
 `find`/`findIndex` (first match), `filter`, and counting.
 */
module Collections {
  import opened Wrappers

  /** `xs.findIndex(x => key(x) === id)`, with `None` for -1. */
  function FirstIndex<T, K(==)>(xs: seq<T>, key: T -> K, id: K): (r: Option<nat>)
    ensures r.None? <==> forall i :: 0 <= i < |xs| ==> key(xs[i]) != id
    ensures r.Some? ==> r.value < |xs| && key(xs[r.value]) == id
    ensures r.Some? ==> forall j :: 0 <= j < r.value ==> key(xs[j]) != id
  {
    if xs == [] then None
    else if key(xs[0]) == id then Some(0)
    else match FirstIndex(xs[1..], key, id)
      case None => None
      case Some(k) => Some(k + 1)
  }

  /** When keys are pairwise distinct, the first match for an element's key is that element. */
  lemma FirstIndexOfUnique<T, K>(xs: seq<T>, key: T -> K, i: int)
    requires 0 <= i < |xs|
    requires forall a, b :: 0 <= a < b < |xs| ==> key(xs[a]) != key(xs[b])
    ensures FirstIndex(xs, key, key(xs[i])) == Some(i)
  {
    var r := FirstIndex(xs, key, key(xs[i]));
    assert !(r.value < i) && !(i < r.value);
  }

  /** `xs.find(x => key(x) === id)`. */
  function Find<T, K(==)>(xs: seq<T>, key: T -> K, id: K): (r: Option<T>)
    ensures r.None? <==> forall i :: 0 <= i < |xs| ==> key(xs[i]) != id
    ensures r.Some? ==> r.value in xs && key(r.value) == id
  {
    match FirstIndex(xs, key, id)
    case None => None
    case Some(i) => Some(xs[i])
  }

  /** `xs.filter(p)`. */
  function Filter<T>(xs: seq<T>, p: T -> bool): (r: seq<T>)
    ensures |r| <= |xs|
    ensures forall i :: 0 <= i < |r| ==> r[i] in xs && p(r[i])
    ensures forall i :: 0 <= i < |xs| && p(xs[i]) ==> xs[i] in r
  {
    if xs == [] then []
    else if p(xs[0]) then [xs[0]] + Filter(xs[1..], p)
    else Filter(xs[1..], p)
  }

  /** Filtering keeps the original order: it distributes over concatenation. */
  lemma {:induction false} FilterAppend<T>(a: seq<T>, b: seq<T>, p: T -> bool)
    ensures Filter(a + b, p) == Filter(a, p) + Filter(b, p)
  {
    if a == [] {
      assert a + b == b;
    } else {
      assert (a + b)[1..] == a[1..] + b;
      FilterAppend(a[1..], b, p);
    }
  }

  /** `xs.filter(p).length`. */
  function Count<T>(xs: seq<T>, p: T -> bool): (r: nat)
    ensures r <= |xs|
    ensures r == 0 <==> forall i :: 0 <= i < |xs| ==> !p(xs[i])
    ensures r == |xs| <==> forall i :: 0 <= i < |xs| ==> p(xs[i])
  {
    if xs == [] then 0
    else (if p(xs[0]) then 1 else 0) + Count(xs[1..], p)
  }

  lemma {:induction false} CountAppend<T>(a: seq<T>, b: seq<T>, p: T -> bool)
    ensures Count(a + b, p) == Count(a, p) + Count(b, p)
  {
    if a == [] {
      assert a + b == b;
    } else {
      assert (a + b)[1..] == a[1..] + b;
      CountAppend(a[1..], b, p);
    }
  }

  /** The number of elements `filter` keeps is the number that satisfy `p`. */
  lemma {:induction false} FilterLength<T>(xs: seq<T>, p: T -> bool)
    ensures |Filter(xs, p)| == Count(xs, p)
  {
    if xs != [] {
      FilterLength(xs[1..], p);
    }
  }

  /** Every pair of elements, taken in order, is related by `ok`. */
  ghost predicate Pairwise<T>(xs: seq<T>, ok: (T, T) -> bool) {
    forall i, j :: 0 <= i < j < |xs| ==> ok(xs[i], xs[j])
  }

  /** `filter` keeps a subsequence, so a relation between all pairs survives it. */
  lemma {:induction false} FilterKeepsPairwise<T>(xs: seq<T>, p: T -> bool, ok: (T, T) -> bool)
    requires Pairwise(xs, ok)
    ensures Pairwise(Filter(xs, p), ok)
  {
    if xs != [] {
      var rest := xs[1..];
      assert Pairwise(rest, ok) by {
        forall i, j | 0 <= i < j < |rest| ensures ok(rest[i], rest[j]) {
          assert rest[i] == xs[i + 1] && rest[j] == xs[j + 1];
        }
      }
      FilterKeepsPairwise(rest, p, ok);
      var f := Filter(rest, p);
      if p(xs[0]) {
        forall k | 0 <= k < |f| ensures ok(xs[0], f[k]) {
          var i :| 0 <= i < |rest| && rest[i] == f[k];
          assert xs[i + 1] == f[k];
        }
        var r := Filter(xs, p);
        assert r == [xs[0]] + f;
        forall i, j | 0 <= i < j < |r| ensures ok(r[i], r[j]) {
          if i > 0 {
            assert r[i] == f[i - 1] && r[j] == f[j - 1];
          } else {
            assert r[j] == f[j - 1];
          }
        }
      }
    }
  }

  /** The elements in the opposite order: rows recorded oldest first, read newest first. */
  function Reverse<T>(xs: seq<T>): (r: seq<T>)
    ensures |r| == |xs|
    ensures forall i :: 0 <= i < |xs| ==> r[i] == xs[|xs| - 1 - i]
    ensures forall i :: 0 <= i < |r| ==> r[i] in xs
  {
    if xs == [] then [] else Reverse(xs[1..]) + [xs[0]]
  }

  /** Concatenation regroups freely. */
  lemma AppendAssoc<T>(x: seq<T>, y: seq<T>, z: seq<T>)
    ensures x + (y + z) == (x + y) + z
  {
  }

  /** The element added last comes first once the order is reversed. */
  lemma {:induction false} ReverseAppend<T>(xs: seq<T>, x: T)
    ensures Reverse(xs + [x]) == [x] + Reverse(xs)
  {
    var a, b := Reverse(xs + [x]), [x] + Reverse(xs);
    assert |a| == |b|;
    forall i | 0 <= i < |a| ensures a[i] == b[i] {
      if i > 0 {
        assert a[i] == (xs + [x])[|xs| - i] == xs[|xs| - 1 - (i - 1)];
      }
    }
  }
}
