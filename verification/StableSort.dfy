/** Python's `sorted`: a stable sort by any total preorder. */
module StableSort {
  ghost predicate TotalPreorder<T(!new)>(leq: (T, T) -> bool) {
    && (forall a, b :: leq(a, b) || leq(b, a))
    && (forall a, b, c :: leq(a, b) && leq(b, c) ==> leq(a, c))
  }

  ghost predicate SortedBy<T>(leq: (T, T) -> bool, xs: seq<T>) {
    forall i, j :: 0 <= i < j < |xs| ==> leq(xs[i], xs[j])
  }

  /** Inserts x before the first element that must not precede it. */
  function Insert<T>(leq: (T, T) -> bool, x: T, xs: seq<T>): seq<T> {
    if xs == [] then [x]
    else if leq(x, xs[0]) then [x] + xs
    else [xs[0]] + Insert(leq, x, xs[1..])
  }

  function Sort<T>(leq: (T, T) -> bool, xs: seq<T>): seq<T> {
    if xs == [] then [] else Insert(leq, xs[0], Sort(leq, xs[1..]))
  }

  function Filter<T>(p: T -> bool, xs: seq<T>): seq<T> {
    if xs == [] then []
    else if p(xs[0]) then [xs[0]] + Filter(p, xs[1..])
    else Filter(p, xs[1..])
  }

  lemma {:induction false} FilterAppend<T>(p: T -> bool, xs: seq<T>, ys: seq<T>)
    ensures Filter(p, xs + ys) == Filter(p, xs) + Filter(p, ys)
  {
    if xs == [] {
      assert xs + ys == ys;
    } else {
      FilterAppend(p, xs[1..], ys);
      assert (xs + ys)[1..] == xs[1..] + ys;
    }
  }

  lemma {:induction false} FilterFacts<T>(p: T -> bool, xs: seq<T>)
    ensures forall x :: x in Filter(p, xs) <==> x in xs && p(x)
    ensures (forall x :: x in xs ==> p(x)) ==> Filter(p, xs) == xs
    ensures (forall x :: x in xs ==> !p(x)) ==> Filter(p, xs) == []
  {
    if xs != [] {
      FilterFacts(p, xs[1..]);
    }
  }

  lemma TwoOccurrences<T>(xs: seq<T>, i: nat, j: nat)
    requires i < j < |xs| && xs[i] == xs[j]
    ensures multiset(xs)[xs[i]] >= 2
  {
    assert xs == xs[..i] + [xs[i]] + xs[i + 1..j] + [xs[j]] + xs[j + 1..];
  }

  lemma {:induction false} InsertIsPermutation<T>(leq: (T, T) -> bool, x: T, xs: seq<T>)
    ensures multiset(Insert(leq, x, xs)) == multiset([x]) + multiset(xs)
  {
    if xs != [] {
      assert xs == [xs[0]] + xs[1..];
      InsertIsPermutation(leq, x, xs[1..]);
    }
  }

  lemma {:induction false} InsertIsSorted<T(!new)>(leq: (T, T) -> bool, x: T, xs: seq<T>)
    requires TotalPreorder(leq) && SortedBy(leq, xs)
    ensures SortedBy(leq, Insert(leq, x, xs))
  {
    if xs != [] {
      if leq(x, xs[0]) {
        assert forall j :: 0 <= j < |xs| ==> leq(x, xs[j]);
      } else {
        InsertIsSorted(leq, x, xs[1..]);
        InsertIsPermutation(leq, x, xs[1..]);
        var rest := Insert(leq, x, xs[1..]);
        forall j | 0 <= j < |rest|
          ensures leq(xs[0], rest[j])
        {
          assert rest[j] in multiset(rest);
          if rest[j] != x {
            assert rest[j] in xs[1..];
          }
        }
      }
    }
  }

  /** Among elements that are equal in the order, x comes first. */
  lemma {:induction false} InsertIsStable<T(!new)>(leq: (T, T) -> bool, x: T, xs: seq<T>, p: T -> bool)
    requires TotalPreorder(leq)
    requires forall a, b :: p(a) && p(b) ==> leq(a, b)
    ensures Filter(p, Insert(leq, x, xs)) == Filter(p, [x] + xs)
  {
    assert ([x] + xs)[1..] == xs;
    if xs != [] && !leq(x, xs[0]) {
      InsertIsStable(leq, x, xs[1..], p);
      assert ([x] + xs[1..])[1..] == xs[1..];
      assert !(p(x) && p(xs[0]));
      assert Insert(leq, x, xs)[1..] == Insert(leq, x, xs[1..]);
    }
  }

  /** The result is the input, reordered, in order, and elements that the order
      does not tell apart keep their relative places. */
  lemma {:induction false} SortIsCorrect<T(!new)>(leq: (T, T) -> bool, xs: seq<T>)
    requires TotalPreorder(leq)
    ensures multiset(Sort(leq, xs)) == multiset(xs) && |Sort(leq, xs)| == |xs|
    ensures SortedBy(leq, Sort(leq, xs))
    ensures
      forall p: T -> bool :: (forall a, b :: p(a) && p(b) ==> leq(a, b)) ==>
        Filter(p, Sort(leq, xs)) == Filter(p, xs)
  {
    if xs != [] {
      var (x, rest) := (xs[0], Sort(leq, xs[1..]));
      SortIsCorrect(leq, xs[1..]);
      assert xs == [x] + xs[1..];
      InsertIsPermutation(leq, x, rest);
      InsertIsSorted(leq, x, rest);
      assert |multiset(Sort(leq, xs))| == |Sort(leq, xs)|;
      forall p: T -> bool | forall a, b :: p(a) && p(b) ==> leq(a, b)
        ensures Filter(p, Sort(leq, xs)) == Filter(p, xs)
      {
        InsertIsStable(leq, x, rest, p);
        assert ([x] + rest)[1..] == rest;
      }
    }
  }

  /** Sorting what is already in order changes nothing. */
  lemma {:induction false} SortIsIdempotent<T>(leq: (T, T) -> bool, xs: seq<T>)
    requires SortedBy(leq, xs)
    ensures Sort(leq, xs) == xs
  {
    if xs != [] {
      SortIsIdempotent(leq, xs[1..]);
      assert |xs| > 1 ==> leq(xs[0], xs[1]);
    }
  }
}
