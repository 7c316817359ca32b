/** `sorted(set(xs))`. */
module SortedSets {
  function InsertSorted(x: int, xs: seq<int>): seq<int> {
    if xs == [] then [x]
    else if x < xs[0] then [x] + xs
    else if x == xs[0] then xs
    else [xs[0]] + InsertSorted(x, xs[1..])
  }

  function SortedSet(xs: seq<int>): seq<int> {
    if xs == [] then [] else InsertSorted(xs[0], SortedSet(xs[1..]))
  }

  predicate StrictlySorted(xs: seq<int>) {
    forall i, j :: 0 <= i < j < |xs| ==> xs[i] < xs[j]
  }

  lemma {:induction false} InsertSortedSorts(x: int, xs: seq<int>)
    requires StrictlySorted(xs)
    ensures StrictlySorted(InsertSorted(x, xs))
    ensures forall y :: y in InsertSorted(x, xs) <==> y == x || y in xs
  {
    if xs != [] && x > xs[0] {
      InsertSortedSorts(x, xs[1..]);
      var r := InsertSorted(x, xs[1..]);
      assert xs == [xs[0]] + xs[1..];
      forall j | 0 <= j < |r| ensures xs[0] < r[j] {
        assert r[j] in r;
      }
    }
  }

  lemma {:induction false} SortedSetSorts(xs: seq<int>)
    ensures StrictlySorted(SortedSet(xs))
    ensures forall y :: y in SortedSet(xs) <==> y in xs
  {
    if xs != [] {
      SortedSetSorts(xs[1..]);
      InsertSortedSorts(xs[0], SortedSet(xs[1..]));
      assert xs == [xs[0]] + xs[1..];
    }
  }
}
