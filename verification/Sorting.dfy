/** The numeric sort the scanner applies to its lists. */
module Sorting {

  ghost predicate SortedBy<T>(xs: seq<T>, key: T -> int) {
    forall i, j | 0 <= i < j < |xs| :: key(xs[i]) <= key(xs[j])
  }

  function Insert<T>(x: T, xs: seq<T>, key: T -> int): seq<T> {
    if xs == [] || key(x) <= key(xs[0]) then [x] + xs
    else [xs[0]] + Insert(x, xs[1..], key)
  }

  function Sort<T>(xs: seq<T>, key: T -> int): seq<T> {
    if xs == [] then [] else Insert(xs[0], Sort(xs[1..], key), key)
  }

  lemma HeadAndTail<T>(xs: seq<T>)
    requires xs != []
    ensures multiset(xs) == multiset([xs[0]]) + multiset(xs[1..])
  {
    assert xs == [xs[0]] + xs[1..];
  }

  lemma {:induction false} InsertAdds<T>(x: T, xs: seq<T>, key: T -> int)
    ensures multiset(Insert(x, xs, key)) == multiset([x]) + multiset(xs)
  {
    if xs == [] {
    } else if key(x) > key(xs[0]) {
      var rest := Insert(x, xs[1..], key);
      InsertAdds(x, xs[1..], key);
      HeadAndTail(xs);
      calc {
        multiset([xs[0]] + rest);
        multiset([xs[0]]) + multiset(rest);
        multiset([xs[0]]) + (multiset([x]) + multiset(xs[1..]));
        multiset([x]) + (multiset([xs[0]]) + multiset(xs[1..]));
      }
    }
  }

  lemma {:induction false} InsertSorts<T>(x: T, xs: seq<T>, key: T -> int)
    requires SortedBy(xs, key)
    ensures SortedBy(Insert(x, xs, key), key)
  {
    if xs == [] {
    } else if key(x) > key(xs[0]) {
      var rest := Insert(x, xs[1..], key);
      InsertSorts(x, xs[1..], key);
      InsertAdds(x, xs[1..], key);
      forall j | 0 <= j < |rest| ensures key(xs[0]) <= key(rest[j]) {
        assert rest[j] in multiset(rest);
        assert rest[j] == x || rest[j] in xs[1..];
      }
    }
  }

  /** The result is ascending and is a permutation of the input. */
  lemma {:induction false} SortSorts<T>(xs: seq<T>, key: T -> int)
    ensures SortedBy(Sort(xs, key), key)
    ensures multiset(Sort(xs, key)) == multiset(xs)
  {
    if xs == [] {
    } else {
      SortSorts(xs[1..], key);
      InsertSorts(xs[0], Sort(xs[1..], key), key);
      InsertAdds(xs[0], Sort(xs[1..], key), key);
      HeadAndTail(xs);
    }
  }
}
