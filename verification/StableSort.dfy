/** The array sort of the language: in comparator order, and stable. */
module StableSort {
  type Less<!T> = (T, T) -> bool

  /** What a comparator must be: irreflexive, transitive, and tied items tied with the same items. */
  ghost predicate StrictWeak<T(!new)>(less: Less<T>) {
    && (forall a: T, b: T, c: T :: less(a, b) && less(b, c) ==> less(a, c))
    && (forall a: T, b: T, c: T :: less(a, c) ==> less(a, b) || less(b, c))
    && (forall a: T :: !less(a, a))
  }

  /** Insert before the first item that `x` comes before. */
  function Insert<T>(sorted: seq<T>, x: T, less: Less<T>): seq<T> {
    if sorted == [] || less(x, sorted[0]) then [x] + sorted else [sorted[0]] + Insert(sorted[1..], x, less)
  }

  function Sort<T>(items: seq<T>, less: Less<T>): seq<T> {
    if items == [] then [] else Insert(Sort(items[..|items| - 1], less), items[|items| - 1], less)
  }

  predicate IsSorted<T>(items: seq<T>, less: Less<T>) {
    forall i, j | 0 <= i < j < |items| :: !less(items[j], items[i])
  }

  predicate Tied<T>(x: T, k: T, less: Less<T>) { !less(x, k) && !less(k, x) }

  /** The items tied with `k`, in order. */
  function TiedWith<T>(items: seq<T>, k: T, less: Less<T>): seq<T> {
    if items == [] then []
    else (if Tied(items[0], k, less) then [items[0]] else []) + TiedWith(items[1..], k, less)
  }

  lemma {:induction false} InsertKeepsItems<T>(sorted: seq<T>, x: T, less: Less<T>)
    ensures multiset(Insert(sorted, x, less)) == multiset(sorted) + multiset{x}
  {
    if sorted != [] && !less(x, sorted[0]) {
      InsertKeepsItems(sorted[1..], x, less);
      assert sorted == [sorted[0]] + sorted[1..];
    }
  }

  lemma FirstIsLeast<T>(x: T, rest: seq<T>, less: Less<T>)
    requires IsSorted(rest, less) && forall y | y in multiset(rest) :: !less(y, x)
    ensures IsSorted([x] + rest, less)
  {
    forall k | 0 <= k < |rest|
      ensures !less(rest[k], x)
    {
      assert rest[k] in multiset(rest);
    }
  }

  lemma BeforeAll<T(!new)>(sorted: seq<T>, x: T, less: Less<T>)
    requires StrictWeak(less) && IsSorted(sorted, less) && sorted != [] && less(x, sorted[0])
    ensures forall y | y in sorted :: less(x, y)
  {
    forall k | 0 <= k < |sorted|
      ensures less(x, sorted[k])
    {
      assert k > 0 ==> !less(sorted[k], sorted[0]);
    }
  }

  lemma {:induction false} InsertSorts<T(!new)>(sorted: seq<T>, x: T, less: Less<T>)
    requires StrictWeak(less) && IsSorted(sorted, less)
    ensures IsSorted(Insert(sorted, x, less), less)
  {
    if sorted == [] || less(x, sorted[0]) {
      if sorted != [] {
        BeforeAll(sorted, x, less);
      }
      FirstIsLeast(x, sorted, less);
    } else {
      InsertSorts(sorted[1..], x, less);
      InsertKeepsItems(sorted[1..], x, less);
      FirstIsLeast(sorted[0], Insert(sorted[1..], x, less), less);
    }
  }

  lemma {:induction false} NoneTied<T>(items: seq<T>, k: T, less: Less<T>)
    requires forall x | x in items :: !Tied(x, k, less)
    ensures TiedWith(items, k, less) == []
  {
    if items != [] {
      NoneTied(items[1..], k, less);
    }
  }

  lemma {:induction false} InsertKeepsOrder<T(!new)>(sorted: seq<T>, x: T, less: Less<T>, k: T)
    requires StrictWeak(less) && IsSorted(sorted, less)
    ensures TiedWith(Insert(sorted, x, less), k, less) == TiedWith(sorted, k, less) + if Tied(x, k, less) then [x] else []
  {
    var r := Insert(sorted, x, less);
    if sorted == [] || less(x, sorted[0]) {
      assert r[1..] == sorted;
      if sorted != [] && Tied(x, k, less) {
        BeforeAll(sorted, x, less);
        NoneTied(sorted, k, less);
      }
    } else {
      InsertKeepsOrder(sorted[1..], x, less, k);
      assert r[1..] == Insert(sorted[1..], x, less);
    }
  }

  lemma {:induction false} OneMoreTied<T>(items: seq<T>, x: T, less: Less<T>, k: T)
    ensures TiedWith(items + [x], k, less) == TiedWith(items, k, less) + if Tied(x, k, less) then [x] else []
  {
    if items == [] {
      assert [x][1..] == [] && items + [x] == [x];
    } else {
      assert (items + [x])[1..] == items[1..] + [x];
      OneMoreTied(items[1..], x, less, k);
    }
  }

  lemma {:induction false} SortKeepsItems<T>(items: seq<T>, less: Less<T>)
    ensures multiset(Sort(items, less)) == multiset(items)
  {
    if items != [] {
      hide Insert;
      var (front, x) := (items[..|items| - 1], items[|items| - 1]);
      SortKeepsItems(front, less);
      InsertKeepsItems(Sort(front, less), x, less);
      assert items == front + [x];
    }
  }

  lemma SortHas<T(!new)>(items: seq<T>, less: Less<T>)
    ensures forall x :: x in Sort(items, less) <==> x in items
  {
    hide Sort;
    SortKeepsItems(items, less);
    assert forall x :: x in Sort(items, less) <==> x in multiset(Sort(items, less));
    assert forall x :: x in items <==> x in multiset(items);
  }

  lemma {:induction false} SortSorts<T(!new)>(items: seq<T>, less: Less<T>)
    requires StrictWeak(less)
    ensures IsSorted(Sort(items, less), less)
  {
    if items != [] {
      hide Insert, StrictWeak;
      var (front, x) := (items[..|items| - 1], items[|items| - 1]);
      SortSorts(front, less);
      InsertSorts(Sort(front, less), x, less);
    }
  }

  lemma {:induction false} SortKeepsOrder<T(!new)>(items: seq<T>, less: Less<T>, k: T)
    requires StrictWeak(less)
    ensures TiedWith(Sort(items, less), k, less) == TiedWith(items, k, less)
  {
    if items != [] {
      hide Insert, IsSorted, TiedWith, StrictWeak;
      var (front, x) := (items[..|items| - 1], items[|items| - 1]);
      SortKeepsOrder(front, less, k);
      SortSorts(front, less);
      InsertKeepsOrder(Sort(front, less), x, less, k);
      OneMoreTied(front, x, less, k);
      assert items == front + [x];
    }
  }

  /** Sorting keeps the items, puts them in order, and keeps the order of tied ones. */
  lemma SortIsStable<T(!new)>(items: seq<T>, less: Less<T>, k: T)
    requires StrictWeak(less)
    ensures IsSorted(Sort(items, less), less) && multiset(Sort(items, less)) == multiset(items)
    ensures TiedWith(Sort(items, less), k, less) == TiedWith(items, k, less)
  {
    SortKeepsItems(items, less);
    SortSorts(items, less);
    SortKeepsOrder(items, less, k);
  }

  lemma RestAlike<T>(a: seq<T>, b: seq<T>)
    requires a != [] && b != [] && a[0] == b[0] && multiset(a) == multiset(b)
    ensures multiset(a[1..]) == multiset(b[1..])
  {
    assert a == [a[0]] + a[1..] && b == [b[0]] + b[1..];
    assert multiset(a[1..]) == multiset(a) - multiset{a[0]} == multiset(b[1..]);
  }

  /** Two sorted lists of the same items are the same list, when tied items are equal. */
  lemma {:induction false} SortedAlike<T>(a: seq<T>, b: seq<T>, less: Less<T>)
    requires multiset(a) == multiset(b) && IsSorted(a, less) && IsSorted(b, less)
    requires forall x, y | x in a && y in a && Tied(x, y, less) :: x == y
    ensures a == b
  {
    if a == [] {
      assert |multiset(b)| == 0;
    } else {
      assert |multiset(a)| == |a| && |multiset(b)| == |b|;
      assert a[0] in multiset(b) && b[0] in multiset(a);
      var i :| 0 <= i < |b| && b[i] == a[0];
      var j :| 0 <= j < |a| && a[j] == b[0];
      assert a[0] != b[0] ==> Tied(a[0], b[0], less);
      RestAlike(a, b);
      SortedAlike(a[1..], b[1..], less);
    }
  }

  // ----- strings by code unit -----

  predicate CodeUnitsLess(a: string, b: string) {
    b != "" && (a == "" || a[0] < b[0] || (a[0] == b[0] && CodeUnitsLess(a[1..], b[1..])))
  }

  lemma {:induction false} CodeUnitsOrdered(a: string, b: string, c: string)
    ensures CodeUnitsLess(a, b) && CodeUnitsLess(b, c) ==> CodeUnitsLess(a, c)
    ensures CodeUnitsLess(a, c) ==> CodeUnitsLess(a, b) || CodeUnitsLess(b, c)
    ensures !CodeUnitsLess(a, b) && !CodeUnitsLess(b, a) ==> a == b
    ensures !CodeUnitsLess(a, a)
    decreases |a| + |b| + |c|
  {
    if a != "" && b != "" && c != "" {
      CodeUnitsOrdered(a[1..], b[1..], c[1..]);
      assert a == [a[0]] + a[1..] && b == [b[0]] + b[1..];
    } else if a != "" && b != "" {
      CodeUnitsOrdered(a[1..], b[1..], "");
      assert a == [a[0]] + a[1..] && b == [b[0]] + b[1..];
    } else if a != "" {
      CodeUnitsOrdered(a[1..], "", "");
    }
  }

  lemma CodeUnitsStrictWeak()
    ensures StrictWeak(CodeUnitsLess)
  {
    hide CodeUnitsLess;
    forall a: string, b: string, c: string
      ensures CodeUnitsLess(a, b) && CodeUnitsLess(b, c) ==> CodeUnitsLess(a, c)
      ensures CodeUnitsLess(a, c) ==> CodeUnitsLess(a, b) || CodeUnitsLess(b, c)
      ensures !CodeUnitsLess(a, a)
    {
      CodeUnitsOrdered(a, b, c);
    }
  }
}
