/** The orders the gallery lists its rows in. Albums, photos, locations and
    people are ordered by name as SQLite compares text: a NULL name first,
    then by code point. SQLite leaves the order of rows with equal names
    open; the model fixes one, the order insertion sort gives them. */
module Ordering {
  import opened Wrappers

  /** `le` is total and transitive: a sort order with possible ties. */
  ghost predicate TotalPreorder<T(!new)>(le: (T, T) -> bool)
  {
    (forall a, b :: le(a, b) || le(b, a))
    && (forall a, b, c :: le(a, b) && le(b, c) ==> le(a, c))
  }

  predicate Sorted<T>(xs: seq<T>, le: (T, T) -> bool)
  {
    forall i, j :: 0 <= i < j < |xs| ==> le(xs[i], xs[j])
  }

  /** Inserts `x` after every element that does not come after it. */
  function Insert<T>(x: T, xs: seq<T>, le: (T, T) -> bool): (r: seq<T>)
    ensures multiset(r) == multiset(xs) + multiset{x}
    ensures |r| == |xs| + 1
  {
    if |xs| == 0 then [x]
    else if le(xs[0], x) then
      assert xs == [xs[0]] + xs[1..];
      [xs[0]] + Insert(x, xs[1..], le)
    else [x] + xs
  }

  /** Insertion sort: each element goes after the sorted elements before it
      that do not come after it. */
  function Sort<T>(xs: seq<T>, le: (T, T) -> bool): (r: seq<T>)
    ensures multiset(r) == multiset(xs)
    ensures |r| == |xs|
  {
    if |xs| == 0 then []
    else
      assert xs == xs[..|xs| - 1] + [xs[|xs| - 1]];
      Insert(xs[|xs| - 1], Sort(xs[..|xs| - 1], le), le)
  }

  lemma {:induction false} InsertSorted<T(!new)>(x: T, xs: seq<T>, le: (T, T) -> bool)
    requires TotalPreorder(le) && Sorted(xs, le)
    ensures Sorted(Insert(x, xs, le), le)
    decreases |xs|
  {
    if |xs| > 0 && le(xs[0], x) {
      InsertSorted(x, xs[1..], le);
      HeadBeforeInserted(x, xs, le);
    } else if |xs| > 0 {
      InsertedBeforeHead(x, xs, le);
    }
  }

  /** The head stays first when it does not come after x. */
  lemma HeadBeforeInserted<T(!new)>(x: T, xs: seq<T>, le: (T, T) -> bool)
    requires TotalPreorder(le) && Sorted(xs, le) && |xs| > 0 && le(xs[0], x)
    requires Sorted(Insert(x, xs[1..], le), le)
    ensures Sorted([xs[0]] + Insert(x, xs[1..], le), le)
  {
    var rest := Insert(x, xs[1..], le);
    forall k | 0 <= k < |rest|
      ensures le(xs[0], rest[k])
    {
      assert rest[k] in multiset(rest);
      assert rest[k] in multiset(xs[1..]) + multiset{x};
      if rest[k] != x {
        assert rest[k] in multiset(xs[1..]);
        var m :| 0 <= m < |xs[1..]| && xs[1..][m] == rest[k];
        assert xs[m + 1] == rest[k];
      }
    }
    var r := [xs[0]] + rest;
    forall i, j | 0 <= i < j < |r|
      ensures le(r[i], r[j])
    {
      if i > 0 {
        assert r[i] == rest[i - 1] && r[j] == rest[j - 1];
      } else {
        assert r[j] == rest[j - 1];
      }
    }
  }

  /** x goes first when the head comes after it. */
  lemma InsertedBeforeHead<T(!new)>(x: T, xs: seq<T>, le: (T, T) -> bool)
    requires TotalPreorder(le) && Sorted(xs, le) && |xs| > 0 && !le(xs[0], x)
    ensures Sorted([x] + xs, le)
  {
    var r := [x] + xs;
    assert le(x, xs[0]);
    forall i, j | 0 <= i < j < |r|
      ensures le(r[i], r[j])
    {
      if i > 0 {
        assert r[i] == xs[i - 1] && r[j] == xs[j - 1];
      } else {
        assert r[j] == xs[j - 1];
        assert le(xs[0], xs[j - 1]) || j - 1 == 0;
      }
    }
  }

  /** The sort orders its result and keeps its elements. */
  lemma {:induction false} SortSorted<T(!new)>(xs: seq<T>, le: (T, T) -> bool)
    requires TotalPreorder(le)
    ensures Sorted(Sort(xs, le), le)
    decreases |xs|
  {
    if |xs| > 0 {
      SortSorted(xs[..|xs| - 1], le);
      InsertSorted(xs[|xs| - 1], Sort(xs[..|xs| - 1], le), le);
    }
  }

  /** Text as SQLite compares it: code point by code point, a prefix first. */
  predicate TextLe(a: string, b: string)
  {
    |a| == 0 || (|b| > 0 && (a[0] < b[0] || (a[0] == b[0] && TextLe(a[1..], b[1..]))))
  }

  lemma {:induction false} TextLeTotal(a: string, b: string)
    ensures TextLe(a, b) || TextLe(b, a)
    decreases |a|
  {
    if |a| > 0 && |b| > 0 && a[0] == b[0] {
      TextLeTotal(a[1..], b[1..]);
    }
  }

  lemma {:induction false} TextLeTrans(a: string, b: string, c: string)
    requires TextLe(a, b) && TextLe(b, c)
    ensures TextLe(a, c)
    decreases |a|
  {
    if |a| > 0 && a[0] == b[0] && b[0] == c[0] {
      TextLeTrans(a[1..], b[1..], c[1..]);
    }
  }

  /** Equal texts compare both ways, and texts comparing both ways are equal. */
  lemma {:induction false} TextLeAntisymmetric(a: string, b: string)
    requires TextLe(a, b) && TextLe(b, a)
    ensures a == b
    decreases |a|
  {
    if |a| > 0 {
      TextLeAntisymmetric(a[1..], b[1..]);
      assert a == [a[0]] + a[1..] && b == [b[0]] + b[1..];
    }
  }

  /** ORDER BY name: a NULL name first, then text order. */
  predicate NameLe(a: Option<string>, b: Option<string>)
  {
    a.None? || (b.Some? && TextLe(a.value, b.value))
  }

  /** The order of rows by the name `key` gives them. */
  function ByName<T>(key: T -> Option<string>): (T, T) -> bool
  {
    (a: T, b: T) => NameLe(key(a), key(b))
  }

  lemma ByNameOrder<T(!new)>(key: T -> Option<string>)
    ensures TotalPreorder(ByName(key))
  {
    var le := ByName(key);
    forall a: T, b: T
      ensures le(a, b) || le(b, a)
    {
      if key(a).Some? && key(b).Some? {
        TextLeTotal(key(a).value, key(b).value);
      }
    }
    forall a: T, b: T, c: T | le(a, b) && le(b, c)
      ensures le(a, c)
    {
      if key(a).Some? {
        TextLeTrans(key(a).value, key(b).value, key(c).value);
      }
    }
  }

  /** A table's rows, in the table's order, listed by name. */
  function SortByName<T(!new)>(rows: seq<T>, key: T -> Option<string>): (r: seq<T>)
    ensures multiset(r) == multiset(rows)
    ensures forall i, j :: 0 <= i < j < |r| ==> NameLe(key(r[i]), key(r[j]))
  {
    ByNameOrder(key);
    SortSorted(rows, ByName(key));
    Sort(rows, ByName(key))
  }

  /** queryset.first() over a name-ordered table: the first row by name,
      or None for an empty table. */
  function FirstByName<T(!new)>(rows: seq<T>, key: T -> Option<string>): (r: Option<T>)
    ensures r.None? <==> |rows| == 0
    ensures r.Some? ==> r.value in rows && forall x :: x in rows ==> NameLe(key(r.value), key(x))
  {
    var sorted := SortByName(rows, key);
    if |sorted| == 0 then None
    else
      assert sorted[0] in multiset(rows);
      FirstIsLeast(rows, sorted, key);
      Some(sorted[0])
  }

  lemma FirstIsLeast<T>(rows: seq<T>, sorted: seq<T>, key: T -> Option<string>)
    requires |sorted| > 0 && multiset(sorted) == multiset(rows)
    requires forall i, j :: 0 <= i < j < |sorted| ==> NameLe(key(sorted[i]), key(sorted[j]))
    ensures forall x :: x in rows ==> NameLe(key(sorted[0]), key(x))
  {
    forall x | x in rows
      ensures NameLe(key(sorted[0]), key(x))
    {
      assert x in multiset(sorted);
      var k :| 0 <= k < |sorted| && sorted[k] == x;
      if k == 0 && key(x).Some? {
        TextLeTotal(key(x).value, key(x).value);
      }
    }
  }
}
