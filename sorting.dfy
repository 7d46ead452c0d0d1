/**
 * The stable sort behind Java's `List.sort` with a comparator, as a stable
 * insertion sort over an ordering `le` ("a does not come after b"), and the
 * lexicographic order of `String.compareTo`.
 */
module Sorting {

  /** `le` is a total preorder on the elements of `s`. */
  ghost predicate TotalPreorderOn<T>(s: seq<T>, le: (T, T) -> bool)
  {
    && (forall a, b | a in s && b in s :: le(a, b) || le(b, a))
    && (forall a, b, c | a in s && b in s && c in s :: le(a, b) && le(b, c) ==> le(a, c))
  }

  ghost predicate Sorted<T>(s: seq<T>, le: (T, T) -> bool)
  {
    forall i, j | 0 <= i < j < |s| :: le(s[i], s[j])
  }

  /** The elements of `s`, in their order in `s`, that `le` ranks level with `e`. */
  function Ties<T>(s: seq<T>, e: T, le: (T, T) -> bool): seq<T>
  {
    if s == [] then []
    else (if le(s[0], e) && le(e, s[0]) then [s[0]] else []) + Ties(s[1..], e, le)
  }

  /** Inserts `x` in front of the first element that does not come before it. */
  function Insert<T>(x: T, t: seq<T>, le: (T, T) -> bool): (r: seq<T>)
    ensures multiset(r) == multiset(t) + multiset{x}
    ensures |r| == |t| + 1
  {
    if t == [] || le(x, t[0]) then [x] + t
    else
      assert t == [t[0]] + t[1..];
      [t[0]] + Insert(x, t[1..], le)
  }

  /** Stable sort: equal elements keep their relative order. */
  function Sort<T>(s: seq<T>, le: (T, T) -> bool): (r: seq<T>)
    ensures multiset(r) == multiset(s)
    ensures |r| == |s|
  {
    if s == [] then []
    else
      assert s == [s[0]] + s[1..];
      Insert(s[0], Sort(s[1..], le), le)
  }

  lemma {:induction false} InsertSorted<T>(x: T, t: seq<T>, le: (T, T) -> bool, s: seq<T>)
    requires TotalPreorderOn(s, le)
    requires x in s && forall y | y in t :: y in s
    requires Sorted(t, le)
    ensures Sorted(Insert(x, t, le), le)
  {
    if t == [] || le(x, t[0]) {
      forall j | 0 < j < |t| + 1 ensures le(x, ([x] + t)[j]) {
        assert t[0] in s && t[j - 1] in s;
        if j > 1 { assert le(t[0], t[j - 1]); }
      }
    } else {
      var rest := Insert(x, t[1..], le);
      InsertSorted(x, t[1..], le, s);
      assert le(t[0], x) by { assert t[0] in s; }
      forall j | 0 <= j < |rest| ensures le(t[0], rest[j]) {
        assert rest[j] in multiset(rest);
        assert rest[j] in multiset(t[1..]) + multiset{x};
        if rest[j] != x {
          assert rest[j] in t[1..];
          var k :| 0 <= k < |t[1..]| && t[1..][k] == rest[j];
          assert le(t[0], t[k + 1]);
        }
      }
    }
  }

  /** The sort orders its input. */
  lemma {:induction false} SortSorted<T>(s: seq<T>, le: (T, T) -> bool)
    requires TotalPreorderOn(s, le)
    ensures Sorted(Sort(s, le), le)
  {
    if s != [] {
      assert TotalPreorderOn(s[1..], le);
      SortSorted(s[1..], le);
      var t := Sort(s[1..], le);
      forall y | y in t ensures y in s {
        assert y in multiset(t);
      }
      InsertSorted(s[0], t, le, s);
    }
  }

  lemma {:induction false} TiesAppend<T>(a: seq<T>, b: seq<T>, e: T, le: (T, T) -> bool)
    ensures Ties(a + b, e, le) == Ties(a, e, le) + Ties(b, e, le)
  {
    if a != [] {
      assert (a + b)[0] == a[0];
      assert (a + b)[1..] == a[1..] + b;
      TiesAppend(a[1..], b, e, le);
    } else {
      assert a + b == b;
    }
  }

  /** Inserting `x` keeps every tie class in input order: `x` precedes its later equals. */
  lemma {:induction false} InsertTies<T>(x: T, t: seq<T>, e: T, le: (T, T) -> bool, s: seq<T>)
    requires TotalPreorderOn(s, le)
    requires x in s && e in s && forall y | y in t :: y in s
    ensures Ties(Insert(x, t, le), e, le) == Ties([x] + t, e, le)
  {
    if t != [] && !le(x, t[0]) {
      var h, rest := t[0], t[1..];
      assert h in s;
      assert Insert(x, t, le) == [h] + Insert(x, rest, le);
      InsertTies(x, rest, e, le, s);
      TiesAppend([h], Insert(x, rest, le), e, le);
      TiesAppend([x], rest, e, le);
      TiesAppend([h], rest, e, le);
      TiesAppend([x], t, e, le);
      assert [h] + rest == t;
      // `h` comes strictly before `x`, so they cannot both be level with `e`.
      assert Ties([h], e, le) == [] || Ties([x], e, le) == [];
    }
  }

  /**
   * The sort is stable: each class of level elements keeps its input order.
   * `u` is any collection on which `le` is a total preorder, holding `e` and `s`.
   */
  lemma {:induction false} SortStable<T>(s: seq<T>, e: T, le: (T, T) -> bool, u: seq<T>)
    requires TotalPreorderOn(u, le) && e in u && forall y | y in s :: y in u
    ensures Ties(Sort(s, le), e, le) == Ties(s, e, le)
  {
    if s != [] {
      var t := Sort(s[1..], le);
      forall y | y in t ensures y in u {
        assert y in multiset(t);
        assert y in s[1..];
      }
      SortStable(s[1..], e, le, u);
      InsertTies(s[0], t, e, le, u);
      TiesAppend([s[0]], t, e, le);
      TiesAppend([s[0]], s[1..], e, le);
      assert [s[0]] + s[1..] == s;
    }
  }

  lemma MultisetTail<T>(a: seq<T>, b: seq<T>)
    requires multiset(a) == multiset(b) && a != [] && b != [] && a[0] == b[0]
    ensures multiset(a[1..]) == multiset(b[1..])
  {
    assert a == [a[0]] + a[1..] && b == [b[0]] + b[1..];
    calc {
      multiset(a[1..]);
      multiset(a) - multiset{a[0]};
      multiset(b) - multiset{b[0]};
      multiset(b[1..]);
    }
  }

  /** The head of a sorted sequence comes no later than any of its elements. */
  lemma SortedHead<T>(a: seq<T>, x: T, le: (T, T) -> bool)
    requires Sorted(a, le) && TotalPreorderOn(a, le) && x in a
    ensures le(a[0], x)
  {
    var m :| 0 <= m < |a| && a[m] == x;
    if m == 0 {
      assert le(x, x) || le(x, x);
    }
  }

  /** Two sorted arrangements of the same elements start with the same element when no two differ and tie. */
  lemma SortedSameHead<T>(a: seq<T>, b: seq<T>, le: (T, T) -> bool)
    requires multiset(a) == multiset(b) && a != []
    requires Sorted(a, le) && Sorted(b, le) && TotalPreorderOn(a, le)
    requires forall x, y | x in a && y in a && le(x, y) && le(y, x) :: x == y
    ensures b != [] && a[0] == b[0]
  {
    assert |b| == |multiset(b)| == |a|;
    assert a[0] in multiset(b) && b[0] in multiset(a);
    assert a[0] in b && b[0] in a;
    assert TotalPreorderOn(b, le) by {
      forall x | x in b ensures x in a { assert x in multiset(b); }
    }
    SortedHead(a, b[0], le);
    SortedHead(b, a[0], le);
  }

  /** Dropping the first element keeps a list sorted, the preorder and the absence of distinct ties. */
  lemma SortedTail<T>(a: seq<T>, le: (T, T) -> bool)
    requires a != [] && Sorted(a, le) && TotalPreorderOn(a, le)
    requires forall x, y | x in a && y in a && le(x, y) && le(y, x) :: x == y
    ensures Sorted(a[1..], le) && TotalPreorderOn(a[1..], le)
    ensures forall x, y | x in a[1..] && y in a[1..] && le(x, y) && le(y, x) :: x == y
  {
    forall x | x in a[1..] ensures x in a { }
  }

  /**
   * Two sorted arrangements of the same elements are identical when `le`
   * never ranks two different elements level.
   */
  lemma {:induction false} SortedUnique<T>(a: seq<T>, b: seq<T>, le: (T, T) -> bool)
    requires multiset(a) == multiset(b)
    requires Sorted(a, le) && Sorted(b, le) && TotalPreorderOn(a, le)
    requires forall x, y | x in a && y in a && le(x, y) && le(y, x) :: x == y
    ensures a == b
  {
    if a == [] {
      assert |b| == |multiset(b)| == 0;
    } else {
      SortedSameHead(a, b, le);
      MultisetTail(a, b);
      SortedTail(a, le);
      assert Sorted(b[1..], le);
      SortedUnique(a[1..], b[1..], le);
      assert a == [a[0]] + a[1..] && b == [b[0]] + b[1..];
    }
  }

  /** Orders elements by a real-valued key, as a comparator built on `Double.compare` does. */
  function ByKey<T>(key: T -> real): (T, T) -> bool
  {
    (a, b) => key(a) <= key(b)
  }

  lemma ByKeyPreorder<T>(s: seq<T>, key: T -> real)
    ensures TotalPreorderOn(s, ByKey(key))
  {
  }

  /** Sorting by a key yields a non-decreasing key sequence holding the same elements. */
  lemma SortByKey<T>(s: seq<T>, key: T -> real)
    ensures multiset(Sort(s, ByKey(key))) == multiset(s)
    ensures forall i, j | 0 <= i < j < |s| :: key(Sort(s, ByKey(key))[i]) <= key(Sort(s, ByKey(key))[j])
  {
    ByKeyPreorder(s, key);
    SortSorted(s, ByKey(key));
  }

  /** `String.compareTo(a, b) <= 0`: lexicographic order, a proper prefix first. */
  predicate StrLe(a: string, b: string)
  {
    if a == [] then true
    else if b == [] then false
    else if a[0] != b[0] then a[0] < b[0]
    else StrLe(a[1..], b[1..])
  }

  lemma {:induction false} StrLeTotal(a: string, b: string)
    ensures StrLe(a, b) || StrLe(b, a)
  {
    if a != [] && b != [] && a[0] == b[0] {
      StrLeTotal(a[1..], b[1..]);
    }
  }

  lemma {:induction false} StrLeAntisymmetric(a: string, b: string)
    requires StrLe(a, b) && StrLe(b, a)
    ensures a == b
  {
    if a != [] && b != [] {
      StrLeAntisymmetric(a[1..], b[1..]);
      assert a == [a[0]] + a[1..] && b == [b[0]] + b[1..];
    }
  }

  lemma {:induction false} StrLeTransitive(a: string, b: string, c: string)
    requires StrLe(a, b) && StrLe(b, c)
    ensures StrLe(a, c)
  {
    if a != [] && b != [] && c != [] && a[0] == b[0] && b[0] == c[0] {
      StrLeTransitive(a[1..], b[1..], c[1..]);
    }
  }
}
