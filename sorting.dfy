/** Python's `sorted(xs, key=key, reverse=reverse)`: a stable sort on a key. With
    `reverse` the keys come out non-increasing, and elements with equal keys still keep
    their input order. The sort is written as an insertion sort; its contract is the
    ordering, the permutation and the stability. */
module Sorting {

  /** Whether key `a` may come before key `b` in the requested direction. */
  predicate InOrder(a: real, b: real, reverse: bool)
  {
    if reverse then a >= b else a <= b
  }

  ghost predicate SortedBy<T>(s: seq<T>, key: T -> real, reverse: bool)
  {
    forall i, j :: 0 <= i < j < |s| ==> InOrder(key(s[i]), key(s[j]), reverse)
  }

  /** The elements of `s` whose key is `k`, in their order in `s`. */
  function KeyClass<T>(s: seq<T>, key: T -> real, k: real): seq<T>
  {
    if s == [] then []
    else Only(s[0], key, k) + KeyClass(s[1..], key, k)
  }

  /** Put `x`, which came before every element of `s`, in front of the first element it
      may precede. */
  function Insert<T>(x: T, s: seq<T>, key: T -> real, reverse: bool): (r: seq<T>)
    ensures multiset(r) == multiset(s) + multiset{x}
  {
    if s == [] then [x]
    else if InOrder(key(x), key(s[0]), reverse) then [x] + s
    else
      assert s == [s[0]] + s[1..];
      [s[0]] + Insert(x, s[1..], key, reverse)
  }

  function Sort<T>(s: seq<T>, key: T -> real, reverse: bool): (r: seq<T>)
    ensures multiset(r) == multiset(s)
    ensures |r| == |s|
  {
    if s == [] then []
    else
      assert s == [s[0]] + s[1..];
      Insert(s[0], Sort(s[1..], key, reverse), key, reverse)
  }

  /** An element that may precede every element of a sorted list may go in front of it. */
  lemma ConsSorted<T>(y: T, t: seq<T>, key: T -> real, reverse: bool)
    requires SortedBy(t, key, reverse)
    requires forall e :: e in t ==> InOrder(key(y), key(e), reverse)
    ensures SortedBy([y] + t, key, reverse)
  {
    var r := [y] + t;
    forall i, j | 0 <= i < j < |r| ensures InOrder(key(r[i]), key(r[j]), reverse) {
      if i > 0 {
        assert r[i] == t[i - 1] && r[j] == t[j - 1];
      } else {
        assert r[j] in t;
      }
    }
  }

  /** When `x` goes past the head of a sorted list, everything after the head may follow it. */
  lemma HeadPrecedesInsert<T>(x: T, s: seq<T>, key: T -> real, reverse: bool)
    requires SortedBy(s, key, reverse)
    requires s != [] && !InOrder(key(x), key(s[0]), reverse)
    ensures forall e :: e in Insert(x, s[1..], key, reverse) ==> InOrder(key(s[0]), key(e), reverse)
  {
    var t := Insert(x, s[1..], key, reverse);
    forall e | e in t ensures InOrder(key(s[0]), key(e), reverse) {
      assert e in multiset(t);
      if e != x {
        assert e in s[1..];
      }
    }
  }

  lemma {:induction false} InsertSorted<T>(x: T, s: seq<T>, key: T -> real, reverse: bool)
    requires SortedBy(s, key, reverse)
    ensures SortedBy(Insert(x, s, key, reverse), key, reverse)
  {
    if s == [] {
    } else if InOrder(key(x), key(s[0]), reverse) {
      ConsSorted(x, s, key, reverse);
    } else {
      assert SortedBy(s[1..], key, reverse);
      InsertSorted(x, s[1..], key, reverse);
      HeadPrecedesInsert(x, s, key, reverse);
      ConsSorted(s[0], Insert(x, s[1..], key, reverse), key, reverse);
    }
  }

  /** The sort's output is ordered by key in the requested direction. */
  lemma {:induction false} SortSorted<T>(s: seq<T>, key: T -> real, reverse: bool)
    ensures SortedBy(Sort(s, key, reverse), key, reverse)
  {
    if s != [] {
      SortSorted(s[1..], key, reverse);
      InsertSorted(s[0], Sort(s[1..], key, reverse), key, reverse);
    }
  }

  lemma KeyClassCons<T>(y: T, ys: seq<T>, key: T -> real, k: real)
    ensures KeyClass([y] + ys, key, k) == Only(y, key, k) + KeyClass(ys, key, k)
  {
    assert ([y] + ys)[0] == y && ([y] + ys)[1..] == ys;
  }

  /** The one-element class of `y` for key `k`. */
  function Only<T>(y: T, key: T -> real, k: real): seq<T>
  {
    if key(y) == k then [y] else []
  }

  lemma {:induction false} InsertKeyClass<T>(x: T, s: seq<T>, key: T -> real, reverse: bool, k: real)
    ensures KeyClass(Insert(x, s, key, reverse), key, k) == Only(x, key, k) + KeyClass(s, key, k)
  {
    if s == [] || InOrder(key(x), key(s[0]), reverse) {
      assert Insert(x, s, key, reverse) == [x] + s;
      KeyClassCons(x, s, key, k);
    } else {
      var t := Insert(x, s[1..], key, reverse);
      assert key(s[0]) != key(x);
      assert Only(x, key, k) == [] || Only(s[0], key, k) == [];
      calc {
        KeyClass(Insert(x, s, key, reverse), key, k);
        { assert Insert(x, s, key, reverse) == [s[0]] + t; }
        KeyClass([s[0]] + t, key, k);
        { KeyClassCons(s[0], t, key, k); }
        Only(s[0], key, k) + KeyClass(t, key, k);
        { InsertKeyClass(x, s[1..], key, reverse, k); }
        Only(s[0], key, k) + (Only(x, key, k) + KeyClass(s[1..], key, k));
        Only(x, key, k) + (Only(s[0], key, k) + KeyClass(s[1..], key, k));
        { KeyClassCons(s[0], s[1..], key, k); assert [s[0]] + s[1..] == s; }
        Only(x, key, k) + KeyClass(s, key, k);
      }
    }
  }

  /** The sort is stable: for every key, the elements with that key come out in the
      order they went in. */
  lemma {:induction false} SortStable<T>(s: seq<T>, key: T -> real, reverse: bool, k: real)
    ensures KeyClass(Sort(s, key, reverse), key, k) == KeyClass(s, key, k)
  {
    if s != [] {
      SortStable(s[1..], key, reverse, k);
      InsertKeyClass(s[0], Sort(s[1..], key, reverse), key, reverse, k);
    }
  }

  /** Sorting an already sorted sequence leaves it as it is; in particular sorting
      twice is sorting once. */
  lemma {:induction false} SortOfSorted<T>(s: seq<T>, key: T -> real, reverse: bool)
    requires SortedBy(s, key, reverse)
    ensures Sort(s, key, reverse) == s
  {
    if s != [] {
      SortOfSorted(s[1..], key, reverse);
      if |s| > 1 {
        assert InOrder(key(s[0]), key(s[1]), reverse);
      }
      assert [s[0]] + s[1..] == s;
    }
  }

  lemma SortIdempotent<T>(s: seq<T>, key: T -> real, reverse: bool)
    ensures Sort(Sort(s, key, reverse), key, reverse) == Sort(s, key, reverse)
  {
    SortSorted(s, key, reverse);
    SortOfSorted(Sort(s, key, reverse), key, reverse);
  }

  lemma {:induction false} KeyClassMember<T>(s: seq<T>, key: T -> real, k: real, x: T)
    ensures x in KeyClass(s, key, k) <==> x in s && key(x) == k
  {
    if s != [] {
      KeyClassMember(s[1..], key, k, x);
      assert s == [s[0]] + s[1..];
    }
  }

  lemma HeadsAgree<T>(t: seq<T>, u: seq<T>, key: T -> real, reverse: bool)
    requires t != [] && u != []
    requires SortedBy(t, key, reverse) && SortedBy(u, key, reverse)
    requires forall k :: KeyClass(t, key, k) == KeyClass(u, key, k)
    ensures t[0] == u[0]
  {
    var k0 := key(t[0]);
    var k1 := key(u[0]);
    KeyClassMember(u, key, k1, u[0]);
    KeyClassMember(t, key, k1, u[0]);
    KeyClassMember(t, key, k0, t[0]);
    KeyClassMember(u, key, k0, t[0]);
    var i :| 0 <= i < |t| && t[i] == u[0];
    var j :| 0 <= j < |u| && u[j] == t[0];
    assert i > 0 ==> InOrder(k0, k1, reverse);
    assert j > 0 ==> InOrder(k1, k0, reverse);
    assert k0 == k1;
    assert KeyClass(t, key, k0)[0] == t[0];
    assert KeyClass(u, key, k0)[0] == u[0];
  }

  lemma TailsAgree<T>(t: seq<T>, u: seq<T>, key: T -> real, k: real)
    requires t != [] && u != [] && t[0] == u[0]
    requires KeyClass(t, key, k) == KeyClass(u, key, k)
    ensures KeyClass(t[1..], key, k) == KeyClass(u[1..], key, k)
  {
    var head := if key(t[0]) == k then [t[0]] else [];
    assert KeyClass(t[1..], key, k) == KeyClass(t, key, k)[|head|..];
    assert KeyClass(u[1..], key, k) == KeyClass(u, key, k)[|head|..];
  }

  /** A sequence that is ordered by key and keeps every key's elements in their input
      order is unique: the sort computes the only possible stable sorting. */
  lemma {:induction false} StableSortUnique<T>(t: seq<T>, u: seq<T>, key: T -> real, reverse: bool)
    requires SortedBy(t, key, reverse) && SortedBy(u, key, reverse)
    requires forall k :: KeyClass(t, key, k) == KeyClass(u, key, k)
    ensures t == u
  {
    if t != [] && u != [] {
      HeadsAgree(t, u, key, reverse);
      SortedTail(t, key, reverse);
      SortedTail(u, key, reverse);
      forall k ensures KeyClass(t[1..], key, k) == KeyClass(u[1..], key, k) {
        TailsAgree(t, u, key, k);
      }
      StableSortUnique(t[1..], u[1..], key, reverse);
      assert t == [t[0]] + t[1..] && u == [u[0]] + u[1..];
    } else {
      BothEmpty(t, u, key);
    }
  }

  lemma SortedTail<T>(s: seq<T>, key: T -> real, reverse: bool)
    requires s != [] && SortedBy(s, key, reverse)
    ensures SortedBy(s[1..], key, reverse)
  {
    forall i, j | 0 <= i < j < |s| - 1 ensures InOrder(key(s[1..][i]), key(s[1..][j]), reverse) {
      assert s[1..][i] == s[i + 1] && s[1..][j] == s[j + 1];
    }
  }

  lemma BothEmpty<T>(t: seq<T>, u: seq<T>, key: T -> real)
    requires t == [] || u == []
    requires forall k :: KeyClass(t, key, k) == KeyClass(u, key, k)
    ensures t == [] && u == []
  {
    assert t != [] ==> KeyClass(t, key, key(t[0])) != [];
    assert u != [] ==> KeyClass(u, key, key(u[0])) != [];
  }

  /** Every ordered, stable rearrangement of `s` is the sort of `s`. */
  lemma SortIsTheStableSort<T>(s: seq<T>, t: seq<T>, key: T -> real, reverse: bool)
    requires SortedBy(t, key, reverse)
    requires forall k :: KeyClass(t, key, k) == KeyClass(s, key, k)
    ensures t == Sort(s, key, reverse)
  {
    SortSorted(s, key, reverse);
    forall k ensures KeyClass(t, key, k) == KeyClass(Sort(s, key, reverse), key, k) {
      SortStable(s, key, reverse, k);
    }
    StableSortUnique(t, Sort(s, key, reverse), key, reverse);
  }

  // ---------------------------------------------------------------------------
  // The two directions

  /** The sequence read from the back. */
  function Reverse<T>(s: seq<T>): (r: seq<T>)
    ensures |r| == |s| && forall i :: 0 <= i < |s| ==> r[i] == s[|s| - 1 - i]
  {
    if s == [] then [] else Reverse(s[1..]) + [s[0]]
  }

  /** Reading from the back keeps the elements. */
  lemma {:induction false} ReverseSameElements<T>(s: seq<T>)
    ensures multiset(Reverse(s)) == multiset(s)
  {
    if s != [] {
      ReverseSameElements(s[1..]);
      assert s == [s[0]] + s[1..];
    }
  }

  /** Reading a sequence from the back reads each key class from the back. */
  lemma {:induction false} KeyClassReverse<T>(s: seq<T>, key: T -> real, k: real)
    ensures KeyClass(Reverse(s), key, k) == Reverse(KeyClass(s, key, k))
  {
    if s != [] {
      var rest := KeyClass(s[1..], key, k);
      KeyClassReverse(s[1..], key, k);
      KeyClassAppend(Reverse(s[1..]), [s[0]], key, k);
      assert KeyClass([s[0]], key, k) == Only(s[0], key, k) by {
        KeyClassCons(s[0], [], key, k);
        assert [s[0]] + [] == [s[0]];
      }
      if key(s[0]) == k {
        assert ([s[0]] + rest)[1..] == rest;
      } else {
        assert KeyClass(s, key, k) == rest;
      }
    }
  }

  lemma {:induction false} KeyClassAppend<T>(a: seq<T>, b: seq<T>, key: T -> real, k: real)
    ensures KeyClass(a + b, key, k) == KeyClass(a, key, k) + KeyClass(b, key, k)
  {
    if a != [] {
      KeyClassAppend(a[1..], b, key, k);
      assert (a + b)[0] == a[0] && (a + b)[1..] == a[1..] + b;
    } else {
      assert a + b == b;
    }
  }

  /** When no two elements share a key, every key class has at most one element. */
  lemma {:induction false} DistinctKeyClasses<T>(s: seq<T>, key: T -> real, k: real)
    requires forall i, j :: 0 <= i < j < |s| ==> key(s[i]) != key(s[j])
    ensures |KeyClass(s, key, k)| <= 1
  {
    if s != [] {
      DistinctKeyClasses(s[1..], key, k);
      if key(s[0]) == k {
        forall x | x in s[1..] ensures key(x) != k {
          var j :| 0 <= j < |s[1..]| && s[1..][j] == x;
          assert s[j + 1] == x;
        }
        if KeyClass(s[1..], key, k) != [] {
          KeyClassMember(s[1..], key, k, KeyClass(s[1..], key, k)[0]);
        }
      }
    }
  }

  /** An ascending sequence read from the back is descending. */
  lemma ReverseSorted<T>(up: seq<T>, key: T -> real)
    requires SortedBy(up, key, false)
    ensures SortedBy(Reverse(up), key, true)
  {
    var down := Reverse(up);
    forall i, j | 0 <= i < j < |down| ensures InOrder(key(down[i]), key(down[j]), true) {
      assert InOrder(key(up[|up| - 1 - j]), key(up[|up| - 1 - i]), false);
    }
  }

  /** With keys that are all different, the ascending sort read from the back keeps
      every key class of the input. */
  lemma ReversedSortClasses<T>(s: seq<T>, key: T -> real, k: real)
    requires forall i, j :: 0 <= i < j < |s| ==> key(s[i]) != key(s[j])
    ensures KeyClass(Reverse(Sort(s, key, false)), key, k) == KeyClass(s, key, k)
  {
    SortStable(s, key, false, k);
    KeyClassReverse(Sort(s, key, false), key, k);
    DistinctKeyClasses(s, key, k);
    var c := KeyClass(s, key, k);
    assert c == [] || c == [c[0]];
    assert Reverse(c) == c;
  }

  /** With keys that are all different, `reverse=True` gives exactly the ascending
      order read from the back. */
  lemma SortReverse<T>(s: seq<T>, key: T -> real)
    requires forall i, j :: 0 <= i < j < |s| ==> key(s[i]) != key(s[j])
    ensures Sort(s, key, true) == Reverse(Sort(s, key, false))
  {
    SortSorted(s, key, false);
    ReverseSorted(Sort(s, key, false), key);
    forall k ensures KeyClass(Reverse(Sort(s, key, false)), key, k) == KeyClass(s, key, k) {
      ReversedSortClasses(s, key, k);
    }
    SortIsTheStableSort(s, Reverse(Sort(s, key, false)), key, true);
  }

  /** Whatever the keys, the two directions hold the same elements. */
  lemma SortReverseSameElements<T>(s: seq<T>, key: T -> real)
    ensures multiset(Sort(s, key, true)) == multiset(Reverse(Sort(s, key, false)))
  {
    ReverseSameElements(Sort(s, key, false));
  }
}
