/** The stable sort `asdict` applies to the profiles: Python's `sorted`
    with a key function, modelled as an insertion sort over string keys
    compared by code point. */
module Sorting {
  /** Python's ordering of strings: lexicographic by code point. */
  predicate LexLeq(a: string, b: string) {
    a == [] || (b != [] && (a[0] < b[0] || (a[0] == b[0] && LexLeq(a[1..], b[1..]))))
  }

  lemma LexTotal(a: string, b: string)
    ensures LexLeq(a, b) || LexLeq(b, a)
  {
  }

  lemma LexTrans(a: string, b: string, c: string)
    requires LexLeq(a, b) && LexLeq(b, c)
    ensures LexLeq(a, c)
  {
  }

  /** Inserting `p` before the first element whose key is not smaller. */
  function Insert<T(==)>(key: T -> string, p: T, ps: seq<T>): (r: seq<T>)
    ensures multiset(r) == multiset(ps) + multiset{p}
  {
    if ps == [] then [p]
    else if LexLeq(key(p), key(ps[0])) then
      assert ([p] + ps)[1..] == ps;
      [p] + ps
    else
      var tail := Insert(key, p, ps[1..]);
      assert ps == [ps[0]] + ps[1..];
      [ps[0]] + tail
  }

  /** Python's `sorted(..., key=key)`: a stable insertion sort. */
  function Sort<T(==)>(key: T -> string, ps: seq<T>): (r: seq<T>)
    ensures multiset(r) == multiset(ps)
  {
    if ps == [] then []
    else
      assert ps == [ps[0]] + ps[1..];
      Insert(key, ps[0], Sort(key, ps[1..]))
  }

  predicate SortedBy<T>(key: T -> string, ps: seq<T>) {
    forall i, j :: 0 <= i < j < |ps| ==> LexLeq(key(ps[i]), key(ps[j]))
  }

  /** The elements with key `w`, in order. */
  function WithKey<T>(key: T -> string, ps: seq<T>, w: string): seq<T> {
    if ps == [] then []
    else (if key(ps[0]) == w then [ps[0]] else []) + WithKey(key, ps[1..], w)
  }

  lemma LexRefl(a: string)
    ensures LexLeq(a, a)
  {
  }

  /** Every element of a permutation of `ps` plus `p` has a key at least `w`. */
  lemma KeysAbove<T>(key: T -> string, w: string, ps: seq<T>, p: T, tail: seq<T>)
    requires forall j :: 0 <= j < |ps| ==> LexLeq(w, key(ps[j]))
    requires LexLeq(w, key(p)) && multiset(tail) == multiset(ps) + multiset{p}
    ensures forall j :: 0 <= j < |tail| ==> LexLeq(w, key(tail[j]))
  {
    forall j | 0 <= j < |tail| ensures LexLeq(w, key(tail[j])) {
      assert tail[j] in multiset(tail);
      if tail[j] != p {
        assert tail[j] in multiset(ps);
        var m :| 0 <= m < |ps| && ps[m] == tail[j];
      }
    }
  }

  lemma {:induction false} InsertSorted<T>(key: T -> string, p: T, ps: seq<T>)
    requires SortedBy(key, ps)
    ensures SortedBy(key, Insert(key, p, ps))
  {
    if ps == [] {
    } else if LexLeq(key(p), key(ps[0])) {
      var r := [p] + ps;
      forall i, j | 0 <= i < j < |r| ensures LexLeq(key(r[i]), key(r[j])) {
        if i == 0 {
          assert r[j] == ps[j - 1];
          if j > 1 {
            LexTrans(key(p), key(ps[0]), key(ps[j - 1]));
          }
        } else {
          assert r[i] == ps[i - 1] && r[j] == ps[j - 1];
        }
      }
      assert Insert(key, p, ps) == r;
    } else {
      LexTotal(key(p), key(ps[0]));
      var rest := ps[1..];
      assert SortedBy(key, rest) by {
        forall i, j | 0 <= i < j < |rest| ensures LexLeq(key(rest[i]), key(rest[j])) {
          assert rest[i] == ps[i + 1] && rest[j] == ps[j + 1];
        }
      }
      InsertSorted(key, p, rest);
      var tail := Insert(key, p, rest);
      forall j | 0 <= j < |rest| ensures LexLeq(key(ps[0]), key(rest[j])) {
        assert rest[j] == ps[j + 1];
      }
      KeysAbove(key, key(ps[0]), rest, p, tail);
      var r := [ps[0]] + tail;
      forall i, j | 0 <= i < j < |r| ensures LexLeq(key(r[i]), key(r[j])) {
        assert r[j] == tail[j - 1];
        if i > 0 {
          assert r[i] == tail[i - 1];
        }
      }
      assert Insert(key, p, ps) == r;
    }
  }

  /** Insertion puts `p` first among the elements with its key. */
  lemma {:induction false} InsertKeepsOrder<T>(key: T -> string, p: T, ps: seq<T>, w: string)
    ensures WithKey(key, Insert(key, p, ps), w) == (if key(p) == w then [p] else []) + WithKey(key, ps, w)
  {
    if ps == [] {
      assert WithKey(key, [p], w) == (if key(p) == w then [p] else []) + WithKey(key, [], w);
    } else if LexLeq(key(p), key(ps[0])) {
      assert ([p] + ps)[1..] == ps;
    } else {
      InsertKeepsOrder(key, p, ps[1..], w);
      InsertPastHead(key, p, ps, w, Insert(key, p, ps[1..]), Insert(key, p, ps));
    }
  }

  /** Insertion past the first element keeps that element first. */
  lemma InsertPastHead<T>(key: T -> string, p: T, ps: seq<T>, w: string, tail: seq<T>, r: seq<T>)
    requires ps != [] && !LexLeq(key(p), key(ps[0]))
    requires r == [ps[0]] + tail
    requires WithKey(key, tail, w) == (if key(p) == w then [p] else []) + WithKey(key, ps[1..], w)
    ensures WithKey(key, r, w) == (if key(p) == w then [p] else []) + WithKey(key, ps, w)
  {
    WithKeyCons(key, ps[0], tail, w);
    WithKeyCons(key, ps[0], ps[1..], w);
    assert [ps[0]] + ps[1..] == ps;
    var x := WithKey(key, ps[1..], w);
    if key(p) == w {
      LexRefl(w);
      assert key(ps[0]) != w;
      assert [] + ([p] + x) == [p] + ([] + x);
    } else {
      var first: seq<T> := if key(ps[0]) == w then [ps[0]] else [];
      assert first + ([] + x) == [] + (first + x);
    }
  }

  lemma WithKeyCons<T>(key: T -> string, x: T, xs: seq<T>, w: string)
    ensures WithKey(key, [x] + xs, w) == (if key(x) == w then [x] else []) + WithKey(key, xs, w)
  {
    assert ([x] + xs)[1..] == xs;
  }

  /** The sort gives a sorted permutation in which elements with equal
      keys keep their order. */
  lemma {:induction false} SortCorrect<T>(key: T -> string, ps: seq<T>, w: string)
    ensures SortedBy(key, Sort(key, ps))
    ensures multiset(Sort(key, ps)) == multiset(ps)
    ensures WithKey(key, Sort(key, ps), w) == WithKey(key, ps, w)
  {
    if ps != [] {
      SortCorrect(key, ps[1..], w);
      InsertSorted(key, ps[0], Sort(key, ps[1..]));
      InsertKeepsOrder(key, ps[0], Sort(key, ps[1..]), w);
    }
  }
}
