/**
  Python's `sorted(xs, key=...)` on workload rows, for the two keys the
  scheduler uses.  `sorted` is stable: rows with equal keys keep their input
  order.  The model is an insertion sort; its specification is the
  independent characterisation of a stable sort: the output is ordered by the
  key, and for every key value the rows carrying that value appear in the
  same order as in the input.
 */
module StableSort {
  import opened Workload

  /** `key=lambda x: x[1]` (arrival) and `key=lambda x: x[2]` (service). */
  datatype Key = ByArrival | ByService

  function KeyOf(j: Job, k: Key): int {
    match k
    case ByArrival => j.arrival
    case ByService => j.service
  }

  predicate SortedBy(js: seq<Job>, k: Key) {
    forall i, j :: 0 <= i < j < |js| ==> KeyOf(js[i], k) <= KeyOf(js[j], k)
  }

  /** The rows whose key equals `v`, in their order in `js`. */
  function WithKey(js: seq<Job>, k: Key, v: int): seq<Job> {
    if js == [] then []
    else (if KeyOf(js[0], k) == v then [js[0]] else []) + WithKey(js[1..], k, v)
  }

  /** Place `x` in front of the first row whose key is not smaller than its own. */
  function Insert(x: Job, js: seq<Job>, k: Key): (r: seq<Job>)
    ensures |r| == |js| + 1
    ensures multiset(r) == multiset(js) + multiset{x}
    ensures r[0] == x || (|js| > 0 && r[0] == js[0])
  {
    if js == [] || KeyOf(x, k) <= KeyOf(js[0], k) then
      [x] + js
    else
      var rest := Insert(x, js[1..], k);
      assert js == [js[0]] + js[1..];
      [js[0]] + rest
  }

  /** Every row of `Insert(x, js, k)` is `x` or a row of `js`. */
  lemma InsertMember(x: Job, js: seq<Job>, k: Key, y: Job)
    requires y in Insert(x, js, k)
    ensures y == x || y in js
  {
    assert y in multiset(Insert(x, js, k));
  }

  /** Inserting into a key-ordered list keeps it key-ordered. */
  lemma {:induction false} InsertKeepsOrder(x: Job, js: seq<Job>, k: Key)
    requires SortedBy(js, k)
    ensures SortedBy(Insert(x, js, k), k)
  {
    if js != [] && KeyOf(js[0], k) < KeyOf(x, k) {
      var tail := js[1..];
      var rest := Insert(x, tail, k);
      InsertKeepsOrder(x, tail, k);
      forall j | 0 <= j < |rest|
        ensures KeyOf(js[0], k) <= KeyOf(rest[j], k)
      {
        InsertMember(x, tail, k, rest[j]);
      }
      InsertBehind(x, js, k);
      ConsKeepsOrder(js[0], rest, k);
    }
  }

  /** A row whose key is at most every key of an ordered list can go in front of it. */
  lemma ConsKeepsOrder(y: Job, s: seq<Job>, k: Key)
    requires SortedBy(s, k)
    requires forall j :: 0 <= j < |s| ==> KeyOf(y, k) <= KeyOf(s[j], k)
    ensures SortedBy([y] + s, k)
  {
    forall i, j | 0 <= i < j < |[y] + s|
      ensures KeyOf(([y] + s)[i], k) <= KeyOf(([y] + s)[j], k)
    {
      if i > 0 {
        assert ([y] + s)[i] == s[i - 1];
      }
      assert ([y] + s)[j] == s[j - 1];
    }
  }

  function SortBy(js: seq<Job>, k: Key): (r: seq<Job>)
    ensures |r| == |js|
    ensures multiset(r) == multiset(js)
  {
    if js == [] then []
    else
      assert js == [js[0]] + js[1..];
      Insert(js[0], SortBy(js[1..], k), k)
  }

  /** The output of `SortBy` is ordered by the key. */
  lemma {:induction false} SortByIsOrdered(js: seq<Job>, k: Key)
    ensures SortedBy(SortBy(js, k), k)
  {
    if js != [] {
      SortByIsOrdered(js[1..], k);
      InsertKeepsOrder(js[0], SortBy(js[1..], k), k);
    }
  }

  lemma {:induction false} WithKeyMembers(js: seq<Job>, k: Key, v: int, x: Job)
    ensures x in WithKey(js, k, v) <==> x in js && KeyOf(x, k) == v
  {
    if js != [] {
      WithKeyMembers(js[1..], k, v, x);
      assert js == [js[0]] + js[1..];
    }
  }

  /** The per-key subsequence of a list with a known head. */
  lemma WithKeyCons(y: Job, s: seq<Job>, k: Key, v: int)
    ensures WithKey([y] + s, k, v) == (if KeyOf(y, k) == v then [y] else []) + WithKey(s, k, v)
  {
    assert ([y] + s)[1..] == s;
  }

  /** Insertion never reorders rows that share a key with `x`. */
  lemma {:induction false} InsertWithKey(x: Job, js: seq<Job>, k: Key, v: int)
    ensures WithKey(Insert(x, js, k), k, v)
         == (if KeyOf(x, k) == v then [x] else []) + WithKey(js, k, v)
  {
    if js == [] || KeyOf(x, k) <= KeyOf(js[0], k) {
      WithKeyCons(x, js, k, v);
    } else {
      InsertWithKey(x, js[1..], k, v);
      InsertBehindHead(x, js, k, v);
    }
  }

  /** The step of `InsertWithKey` where `x` goes behind the head of `js`. */
  lemma InsertBehindHead(x: Job, js: seq<Job>, k: Key, v: int)
    requires js != [] && KeyOf(x, k) > KeyOf(js[0], k)
    requires WithKey(Insert(x, js[1..], k), k, v)
          == (if KeyOf(x, k) == v then [x] else []) + WithKey(js[1..], k, v)
    ensures WithKey(Insert(x, js, k), k, v)
         == (if KeyOf(x, k) == v then [x] else []) + WithKey(js, k, v)
  {
    var rest := Insert(x, js[1..], k);
    var h0 := if KeyOf(js[0], k) == v then [js[0]] else [];
    var hx := if KeyOf(x, k) == v then [x] else [];
    InsertBehind(x, js, k);
    WithKeyCons(js[0], rest, k, v);
    assert js == [js[0]] + js[1..];
    WithKeyCons(js[0], js[1..], k, v);
    Regroup(WithKey(Insert(x, js, k), k, v), WithKey(js, k, v), h0, hx,
            WithKey(js[1..], k, v), WithKey(rest, k, v));
  }

  /** When `x` has a larger key than the head, the head stays in front. */
  lemma InsertBehind(x: Job, js: seq<Job>, k: Key)
    requires js != [] && KeyOf(x, k) > KeyOf(js[0], k)
    ensures Insert(x, js, k) == [js[0]] + Insert(x, js[1..], k)
  {
  }

  /** At most one of two heads is non-empty, so they can change places. */
  lemma Regroup<T>(a: seq<T>, b: seq<T>, h0: seq<T>, hx: seq<T>, tail: seq<T>, r: seq<T>)
    requires h0 == [] || hx == []
    requires a == h0 + r && r == hx + tail && b == h0 + tail
    ensures a == hx + b
  {
  }

  /** Stability: for every key value, the rows with that value keep their input order. */
  lemma {:induction false} SortByIsStable(js: seq<Job>, k: Key, v: int)
    ensures WithKey(SortBy(js, k), k, v) == WithKey(js, k, v)
  {
    if js != [] {
      SortByIsStable(js[1..], k, v);
      InsertWithKey(js[0], SortBy(js[1..], k), k, v);
    }
  }

  /** In a key-ordered list the head carries the smallest key. */
  lemma HeadIsSmallest(a: seq<Job>, k: Key, x: Job)
    requires a != [] && SortedBy(a, k) && x in a
    ensures KeyOf(a[0], k) <= KeyOf(x, k)
  {
  }

  /**
    Two key-ordered lists with the same subsequences for the keys of their
    heads start with the same row.
   */
  lemma SameHead(a: seq<Job>, b: seq<Job>, k: Key)
    requires a != [] && b != []
    requires SortedBy(a, k) && SortedBy(b, k)
    requires WithKey(a, k, KeyOf(a[0], k)) == WithKey(b, k, KeyOf(a[0], k))
    requires WithKey(a, k, KeyOf(b[0], k)) == WithKey(b, k, KeyOf(b[0], k))
    ensures a[0] == b[0]
  {
    var va, vb := KeyOf(a[0], k), KeyOf(b[0], k);
    assert va <= vb by {
      WithKeyMembers(b, k, vb, b[0]);
      WithKeyMembers(a, k, vb, b[0]);
      HeadIsSmallest(a, k, b[0]);
    }
    assert vb <= va by {
      WithKeyMembers(a, k, va, a[0]);
      WithKeyMembers(b, k, va, a[0]);
      HeadIsSmallest(b, k, a[0]);
    }
    var wa, wb := WithKey(a[1..], k, va), WithKey(b[1..], k, va);
    assert [a[0]] + wa == [b[0]] + wb by {
      assert a == [a[0]] + a[1..] && b == [b[0]] + b[1..];
      WithKeyCons(a[0], a[1..], k, va);
      WithKeyCons(b[0], b[1..], k, va);
    }
    assert ([a[0]] + wa)[0] == a[0] && ([b[0]] + wb)[0] == b[0];
  }

  /** ...and, with that row removed, still have the same per-key subsequences. */
  lemma SameTails(a: seq<Job>, b: seq<Job>, k: Key, v: int)
    requires a != [] && b != [] && a[0] == b[0]
    requires WithKey(a, k, v) == WithKey(b, k, v)
    ensures WithKey(a[1..], k, v) == WithKey(b[1..], k, v)
  {
    assert a == [a[0]] + a[1..] && b == [b[0]] + b[1..];
    WithKeyCons(a[0], a[1..], k, v);
    WithKeyCons(b[0], b[1..], k, v);
    var h := if KeyOf(a[0], k) == v then [a[0]] else [];
    var wa, wb := WithKey(a[1..], k, v), WithKey(b[1..], k, v);
    assert h + wa == h + wb;
    assert (h + wa)[|h|..] == wa && (h + wb)[|h|..] == wb;
  }

  /**
    A stable sort is determined by its two properties: two key-ordered lists
    that agree on the subsequence of every key value are equal.  Hence
    `SortBy` is the only function meeting the stable-sort specification.
   */
  lemma {:induction false} StableOrderIsUnique(a: seq<Job>, b: seq<Job>, k: Key)
    requires SortedBy(a, k) && SortedBy(b, k)
    requires forall v :: WithKey(a, k, v) == WithKey(b, k, v)
    ensures a == b
  {
    if a == [] && b == [] {
    } else if a == [] {
      WithKeyMembers(b, k, KeyOf(b[0], k), b[0]);
      assert false;
    } else if b == [] {
      WithKeyMembers(a, k, KeyOf(a[0], k), a[0]);
      assert false;
    } else {
      SameHead(a, b, k);
      forall v
        ensures WithKey(a[1..], k, v) == WithKey(b[1..], k, v)
      {
        SameTails(a, b, k, v);
      }
      StableOrderIsUnique(a[1..], b[1..], k);
      assert a == [a[0]] + a[1..] && b == [b[0]] + b[1..];
    }
  }

  /** `SortBy` is the stable sort: any ordered list with the same per-key subsequences equals it. */
  lemma SortByIsTheStableSort(js: seq<Job>, k: Key, r: seq<Job>)
    requires SortedBy(r, k)
    requires forall v :: WithKey(r, k, v) == WithKey(js, k, v)
    ensures r == SortBy(js, k)
  {
    forall v ensures WithKey(SortBy(js, k), k, v) == WithKey(r, k, v) {
      SortByIsStable(js, k, v);
    }
    SortByIsOrdered(js, k);
    StableOrderIsUnique(SortBy(js, k), r, k);
  }

  /** A list already in key order is its own stable sort. */
  lemma SortedIsFixed(js: seq<Job>, k: Key)
    requires SortedBy(js, k)
    ensures SortBy(js, k) == js
  {
    SortByIsTheStableSort(js, k, js);
  }

  /**
    Row `i` carries the smallest key of `js`, and every earlier row carries a
    strictly larger one.
   */
  predicate EarliestMinimumAt(js: seq<Job>, k: Key, i: int) {
    && 0 <= i < |js|
    && (forall m :: 0 <= m < |js| ==> KeyOf(js[i], k) <= KeyOf(js[m], k))
    && (forall m :: 0 <= m < i ==> KeyOf(js[m], k) > KeyOf(js[i], k))
  }

  /** Index of the earliest row with the smallest key, scanning from the back. */
  function FirstMinimum(js: seq<Job>, k: Key): (i: nat)
    requires |js| > 0
    ensures i < |js|
  {
    if |js| == 1 then 0
    else
      var i' := FirstMinimum(js[1..], k);
      if KeyOf(js[0], k) <= KeyOf(js[1..][i'], k) then 0 else i' + 1
  }

  /** `FirstMinimum` finds the earliest row with the smallest key. */
  lemma {:induction false} FirstMinimumIsEarliest(js: seq<Job>, k: Key)
    requires |js| > 0
    ensures EarliestMinimumAt(js, k, FirstMinimum(js, k))
  {
    if |js| > 1 {
      var tail := js[1..];
      FirstMinimumIsEarliest(tail, k);
      var i' := FirstMinimum(tail, k);
      forall m | 0 < m < |js|
        ensures js[m] == tail[m - 1]
      {
      }
    }
  }

  /**
    The head of the stable sort is the earliest row, in input order, among
    those with the smallest key: this is what `sorted(available, ...)[0]` picks.
   */
  lemma {:induction false} HeadIsFirstMinimum(js: seq<Job>, k: Key)
    requires |js| > 0
    ensures SortBy(js, k)[0] == js[FirstMinimum(js, k)]
  {
    if |js| > 1 {
      var tail := js[1..];
      var s := SortBy(tail, k);
      HeadIsFirstMinimum(tail, k);
      assert s[0] == tail[FirstMinimum(tail, k)];
      assert SortBy(js, k) == Insert(js[0], s, k);
      if KeyOf(js[0], k) <= KeyOf(s[0], k) {
        assert Insert(js[0], s, k) == [js[0]] + s;
      } else {
        assert Insert(js[0], s, k)[0] == s[0];
      }
    }
  }
}
