/** Stable sorting, as `Array.prototype.sort` does it. */
module StableSort {
  import opened Common

  // ---- Sorting by any order ---------------------------------------------------------

  /** `x` goes before the first element it may precede. */
  function Insert<T>(le: (T, T) -> bool, x: T, s: seq<T>): (r: seq<T>)
    ensures multiset(r) == multiset(s) + multiset{x}
  {
    if s == [] then [x]
    else
      assert s == [s[0]] + s[1..];
      if le(x, s[0]) then [x] + s else [s[0]] + Insert(le, x, s[1..])
  }

  function Sorted<T>(le: (T, T) -> bool, s: seq<T>): (r: seq<T>)
    ensures multiset(r) == multiset(s)
  {
    if s == [] then []
    else
      assert s == [s[0]] + s[1..];
      Insert(le, s[0], Sorted(le, s[1..]))
  }

  /** Total and transitive; different elements may tie. */
  ghost predicate Orders<T(!new)>(le: (T, T) -> bool) {
    && (forall x, y :: le(x, y) || le(y, x))
    && (forall x, y, z :: le(x, y) && le(y, z) ==> le(x, z))
  }

  ghost predicate Ascending<T>(le: (T, T) -> bool, s: seq<T>) {
    forall i, j :: 0 <= i < j < |s| ==> le(s[i], s[j])
  }

  /** `fine` is an order that keeps to `le` and settles some of its ties. */
  ghost predicate Refines<T(!new)>(fine: (T, T) -> bool, le: (T, T) -> bool) {
    Orders(fine) && Orders(le) && forall x, y :: fine(x, y) ==> le(x, y)
  }

  /** Where elements of the list tie, the earlier one comes first in `fine`. */
  ghost predicate TiesInOrder<T>(fine: (T, T) -> bool, le: (T, T) -> bool, s: seq<T>) {
    forall i, j :: 0 <= i < j < |s| && le(s[i], s[j]) && le(s[j], s[i]) ==> fine(s[i], s[j])
  }

  lemma {:induction false} InsertKeepsOrder<T(!new)>(fine: (T, T) -> bool, le: (T, T) -> bool, x: T, s: seq<T>)
    requires Refines(fine, le) && Ascending(fine, s)
    requires forall y :: y in s && le(x, y) && le(y, x) ==> fine(x, y)
    ensures Ascending(fine, Insert(le, x, s))
  {
    var r := Insert(le, x, s);
    if s != [] {
      if le(x, s[0]) {
        assert fine(x, s[0]);
      } else {
        assert fine(s[0], x);
        InsertKeepsOrder(fine, le, x, s[1..]);
        var rest := Insert(le, x, s[1..]);
        forall j | 0 <= j < |rest| ensures fine(s[0], rest[j]) {
          assert rest[j] in multiset(s[1..]) + multiset{x};
          assert rest[j] in s[1..] || rest[j] == x;
        }
      }
    }
  }

  /** The sorted list is in order, with ties in the order they came. */
  lemma {:induction false} SortedIsStable<T(!new)>(fine: (T, T) -> bool, le: (T, T) -> bool, s: seq<T>)
    requires Refines(fine, le) && TiesInOrder(fine, le, s)
    ensures Ascending(fine, Sorted(le, s))
  {
    if s != [] {
      var rest := Sorted(le, s[1..]);
      SortedIsStable(fine, le, s[1..]);
      forall y | y in rest && le(s[0], y) && le(y, s[0]) ensures fine(s[0], y) {
        assert y in multiset(rest);
        var j :| 0 <= j < |s[1..]| && s[1..][j] == y;
        assert s[j + 1] == y;
      }
      InsertKeepsOrder(fine, le, s[0], rest);
    }
  }

  ghost predicate NoTies<T(!new)>(le: (T, T) -> bool, m: multiset<T>) {
    forall x, y :: x in m && y in m && le(x, y) && le(y, x) ==> x == y
  }

  lemma HeadsAgree<T(!new)>(le: (T, T) -> bool, a: seq<T>, b: seq<T>)
    requires Orders(le) && a != [] && b != [] && Ascending(le, a) && Ascending(le, b)
    requires multiset(a) == multiset(b) && NoTies(le, multiset(a))
    ensures a[0] == b[0]
  {
    assert a[0] in multiset(b) && b[0] in multiset(a);
    assert a[0] in b && b[0] in a;
    assert le(a[0], b[0]) && le(b[0], a[0]);
  }

  lemma TailOf<T(!new)>(le: (T, T) -> bool, a: seq<T>)
    requires a != [] && Ascending(le, a) && NoTies(le, multiset(a))
    ensures Ascending(le, a[1..]) && multiset(a[1..]) == multiset(a) - multiset{a[0]}
    ensures NoTies(le, multiset(a[1..]))
  {
    assert a == [a[0]] + a[1..];
  }

  /** Without ties, an ascending list is determined by its contents. */
  lemma {:induction false} AscendingUnique<T(!new)>(le: (T, T) -> bool, a: seq<T>, b: seq<T>)
    requires Orders(le) && Ascending(le, a) && Ascending(le, b) && multiset(a) == multiset(b)
    requires NoTies(le, multiset(a))
    ensures a == b
  {
    hide Orders, Ascending, NoTies;
    SameSize(a, b);
    if a != [] {
      HeadsAgree(le, a, b);
      TailOf(le, a);
      TailOf(le, b);
      AscendingUnique(le, a[1..], b[1..]);
      SameHeadAndTail(a, b);
    }
  }

  lemma SameSize<T>(a: seq<T>, b: seq<T>)
    requires multiset(a) == multiset(b)
    ensures |a| == |b|
  {
    assert |multiset(a)| == |a| && |multiset(b)| == |b|;
  }

  lemma SameHeadAndTail<T>(a: seq<T>, b: seq<T>)
    requires a != [] && b != [] && a[0] == b[0] && a[1..] == b[1..]
    ensures a == b
  {
    assert a == [a[0]] + a[1..] && b == [b[0]] + b[1..];
  }

  /** The first element with property `p`. */
  function First<T>(p: T -> bool, s: seq<T>): Option<T> {
    if s == [] then None else if p(s[0]) then Some(s[0]) else First(p, s[1..])
  }

  lemma {:induction false} InsertKeepsFirst<T(!new)>(le: (T, T) -> bool, p: T -> bool, x: T, s: seq<T>)
    requires forall y, z :: p(y) && p(z) ==> le(y, z)
    ensures First(p, Insert(le, x, s)) == if p(x) then Some(x) else First(p, s)
  {
    if s != [] {
      if le(x, s[0]) {
        assert ([x] + s)[1..] == s;
      } else {
        InsertKeepsFirst(le, p, x, s[1..]);
        assert ([s[0]] + Insert(le, x, s[1..]))[1..] == Insert(le, x, s[1..]);
      }
    }
  }

  /** Among elements that tie, the one that came first stays first. */
  lemma {:induction false} SortedKeepsFirst<T(!new)>(le: (T, T) -> bool, p: T -> bool, s: seq<T>)
    requires forall y, z :: p(y) && p(z) ==> le(y, z)
    ensures First(p, Sorted(le, s)) == First(p, s)
  {
    if s != [] {
      SortedKeepsFirst(le, p, s[1..]);
      InsertKeepsFirst(le, p, s[0], Sorted(le, s[1..]));
    }
  }

  // ---- Sorting by a descending key --------------------------------------------------

  /** Higher keys first, equal keys in the order they came. */
  predicate Precedes(keys: seq<real>, i: nat, j: nat)
    requires i < |keys| && j < |keys|
  {
    keys[i] > keys[j] || (keys[i] == keys[j] && i < j)
  }

  predicate Indices(n: nat, order: seq<nat>) {
    forall a :: 0 <= a < |order| ==> order[a] < n
  }

  /** Every index once, in the order of `Precedes`. */
  ghost predicate IsStableOrder(keys: seq<real>, order: seq<nat>) {
    && |order| == |keys| && Indices(|keys|, order)
    && (forall i :: 0 <= i < |keys| ==> i in order)
    && (forall a, b :: 0 <= a < b < |order| ==> Precedes(keys, order[a], order[b]))
  }

  function KeyAt(keys: seq<real>, i: nat): real {
    if i < |keys| then keys[i] else 0.0
  }

  function ByKey(keys: seq<real>): (nat, nat) -> bool {
    (i: nat, j: nat) => KeyAt(keys, i) >= KeyAt(keys, j)
  }

  function ByKeyThenIndex(keys: seq<real>): (nat, nat) -> bool {
    (i: nat, j: nat) => KeyAt(keys, i) > KeyAt(keys, j) || (KeyAt(keys, i) == KeyAt(keys, j) && i <= j)
  }

  function UpTo(n: nat): (s: seq<nat>)
    ensures |s| == n && forall i :: 0 <= i < n ==> s[i] == i
  {
    seq(n, i requires 0 <= i < n => i)
  }

  lemma {:induction false} EachOnce(n: nat, i: nat)
    ensures multiset(UpTo(n))[i] == if i < n then 1 else 0
  {
    if n > 0 {
      EachOnce(n - 1, i);
      assert UpTo(n) == UpTo(n - 1) + [n - 1];
    }
  }

  lemma TwicePresent(s: seq<nat>, a: nat, b: nat)
    requires a < b < |s| && s[a] == s[b]
    ensures multiset(s)[s[a]] >= 2
  {
    assert s == s[..a] + [s[a]] + s[a + 1..b] + [s[b]] + s[b + 1..];
  }

  lemma KeyOrders(keys: seq<real>)
    ensures Refines(ByKeyThenIndex(keys), ByKey(keys))
  {}

  /** A permutation of the indices. */
  lemma PermutedIndices(order: seq<nat>, n: nat)
    requires multiset(order) == multiset(UpTo(n))
    ensures |order| == n && Indices(n, order) && forall i :: 0 <= i < n ==> i in order
    ensures forall a, b :: 0 <= a < b < n ==> order[a] != order[b]
  {
    SameSize(order, UpTo(n));
    forall a | 0 <= a < n ensures order[a] < n {
      EachOnce(n, order[a]);
      assert order[a] in multiset(order);
    }
    forall i | 0 <= i < n ensures i in order {
      EachOnce(n, i);
      assert i in multiset(order);
    }
    forall a, b | 0 <= a < b < n ensures order[a] != order[b] {
      if order[a] == order[b] {
        TwicePresent(order, a, b);
        EachOnce(n, order[a]);
      }
    }
  }

  lemma SortedIndices(keys: seq<real>)
    ensures IsStableOrder(keys, Sorted(ByKey(keys), UpTo(|keys|)))
  {
    var n, order := |keys|, Sorted(ByKey(keys), UpTo(|keys|));
    KeyOrders(keys);
    SortedIsStable(ByKeyThenIndex(keys), ByKey(keys), UpTo(n));
    PermutedIndices(order, n);
    hide Refines, Sorted;
    forall a, b | 0 <= a < b < n ensures Precedes(keys, order[a], order[b]) {
      assert ByKeyThenIndex(keys)(order[a], order[b]);
    }
  }

  method Sort(keys: seq<real>) returns (order: seq<nat>)
    ensures IsStableOrder(keys, order)
  {
    SortedIndices(keys);
    order := Sorted(ByKey(keys), UpTo(|keys|));
  }
}
