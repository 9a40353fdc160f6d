/** The stable sort the settlement walk relies on: debtors by balance, most
    negative first, and creditors by balance, most positive first. Entries with
    equal balances keep their input order, as the language's array sort
    guarantees. */
module Sorting {
  import opened Ledger

  datatype Order = Ascending | Descending

  /** The comparator's view of an entry: sorting ascending by `Key` is sorting
      by balance in the requested direction. */
  function Key(b: Balance, order: Order): int
  {
    match order
    case Ascending => b.balance
    case Descending => -b.balance
  }

  /** The comparators handed to the array sort: `a.balance - b.balance` puts
      the most negative balance first, `b.balance - a.balance` the most
      positive. */
  function Comparator(a: Balance, b: Balance, order: Order): int
  {
    match order
    case Ascending => a.balance - b.balance
    case Descending => b.balance - a.balance
  }

  /** Sorting ascending by `Key` is sorting by the comparator: it compares
      two entries exactly as their keys do. */
  lemma KeyOrder(a: Balance, b: Balance, order: Order)
    ensures Comparator(a, b, order) == Key(a, order) - Key(b, order)
  {
  }

  predicate Sorted(s: seq<Balance>, order: Order)
  {
    forall i, j :: 0 <= i < j < |s| ==> Key(s[i], order) <= Key(s[j], order)
  }

  /** Dropping the first entry of a sorted list leaves it sorted. */
  lemma SortedTail(s: seq<Balance>, order: Order)
    requires Sorted(s, order) && s != []
    ensures Sorted(s[1..], order)
  {
    forall i, j | 0 <= i < j < |s[1..]|
      ensures Key(s[1..][i], order) <= Key(s[1..][j], order)
    {
      assert s[1..][i] == s[i + 1] && s[1..][j] == s[j + 1];
    }
  }

  /** A sorted list stays sorted when an entry whose key is at most every key
      in it is put in front. */
  lemma SortedCons(a: Balance, t: seq<Balance>, order: Order)
    requires Sorted(t, order)
    requires forall y :: y in t ==> Key(a, order) <= Key(y, order)
    ensures Sorted([a] + t, order)
  {
    forall i, j | 0 <= i < j < |[a] + t|
      ensures Key(([a] + t)[i], order) <= Key(([a] + t)[j], order)
    {
      if i == 0 {
        assert ([a] + t)[j] == t[j - 1];
      } else {
        assert ([a] + t)[i] == t[i - 1] && ([a] + t)[j] == t[j - 1];
      }
    }
  }

  /** One insertion step of the stable sort: `x` goes before the first entry
      whose key is not smaller, and so before every entry with an equal key.
      By `KeyOrder` this is the first entry the comparator does not rank
      strictly before `x`. */
  function Insert(x: Balance, s: seq<Balance>, order: Order): (r: seq<Balance>)
    requires Sorted(s, order)
    ensures Sorted(r, order)
    ensures multiset(r) == multiset(s) + multiset{x}
    ensures forall y :: y in r ==> y == x || y in s
  {
    if s == [] || Key(x, order) <= Key(s[0], order) then
      SortedCons(x, s, order);
      [x] + s
    else
      SortedTail(s, order);
      var rest := Insert(x, s[1..], order);
      assert forall y :: y in rest ==> Key(s[0], order) <= Key(y, order);
      assert s == [s[0]] + s[1..];
      SortedCons(s[0], rest, order);
      [s[0]] + rest
  }

  function Sort(s: seq<Balance>, order: Order): (r: seq<Balance>)
    ensures Sorted(r, order)
    ensures multiset(r) == multiset(s)
    ensures |r| == |s|
  {
    if s == [] then []
    else
      assert s == [s[0]] + s[1..];
      Insert(s[0], Sort(s[1..], order), order)
  }

  /** The entries of `s` whose key is `k`, in their order in `s`. */
  function WithKey(s: seq<Balance>, k: int, order: Order): seq<Balance>
  {
    if s == [] then []
    else (if Key(s[0], order) == k then [s[0]] else []) + WithKey(s[1..], k, order)
  }

  lemma WithKeyCons(a: Balance, t: seq<Balance>, order: Order, k: int)
    ensures WithKey([a] + t, k, order) == (if Key(a, order) == k then [a] else []) + WithKey(t, k, order)
  {
    assert ([a] + t)[1..] == t;
  }

  lemma {:induction false} InsertWithKey(x: Balance, s: seq<Balance>, order: Order, k: int)
    requires Sorted(s, order)
    ensures WithKey(Insert(x, s, order), k, order)
         == (if Key(x, order) == k then [x] else []) + WithKey(s, k, order)
    decreases |s|
  {
    if s == [] || Key(x, order) <= Key(s[0], order) {
      WithKeyCons(x, s, order, k);
    } else {
      SortedTail(s, order);
      var rest := Insert(x, s[1..], order);
      assert Insert(x, s, order) == [s[0]] + rest;
      var head := if Key(s[0], order) == k then [s[0]] else [];
      var mid := if Key(x, order) == k then [x] else [];
      var tail := WithKey(s[1..], k, order);
      InsertWithKey(x, s[1..], order, k);
      WithKeyCons(s[0], rest, order, k);
      assert WithKey(Insert(x, s, order), k, order) == head + (mid + tail);
      WithKeyCons(s[0], s[1..], order, k);
      assert s == [s[0]] + s[1..];
      assert WithKey(s, k, order) == head + tail;
      // `x` sorts strictly after `s[0]`, so at most one of them has key `k`.
      if Key(s[0], order) == k {
        assert mid == [] && mid + tail == tail && mid + (head + tail) == head + tail;
      } else {
        assert head == [] && head + (mid + tail) == mid + tail && head + tail == tail;
      }
    }
  }

  /** Stability: for every key, the entries with that key appear in the sorted
      list in the same relative order as in the input. */
  lemma {:induction false} SortIsStable(s: seq<Balance>, order: Order, k: int)
    ensures WithKey(Sort(s, order), k, order) == WithKey(s, k, order)
    decreases |s|
  {
    if s != [] {
      SortIsStable(s[1..], order, k);
      InsertWithKey(s[0], Sort(s[1..], order), order, k);
    }
  }
}
