/** The debt simplifier: turns a balance list into an ordered list of payments
    by a greedy two-cursor walk over the debtors (most negative first) and the
    creditors (most positive first).

    Balances are whole cents here, so the JavaScript code's 0.5 thresholds
    reduce to exact comparisons: a settled amount "above 0.5" is one above 0, a
    remaining balance "below 0.5 in magnitude" is one equal to 0, and rounding
    the settled amount changes nothing. */
module Settlement {
  import opened Ledger
  import opened Sorting

  /** The entries with a negative balance, in input order. */
  function Debtors(bs: seq<Balance>): (r: seq<Balance>)
    ensures forall b :: b in r ==> b in bs && b.balance < 0
    ensures forall k :: 0 <= k < |bs| && bs[k].balance < 0 ==> bs[k] in r
  {
    if bs == [] then []
    else if bs[0].balance < 0 then [bs[0]] + Debtors(bs[1..])
    else Debtors(bs[1..])
  }

  /** The entries with a positive balance, in input order. */
  function Creditors(bs: seq<Balance>): (r: seq<Balance>)
    ensures forall b :: b in r ==> b in bs && b.balance > 0
    ensures forall k :: 0 <= k < |bs| && bs[k].balance > 0 ==> bs[k] in r
  {
    if bs == [] then []
    else if bs[0].balance > 0 then [bs[0]] + Creditors(bs[1..])
    else Creditors(bs[1..])
  }

  /** The debtors in the order the walk visits them. */
  function DebtorQueue(bs: seq<Balance>): seq<Balance>
  {
    Sort(Debtors(bs), Ascending)
  }

  /** The creditors in the order the walk visits them. */
  function CreditorQueue(bs: seq<Balance>): seq<Balance>
  {
    Sort(Creditors(bs), Descending)
  }

  /** The debtor queue holds exactly the entries with a negative balance,
      most negative first. */
  lemma DebtorQueueContents(bs: seq<Balance>)
    ensures Sorted(DebtorQueue(bs), Ascending)
    ensures forall k :: 0 <= k < |DebtorQueue(bs)| ==> DebtorQueue(bs)[k] in bs && DebtorQueue(bs)[k].balance < 0
    ensures forall k :: 0 <= k < |bs| && bs[k].balance < 0 ==> bs[k] in DebtorQueue(bs)
  {
    var debtors := DebtorQueue(bs);
    assert forall k :: 0 <= k < |debtors| ==> debtors[k] in multiset(Debtors(bs));
    assert forall k :: 0 <= k < |bs| && bs[k].balance < 0 ==> bs[k] in multiset(debtors);
  }

  /** The creditor queue holds exactly the entries with a positive balance,
      most positive first. */
  lemma CreditorQueueContents(bs: seq<Balance>)
    ensures Sorted(CreditorQueue(bs), Descending)
    ensures forall k :: 0 <= k < |CreditorQueue(bs)| ==> CreditorQueue(bs)[k] in bs && CreditorQueue(bs)[k].balance > 0
    ensures forall k :: 0 <= k < |bs| && bs[k].balance > 0 ==> bs[k] in CreditorQueue(bs)
  {
    var creditors := CreditorQueue(bs);
    assert forall k :: 0 <= k < |creditors| ==> creditors[k] in multiset(Creditors(bs));
    assert forall k :: 0 <= k < |bs| && bs[k].balance > 0 ==> bs[k] in multiset(creditors);
  }

  lemma {:induction false} DebtorsWithKey(bs: seq<Balance>, k: int)
    requires k < 0
    ensures WithKey(Debtors(bs), k, Ascending) == WithKey(bs, k, Ascending)
  {
    if bs != [] {
      DebtorsWithKey(bs[1..], k);
      assert bs == [bs[0]] + bs[1..];
      WithKeyCons(bs[0], bs[1..], Ascending, k);
      if bs[0].balance < 0 {
        WithKeyCons(bs[0], Debtors(bs[1..]), Ascending, k);
      }
    }
  }

  lemma {:induction false} CreditorsWithKey(bs: seq<Balance>, k: int)
    requires k < 0
    ensures WithKey(Creditors(bs), k, Descending) == WithKey(bs, k, Descending)
  {
    if bs != [] {
      CreditorsWithKey(bs[1..], k);
      assert bs == [bs[0]] + bs[1..];
      WithKeyCons(bs[0], bs[1..], Descending, k);
      if bs[0].balance > 0 {
        WithKeyCons(bs[0], Creditors(bs[1..]), Descending, k);
      }
    }
  }

  /** Both queues are stable: among debtors with the same balance, and among
      creditors with the same balance, the walk visits the entries in the
      order of the input list. (A debtor's key is its balance, a creditor's
      key is minus its balance, so both keys are negative.) */
  lemma QueuesKeepInputOrder(bs: seq<Balance>, k: int)
    requires k < 0
    ensures WithKey(DebtorQueue(bs), k, Ascending) == WithKey(bs, k, Ascending)
    ensures WithKey(CreditorQueue(bs), k, Descending) == WithKey(bs, k, Descending)
  {
    SortIsStable(Debtors(bs), Ascending, k);
    DebtorsWithKey(bs, k);
    SortIsStable(Creditors(bs), Descending, k);
    CreditorsWithKey(bs, k);
  }

  // ---------------------------------------------------------------------------
  // Sums used by the walk's invariants.

  function Sum(xs: seq<int>): int
  {
    if xs == [] then 0 else xs[0] + Sum(xs[1..])
  }

  function Amounts(bs: seq<Balance>): (r: seq<int>)
    ensures |r| == |bs|
    ensures forall k :: 0 <= k < |bs| ==> r[k] == bs[k].balance
  {
    seq(|bs|, k requires 0 <= k < |bs| => bs[k].balance)
  }

  /** How far the remaining balances `rest` have moved from the original
      balances of the entries recorded under `id`. For a debtor this is what it
      has paid so far; for a creditor, minus what it has received. */
  function Moved(bs: seq<Balance>, rest: seq<int>, id: Id): int
    requires |rest| == |bs|
  {
    if bs == [] then 0
    else (if bs[0].memberId == id then rest[0] - bs[0].balance else 0) + Moved(bs[1..], rest[1..], id)
  }

  lemma {:induction false} SumUpdate(xs: seq<int>, i: nat, v: int)
    requires i < |xs|
    ensures Sum(xs[i := v]) == Sum(xs) - xs[i] + v
  {
    if i > 0 {
      assert xs[i := v][1..] == xs[1..][i - 1 := v];
      SumUpdate(xs[1..], i - 1, v);
    }
  }

  lemma {:induction false} SumOfBalances(bs: seq<Balance>)
    ensures Sum(Amounts(bs)) == Total(bs)
  {
    if bs != [] {
      assert Amounts(bs)[1..] == Amounts(bs[1..]);
      SumOfBalances(bs[1..]);
    }
  }

  lemma {:induction false} SumNonNegative(xs: seq<int>)
    requires forall k :: 0 <= k < |xs| ==> xs[k] >= 0
    ensures Sum(xs) >= 0
    ensures Sum(xs) == 0 ==> forall k :: 0 <= k < |xs| ==> xs[k] == 0
  {
    if xs != [] {
      SumNonNegative(xs[1..]);
      assert forall k :: 1 <= k < |xs| ==> xs[k] == xs[1..][k - 1];
    }
  }

  lemma {:induction false} SumNonPositive(xs: seq<int>)
    requires forall k :: 0 <= k < |xs| ==> xs[k] <= 0
    ensures Sum(xs) <= 0
    ensures Sum(xs) == 0 ==> forall k :: 0 <= k < |xs| ==> xs[k] == 0
  {
    if xs != [] {
      SumNonPositive(xs[1..]);
      assert forall k :: 1 <= k < |xs| ==> xs[k] == xs[1..][k - 1];
    }
  }

  lemma {:induction false} MovedUpdate(bs: seq<Balance>, rest: seq<int>, i: nat, v: int, id: Id)
    requires |rest| == |bs| && i < |bs|
    ensures Moved(bs, rest[i := v], id)
         == Moved(bs, rest, id) + (if bs[i].memberId == id then v - rest[i] else 0)
  {
    if i > 0 {
      assert rest[i := v][1..] == rest[1..][i - 1 := v];
      MovedUpdate(bs[1..], rest[1..], i - 1, v, id);
    }
  }

  lemma {:induction false} MovedInitially(bs: seq<Balance>, id: Id)
    ensures Moved(bs, Amounts(bs), id) == 0
  {
    if bs != [] {
      assert Amounts(bs)[1..] == Amounts(bs[1..]);
      MovedInitially(bs[1..], id);
    }
  }

  /** A debtor list whose remaining balances lie between the original balance
      and zero has paid between nothing and its whole debt; once every
      remaining balance is zero it has paid exactly its debt. */
  lemma {:induction false} MovedDebtors(bs: seq<Balance>, rest: seq<int>, id: Id)
    requires |rest| == |bs|
    requires forall k :: 0 <= k < |bs| ==> bs[k].balance <= rest[k] <= 0
    ensures 0 <= Moved(bs, rest, id) <= -NetOf(bs, id)
    ensures (forall k :: 0 <= k < |bs| ==> rest[k] == 0) ==> Moved(bs, rest, id) == -NetOf(bs, id)
  {
    if bs != [] {
      MovedDebtors(bs[1..], rest[1..], id);
    }
  }

  lemma {:induction false} MovedCreditors(bs: seq<Balance>, rest: seq<int>, id: Id)
    requires |rest| == |bs|
    requires forall k :: 0 <= k < |bs| ==> 0 <= rest[k] <= bs[k].balance
    ensures -NetOf(bs, id) <= Moved(bs, rest, id) <= 0
    ensures (forall k :: 0 <= k < |bs| ==> rest[k] == 0) ==> Moved(bs, rest, id) == -NetOf(bs, id)
  {
    if bs != [] {
      MovedCreditors(bs[1..], rest[1..], id);
    }
  }

  // ---------------------------------------------------------------------------
  // The walk's state, one predicate per part of the loop invariant.

  /** The debtors before cursor `i` are settled; the rest still owe, and no
      debtor has paid more than its debt. */
  ghost predicate DebtorsFrom(debtors: seq<Balance>, owing: seq<int>, i: nat)
  {
    && |owing| == |debtors| && i <= |debtors|
    && (forall k :: 0 <= k < |debtors| ==> debtors[k].balance <= owing[k] <= 0)
    && (forall k :: 0 <= k < |debtors| ==> (owing[k] == 0 <==> k < i))
  }

  /** The creditors before cursor `j` are paid in full; the rest are still
      owed, and no creditor has received more than it was owed. */
  ghost predicate CreditorsFrom(creditors: seq<Balance>, owed: seq<int>, j: nat)
  {
    && |owed| == |creditors| && j <= |creditors|
    && (forall k :: 0 <= k < |creditors| ==> 0 <= owed[k] <= creditors[k].balance)
    && (forall k :: 0 <= k < |creditors| ==> (owed[k] == 0 <==> k < j))
  }

  /** Every payment emitted so far is reflected in the remaining balances. */
  ghost predicate Accounted(debts: seq<Debt>, debtors: seq<Balance>, owing: seq<int>,
                            creditors: seq<Balance>, owed: seq<int>)
    requires |owing| == |debtors| && |owed| == |creditors|
  {
    forall id :: Outflow(debts, id) == Moved(debtors, owing, id) && Inflow(debts, id) == -Moved(creditors, owed, id)
  }

  /** Payment `n` goes from the debtor at queue position `walk[n].0` to the
      creditor at position `walk[n].1`, and the positions only move forward. */
  ghost predicate WalkOrder(debts: seq<Debt>, walk: seq<(nat, nat)>, debtors: seq<Balance>, creditors: seq<Balance>)
  {
    && |walk| == |debts|
    && (forall n :: 0 <= n < |debts| ==>
          && walk[n].0 < |debtors| && walk[n].1 < |creditors|
          && debts[n] == Debt(debtors[walk[n].0].memberId, creditors[walk[n].1].memberId,
                              debtors[walk[n].0].name, creditors[walk[n].1].name, debts[n].amount)
          && debts[n].amount > 0)
    && (forall m, n :: 0 <= m < n < |walk| ==>
          walk[m].0 <= walk[n].0 && walk[m].1 <= walk[n].1 && walk[m] != walk[n])
  }

  lemma DebtorsAdvance(debtors: seq<Balance>, owing: seq<int>, i: nat, amount: int)
    requires DebtorsFrom(debtors, owing, i) && i < |debtors| && 0 < amount <= -owing[i]
    ensures DebtorsFrom(debtors, owing[i := owing[i] + amount], if owing[i] + amount == 0 then i + 1 else i)
  {
  }

  lemma CreditorsAdvance(creditors: seq<Balance>, owed: seq<int>, j: nat, amount: int)
    requires CreditorsFrom(creditors, owed, j) && j < |creditors| && 0 < amount <= owed[j]
    ensures CreditorsFrom(creditors, owed[j := owed[j] - amount], if owed[j] - amount == 0 then j + 1 else j)
  {
  }

  lemma AccountedStep(debts: seq<Debt>, debtors: seq<Balance>, owing: seq<int>,
                      creditors: seq<Balance>, owed: seq<int>, i: nat, j: nat, amount: int)
    requires |owing| == |debtors| && |owed| == |creditors| && i < |debtors| && j < |creditors|
    requires Accounted(debts, debtors, owing, creditors, owed)
    ensures Accounted(debts + [Debt(debtors[i].memberId, creditors[j].memberId, debtors[i].name, creditors[j].name, amount)],
                      debtors, owing[i := owing[i] + amount], creditors, owed[j := owed[j] - amount])
  {
    var debt := Debt(debtors[i].memberId, creditors[j].memberId, debtors[i].name, creditors[j].name, amount);
    forall id
      ensures Outflow(debts + [debt], id) == Moved(debtors, owing[i := owing[i] + amount], id)
      ensures Inflow(debts + [debt], id) == -Moved(creditors, owed[j := owed[j] - amount], id)
    {
      OutflowAppend(debts, debt, id);
      InflowAppend(debts, debt, id);
      MovedUpdate(debtors, owing, i, owing[i] + amount, id);
      MovedUpdate(creditors, owed, j, owed[j] - amount, id);
    }
  }

  lemma WalkStep(debts: seq<Debt>, walk: seq<(nat, nat)>, debtors: seq<Balance>, creditors: seq<Balance>,
                 i: nat, j: nat, amount: int)
    requires WalkOrder(debts, walk, debtors, creditors)
    requires i < |debtors| && j < |creditors| && amount > 0
    requires |walk| > 0 ==> walk[|walk| - 1].0 <= i && walk[|walk| - 1].1 <= j && walk[|walk| - 1] != (i, j)
    ensures WalkOrder(debts + [Debt(debtors[i].memberId, creditors[j].memberId, debtors[i].name, creditors[j].name, amount)],
                      walk + [(i, j)], debtors, creditors)
  {
    var walk' := walk + [(i, j)];
    forall m, n | 0 <= m < n < |walk'|
      ensures walk'[m].0 <= walk'[n].0 && walk'[m].1 <= walk'[n].1 && walk'[m] != walk'[n]
    {
      if n == |walk| && m < |walk| - 1 {
        assert walk[m].0 <= walk[|walk| - 1].0 && walk[m].1 <= walk[|walk| - 1].1;
      }
    }
  }

  /** What the debtor at queue position `k` has paid so far: the payments
      whose walk entry names that position. */
  ghost function PaidAt(debts: seq<Debt>, walk: seq<(nat, nat)>, k: nat): int
    requires |walk| == |debts|
  {
    if debts == [] then 0
    else PaidAt(debts[..|debts| - 1], walk[..|walk| - 1], k)
         + (if walk[|walk| - 1].0 == k then debts[|debts| - 1].amount else 0)
  }

  /** What the creditor at queue position `k` has received so far. */
  ghost function ReceivedAt(debts: seq<Debt>, walk: seq<(nat, nat)>, k: nat): int
    requires |walk| == |debts|
  {
    if debts == [] then 0
    else ReceivedAt(debts[..|debts| - 1], walk[..|walk| - 1], k)
         + (if walk[|walk| - 1].1 == k then debts[|debts| - 1].amount else 0)
  }

  lemma AtAppend(debts: seq<Debt>, walk: seq<(nat, nat)>, d: Debt, p: (nat, nat), k: nat)
    requires |walk| == |debts|
    ensures PaidAt(debts + [d], walk + [p], k) == PaidAt(debts, walk, k) + (if p.0 == k then d.amount else 0)
    ensures ReceivedAt(debts + [d], walk + [p], k) == ReceivedAt(debts, walk, k) + (if p.1 == k then d.amount else 0)
  {
    assert (debts + [d])[..|debts|] == debts;
    assert (walk + [p])[..|walk|] == walk;
  }

  /** Every queue position's remaining balance is its original balance moved
      by exactly the payments recorded against that position. */
  ghost predicate PerPosition(debtors: seq<Balance>, creditors: seq<Balance>, debts: seq<Debt>, walk: seq<(nat, nat)>,
                              owing: seq<int>, owed: seq<int>)
  {
    && |walk| == |debts| && |owing| == |debtors| && |owed| == |creditors|
    && (forall k :: 0 <= k < |debtors| ==> owing[k] == debtors[k].balance + PaidAt(debts, walk, k))
    && (forall k :: 0 <= k < |creditors| ==> owed[k] == creditors[k].balance - ReceivedAt(debts, walk, k))
  }

  lemma PerPositionStep(debtors: seq<Balance>, creditors: seq<Balance>, debts: seq<Debt>, walk: seq<(nat, nat)>,
                        owing: seq<int>, owed: seq<int>, i: nat, j: nat, d: Debt)
    requires PerPosition(debtors, creditors, debts, walk, owing, owed)
    requires i < |debtors| && j < |creditors|
    ensures PerPosition(debtors, creditors, debts + [d], walk + [(i, j)],
                        owing[i := owing[i] + d.amount], owed[j := owed[j] - d.amount])
  {
    forall k {
      AtAppend(debts, walk, d, (i, j), k);
    }
  }

  /** The whole loop invariant of the walk. */
  ghost predicate Walking(debtors: seq<Balance>, creditors: seq<Balance>, debts: seq<Debt>, walk: seq<(nat, nat)>,
                          owing: seq<int>, owed: seq<int>, i: nat, j: nat)
  {
    && DebtorsFrom(debtors, owing, i) && CreditorsFrom(creditors, owed, j)
    && Sum(owing) + Sum(owed) == Total(debtors) + Total(creditors)
    && Accounted(debts, debtors, owing, creditors, owed)
    && WalkOrder(debts, walk, debtors, creditors)
    && (|walk| > 0 ==> walk[|walk| - 1].0 <= i && walk[|walk| - 1].1 <= j && walk[|walk| - 1] != (i, j))
    && (|debtors| > 0 && |creditors| > 0 ==>
          |debts| + (if i == |debtors| && j == |creditors| then 1 else 0) <= i + j)
  }

  /** The amount one step settles: the smaller of the current debt and the
      current credit. */
  function SettleAmount(owing: int, owed: int): (r: int)
    ensures r <= -owing && r <= owed
    ensures r == -owing || r == owed
  {
    if -owing < owed then -owing else owed
  }

  lemma StepKeepsWalking(debtors: seq<Balance>, creditors: seq<Balance>, debts: seq<Debt>, walk: seq<(nat, nat)>,
                         owing: seq<int>, owed: seq<int>, i: nat, j: nat)
    requires Walking(debtors, creditors, debts, walk, owing, owed, i, j)
    requires i < |debtors| && j < |creditors|
    ensures
      var amount := SettleAmount(owing[i], owed[j]);
      var owing' := owing[i := owing[i] + amount];
      var owed' := owed[j := owed[j] - amount];
      && amount > 0
      && Walking(debtors, creditors,
                 debts + [Debt(debtors[i].memberId, creditors[j].memberId, debtors[i].name, creditors[j].name, amount)],
                 walk + [(i, j)], owing', owed',
                 if owing'[i] == 0 then i + 1 else i,
                 if owed'[j] == 0 then j + 1 else j)
      && (owing'[i] == 0 || owed'[j] == 0)
  {
    var amount := SettleAmount(owing[i], owed[j]);
    AccountedStep(debts, debtors, owing, creditors, owed, i, j, amount);
    WalkStep(debts, walk, debtors, creditors, i, j, amount);
    DebtorsAdvance(debtors, owing, i, amount);
    CreditorsAdvance(creditors, owed, j, amount);
    SumUpdate(owing, i, owing[i] + amount);
    SumUpdate(owed, j, owed[j] - amount);
  }

  lemma WalkingInitially(debtors: seq<Balance>, creditors: seq<Balance>)
    requires forall k :: 0 <= k < |debtors| ==> debtors[k].balance < 0
    requires forall k :: 0 <= k < |creditors| ==> creditors[k].balance > 0
    ensures Walking(debtors, creditors, [], [], Amounts(debtors), Amounts(creditors), 0, 0)
  {
    var owing := Amounts(debtors);
    var owed := Amounts(creditors);
    SumOfBalances(debtors);
    SumOfBalances(creditors);
    forall id
      ensures Outflow([], id) == Moved(debtors, owing, id)
      ensures Inflow([], id) == -Moved(creditors, owed, id)
    {
      MovedInitially(debtors, id);
      MovedInitially(creditors, id);
    }
  }

  /** What the walk has achieved once one of the queues is exhausted. */
  lemma WalkingDone(debtors: seq<Balance>, creditors: seq<Balance>, debts: seq<Debt>, walk: seq<(nat, nat)>,
                    owing: seq<int>, owed: seq<int>, i: nat, j: nat)
    requires Walking(debtors, creditors, debts, walk, owing, owed, i, j)
    requires i == |debtors| || j == |creditors|
    ensures |debtors| > 0 && |creditors| > 0 ==> |debts| <= |debtors| + |creditors| - 1
    ensures forall id :: 0 <= Outflow(debts, id) <= -NetOf(debtors, id)
    ensures forall id :: 0 <= Inflow(debts, id) <= NetOf(creditors, id)
    ensures Total(debtors) + Total(creditors) == 0 ==>
      forall id :: Outflow(debts, id) == -NetOf(debtors, id) && Inflow(debts, id) == NetOf(creditors, id)
    ensures (forall id :: Outflow(debts, id) == -NetOf(debtors, id))
         || (forall id :: Inflow(debts, id) == NetOf(creditors, id))
  {
    // The exhausted queue has been settled in full.
    if i == |debtors| {
      forall id
        ensures Outflow(debts, id) == -NetOf(debtors, id)
      {
        MovedDebtors(debtors, owing, id);
      }
    } else {
      forall id
        ensures Inflow(debts, id) == NetOf(creditors, id)
      {
        MovedCreditors(creditors, owed, id);
      }
    }
    forall id
      ensures 0 <= Outflow(debts, id) <= -NetOf(debtors, id)
      ensures 0 <= Inflow(debts, id) <= NetOf(creditors, id)
    {
      MovedDebtors(debtors, owing, id);
      MovedCreditors(creditors, owed, id);
    }
    if Total(debtors) + Total(creditors) == 0 {
      // One queue is exhausted, so its remaining balances are all zero; the
      // other queue's remaining balances then sum to zero with a single sign.
      SumNonPositive(owing);
      SumNonNegative(owed);
      if i == |debtors| {
        SumNonNegative(owing);
      } else {
        SumNonPositive(owed);
      }
      forall id
        ensures Outflow(debts, id) == -NetOf(debtors, id) && Inflow(debts, id) == NetOf(creditors, id)
      {
        MovedDebtors(debtors, owing, id);
        MovedCreditors(creditors, owed, id);
      }
    }
  }

  // ---------------------------------------------------------------------------
  // The walk.

  /** The walk's state: the payments so far, the remaining balances of both
      queues, and the two cursors. */
  datatype Walker = Walker(debts: seq<Debt>, owing: seq<int>, owed: seq<int>, i: nat, j: nat)

  /** One iteration of the walk's loop: settle the smaller of the current debt
      and credit, emit it as a payment if positive, and advance past every
      side that is now settled. */
  function Step(debtors: seq<Balance>, creditors: seq<Balance>, w: Walker): (r: Walker)
    requires |w.owing| == |debtors| && |w.owed| == |creditors| && w.i < |debtors| && w.j < |creditors|
    ensures |r.owing| == |debtors| && |r.owed| == |creditors|
    // Only the two entries under the cursors move, and by the same amount:
    // what the debtor pays off is what the creditor is paid.
    ensures forall k :: 0 <= k < |debtors| && k != w.i ==> r.owing[k] == w.owing[k]
    ensures forall k :: 0 <= k < |creditors| && k != w.j ==> r.owed[k] == w.owed[k]
    ensures r.owing[w.i] - w.owing[w.i] == w.owed[w.j] - r.owed[w.j]
    ensures r.owing[w.i] - w.owing[w.i] == SettleAmount(w.owing[w.i], w.owed[w.j])
    // At least one of the two is settled, and a cursor moves exactly past a
    // settled entry.
    ensures r.owing[w.i] == 0 || r.owed[w.j] == 0
    ensures r.i == w.i + 1 <==> r.owing[w.i] == 0
    ensures r.j == w.j + 1 <==> r.owed[w.j] == 0
    ensures w.i <= r.i <= w.i + 1 && w.j <= r.j <= w.j + 1
    // A payment is emitted exactly when the settled amount is positive.
    ensures r.owing[w.i] - w.owing[w.i] > 0 ==>
      r.debts == w.debts + [Debt(debtors[w.i].memberId, creditors[w.j].memberId, debtors[w.i].name, creditors[w.j].name,
                                 r.owing[w.i] - w.owing[w.i])]
    ensures r.owing[w.i] - w.owing[w.i] <= 0 ==> r.debts == w.debts
  {
    var amount := SettleAmount(w.owing[w.i], w.owed[w.j]);
    var debts := if amount > 0
      then w.debts + [Debt(debtors[w.i].memberId, creditors[w.j].memberId, debtors[w.i].name, creditors[w.j].name, amount)]
      else w.debts;
    var owing := w.owing[w.i := w.owing[w.i] + amount];
    var owed := w.owed[w.j := w.owed[w.j] - amount];
    Walker(debts, owing, owed, if owing[w.i] == 0 then w.i + 1 else w.i, if owed[w.j] == 0 then w.j + 1 else w.j)
  }

  ghost predicate WalkerOk(debtors: seq<Balance>, creditors: seq<Balance>, w: Walker, walk: seq<(nat, nat)>)
  {
    && Walking(debtors, creditors, w.debts, walk, w.owing, w.owed, w.i, w.j)
    && PerPosition(debtors, creditors, w.debts, walk, w.owing, w.owed)
  }

  /** One step keeps the walk's running invariant. */
  lemma StepWalking(debtors: seq<Balance>, creditors: seq<Balance>, w: Walker, walk: seq<(nat, nat)>)
    requires Walking(debtors, creditors, w.debts, walk, w.owing, w.owed, w.i, w.j)
    requires w.i < |debtors| && w.j < |creditors|
    ensures |w.owing| == |debtors| && |w.owed| == |creditors|
    ensures SettleAmount(w.owing[w.i], w.owed[w.j]) > 0
    ensures
      var r := Step(debtors, creditors, w);
      Walking(debtors, creditors, r.debts, walk + [(w.i, w.j)], r.owing, r.owed, r.i, r.j)
  {
    StepKeepsWalking(debtors, creditors, w.debts, walk, w.owing, w.owed, w.i, w.j);
    var amount := SettleAmount(w.owing[w.i], w.owed[w.j]);
    var owing := w.owing[w.i := w.owing[w.i] + amount];
    var owed := w.owed[w.j := w.owed[w.j] - amount];
    assert Step(debtors, creditors, w)
        == Walker(w.debts + [Debt(debtors[w.i].memberId, creditors[w.j].memberId, debtors[w.i].name, creditors[w.j].name, amount)],
                  owing, owed, if owing[w.i] == 0 then w.i + 1 else w.i, if owed[w.j] == 0 then w.j + 1 else w.j);
  }

  /** One step keeps each entry's remaining balance equal to its opening
      balance less what the walk has settled at that position. */
  lemma StepPositions(debtors: seq<Balance>, creditors: seq<Balance>, w: Walker, walk: seq<(nat, nat)>)
    requires PerPosition(debtors, creditors, w.debts, walk, w.owing, w.owed)
    requires w.i < |debtors| && w.j < |creditors|
    requires SettleAmount(w.owing[w.i], w.owed[w.j]) > 0
    ensures
      var r := Step(debtors, creditors, w);
      PerPosition(debtors, creditors, r.debts, walk + [(w.i, w.j)], r.owing, r.owed)
  {
    var amount := SettleAmount(w.owing[w.i], w.owed[w.j]);
    var d := Debt(debtors[w.i].memberId, creditors[w.j].memberId, debtors[w.i].name, creditors[w.j].name, amount);
    PerPositionStep(debtors, creditors, w.debts, walk, w.owing, w.owed, w.i, w.j, d);
    var owing := w.owing[w.i := w.owing[w.i] + amount];
    var owed := w.owed[w.j := w.owed[w.j] - amount];
    assert Step(debtors, creditors, w)
        == Walker(w.debts + [d], owing, owed, if owing[w.i] == 0 then w.i + 1 else w.i, if owed[w.j] == 0 then w.j + 1 else w.j);
  }

  lemma StepOk(debtors: seq<Balance>, creditors: seq<Balance>, w: Walker, walk: seq<(nat, nat)>)
    requires WalkerOk(debtors, creditors, w, walk)
    requires w.i < |debtors| && w.j < |creditors|
    ensures |w.owing| == |debtors| && |w.owed| == |creditors|
    ensures WalkerOk(debtors, creditors, Step(debtors, creditors, w), walk + [(w.i, w.j)])
    ensures w.i <= Step(debtors, creditors, w).i && w.j <= Step(debtors, creditors, w).j
    ensures |debtors| - Step(debtors, creditors, w).i + |creditors| - Step(debtors, creditors, w).j
          < |debtors| - w.i + |creditors| - w.j
  {
    StepWalking(debtors, creditors, w, walk);
    StepPositions(debtors, creditors, w, walk);
  }

  /** The loop of the walk, run from any state that satisfies its invariant
      until one of the queues is exhausted. */
  method Walk(debtors: seq<Balance>, creditors: seq<Balance>, w0: Walker, ghost walk0: seq<(nat, nat)>)
    returns (w: Walker, ghost walk: seq<(nat, nat)>)
    requires WalkerOk(debtors, creditors, w0, walk0)
    ensures WalkerOk(debtors, creditors, w, walk)
    ensures w.i == |debtors| || w.j == |creditors|
    ensures w0.i == |debtors| || w0.j == |creditors| ==> w.debts == w0.debts
  {
    w, walk := w0, walk0;
    while w.i < |debtors| && w.j < |creditors|
      invariant WalkerOk(debtors, creditors, w, walk)
      invariant w0.i <= w.i && w0.j <= w.j
      invariant w0.i == |debtors| || w0.j == |creditors| ==> w.debts == w0.debts
      decreases |debtors| - w.i + |creditors| - w.j
    {
      StepOk(debtors, creditors, w, walk);
      w, walk := Step(debtors, creditors, w), walk + [(w.i, w.j)];
    }
  }

  /** The two-cursor walk. Each step settles the smaller of the current
      debtor's debt and the current creditor's credit, emits that payment, and
      moves past whichever side it settled (both when they were equal).
      `walk` records, for each payment, the positions of its debtor and
      creditor in the two queues. */
  method Settle(debtors: seq<Balance>, creditors: seq<Balance>)
    returns (debts: seq<Debt>, ghost walk: seq<(nat, nat)>)
    requires forall k :: 0 <= k < |debtors| ==> debtors[k].balance < 0
    requires forall k :: 0 <= k < |creditors| ==> creditors[k].balance > 0
    ensures WalkOrder(debts, walk, debtors, creditors)
    ensures |debtors| == 0 || |creditors| == 0 ==> debts == []
    ensures |debtors| > 0 && |creditors| > 0 ==> |debts| <= |debtors| + |creditors| - 1
    ensures forall id :: 0 <= Outflow(debts, id) <= -NetOf(debtors, id)
    ensures forall id :: 0 <= Inflow(debts, id) <= NetOf(creditors, id)
    ensures Total(debtors) + Total(creditors) == 0 ==>
      forall id :: Outflow(debts, id) == -NetOf(debtors, id) && Inflow(debts, id) == NetOf(creditors, id)
    ensures (forall id :: Outflow(debts, id) == -NetOf(debtors, id))
         || (forall id :: Inflow(debts, id) == NetOf(creditors, id))
    // The walk moves past an entry only once it is settled: every debtor
    // before the one a payment comes from has paid its whole debt, and every
    // creditor before the one a payment goes to has received its whole credit.
    ensures forall n, k :: 0 <= n < |walk| && 0 <= k < walk[n].0 ==> PaidAt(debts, walk, k) == -debtors[k].balance
    ensures forall n, k :: 0 <= n < |walk| && 0 <= k < walk[n].1 ==> ReceivedAt(debts, walk, k) == creditors[k].balance
  {
    WalkingInitially(debtors, creditors);
    var w;
    w, walk := Walk(debtors, creditors, Walker([], Amounts(debtors), Amounts(creditors), 0, 0), []);
    debts := w.debts;
    WalkingDone(debtors, creditors, debts, walk, w.owing, w.owed, w.i, w.j);
    forall n, k | 0 <= n < |walk| && 0 <= k < walk[n].0
      ensures PaidAt(debts, walk, k) == -debtors[k].balance
    {
      assert walk[n].0 <= walk[|walk| - 1].0;
    }
    forall n, k | 0 <= n < |walk| && 0 <= k < walk[n].1
      ensures ReceivedAt(debts, walk, k) == creditors[k].balance
    {
      assert walk[n].1 <= walk[|walk| - 1].1;
    }
  }

  // ---------------------------------------------------------------------------
  // From balances to payments.

  lemma {:induction false} PartitionSums(bs: seq<Balance>, id: Id)
    ensures NetOf(bs, id) == NetOf(Debtors(bs), id) + NetOf(Creditors(bs), id)
    ensures Total(bs) == Total(Debtors(bs)) + Total(Creditors(bs))
  {
    if bs != [] {
      PartitionSums(bs[1..], id);
      var x := bs[0];
      if x.balance < 0 {
        assert Debtors(bs)[1..] == Debtors(bs[1..]);
      } else if x.balance > 0 {
        assert Creditors(bs)[1..] == Creditors(bs[1..]);
      }
    }
  }

  lemma {:induction false} InsertSums(x: Balance, s: seq<Balance>, order: Order, id: Id)
    requires Sorted(s, order)
    ensures NetOf(Insert(x, s, order), id) == (if x.memberId == id then x.balance else 0) + NetOf(s, id)
    ensures Total(Insert(x, s, order)) == x.balance + Total(s)
    decreases |s|
  {
    if s == [] || Key(x, order) <= Key(s[0], order) {
      assert ([x] + s)[1..] == s;
    } else {
      InsertSums(x, s[1..], order, id);
      assert ([s[0]] + Insert(x, s[1..], order))[1..] == Insert(x, s[1..], order);
    }
  }

  lemma {:induction false} SortSums(s: seq<Balance>, order: Order, id: Id)
    ensures NetOf(Sort(s, order), id) == NetOf(s, id)
    ensures Total(Sort(s, order)) == Total(s)
    decreases |s|
  {
    if s != [] {
      SortSums(s[1..], order, id);
      InsertSums(s[0], Sort(s[1..], order), order, id);
    }
  }

  lemma QueuesSigned(balances: seq<Balance>)
    ensures forall k :: 0 <= k < |DebtorQueue(balances)| ==>
      DebtorQueue(balances)[k].balance < 0 && DebtorQueue(balances)[k] in balances
    ensures forall k :: 0 <= k < |CreditorQueue(balances)| ==>
      CreditorQueue(balances)[k].balance > 0 && CreditorQueue(balances)[k] in balances
  {
    var debtors := DebtorQueue(balances);
    var creditors := CreditorQueue(balances);
    forall k | 0 <= k < |debtors|
      ensures debtors[k].balance < 0 && debtors[k] in balances
    {
      assert debtors[k] in multiset(Debtors(balances));
    }
    forall k | 0 <= k < |creditors|
      ensures creditors[k].balance > 0 && creditors[k] in balances
    {
      assert creditors[k] in multiset(Creditors(balances));
    }
  }

  lemma QueueSums(balances: seq<Balance>, id: Id)
    ensures NetOf(DebtorQueue(balances), id) == NetOf(Debtors(balances), id)
    ensures NetOf(CreditorQueue(balances), id) == NetOf(Creditors(balances), id)
    ensures NetOf(balances, id) == NetOf(Debtors(balances), id) + NetOf(Creditors(balances), id)
    ensures Total(balances) == Total(DebtorQueue(balances)) + Total(CreditorQueue(balances))
  {
    SortSums(Debtors(balances), Ascending, id);
    SortSums(Creditors(balances), Descending, id);
    PartitionSums(balances, id);
  }

  /** The walk's per-member bounds over the sorted queues carry over to the
      unsorted partition, and a zero total settles every member. */
  lemma QueueOutcome(balances: seq<Balance>, debts: seq<Debt>)
    requires forall id :: 0 <= Outflow(debts, id) <= -NetOf(DebtorQueue(balances), id)
    requires forall id :: 0 <= Inflow(debts, id) <= NetOf(CreditorQueue(balances), id)
    requires Total(DebtorQueue(balances)) + Total(CreditorQueue(balances)) == 0 ==>
      forall id :: Outflow(debts, id) == -NetOf(DebtorQueue(balances), id) && Inflow(debts, id) == NetOf(CreditorQueue(balances), id)
    ensures forall id :: 0 <= Outflow(debts, id) <= -NetOf(Debtors(balances), id)
    ensures forall id :: 0 <= Inflow(debts, id) <= NetOf(Creditors(balances), id)
    ensures Total(balances) == 0 ==>
      forall id :: NetOf(balances, id) + Outflow(debts, id) - Inflow(debts, id) == 0
  {
    forall id
      ensures NetOf(DebtorQueue(balances), id) == NetOf(Debtors(balances), id)
      ensures NetOf(CreditorQueue(balances), id) == NetOf(Creditors(balances), id)
      ensures NetOf(balances, id) == NetOf(Debtors(balances), id) + NetOf(Creditors(balances), id)
    {
      QueueSums(balances, id);
    }
    QueueSums(balances, "");
  }

  /** When the walk over the queues has paid every debtor, or every creditor,
      in full, the same holds of the unsorted partition. */
  lemma QueueExhausted(balances: seq<Balance>, debts: seq<Debt>)
    requires (forall id :: Outflow(debts, id) == -NetOf(DebtorQueue(balances), id))
          || (forall id :: Inflow(debts, id) == NetOf(CreditorQueue(balances), id))
    ensures (forall id :: Outflow(debts, id) == -NetOf(Debtors(balances), id))
         || (forall id :: Inflow(debts, id) == NetOf(Creditors(balances), id))
  {
    forall id
      ensures NetOf(DebtorQueue(balances), id) == NetOf(Debtors(balances), id)
      ensures NetOf(CreditorQueue(balances), id) == NetOf(Creditors(balances), id)
    {
      QueueSums(balances, id);
    }
  }

  /** Balances that do not sum to zero are still settled on one side: with A
      owing 2 and B owed 1, any payment list meeting the simplifier's
      exhaustion clause pays B its 1, so it is not empty. */
  lemma PartialSettlementExample(a: Id, b: Id, debts: seq<Debt>)
    requires a != b
    requires var balances := [Balance(a, "A", -2), Balance(b, "B", 1)];
      (forall id :: Outflow(debts, id) == -NetOf(Debtors(balances), id))
      || (forall id :: Inflow(debts, id) == NetOf(Creditors(balances), id))
    ensures debts != []
  {
    var balances := [Balance(a, "A", -2), Balance(b, "B", 1)];
    assert Debtors(balances) == [balances[0]] by {
      assert balances[1..] == [balances[1]];
      assert balances[1..][1..] == [];
      assert Debtors(balances[1..]) == Debtors([]);
    }
    assert Creditors(balances) == [balances[1]] by {
      assert balances[1..] == [balances[1]];
      assert balances[1..][1..] == [];
      assert Creditors(balances[1..]) == [balances[1]] + Creditors([]);
    }
    assert NetOf([balances[0]], a) == -2 && NetOf([balances[1]], b) == 1;
    assert Outflow([], a) == 0 && Inflow([], b) == 0;
    assert Outflow(debts, a) == 2 || Inflow(debts, b) == 1;
  }

  /** Every payment is positive and goes from an entry with a negative
      balance to an entry with a positive balance, under their names. */
  predicate DebtorToCreditor(balances: seq<Balance>, debts: seq<Debt>)
  {
    forall n :: 0 <= n < |debts| ==>
      && debts[n].amount > 0
      && (exists b :: b in balances && b.balance < 0 && b.memberId == debts[n].from && b.name == debts[n].fromName)
      && (exists b :: b in balances && b.balance > 0 && b.memberId == debts[n].to && b.name == debts[n].toName)
  }

  /** Every payment of a walk over the two queues names a member with a
      negative balance as payer and one with a positive balance as payee. */
  lemma PaymentEnds(balances: seq<Balance>, debts: seq<Debt>, walk: seq<(nat, nat)>)
    requires WalkOrder(debts, walk, DebtorQueue(balances), CreditorQueue(balances))
    ensures DebtorToCreditor(balances, debts)
  {
    QueuesSigned(balances);
    forall n | 0 <= n < |debts|
      ensures debts[n].amount > 0
      ensures exists b :: b in balances && b.balance < 0 && b.memberId == debts[n].from && b.name == debts[n].fromName
      ensures exists b :: b in balances && b.balance > 0 && b.memberId == debts[n].to && b.name == debts[n].toName
    {
      var d := DebtorQueue(balances)[walk[n].0];
      var c := CreditorQueue(balances)[walk[n].1];
      assert d in balances && d.balance < 0 && d.memberId == debts[n].from && d.name == debts[n].fromName;
      assert c in balances && c.balance > 0 && c.memberId == debts[n].to && c.name == debts[n].toName;
    }
  }

  /** The simplifier: split the balances into debtors and creditors (dropping
      settled members), sort each, and walk them. Every payment goes from a
      member with a negative balance to one with a positive balance, no member
      pays more than it owes or receives more than it is owed, there are fewer
      payments than debtors and creditors together, and when the balances add
      up to zero, applying the payments brings every member's balance to zero. */
  method SimplifyDebts(balances: seq<Balance>) returns (debts: seq<Debt>, ghost walk: seq<(nat, nat)>)
    ensures DebtorToCreditor(balances, debts)
    ensures WalkOrder(debts, walk, DebtorQueue(balances), CreditorQueue(balances))
    ensures |Debtors(balances)| == 0 || |Creditors(balances)| == 0 ==> debts == []
    ensures |debts| <= |Debtors(balances)| + |Creditors(balances)| - 1 || debts == []
    ensures forall id :: 0 <= Outflow(debts, id) <= -NetOf(Debtors(balances), id)
    ensures forall id :: 0 <= Inflow(debts, id) <= NetOf(Creditors(balances), id)
    ensures Total(balances) == 0 ==>
      forall id :: NetOf(balances, id) + Outflow(debts, id) - Inflow(debts, id) == 0
    ensures (forall id :: Outflow(debts, id) == -NetOf(Debtors(balances), id))
         || (forall id :: Inflow(debts, id) == NetOf(Creditors(balances), id))
    // A queue entry is passed over only once it is settled in full.
    ensures forall n, k :: 0 <= n < |walk| && 0 <= k < walk[n].0 ==>
      PaidAt(debts, walk, k) == -DebtorQueue(balances)[k].balance
    ensures forall n, k :: 0 <= n < |walk| && 0 <= k < walk[n].1 ==>
      ReceivedAt(debts, walk, k) == CreditorQueue(balances)[k].balance
  {
    var debtors := DebtorQueue(balances);
    var creditors := CreditorQueue(balances);
    QueuesSigned(balances);
    debts, walk := Settle(debtors, creditors);
    PaymentEnds(balances, debts, walk);
    QueueOutcome(balances, debts);
    QueueExhausted(balances, debts);
  }

  // ---------------------------------------------------------------------------
  // A worked example: A paid for everyone, B and C each owe half.

  function Scenario(a: Id, b: Id, c: Id): seq<Balance>
  {
    [Balance(a, "A", 8000), Balance(b, "B", -4000), Balance(c, "C", -4000)]
  }

  lemma SortOne(x: Balance, order: Order)
    ensures Sort([x], order) == [x]
  {
    assert [x][1..] == [];
  }

  lemma SortTwo(x: Balance, y: Balance, order: Order)
    requires Key(x, order) <= Key(y, order)
    ensures Sort([x, y], order) == [x, y]
  {
    assert [x, y][1..] == [y];
    SortOne(y, order);
    assert Insert(x, [y], order) == [x] + [y];
  }

  /** The scenario's queues: B and C, whose balances are equal, keep their
      input order; A is the only creditor. */
  lemma ScenarioQueues(a: Id, b: Id, c: Id)
    ensures var bs := Scenario(a, b, c);
      && Debtors(bs) == [bs[1], bs[2]] && Creditors(bs) == [bs[0]]
      && DebtorQueue(bs) == [bs[1], bs[2]] && CreditorQueue(bs) == [bs[0]]
  {
    var bs := Scenario(a, b, c);
    ScenarioPartition(a, b, c);
    SortTwo(bs[1], bs[2], Ascending);
    SortOne(bs[0], Descending);
  }

  lemma ScenarioPartition(a: Id, b: Id, c: Id)
    ensures var bs := Scenario(a, b, c); Debtors(bs) == [bs[1], bs[2]] && Creditors(bs) == [bs[0]]
  {
    var bs := Scenario(a, b, c);
    var tail := [bs[1], bs[2]];
    assert bs[1..] == tail && tail[1..] == [bs[2]] && [bs[2]][1..] == [];
    assert Debtors([bs[2]]) == [bs[2]] + Debtors([]);
    assert Debtors(tail) == [bs[1]] + Debtors([bs[2]]);
    assert Creditors(tail) == Creditors([bs[2]]) == Creditors([]);
  }

  /** The scenario's balances sum to zero, and B and C each owe 4000. */
  lemma ScenarioNets(a: Id, b: Id, c: Id)
    requires a != b && a != c && b != c
    ensures var bs := Scenario(a, b, c);
      && Total(bs) == 0
      && NetOf(bs, b) == -4000 && NetOf(bs, c) == -4000
      && NetOf([bs[0]], b) == 0 && NetOf([bs[0]], c) == 0
  {
    var bs := Scenario(a, b, c);
    assert bs[1..] == [bs[1], bs[2]] && [bs[1], bs[2]][1..] == [bs[2]] && [bs[2]][1..] == [] && [bs[0]][1..] == [];
    var tail := [bs[1], bs[2]];
    assert tail[1..] == [bs[2]];
    assert Total([bs[2]]) == -4000 && NetOf([bs[2]], b) == 0 && NetOf([bs[2]], c) == -4000;
    assert Total(tail) == -8000 && NetOf(tail, b) == -4000 && NetOf(tail, c) == -4000;
  }

  /** A payer with a non-zero outflow appears among the payments. */
  lemma {:induction false} PayerPresent(debts: seq<Debt>, id: Id)
    requires Outflow(debts, id) != 0
    ensures exists n :: 0 <= n < |debts| && debts[n].from == id
  {
    if debts[0].from != id {
      PayerPresent(debts[1..], id);
      var n :| 0 <= n < |debts[1..]| && debts[1..][n].from == id;
      assert debts[n + 1].from == id;
    }
  }

  /** A walk over the debtor queue [B, C] and the creditor queue [A]: every
      payment is B's or C's to A, and since the creditor cursor cannot move
      and the walk never revisits a position, every payment but the last is
      B's and every payment but the first is C's. */
  lemma ScenarioWalk(a: Id, b: Id, c: Id, debts: seq<Debt>, walk: seq<(nat, nat)>,
                     debtors: seq<Balance>, creditors: seq<Balance>)
    requires b != c
    requires debtors == [Balance(b, "B", -4000), Balance(c, "C", -4000)]
    requires creditors == [Balance(a, "A", 8000)]
    requires WalkOrder(debts, walk, debtors, creditors)
    ensures forall n :: 0 <= n < |debts| ==>
      debts[n] == Debt(b, a, "B", "A", debts[n].amount) || debts[n] == Debt(c, a, "C", "A", debts[n].amount)
    ensures forall n :: 0 <= n < |debts| - 1 ==> debts[n].from == b
    ensures forall n :: 0 < n < |debts| ==> debts[n].from == c
  {
    forall n | 0 <= n < |debts|
      ensures debts[n] == Debt(b, a, "B", "A", debts[n].amount) || debts[n] == Debt(c, a, "C", "A", debts[n].amount)
    {
      assert walk[n].0 == 0 || walk[n].0 == 1;
    }
    forall n | 0 <= n < |debts| - 1
      ensures debts[n].from == b
    {
      assert walk[n].1 == 0 && walk[n + 1].1 == 0;
    }
    forall n | 0 < n < |debts|
      ensures debts[n].from == c
    {
      assert walk[n - 1].1 == 0 && walk[n].1 == 0;
    }
  }

  /** The only payment list in which B and C, paying A in that order, each
      pay 4000. */
  lemma ScenarioPayments(a: Id, b: Id, c: Id, debts: seq<Debt>)
    requires b != c
    requires forall n :: 0 <= n < |debts| ==>
      debts[n] == Debt(b, a, "B", "A", debts[n].amount) || debts[n] == Debt(c, a, "C", "A", debts[n].amount)
    requires forall n :: 0 <= n < |debts| - 1 ==> debts[n].from == b
    requires forall n :: 0 < n < |debts| ==> debts[n].from == c
    requires Outflow(debts, b) == 4000 && Outflow(debts, c) == 4000
    ensures debts == [Debt(b, a, "B", "A", 4000), Debt(c, a, "C", "A", 4000)]
  {
    // Each of B and C is the payer of some payment.
    PayerPresent(debts, b);
    PayerPresent(debts, c);
    var n1 :| 0 <= n1 < |debts| && debts[n1].from == b;
    var n2 :| 0 <= n2 < |debts| && debts[n2].from == c;
    // Only the last payment can be C's and only the first B's, so there are
    // exactly two.
    assert n1 < n2;
    assert |debts| == 2 && n1 == 0 && n2 == 1;
    assert debts[1..][1..] == [];
    assert Outflow(debts[1..], b) == 0 && Outflow(debts[1..], c) == debts[1].amount;
    assert Outflow(debts, b) == debts[0].amount;
    assert Outflow(debts, c) == debts[1].amount;
  }

  /** With balances summing to zero, B and C each pay their whole 4000. */
  lemma ScenarioOutflows(a: Id, b: Id, c: Id, debts: seq<Debt>)
    requires a != b && a != c && b != c
    requires var bs := Scenario(a, b, c);
      Total(bs) == 0 ==> forall id :: NetOf(bs, id) + Outflow(debts, id) - Inflow(debts, id) == 0
    requires forall id :: 0 <= Inflow(debts, id) <= NetOf(Creditors(Scenario(a, b, c)), id)
    ensures Outflow(debts, b) == 4000 && Outflow(debts, c) == 4000
  {
    ScenarioQueues(a, b, c);
    ScenarioNets(a, b, c);
    assert Inflow(debts, b) == 0 && Inflow(debts, c) == 0;
  }

  /** For A +8000, B -4000 and C -4000 the simplifier suggests exactly two
      payments, B to A and then C to A, each of 4000. */
  method ScenarioSettlement(a: Id, b: Id, c: Id) returns (debts: seq<Debt>)
    requires a != b && a != c && b != c
    ensures debts == [Debt(b, a, "B", "A", 4000), Debt(c, a, "C", "A", 4000)]
  {
    var bs := Scenario(a, b, c);
    ghost var walk;
    debts, walk := SimplifyDebts(bs);
    ScenarioOutflows(a, b, c, debts);
    ScenarioQueues(a, b, c);
    ScenarioWalk(a, b, c, debts, walk, DebtorQueue(bs), CreditorQueue(bs));
    ScenarioPayments(a, b, c, debts);
  }
}
