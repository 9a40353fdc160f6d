/** The balance accumulator: folds a group's expense history into one net
    balance per member. */
module Balances {
  import opened Ledger

  /** What `id` is charged in a split list. */
  function OwedIn(splits: seq<Split>, id: Id): int
  {
    if splits == [] then 0
    else (if splits[0].memberId == id then splits[0].amount else 0) + OwedIn(splits[1..], id)
  }

  /** How one expense moves the balance of `id`: the payer is credited the
      total, every split debits its member. */
  function Contribution(e: Expense, id: Id): int
  {
    (if e.paidById == id then e.amount else 0) - OwedIn(e.splits, id)
  }

  /** Reference definition of a member's balance: what the member paid minus
      what the member was charged, over the whole history. */
  function Net(expenses: seq<Expense>, id: Id): int
  {
    if expenses == [] then 0 else Contribution(expenses[0], id) + Net(expenses[1..], id)
  }

  /** Adds `delta` to the running balance of `id` when `id` has one; any other
      id is ignored. */
  function Credit(acc: map<Id, int>, id: Id, delta: int): (r: map<Id, int>)
    ensures r.Keys == acc.Keys
    ensures forall x :: x in acc ==> r[x] == acc[x] + (if x == id then delta else 0)
  {
    if id in acc then acc[id := acc[id] + delta] else acc
  }

  /** The inner loop over one expense's splits. */
  function ChargeSplits(acc: map<Id, int>, splits: seq<Split>): (r: map<Id, int>)
    ensures r.Keys == acc.Keys
    ensures forall x :: x in acc ==> r[x] == acc[x] - OwedIn(splits, x)
  {
    if splits == [] then acc
    else ChargeSplits(Credit(acc, splits[0].memberId, -splits[0].amount), splits[1..])
  }

  function ApplyExpense(acc: map<Id, int>, e: Expense): (r: map<Id, int>)
    ensures r.Keys == acc.Keys
    ensures forall x :: x in acc ==> r[x] == acc[x] + Contribution(e, x)
  {
    ChargeSplits(Credit(acc, e.paidById, e.amount), e.splits)
  }

  /** The outer loop over the expenses, in list order. */
  function Accumulate(acc: map<Id, int>, expenses: seq<Expense>): (r: map<Id, int>)
    ensures r.Keys == acc.Keys
    ensures forall x :: x in acc ==> r[x] == acc[x] + Net(expenses, x)
  {
    if expenses == [] then acc
    else Accumulate(ApplyExpense(acc, expenses[0]), expenses[1..])
  }

  /** The opening loop: one `[id := 0]` per member, in member order, so that
      every member id starts with a zero running balance. */
  function Opening(members: seq<Member>): (r: map<Id, int>)
    ensures forall k :: 0 <= k < |members| ==> members[k].id in r && r[members[k].id] == 0
    ensures forall x :: x in r ==> x in MemberIds(members)
  {
    if members == [] then map[]
    else
      var last := |members| - 1;
      assert forall k :: 0 <= k < last ==> members[..last][k] == members[k];
      Opening(members[..last])[members[last].id := 0]
  }

  /** One balance per member, in member order, each equal to the member's net
      position over the whole history. */
  function CalculateBalances(g: Group): (r: seq<Balance>)
    ensures |r| == |g.members|
    ensures forall k :: 0 <= k < |g.members| ==>
      r[k] == Balance(g.members[k].id, g.members[k].name, Net(g.expenses, g.members[k].id))
  {
    var acc := Accumulate(Opening(g.members), g.expenses);
    seq(|g.members|, k requires 0 <= k < |g.members| =>
      Balance(g.members[k].id, g.members[k].name, acc[g.members[k].id]))
  }

  // ---------------------------------------------------------------------------
  // The order of the expenses does not matter.

  lemma {:induction false} NetAppend(a: seq<Expense>, b: seq<Expense>, id: Id)
    ensures Net(a + b, id) == Net(a, id) + Net(b, id)
  {
    if a == [] {
      assert a + b == b;
    } else {
      assert (a + b)[1..] == a[1..] + b;
      NetAppend(a[1..], b, id);
    }
  }

  lemma {:induction false} NetPermutation(a: seq<Expense>, b: seq<Expense>, id: Id)
    requires multiset(a) == multiset(b)
    ensures Net(a, id) == Net(b, id)
    decreases |a|
  {
    if a == [] {
      assert |b| == |multiset(b)| == 0;
    } else {
      var x := a[0];
      assert x in multiset(b);
      var k :| 0 <= k < |b| && b[k] == x;
      var rest := b[..k] + b[k + 1..];
      assert b == b[..k] + [x] + b[k + 1..];
      calc {
        multiset(rest);
        multiset(b[..k]) + multiset(b[k + 1..]);
        multiset(b) - multiset{x};
        multiset(a) - multiset{x};
        { assert a == [x] + a[1..]; }
        multiset(a[1..]);
      }
      NetPermutation(a[1..], rest, id);
      NetAppend(b[..k] + [x], b[k + 1..], id);
      NetAppend(b[..k], [x], id);
      NetAppend(b[..k], b[k + 1..], id);
      assert Net([x], id) == Contribution(x, id);
    }
  }

  /** Reordering the expense list leaves every balance unchanged. */
  lemma BalancesOrderIndependent(members: seq<Member>, a: seq<Expense>, b: seq<Expense>)
    requires multiset(a) == multiset(b)
    ensures CalculateBalances(Group(members, a)) == CalculateBalances(Group(members, b))
  {
    forall id {
      NetPermutation(a, b, id);
    }
  }

  // ---------------------------------------------------------------------------
  // References to ids outside the member list are ignored.

  /** The splits that name one of `ids`, in their original order. */
  function MemberSplits(splits: seq<Split>, ids: seq<Id>): (r: seq<Split>)
    ensures forall s :: s in r <==> s in splits && s.memberId in ids
  {
    if splits == [] then []
    else if splits[0].memberId in ids then [splits[0]] + MemberSplits(splits[1..], ids)
    else MemberSplits(splits[1..], ids)
  }

  /** The expenses with every non-member reference taken out: a payer outside
      the group is credited nothing and splits of outsiders are dropped. */
  function MembersOnly(expenses: seq<Expense>, ids: seq<Id>): seq<Expense>
  {
    if expenses == [] then []
    else
      var e := expenses[0];
      [Expense(if e.paidById in ids then e.amount else 0, e.paidById, MemberSplits(e.splits, ids))]
        + MembersOnly(expenses[1..], ids)
  }

  /** What `MembersOnly` keeps: every expense, with its payer; the amount
      only when the payer is a member; and exactly the splits naming a
      member. */
  lemma {:induction false} MembersOnlyContents(expenses: seq<Expense>, ids: seq<Id>)
    ensures |MembersOnly(expenses, ids)| == |expenses|
    ensures forall k :: 0 <= k < |expenses| ==>
      var e, r := expenses[k], MembersOnly(expenses, ids)[k];
      && r.paidById == e.paidById
      && (e.paidById in ids ==> r.amount == e.amount)
      && (e.paidById !in ids ==> r.amount == 0)
      && (forall s :: s in r.splits <==> s in e.splits && s.memberId in ids)
  {
    if expenses != [] {
      MembersOnlyContents(expenses[1..], ids);
      assert MembersOnly(expenses, ids)[1..] == MembersOnly(expenses[1..], ids);
    }
  }

  lemma {:induction false} OwedInMemberSplits(splits: seq<Split>, ids: seq<Id>, id: Id)
    requires id in ids
    ensures OwedIn(MemberSplits(splits, ids), id) == OwedIn(splits, id)
  {
    if splits != [] {
      OwedInMemberSplits(splits[1..], ids, id);
    }
  }

  lemma {:induction false} NetMembersOnly(expenses: seq<Expense>, ids: seq<Id>, id: Id)
    requires id in ids
    ensures Net(MembersOnly(expenses, ids), id) == Net(expenses, id)
  {
    if expenses != [] {
      NetMembersOnly(expenses[1..], ids, id);
      OwedInMemberSplits(expenses[0].splits, ids, id);
      assert MembersOnly(expenses, ids)[1..] == MembersOnly(expenses[1..], ids);
    }
  }

  /** Payers and split members outside the group change no balance. */
  lemma NonMembersIgnored(g: Group)
    ensures CalculateBalances(g) == CalculateBalances(Group(g.members, MembersOnly(g.expenses, MemberIds(g.members))))
  {
    var ids := MemberIds(g.members);
    forall k | 0 <= k < |g.members| {
      NetMembersOnly(g.expenses, ids, g.members[k].id);
    }
  }

  // ---------------------------------------------------------------------------
  // Conservation: the balances add up to what the split lists leave unassigned.

  /** How far each expense's split list falls short of its total, summed. */
  function Imbalance(expenses: seq<Expense>): int
  {
    if expenses == [] then 0
    else expenses[0].amount - SplitTotal(expenses[0].splits) + Imbalance(expenses[1..])
  }

  /** The group-wide sums used in the conservation proof. */
  function Hits(members: seq<Member>, x: Id, v: int): int
  {
    if members == [] then 0 else (if members[0].id == x then v else 0) + Hits(members[1..], x, v)
  }

  function MembersOwed(members: seq<Member>, splits: seq<Split>): int
  {
    if members == [] then 0 else OwedIn(splits, members[0].id) + MembersOwed(members[1..], splits)
  }

  function MembersContribution(members: seq<Member>, e: Expense): int
  {
    if members == [] then 0 else Contribution(e, members[0].id) + MembersContribution(members[1..], e)
  }

  function MembersNet(members: seq<Member>, expenses: seq<Expense>): int
  {
    if members == [] then 0 else Net(expenses, members[0].id) + MembersNet(members[1..], expenses)
  }

  lemma {:induction false} HitsAbsent(members: seq<Member>, x: Id, v: int)
    requires x !in MemberIds(members)
    ensures Hits(members, x, v) == 0
  {
    if members != [] {
      assert MemberIds(members[1..]) == MemberIds(members)[1..];
      HitsAbsent(members[1..], x, v);
    }
  }

  lemma {:induction false} HitsOnce(members: seq<Member>, x: Id, v: int)
    requires DistinctIds(members) && x in MemberIds(members)
    ensures Hits(members, x, v) == v
  {
    assert MemberIds(members[1..]) == MemberIds(members)[1..];
    if members[0].id == x {
      HitsAbsent(members[1..], x, v);
    } else {
      HitsOnce(members[1..], x, v);
    }
  }

  lemma {:induction false} MembersOwedStep(members: seq<Member>, splits: seq<Split>)
    requires splits != []
    ensures MembersOwed(members, splits)
         == Hits(members, splits[0].memberId, splits[0].amount) + MembersOwed(members, splits[1..])
  {
    if members != [] {
      MembersOwedStep(members[1..], splits);
    }
  }

  lemma {:induction false} MembersOwedTotal(members: seq<Member>, splits: seq<Split>)
    requires DistinctIds(members)
    requires forall s :: s in splits ==> s.memberId in MemberIds(members)
    ensures MembersOwed(members, splits) == SplitTotal(splits)
  {
    if splits == [] {
      MembersOwedEmpty(members, splits);
    } else {
      MembersOwedStep(members, splits);
      HitsOnce(members, splits[0].memberId, splits[0].amount);
      MembersOwedTotal(members, splits[1..]);
    }
  }

  lemma {:induction false} MembersOwedEmpty(members: seq<Member>, splits: seq<Split>)
    requires splits == []
    ensures MembersOwed(members, splits) == 0
  {
    if members != [] {
      MembersOwedEmpty(members[1..], splits);
    }
  }

  lemma {:induction false} MembersContributionSplit(members: seq<Member>, e: Expense)
    ensures MembersContribution(members, e) == Hits(members, e.paidById, e.amount) - MembersOwed(members, e.splits)
  {
    if members != [] {
      MembersContributionSplit(members[1..], e);
    }
  }

  lemma {:induction false} MembersNetStep(members: seq<Member>, expenses: seq<Expense>)
    requires expenses != []
    ensures MembersNet(members, expenses) == MembersContribution(members, expenses[0]) + MembersNet(members, expenses[1..])
  {
    if members != [] {
      MembersNetStep(members[1..], expenses);
    }
  }

  lemma {:induction false} MembersNetEmpty(members: seq<Member>, expenses: seq<Expense>)
    requires expenses == []
    ensures MembersNet(members, expenses) == 0
  {
    if members != [] {
      MembersNetEmpty(members[1..], expenses);
    }
  }

  predicate ReferencesMembers(members: seq<Member>, e: Expense)
  {
    && e.paidById in MemberIds(members)
    && forall s :: s in e.splits ==> s.memberId in MemberIds(members)
  }

  lemma {:induction false} MembersNetIsImbalance(members: seq<Member>, expenses: seq<Expense>)
    requires DistinctIds(members)
    requires forall e :: e in expenses ==> ReferencesMembers(members, e)
    ensures MembersNet(members, expenses) == Imbalance(expenses)
  {
    if expenses == [] {
      MembersNetEmpty(members, expenses);
    } else {
      var e := expenses[0];
      assert e in expenses;
      assert ReferencesMembers(members, e);
      assert forall x :: x in expenses[1..] ==> x in expenses;
      MembersNetStep(members, expenses);
      MembersContributionSplit(members, e);
      HitsOnce(members, e.paidById, e.amount);
      MembersOwedTotal(members, e.splits);
      MembersNetIsImbalance(members, expenses[1..]);
    }
  }

  lemma {:induction false} TotalOfNets(bs: seq<Balance>, members: seq<Member>, expenses: seq<Expense>)
    requires |bs| == |members|
    requires forall k :: 0 <= k < |bs| ==> bs[k].balance == Net(expenses, members[k].id)
    ensures Total(bs) == MembersNet(members, expenses)
  {
    if bs != [] {
      TotalOfNets(bs[1..], members[1..], expenses);
    }
  }

  lemma {:induction false} ImbalanceBound(expenses: seq<Expense>)
    requires forall e :: e in expenses ==> -1 <= e.amount - SplitTotal(e.splits) <= 1
    ensures -|expenses| <= Imbalance(expenses) <= |expenses|
  {
    if expenses != [] {
      assert expenses[0] in expenses;
      assert forall e :: e in expenses[1..] ==> e in expenses;
      ImbalanceBound(expenses[1..]);
    }
  }

  /** With distinct member ids and every expense referring only to members, the
      balances add up to the part of the expense totals left unassigned by the
      split lists: zero when every split list sums to its total, and at most one
      cent per expense in magnitude when each is within the allocator's
      tolerance. */
  lemma Conservation(g: Group)
    requires DistinctIds(g.members)
    requires forall e :: e in g.expenses ==> ReferencesMembers(g.members, e)
    ensures Total(CalculateBalances(g)) == Imbalance(g.expenses)
    ensures (forall e :: e in g.expenses ==> SplitTotal(e.splits) == e.amount) ==> Total(CalculateBalances(g)) == 0
    ensures (forall e :: e in g.expenses ==> -1 <= e.amount - SplitTotal(e.splits) <= 1) ==>
      -|g.expenses| <= Total(CalculateBalances(g)) <= |g.expenses|
  {
    TotalOfNets(CalculateBalances(g), g.members, g.expenses);
    MembersNetIsImbalance(g.members, g.expenses);
    if forall e :: e in g.expenses ==> SplitTotal(e.splits) == e.amount {
      ImbalanceZero(g.expenses);
    }
    if forall e :: e in g.expenses ==> -1 <= e.amount - SplitTotal(e.splits) <= 1 {
      ImbalanceBound(g.expenses);
    }
  }

  lemma {:induction false} ImbalanceZero(expenses: seq<Expense>)
    requires forall e :: e in expenses ==> SplitTotal(e.splits) == e.amount
    ensures Imbalance(expenses) == 0
  {
    if expenses != [] {
      assert expenses[0] in expenses;
      assert forall e :: e in expenses[1..] ==> e in expenses;
      ImbalanceZero(expenses[1..]);
    }
  }

  lemma {:induction false} OwedInCons(x: Split, rest: seq<Split>, id: Id)
    ensures OwedIn([x] + rest, id) == (if x.memberId == id then x.amount else 0) + OwedIn(rest, id)
  {
    assert ([x] + rest)[1..] == rest;
  }

  /** A pays 12000 split equally among A, B and C: A's net position is +8000,
      and B and C each owe 4000, whatever the (distinct) member ids are. By
      the contract of `CalculateBalances` these are the reported balances. */
  lemma BalanceExample(a: Id, b: Id, c: Id)
    requires a != b && b != c && a != c
    ensures var e := Expense(12000, a, [Split(a, 4000), Split(b, 4000), Split(c, 4000)]);
      Net([e], a) == 8000 && Net([e], b) == -4000 && Net([e], c) == -4000
  {
    var splits := [Split(a, 4000), Split(b, 4000), Split(c, 4000)];
    forall id
      ensures OwedIn(splits, id)
           == (if id == a then 4000 else 0) + (if id == b then 4000 else 0) + (if id == c then 4000 else 0)
    {
      OwedInCons(Split(a, 4000), [Split(b, 4000), Split(c, 4000)], id);
      OwedInCons(Split(b, 4000), [Split(c, 4000)], id);
      OwedInCons(Split(c, 4000), [], id);
      assert [Split(a, 4000)] + ([Split(b, 4000)] + ([Split(c, 4000)] + [])) == splits;
    }
    var e := Expense(12000, a, splits);
    assert [e][1..] == [];
  }
}
