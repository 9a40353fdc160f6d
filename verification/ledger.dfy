/** The records the ledger works on. Every monetary value is an integer number
    of minor currency units (cents); display names and avatars are carried only
    where the settlement list repeats them. */
module Ledger {

  type Id = string

  datatype Member = Member(id: Id, name: string)

  /** One member's share of one expense. */
  datatype Split = Split(memberId: Id, amount: int)

  /** An expense: its total, who paid it and how it was divided. Description,
      author, timestamps and comments play no part in the arithmetic. */
  datatype Expense = Expense(amount: int, paidById: Id, splits: seq<Split>)

  datatype Group = Group(members: seq<Member>, expenses: seq<Expense>)

  /** A member's net position: positive means the member is owed money. */
  datatype Balance = Balance(memberId: Id, name: string, balance: int)

  /** A suggested payment from a debtor to a creditor. */
  datatype Debt = Debt(from: Id, to: Id, fromName: string, toName: string, amount: int)

  datatype Result<+R, +E> = Success(value: R) | Failure(error: E)

  /** Sum of the amounts of a split list. */
  function SplitTotal(splits: seq<Split>): int
  {
    if splits == [] then 0 else splits[0].amount + SplitTotal(splits[1..])
  }

  lemma {:induction false} SplitTotalAppend(a: seq<Split>, b: seq<Split>)
    ensures SplitTotal(a + b) == SplitTotal(a) + SplitTotal(b)
  {
    if a == [] {
      assert a + b == b;
    } else {
      assert (a + b)[1..] == a[1..] + b;
      SplitTotalAppend(a[1..], b);
    }
  }

  /** The ids of a member list, in member order. */
  function MemberIds(members: seq<Member>): (ids: seq<Id>)
    ensures |ids| == |members|
    ensures forall k :: 0 <= k < |members| ==> ids[k] == members[k].id
  {
    seq(|members|, k requires 0 <= k < |members| => members[k].id)
  }

  predicate DistinctIds(members: seq<Member>)
  {
    forall a, b :: 0 <= a < b < |members| ==> members[a].id != members[b].id
  }

  /** Sum of the balances of a balance list. */
  function Total(bs: seq<Balance>): int
  {
    if bs == [] then 0 else bs[0].balance + Total(bs[1..])
  }

  /** Sum of the balances recorded under `id` (an id may occur more than once). */
  function NetOf(bs: seq<Balance>, id: Id): int
  {
    if bs == [] then 0
    else (if bs[0].memberId == id then bs[0].balance else 0) + NetOf(bs[1..], id)
  }

  /** Applying a list of payments to a balance list: what a member pays moves
      their balance up, what they receive moves it down. */
  function Outflow(debts: seq<Debt>, id: Id): int
  {
    if debts == [] then 0
    else (if debts[0].from == id then debts[0].amount else 0) + Outflow(debts[1..], id)
  }

  function Inflow(debts: seq<Debt>, id: Id): int
  {
    if debts == [] then 0
    else (if debts[0].to == id then debts[0].amount else 0) + Inflow(debts[1..], id)
  }

  lemma {:induction false} OutflowAppend(debts: seq<Debt>, d: Debt, id: Id)
    ensures Outflow(debts + [d], id) == Outflow(debts, id) + (if d.from == id then d.amount else 0)
  {
    if debts == [] {
      assert debts + [d] == [d];
    } else {
      assert (debts + [d])[1..] == debts[1..] + [d];
      OutflowAppend(debts[1..], d, id);
    }
  }

  lemma {:induction false} InflowAppend(debts: seq<Debt>, d: Debt, id: Id)
    ensures Inflow(debts + [d], id) == Inflow(debts, id) + (if d.to == id then d.amount else 0)
  {
    if debts == [] {
      assert debts + [d] == [d];
    } else {
      assert (debts + [d])[1..] == debts[1..] + [d];
      InflowAppend(debts[1..], d, id);
    }
  }
}
