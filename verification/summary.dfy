/** The group view: balances are computed from the expense history and the
    payments are derived from those balances. */
module GroupSummary {
  import opened Ledger
  import opened Balances
  import opened Settlement

  lemma {:induction false} NetOfSingle(bs: seq<Balance>, k: nat)
    requires k < |bs|
    requires forall a, b :: 0 <= a < b < |bs| ==> bs[a].memberId != bs[b].memberId
    ensures NetOf(bs, bs[k].memberId) == bs[k].balance
  {
    if k == 0 {
      NetOfAbsent(bs[1..], bs[0].memberId);
    } else {
      NetOfSingle(bs[1..], k - 1);
    }
  }

  lemma {:induction false} NetOfAbsent(bs: seq<Balance>, id: Id)
    requires forall b :: b in bs ==> b.memberId != id
    ensures NetOf(bs, id) == 0
  {
    if bs != [] {
      assert bs[0] in bs;
      NetOfAbsent(bs[1..], id);
    }
  }

  /** With distinct ids, a payer (negative balance) and a payee (positive
      balance) are different members. */
  lemma NoSelfPayment(balances: seq<Balance>, debts: seq<Debt>)
    requires forall a, b :: 0 <= a < b < |balances| ==> balances[a].memberId != balances[b].memberId
    requires DebtorToCreditor(balances, debts)
    ensures forall n :: 0 <= n < |debts| ==> debts[n].from != debts[n].to
  {
    forall n | 0 <= n < |debts|
      ensures debts[n].from != debts[n].to
    {
      assert && debts[n].amount > 0
        && (exists b :: b in balances && b.balance < 0 && b.memberId == debts[n].from && b.name == debts[n].fromName)
        && (exists b :: b in balances && b.balance > 0 && b.memberId == debts[n].to && b.name == debts[n].toName);
      var p :| p in balances && p.balance < 0 && p.memberId == debts[n].from && p.name == debts[n].fromName;
      var q :| q in balances && q.balance > 0 && q.memberId == debts[n].to && q.name == debts[n].toName;
      var a :| 0 <= a < |balances| && balances[a] == p;
      var b :| 0 <= b < |balances| && balances[b] == q;
      assert a != b;
    }
  }

  /** Distinct member ids give distinct balance entries. */
  lemma BalanceIdsDistinct(g: Group)
    requires DistinctIds(g.members)
    ensures forall a, b :: 0 <= a < b < |CalculateBalances(g)| ==>
      CalculateBalances(g)[a].memberId != CalculateBalances(g)[b].memberId
  {
  }

  /** When the balances are the members' net positions, member ids are
      distinct, and the ledger is exact, the walk's per-member conservation
      reads as: every member ends at zero. */
  lemma SettlesEveryMember(g: Group, balances: seq<Balance>, debts: seq<Debt>)
    requires DistinctIds(g.members)
    requires forall e :: e in g.expenses ==> ReferencesMembers(g.members, e) && SplitTotal(e.splits) == e.amount
    requires balances == CalculateBalances(g)
    requires Total(balances) == 0 ==> forall id :: NetOf(balances, id) + Outflow(debts, id) - Inflow(debts, id) == 0
    ensures forall k :: 0 <= k < |g.members| ==>
      Net(g.expenses, g.members[k].id) + Outflow(debts, g.members[k].id) - Inflow(debts, g.members[k].id) == 0
  {
    Conservation(g);
    forall k | 0 <= k < |g.members|
      ensures Net(g.expenses, g.members[k].id) + Outflow(debts, g.members[k].id) - Inflow(debts, g.members[k].id) == 0
    {
      NetOfSingle(balances, k);
    }
  }

  /** What the page can rely on, given balances computed from the group and
      payments that satisfy the simplifier's contract. */
  lemma SummaryFacts(g: Group, balances: seq<Balance>, debts: seq<Debt>)
    requires balances == CalculateBalances(g)
    requires DebtorToCreditor(balances, debts)
    requires Total(balances) == 0 ==> forall id :: NetOf(balances, id) + Outflow(debts, id) - Inflow(debts, id) == 0
    ensures DistinctIds(g.members) ==> forall n :: 0 <= n < |debts| ==> debts[n].from != debts[n].to
    ensures DistinctIds(g.members)
         && (forall e :: e in g.expenses ==> ReferencesMembers(g.members, e) && SplitTotal(e.splits) == e.amount)
      ==> forall k :: 0 <= k < |g.members| ==>
            Net(g.expenses, g.members[k].id) + Outflow(debts, g.members[k].id) - Inflow(debts, g.members[k].id) == 0
  {
    if DistinctIds(g.members) {
      BalanceIdsDistinct(g);
      NoSelfPayment(balances, debts);
    }
    if DistinctIds(g.members) && (forall e :: e in g.expenses ==> ReferencesMembers(g.members, e) && SplitTotal(e.splits) == e.amount) {
      SettlesEveryMember(g, balances, debts);
    }
  }

  /** The group's balances and suggested payments. When member ids are
      distinct and every stored expense refers only to members and splits its
      total exactly, paying the suggested amounts leaves every member at zero. */
  method Summarize(g: Group) returns (balances: seq<Balance>, debts: seq<Debt>)
    ensures |balances| == |g.members|
    ensures forall k :: 0 <= k < |g.members| ==>
      balances[k].memberId == g.members[k].id && balances[k].balance == Net(g.expenses, g.members[k].id)
    ensures forall n :: 0 <= n < |debts| ==> debts[n].amount > 0
    ensures DistinctIds(g.members) ==> forall n :: 0 <= n < |debts| ==> debts[n].from != debts[n].to
    ensures DistinctIds(g.members)
         && (forall e :: e in g.expenses ==> ReferencesMembers(g.members, e) && SplitTotal(e.splits) == e.amount)
      ==> forall k :: 0 <= k < |g.members| ==>
            Net(g.expenses, g.members[k].id) + Outflow(debts, g.members[k].id) - Inflow(debts, g.members[k].id) == 0
  {
    balances := CalculateBalances(g);
    assert forall k :: 0 <= k < |g.members| ==>
      balances[k].memberId == g.members[k].id && balances[k].balance == Net(g.expenses, g.members[k].id);
    ghost var walk;
    debts, walk := SimplifyDebts(balances);
    SummaryFacts(g, balances, debts);
  }
}
