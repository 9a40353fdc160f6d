/** The split allocator: turns an expense total and a split directive into the
    list of per-member shares stored with the expense, or a validation error. */
module Splits {
  import opened Ledger

  /** How the expense is to be divided. `Custom` carries the amount each member
      typed in, already in cents; a member without an entry owes 0.
      `Unrecognised` stands for any other value of the split-type field. */
  datatype Directive =
    | Equally
    | Unequally(selected: seq<Id>)
    | Custom(amounts: map<Id, int>)
    | Unrecognised

  datatype SplitError =
    | EmptySelection
    | SumMismatch(splitTotal: int, expected: int)
    | InvalidSplitType

  /** The remainder of JavaScript's `%`, which truncates toward zero: it has the
      sign of the dividend, unlike Dafny's Euclidean `%`. */
  function JsRem(a: int, k: int): (r: int)
    requires k > 0
    ensures a - r == k * (if a >= 0 then a / k else -((-a) / k))
    ensures -k < r < k
    ensures a >= 0 ==> r >= 0
    ensures a < 0 ==> r <= 0
  {
    if a >= 0 then a % k else -((-a) % k)
  }

  /** The number of leading elements, out of `n`, that receive an extra unit
      when the remainder counter starts at `remainder`. */
  function Extras(remainder: int, n: nat): nat
  {
    if remainder <= 0 then 0 else if remainder >= n then n else remainder
  }

  /** The loop of the equal division: every id gets `share`, and while the
      remainder counter is positive the current id gets one more and the
      counter drops by one. */
  function Deal(ids: seq<Id>, share: int, remainder: int): (r: seq<Split>)
    ensures |r| == |ids|
    ensures forall i :: 0 <= i < |ids| ==>
      r[i] == Split(ids[i], if i < remainder then share + 1 else share)
  {
    if ids == [] then []
    else if remainder > 0 then [Split(ids[0], share + 1)] + Deal(ids[1..], share, remainder - 1)
    else [Split(ids[0], share)] + Deal(ids[1..], share, remainder)
  }

  /** Equal division of `total` over `ids`, in the order given; nothing at all
      for an empty id list. */
  function Distribute(ids: seq<Id>, total: int): (r: seq<Split>)
    ensures |r| == |ids|
    ensures forall i :: 0 <= i < |ids| ==> r[i].memberId == ids[i]
    ensures total >= 0 ==> forall i :: 0 <= i < |ids| ==>
      && (r[i].amount == total / |ids| || r[i].amount == total / |ids| + 1)
      && (r[i].amount == total / |ids| + 1 <==> i < total % |ids|)
  {
    if |ids| == 0 then [] else Deal(ids, total / |ids|, JsRem(total, |ids|))
  }

  /** A zero-amount split for every member that is not among `selected`, in
      member order. */
  function ZeroFill(members: seq<Member>, selected: seq<Id>): (r: seq<Split>)
    ensures |r| <= |members|
    ensures forall s :: s in r ==> s.amount == 0 && s.memberId !in selected && s.memberId in MemberIds(members)
    ensures forall m :: m in members && m.id !in selected ==> Split(m.id, 0) in r
    ensures SplitTotal(r) == 0
  {
    if members == [] then []
    else
      assert MemberIds(members) == [members[0].id] + MemberIds(members[1..]);
      if members[0].id in selected then ZeroFill(members[1..], selected)
      else [Split(members[0].id, 0)] + ZeroFill(members[1..], selected)
  }

  /** The amount typed in for `id`, or 0 when the field is missing. */
  function AmountOf(amounts: map<Id, int>, id: Id): (r: int)
    ensures id in amounts ==> r == amounts[id]
    ensures id !in amounts ==> r == 0
  {
    if id in amounts then amounts[id] else 0
  }

  /** The loop of the custom split: one push per member, in member order,
      with the amount typed in for that member. */
  function CustomSplits(members: seq<Member>, amounts: map<Id, int>): (r: seq<Split>)
    ensures |r| == |members|
    ensures forall k :: 0 <= k < |members| ==> r[k] == Split(members[k].id, AmountOf(amounts, members[k].id))
  {
    if members == [] then []
    else [Split(members[0].id, AmountOf(amounts, members[0].id))] + CustomSplits(members[1..], amounts)
  }

  /** The splits each directive proposes, before the sum is checked. */
  function Propose(total: int, members: seq<Member>, directive: Directive): (r: Result<seq<Split>, SplitError>)
    ensures r.Failure? <==> directive.Unrecognised? || (directive.Unequally? && |directive.selected| == 0)
    ensures r.Failure? ==> r.error == (if directive.Unrecognised? then InvalidSplitType else EmptySelection)
    ensures r.Success? && (directive.Equally? || directive.Custom?) ==>
      |r.value| == |members| && forall k :: 0 <= k < |members| ==> r.value[k].memberId == members[k].id
    ensures r.Success? && directive.Custom? ==>
      forall k :: 0 <= k < |members| ==> r.value[k].amount == AmountOf(directive.amounts, members[k].id)
    ensures r.Success? && directive.Unequally? ==>
      && |directive.selected| <= |r.value|
      && (forall i :: 0 <= i < |directive.selected| ==> r.value[i].memberId == directive.selected[i])
      && (forall i :: |directive.selected| <= i < |r.value| ==>
            r.value[i].amount == 0 && r.value[i].memberId !in directive.selected)
  {
    match directive
    case Equally => Success(Distribute(MemberIds(members), total))
    case Unequally(selected) =>
      if |selected| == 0 then Failure(EmptySelection)
      else Success(Distribute(selected, total) + ZeroFill(members, selected))
    case Custom(amounts) => Success(CustomSplits(members, amounts))
    case Unrecognised => Failure(InvalidSplitType)
  }

  /** The allocator: propose splits, then refuse them when their total is more
      than one cent away from the expense total. */
  function CalculateSplits(total: int, members: seq<Member>, directive: Directive): (r: Result<seq<Split>, SplitError>)
    ensures r.Success? ==> -1 <= SplitTotal(r.value) - total <= 1
    ensures r.Failure? && r.error.SumMismatch? ==>
      r.error.expected == total && (r.error.splitTotal - total > 1 || total - r.error.splitTotal > 1)
    ensures directive.Unrecognised? ==> r == Failure(InvalidSplitType)
    ensures directive.Unequally? && |directive.selected| == 0 ==> r == Failure(EmptySelection)
  {
    match Propose(total, members, directive)
    case Failure(e) => Failure(e)
    case Success(splits) =>
      var splitTotal := SplitTotal(splits);
      if splitTotal - total > 1 || total - splitTotal > 1 then Failure(SumMismatch(splitTotal, total))
      else Success(splits)
  }

  /** Number of splits whose amount is `v`. */
  function CountAmount(splits: seq<Split>, v: int): nat
  {
    if splits == [] then 0
    else (if splits[0].amount == v then 1 else 0) + CountAmount(splits[1..], v)
  }

  lemma {:induction false} DealTotal(ids: seq<Id>, share: int, remainder: int)
    ensures SplitTotal(Deal(ids, share, remainder)) == |ids| * share + Extras(remainder, |ids|)
    ensures CountAmount(Deal(ids, share, remainder), share + 1) == Extras(remainder, |ids|)
    decreases |ids|
  {
    if ids != [] {
      var r := Deal(ids, share, remainder);
      var rest := if remainder > 0 then remainder - 1 else remainder;
      DealTotal(ids[1..], share, rest);
      assert r[1..] == Deal(ids[1..], share, rest);
      assert |ids| * share == share + (|ids| - 1) * share;
    }
  }

  /** The shares add up to exactly the total, and exactly `total % n` of them
      carry the extra cent. */
  lemma DistributeTotal(ids: seq<Id>, total: int)
    requires total >= 0 && |ids| > 0
    ensures SplitTotal(Distribute(ids, total)) == total
    ensures CountAmount(Distribute(ids, total), total / |ids| + 1) == total % |ids|
  {
    DealTotal(ids, total / |ids|, JsRem(total, |ids|));
  }

  /** Equal division over all members: one split per member in member order,
      summing to the total, so validation passes. With no members nothing is
      proposed and the call fails exactly when the total exceeds one cent. */
  lemma EquallyAllocation(total: int, members: seq<Member>)
    requires total >= 0
    ensures var r := CalculateSplits(total, members, Equally);
      && (|members| > 0 ==>
            && r.Success?
            && r.value == Distribute(MemberIds(members), total)
            && |r.value| == |members|
            && (forall k :: 0 <= k < |members| ==> r.value[k].memberId == members[k].id)
            && SplitTotal(r.value) == total)
      && (|members| == 0 ==>
            && (r.Success? <==> total <= 1)
            && (r.Success? ==> r.value == [])
            && (r.Failure? ==> r.error == SumMismatch(0, total)))
  {
    if |members| > 0 {
      DistributeTotal(MemberIds(members), total);
    }
  }

  /** Selective equal division: an empty selection fails; otherwise the
      selected ids share the total in selection order, followed by a zero split
      for every member outside the selection, and validation passes. */
  lemma UnequallyAllocation(total: int, members: seq<Member>, selected: seq<Id>)
    requires total >= 0
    ensures var r := CalculateSplits(total, members, Unequally(selected));
      && (|selected| == 0 ==> r == Failure(EmptySelection))
      && (|selected| > 0 ==>
            && r.Success?
            && r.value == Distribute(selected, total) + ZeroFill(members, selected)
            && SplitTotal(r.value) == total)
  {
    if |selected| > 0 {
      DistributeTotal(selected, total);
      SplitTotalAppend(Distribute(selected, total), ZeroFill(members, selected));
    }
  }

  /** Sum of the typed-in amounts over the members. */
  function CustomSum(members: seq<Member>, amounts: map<Id, int>): int
  {
    if members == [] then 0 else AmountOf(amounts, members[0].id) + CustomSum(members[1..], amounts)
  }

  lemma {:induction false} CustomSplitsTotal(members: seq<Member>, amounts: map<Id, int>)
    ensures SplitTotal(CustomSplits(members, amounts)) == CustomSum(members, amounts)
    decreases |members|
  {
    if members != [] {
      CustomSplitsTotal(members[1..], amounts);
      assert CustomSplits(members, amounts)[1..] == CustomSplits(members[1..], amounts);
    }
  }

  /** Custom amounts are taken as given, one per member in member order; the
      call succeeds exactly when they add up to the total within one cent, and
      otherwise reports both totals. */
  lemma CustomAllocation(total: int, members: seq<Member>, amounts: map<Id, int>)
    ensures var r := CalculateSplits(total, members, Custom(amounts));
      var sum := CustomSum(members, amounts);
      && (r.Success? <==> -1 <= sum - total <= 1)
      && (r.Success? ==>
            && |r.value| == |members|
            && forall k :: 0 <= k < |members| ==>
                 r.value[k] == Split(members[k].id, AmountOf(amounts, members[k].id)))
      && (r.Failure? ==> r.error == SumMismatch(sum, total))
  {
    CustomSplitsTotal(members, amounts);
  }

  /** Every member of the group appears in a successful split list, as the
      stored-expense invariant requires. */
  lemma SplitsCoverMembers(total: int, members: seq<Member>, directive: Directive)
    ensures var r := CalculateSplits(total, members, directive);
      r.Success? ==> forall m :: m in members ==> exists s :: s in r.value && s.memberId == m.id
  {
    var r := CalculateSplits(total, members, directive);
    if r.Success? {
      forall m | m in members
        ensures exists s :: s in r.value && s.memberId == m.id
      {
        var k :| 0 <= k < |members| && members[k] == m;
        match directive
        case Equally =>
          assert r.value[k].memberId == m.id;
        case Custom(amounts) =>
          assert r.value[k].memberId == m.id;
        case Unequally(selected) =>
          var dealt := Distribute(selected, total);
          var zeros := ZeroFill(members, selected);
          assert r.value == dealt + zeros;
          if m.id in selected {
            var i :| 0 <= i < |selected| && selected[i] == m.id;
            assert r.value[i] == dealt[i];
          } else {
            assert Split(m.id, 0) in zeros;
          }
      }
    }
  }

  // ---------------------------------------------------------------------------
  // Each member exactly once.

  /** Number of splits for `id`. */
  function CountId(splits: seq<Split>, id: Id): nat
  {
    if splits == [] then 0
    else (if splits[0].memberId == id then 1 else 0) + CountId(splits[1..], id)
  }

  /** Number of times `id` occurs in `ids`. */
  function Occurrences(ids: seq<Id>, id: Id): nat
  {
    if ids == [] then 0
    else (if ids[0] == id then 1 else 0) + Occurrences(ids[1..], id)
  }

  predicate NoRepeats(ids: seq<Id>)
  {
    forall a, b :: 0 <= a < b < |ids| ==> ids[a] != ids[b]
  }

  /** The split counts of `s` summed over the ids in `ids`. */
  function CountsOver(s: seq<Split>, ids: seq<Id>): int
  {
    if ids == [] then 0 else CountId(s, ids[0]) + CountsOver(s, ids[1..])
  }

  lemma {:induction false} CountIdAppend(a: seq<Split>, b: seq<Split>, id: Id)
    ensures CountId(a + b, id) == CountId(a, id) + CountId(b, id)
  {
    if a == [] {
      assert a + b == b;
    } else {
      assert (a + b)[1..] == a[1..] + b;
      CountIdAppend(a[1..], b, id);
    }
  }

  /** A split list that names `ids` position by position has as many splits
      for an id as `ids` has occurrences of it. */
  lemma {:induction false} CountIdAligned(s: seq<Split>, ids: seq<Id>, id: Id)
    requires |s| == |ids|
    requires forall i :: 0 <= i < |s| ==> s[i].memberId == ids[i]
    ensures CountId(s, id) == Occurrences(ids, id)
  {
    if s != [] {
      CountIdAligned(s[1..], ids[1..], id);
    }
  }

  lemma {:induction false} OccurrencesOnce(ids: seq<Id>, id: Id)
    requires NoRepeats(ids)
    ensures Occurrences(ids, id) == if id in ids then 1 else 0
  {
    if ids != [] {
      assert NoRepeats(ids[1..]) by {
        forall a, b | 0 <= a < b < |ids[1..]|
          ensures ids[1..][a] != ids[1..][b]
        {
          assert ids[1..][a] == ids[a + 1] && ids[1..][b] == ids[b + 1];
        }
      }
      OccurrencesOnce(ids[1..], id);
      assert ids == [ids[0]] + ids[1..];
      if ids[0] == id {
        forall k | 0 <= k < |ids[1..]|
          ensures ids[1..][k] != id
        {
          assert ids[1..][k] == ids[k + 1];
        }
      }
    }
  }

  lemma {:induction false} ZeroFillCount(members: seq<Member>, selected: seq<Id>, id: Id)
    ensures CountId(ZeroFill(members, selected), id)
         == if id in selected then 0 else Occurrences(MemberIds(members), id)
  {
    if members != [] {
      ZeroFillCount(members[1..], selected, id);
      assert MemberIds(members)[1..] == MemberIds(members[1..]);
      var rest := ZeroFill(members[1..], selected);
      assert ([Split(members[0].id, 0)] + rest)[1..] == rest;
    }
  }

  lemma {:induction false} CountsOverCons(x: Split, t: seq<Split>, ids: seq<Id>)
    ensures CountsOver([x] + t, ids) == Occurrences(ids, x.memberId) + CountsOver(t, ids)
  {
    if ids != [] {
      CountsOverCons(x, t, ids[1..]);
      assert ([x] + t)[1..] == t;
    }
  }

  lemma {:induction false} CountsOverNil(ids: seq<Id>)
    ensures CountsOver([], ids) == 0
  {
    if ids != [] {
      CountsOverNil(ids[1..]);
    }
  }

  /** When every split names one of a list of distinct ids, the splits are
      counted once each by summing their counts over that list. */
  lemma {:induction false} LengthByCounts(s: seq<Split>, ids: seq<Id>)
    requires NoRepeats(ids)
    requires forall i :: 0 <= i < |s| ==> s[i].memberId in ids
    ensures |s| == CountsOver(s, ids)
  {
    if s == [] {
      CountsOverNil(ids);
    } else {
      LengthByCounts(s[1..], ids);
      assert s == [s[0]] + s[1..];
      CountsOverCons(s[0], s[1..], ids);
      OccurrencesOnce(ids, s[0].memberId);
    }
  }

  lemma {:induction false} CountsOverOnes(s: seq<Split>, ids: seq<Id>)
    requires forall i :: 0 <= i < |ids| ==> CountId(s, ids[i]) == 1
    ensures CountsOver(s, ids) == |ids|
  {
    if ids != [] {
      CountsOverOnes(s, ids[1..]);
    }
  }

  /** A split list naming the members position by position has exactly one
      split for each member id when member ids are distinct. */
  lemma AlignedCount(s: seq<Split>, members: seq<Member>, id: Id)
    requires NoRepeats(MemberIds(members))
    requires |s| == |members|
    requires forall k :: 0 <= k < |members| ==> s[k].memberId == members[k].id
    requires id in MemberIds(members)
    ensures CountId(s, id) == 1
  {
    CountIdAligned(s, MemberIds(members), id);
    OccurrencesOnce(MemberIds(members), id);
  }

  lemma SelectionCount(total: int, members: seq<Member>, selected: seq<Id>, id: Id)
    requires NoRepeats(selected) && NoRepeats(MemberIds(members))
    requires id in MemberIds(members)
    ensures CountId(Distribute(selected, total) + ZeroFill(members, selected), id) == 1
  {
    var dealt := Distribute(selected, total);
    var zeros := ZeroFill(members, selected);
    CountIdAppend(dealt, zeros, id);
    CountIdAligned(dealt, selected, id);
    OccurrencesOnce(selected, id);
    ZeroFillCount(members, selected, id);
    OccurrencesOnce(MemberIds(members), id);
  }

  lemma SelectionNamesMembers(total: int, members: seq<Member>, selected: seq<Id>)
    requires forall i :: 0 <= i < |selected| ==> selected[i] in MemberIds(members)
    ensures var s := Distribute(selected, total) + ZeroFill(members, selected);
      forall i :: 0 <= i < |s| ==> s[i].memberId in MemberIds(members)
  {
    var dealt := Distribute(selected, total);
    var zeros := ZeroFill(members, selected);
    var s := dealt + zeros;
    forall i | 0 <= i < |s|
      ensures s[i].memberId in MemberIds(members)
    {
      if i < |dealt| {
        assert s[i] == dealt[i];
      } else {
        assert s[i] == zeros[i - |dealt|];
      }
    }
  }

  /** A selective split over distinct member ids has exactly one split per
      member and no other. */
  lemma SelectionExactlyOnce(total: int, members: seq<Member>, selected: seq<Id>)
    requires DistinctIds(members)
    requires NoRepeats(selected)
    requires forall i :: 0 <= i < |selected| ==> selected[i] in MemberIds(members)
    ensures var s := Distribute(selected, total) + ZeroFill(members, selected);
      && |s| == |members|
      && forall k :: 0 <= k < |members| ==> CountId(s, members[k].id) == 1
  {
    var ids := MemberIds(members);
    assert NoRepeats(ids);
    var s := Distribute(selected, total) + ZeroFill(members, selected);
    forall k | 0 <= k < |members|
      ensures CountId(s, ids[k]) == 1
    {
      SelectionCount(total, members, selected, ids[k]);
    }
    SelectionNamesMembers(total, members, selected);
    LengthByCounts(s, ids);
    CountsOverOnes(s, ids);
  }

  /** The split-completeness rule of a stored expense: with distinct member
      ids, a successful split list has exactly one split per member and no
      other. For a selective split this needs a selection of distinct member
      ids, which is what the expense form offers. */
  lemma SplitsExactlyOnce(total: int, members: seq<Member>, directive: Directive)
    requires DistinctIds(members)
    requires directive.Unequally? ==>
      && NoRepeats(directive.selected)
      && forall i :: 0 <= i < |directive.selected| ==> directive.selected[i] in MemberIds(members)
    ensures var r := CalculateSplits(total, members, directive);
      r.Success? ==>
        && |r.value| == |members|
        && forall k :: 0 <= k < |members| ==> CountId(r.value, members[k].id) == 1
  {
    var r := CalculateSplits(total, members, directive);
    var ids := MemberIds(members);
    if r.Success? {
      if directive.Unequally? {
        SelectionExactlyOnce(total, members, directive.selected);
      } else {
        assert NoRepeats(ids);
        forall k | 0 <= k < |members|
          ensures CountId(r.value, ids[k]) == 1
        {
          AlignedCount(r.value, members, ids[k]);
        }
      }
    }
  }

  // ---------------------------------------------------------------------------
  // Worked examples.

  /** 15000 cents over three members: 5000 each. */
  lemma EvenSplitExample()
    ensures CalculateSplits(15000, [Member("a", "A"), Member("b", "B"), Member("c", "C")], Equally)
         == Success([Split("a", 5000), Split("b", 5000), Split("c", 5000)])
  {
    var members := [Member("a", "A"), Member("b", "B"), Member("c", "C")];
    var d := Distribute(MemberIds(members), 15000);
    DistributeTotal(MemberIds(members), 15000);
    assert d[0] == Split("a", 5000) && d[1] == Split("b", 5000) && d[2] == Split("c", 5000);
    assert d == [Split("a", 5000), Split("b", 5000), Split("c", 5000)];
  }

  /** 10000 cents over three members: the first member gets the one leftover
      cent, giving 3334, 3333 and 3333. */
  lemma RemainderSplitExample()
    ensures CalculateSplits(10000, [Member("a", "A"), Member("b", "B"), Member("c", "C")], Equally)
         == Success([Split("a", 3334), Split("b", 3333), Split("c", 3333)])
  {
    var members := [Member("a", "A"), Member("b", "B"), Member("c", "C")];
    var d := Distribute(MemberIds(members), 10000);
    DistributeTotal(MemberIds(members), 10000);
    assert d[0] == Split("a", 3334) && d[1] == Split("b", 3333) && d[2] == Split("c", 3333);
    assert d == [Split("a", 3334), Split("b", 3333), Split("c", 3333)];
  }

  /** Custom amounts adding up to 9000 for a 10000 expense are refused, and
      the error reports both totals. */
  lemma CustomMismatchExample()
    ensures CalculateSplits(10000, [Member("a", "A"), Member("b", "B")], Custom(map["a" := 4000, "b" := 5000]))
         == Failure(SumMismatch(9000, 10000))
  {
    var members := [Member("a", "A"), Member("b", "B")];
    var amounts := map["a" := 4000, "b" := 5000];
    CustomSplitsTotal(members, amounts);
    assert CustomSum(members, amounts) == 9000;
  }

  /** The selective split does not check that the selected ids belong to the
      group: a selection naming only an outsider passes validation, charging
      the whole total to an id the balance computation will ignore. */
  lemma OutsiderSelectionExample()
    ensures CalculateSplits(500, [Member("a", "A")], Unequally(["x"]))
         == Success([Split("x", 500), Split("a", 0)])
  {
    var d := Distribute(["x"], 500);
    assert d[0] == Split("x", 500);
    assert d == [Split("x", 500)];
    var members := [Member("a", "A")];
    assert members[0].id !in ["x"];
    assert ZeroFill(members, ["x"]) == [Split("a", 0)] + ZeroFill(members[1..], ["x"]);
    assert ZeroFill(members, ["x"]) == [Split("a", 0)];
    var splits := [Split("x", 500), Split("a", 0)];
    assert d + ZeroFill(members, ["x"]) == splits;
    assert SplitTotal(splits) == 500 + SplitTotal(splits[1..]);
    assert SplitTotal(splits[1..]) == 0 + SplitTotal(splits[2..]);
  }
}
