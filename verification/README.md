# Splitzy ledger and settlement engine, in Dafny

This project models the arithmetic core of Splitzy, a shared-expense tracker:

- the **split allocator** (`calculateSplits`) turns an expense total in cents and a split directive (`equally`, `unequally` over a selection, `custom` per-member amounts) into per-member splits, or a validation error;
- the **balance accumulator** (`calculateBalances`) folds a group's expense history into one net balance per member;
- the **debt simplifier** (`simplifyDebts`) turns balances into a list of suggested payments, by a greedy two-cursor walk over debtors and creditors.

All amounts are integers in cents. Each component is a pure function over its input.

Files, one module each:

- `ledger.dfy` (`Ledger`): the records (`Member`, `Split`, `Expense`, `Group`, `Balance`, `Debt`), a `Result` type, and the sums used everywhere.
- `splits.dfy` (`Splits`): the allocator and its properties.
- `balances.dfy` (`Balances`): the accumulator, a reference definition `Net` (paid minus charged), order independence, the ignoring of outsiders, and conservation.
- `sorting.dfy` (`Sorting`): the stable sort the simplifier uses.
- `settlement.dfy` (`Settlement`): the simplifier and its per-member settlement properties. The loop's state (payments so far, remaining balances, two cursors) is the record `Walker`, one iteration is the function `Step`, and the method `Walk` runs the loop under its invariant.
- `summary.dfy` (`GroupSummary`): the group page's use of the two, end to end.

Modelling choices:

- The split directive is a datatype instead of form fields. `Custom` carries a map from member id to cents, and a missing entry counts as 0.
- JavaScript's `%` truncates toward zero, and `JsRem` models it. `Math.floor(total / n)` with `n > 0` is Dafny's `total / n`. The allocator's callers only pass totals of 0 or more, because the amount is validated positive and then rounded to cents. So the allocator's sum and fairness properties assume `total >= 0`.
- With whole-cent balances, the simplifier's `0.5` thresholds become exact tests. "Settled amount above 0.5" is "above 0", and "remaining balance below 0.5 in magnitude" is "equal to 0". `Math.round` changes nothing. The model writes the exact integer tests.
- The array sort is stable, as the language now guarantees. The model uses a stable insertion sort keyed by balance: ascending for debtors, and descending (key `-balance`) for creditors.
- The simplifier's properties are stated per member id, by summing over every entry that carries that id. They therefore hold even if an id occurs twice in the input.
- The ghost `walk` out-parameter records, for each payment, the positions in the two sorted queues that produced it. It carries the "emitted in walk order" property.

Behaviour of the code worth knowing:

- Custom amounts are not clamped to be non-negative. The code takes whatever the field parses to.
- The remainder of an equal division goes one cent at a time to the first ids in order. For 10000 cents split equally over three members, the shares are 3334, 3333 and 3333 (`RemainderSplitExample`).
- The allocator accepts a split total up to one cent away from the expense total. So balances are conserved exactly only when each stored split list sums exactly to its total. `Balances.Conservation` states the general fact: the balances sum to the total shortfall of the split lists, which is at most one cent per expense.
- A selective split does not check that the selected ids are group members, nor that they are distinct (`OutsiderSelectionExample`). Conservation therefore also assumes that every expense refers only to members. The exactly-once rule for selective splits (`SplitsExactlyOnce`) assumes a selection of distinct member ids, which is what the expense form offers.

## Model

| member | source | states |
|---|---|---|
| Splits.JsRem | src/lib/actions.ts:144 | the remainder has the dividend's sign, is smaller than the divisor in magnitude, and is the dividend minus the divisor times the truncated quotient |
| Splits.Deal | src/lib/actions.ts:146-153 | while the remainder counter is positive, one extra cent goes to each id in turn: position i gets share + 1 exactly when i is below the starting remainder, and the ids keep their order |
| Splits.Distribute | src/lib/actions.ts:138-154 | one split per id, in input order; no ids gives no splits; for total >= 0 every share is floor(total/n) or one more, and the larger share goes exactly to the first total % n ids |
| Splits.DealTotal | src/lib/actions.ts:143-153 | the dealt shares sum to n * share plus the number of extras, and that many shares carry the extra cent |
| Splits.DistributeTotal | src/lib/actions.ts:138-154 | for n > 0 ids and total >= 0, the shares sum to exactly total, and exactly total % n of them get the extra cent |
| Splits.AmountOf | src/lib/actions.ts:171-172 | a member with no typed-in amount is charged 0; otherwise the typed-in amount |
| Splits.ZeroFill | src/lib/actions.ts:164-168 | every member outside the selection gets a zero split; no selected id gets one; the zero splits add nothing to the total |
| Splits.CustomSplits | src/lib/actions.ts:169-174 | the loop pushes one split per member: the result has exactly as many splits as members, and position k names member k with the amount typed in for that member, or 0 when none was given |
| Splits.Propose | src/lib/actions.ts:156-177 | the dispatch fails exactly for an unrecognised split type (invalid type) and an empty selection (empty selection); equal and custom splits name every member by position; a selective split names the selected ids first, in selection order, then only zero splits for unselected ids; custom amounts are the typed-in ones |
| Splits.CalculateSplits | src/lib/actions.ts:134-186 | a result is returned only when its total is within one cent of the expense total; a sum failure carries both totals and the two are more than a cent apart; an unknown directive always fails; an empty selection fails |
| Splits.EquallyAllocation | src/lib/actions.ts:156-183 | with members, the equal split succeeds and is exactly the fair division `Distribute` over the member ids: one split per member in member order, each floor(total/n) or one more with the extra cents on the first total % n members, summing to the total; with no members nothing is proposed, and the call fails iff the total exceeds one cent, reporting 0 against the total |
| Splits.UnequallyAllocation | src/lib/actions.ts:158-168 | an empty selection fails; otherwise the result is the equal division over the selection in selection order, followed by zero splits for the other members, and it sums to the total |
| Splits.CustomSplitsTotal | src/lib/actions.ts:169-179 | the custom split list sums to the sum of the typed-in amounts over the members |
| Splits.CustomAllocation | src/lib/actions.ts:169-185 | a custom split succeeds iff the typed-in amounts sum to within one cent of the total; on success it is one split per member with that member's amount; otherwise the error reports the amounts' sum and the total |
| Splits.SplitsCoverMembers | src/lib/actions.ts:156-174 | with no assumption on ids or selection, every member of the group appears in every successful split list |
| Splits.SelectionExactlyOnce | src/lib/actions.ts:158-168 | with distinct member ids and a selection of distinct member ids, the selective split has as many splits as members and exactly one split for each member |
| Splits.SplitsExactlyOnce | src/lib/actions.ts:156-183 | with distinct member ids (and, for a selective split, a selection of distinct member ids), every successful split list has exactly one split per member and length equal to the member count |
| Splits.EvenSplitExample | src/lib/actions.ts:143-153 | 15000 over three members gives 5000 each |
| Splits.RemainderSplitExample | src/lib/actions.ts:143-153 | 10000 over three members gives 3334, 3333, 3333 |
| Splits.CustomMismatchExample | src/lib/actions.ts:179-183 | custom amounts summing to 9000 for a 10000 expense fail, reporting 9000 against 10000 |
| Splits.OutsiderSelectionExample | src/lib/actions.ts:159-168 | a selection naming only a non-member passes, charging the whole total to that id |
| Balances.Credit | src/lib/calculations.ts:12-14 | only an id that already has a running balance is changed, by exactly the delta; the set of ids is unchanged |
| Balances.ChargeSplits | src/lib/calculations.ts:17-21 | each tracked id's running balance drops by what that id is charged in the split list; no ids are added |
| Balances.ApplyExpense | src/lib/calculations.ts:10-22 | each tracked id's running balance moves by what it paid minus what it was charged for the expense |
| Balances.Accumulate | src/lib/calculations.ts:10-22 | after the whole history, each tracked id's balance equals its start plus its reference net position `Net` |
| Balances.Opening | src/lib/calculations.ts:6-8 | the loop sets one entry per member: every member id starts at 0, and no id other than a member id is tracked |
| Balances.CalculateBalances | src/lib/calculations.ts:3-30 | one entry per member, in member order, with that member's id and name; each balance equals what the member paid minus what they were charged over all expenses |
| Balances.NetPermutation | src/lib/calculations.ts:10-22 | the reference net position depends only on the multiset of expenses |
| Balances.BalancesOrderIndependent | src/lib/calculations.ts:10-22 | any reordering of the expense list gives the same balances |
| Balances.NonMembersIgnored | src/lib/calculations.ts:12-20 | removing every payer credit and split that names a non-member leaves all balances unchanged |
| Balances.MembersNetIsImbalance | src/lib/calculations.ts:10-22 | with distinct member ids and only member references, the members' net positions sum to the total shortfall of the split lists |
| Balances.Conservation | src/lib/calculations.ts:10-22 | with distinct member ids and only member references, the balances sum to the split lists' total shortfall. That is zero when every split list sums to its expense, and at most one cent per expense within the allocator's tolerance |
| Balances.BalanceExample | src/lib/calculations.ts:10-22 | for any three distinct ids, A paying 12000 split 4000 three ways leaves A at +8000 and B and C at -4000 each |
| Sorting.KeyOrder | src/lib/calculations.ts:38-39 | the comparators `a.balance - b.balance` and `b.balance - a.balance` (`Comparator`) compare two entries exactly as the sort key `Key` does, so being sorted by `Key` is being sorted by those comparators |
| Sorting.Insert | src/lib/calculations.ts:38-39 | inserting into a sorted list keeps it sorted and adds exactly the new entry |
| Sorting.Sort | src/lib/calculations.ts:38-39 | the result is sorted by the key and is a permutation of the input |
| Sorting.InsertWithKey | src/lib/calculations.ts:38-39 | the inserted entry lands in front of every entry with the same key |
| Sorting.SortIsStable | src/lib/calculations.ts:38-39 | for every key value, the entries with that key keep their input order |
| Settlement.Debtors | src/lib/calculations.ts:33 | the kept entries are exactly the input entries with a negative balance: nothing else is kept and every such entry is |
| Settlement.Creditors | src/lib/calculations.ts:34 | the kept entries are exactly the input entries with a positive balance: nothing else is kept and every such entry is |
| Settlement.DebtorQueueContents | src/lib/calculations.ts:33-39 | the debtor queue `DebtorQueue` (filter, then sort with the ascending comparator) is sorted most negative first and holds exactly the input entries with a negative balance |
| Settlement.CreditorQueueContents | src/lib/calculations.ts:33-39 | the creditor queue `CreditorQueue` (filter, then sort with the descending comparator) is sorted most positive first and holds exactly the input entries with a positive balance |
| Settlement.QueuesKeepInputOrder | src/lib/calculations.ts:33-39 | among debtors with equal balances, and among creditors with equal balances, the queues keep the order of the input balance list |
| Settlement.PartitionSums | src/lib/calculations.ts:33-34 | dropping zero balances and splitting by sign preserves each id's total and the grand total |
| Settlement.SortSums | src/lib/calculations.ts:38-39 | sorting preserves each id's total and the grand total |
| Settlement.SettleAmount | src/lib/calculations.ts:45 | the settled amount is the smaller of the debtor's debt and the creditor's credit: at most each, and equal to one of them |
| Settlement.Step | src/lib/calculations.ts:43-61 | one loop iteration moves the debtor and the creditor under the cursors by the settled amount, the smaller of the debt and the credit, and changes nothing else; it settles at least one of them; a cursor advances exactly past a settled entry; a payment from the current debtor to the current creditor is emitted exactly when the settled amount is positive, and nothing else is emitted |
| Settlement.StepKeepsWalking | src/lib/calculations.ts:43-61 | one step settles a positive amount, keeps the loop invariant, and advances at least one cursor |
| Settlement.WalkingDone | src/lib/calculations.ts:42-62 | once a queue is exhausted: that side is settled in full (every debtor has paid its whole debt, or every creditor has received its whole credit); fewer payments than debtors plus creditors; nobody pays or receives more than its balance; with a zero total, every debt and credit is met exactly |
| Settlement.PerPositionStep | src/lib/calculations.ts:56-57 | after one payment, each debtor's remaining balance is still its opening balance plus everything paid from its queue position, and each creditor's its opening balance minus everything paid to its position |
| Settlement.StepWalking | src/lib/calculations.ts:43-61 | the two entries under the cursors are still unsettled, so the settled amount is positive, and one iteration keeps the loop invariant |
| Settlement.StepPositions | src/lib/calculations.ts:43-61 | one iteration keeps every queue entry's remaining balance equal to its opening balance less what the walk has settled at its position |
| Settlement.StepOk | src/lib/calculations.ts:43-61 | one iteration of the loop body keeps the invariant and strictly shrinks the number of unsettled queue entries, so the loop terminates |
| Settlement.Walk | src/lib/calculations.ts:41-62 | the loop runs until the debtor or the creditor queue is exhausted, keeping its invariant; it emits nothing when a queue starts out empty |
| Settlement.Settle | src/lib/calculations.ts:41-62 | the walk terminates; every payment is positive, from the debtor to the creditor under the cursors, in non-decreasing cursor order; there are no payments if either queue is empty, otherwise at most debtors + creditors - 1; no overpayment; every debtor is paid up in full or every creditor is paid in full; the walk moves past a debtor or a creditor only once that entry is settled in full, so every queue entry before a cursor the walk has reached has paid (received) exactly its balance; with a zero total, all debts and credits are met exactly |
| Settlement.QueueOutcome | src/lib/calculations.ts:33-39 | the per-member bounds proved over the sorted queues hold for the unsorted partition, and with a zero total every member's balance plus what it pays minus what it receives is zero |
| Settlement.QueueExhausted | src/lib/calculations.ts:33-42 | if the walk settled every debtor (or every creditor) of the sorted queue in full, every member with a negative (positive) balance is settled in full |
| Settlement.PartialSettlementExample | src/lib/calculations.ts:41-62 | with A owing 2 and B owed 1 (balances not summing to zero), the simplifier's contract forces a payment: the payment list is not empty |
| Settlement.ScenarioWalk | src/lib/calculations.ts:41-62 | with creditor A alone in its queue and debtors B then C in theirs, every payment goes from B or from C to A, every payment but the last is from B and every payment but the first is from C: so there are at most two, B's first |
| Settlement.ScenarioPayments | src/lib/calculations.ts:41-62 | a payment list of that shape in which B and C each pay 4000 in total is exactly B pays A 4000, then C pays A 4000 |
| Settlement.ScenarioSettlement | src/lib/calculations.ts:32-65 | for A +8000, B -4000, C -4000, the simplifier suggests exactly B pays A 4000, then C pays A 4000; B and C owe the same, so B keeps its place ahead of C from the input list |
| Settlement.PaymentEnds | src/lib/calculations.ts:43-54 | each payment's payer has a negative input balance and its payee a positive one, with the matching names |
| Settlement.SimplifyDebts | src/lib/calculations.ts:32-65 | payments go from negative to positive balances with positive amounts, in walk order over the sorted queues; at most debtors + creditors - 1 payments; no member pays more than it owes or receives more than it is owed; all debtors pay their whole debts or all creditors receive their whole credits, whatever the total; a queue entry is passed over only once it has paid (received) exactly its balance; if balances sum to zero, applying the payments brings every member's balance to zero |
| GroupSummary.NoSelfPayment | src/lib/calculations.ts:33-34 | with distinct ids, no payment goes from a member to itself |
| GroupSummary.SettlesEveryMember | src/lib/calculations.ts:3-65 | with distinct ids and an exact, member-only ledger, every member's net position plus what it pays minus what it receives under the suggested payments is zero |
| GroupSummary.SummaryFacts | src/lib/calculations.ts:3-65 | for balances computed from the group and payments that meet the simplifier's contract: with distinct ids no one pays themselves, and with an exact member-only ledger every member ends at zero |
| GroupSummary.Summarize | src/lib/calculations.ts:3-65 | the two functions chained as the group page chains them: balances are per member, equal to paid minus charged; with distinct ids, member-only references and exactly-summing splits, the suggested payments bring every member to zero |

## Left out

- `formatCurrency` (both copies): display formatting with `Intl.NumberFormat` and float division. The sum-mismatch error carries the two integer totals instead of the formatted message.
- Decimal-to-cents conversion (`Math.round(x * 100)`) and parsing of form fields: floating point. The model takes cents as integers. As a result, a custom field that parses to `NaN` is not modelled. In the code, such a field would make the split total `NaN` and slip past the sum check.
- Numbers beyond 2^53 and floating-point division: the model's integers are exact and unbounded.
- Reading `FormData`: the directive is passed as a datatype.
- Descriptions, authors, timestamps, comments and avatars: they play no part in the arithmetic.
- JavaScript objects used as maps inherit prototype keys (such as `constructor`). The model's map has no such keys, and member ids are generated identifiers.
- Persistence, authentication, routing, server actions other than `calculateSplits`, and all UI components, including the split-type inference of the expense form and the display sort of the balance summary.
- Splits.ZeroFill: its contract states which members get zero splits, but not that they appear in member order. The order follows from the definition, which walks the member list once.
