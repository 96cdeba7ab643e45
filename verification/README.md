# Chainblock ledger model

A Dafny model of `ChainblockImpl`, the in-memory ledger of `Transaction`
records from the Chainblock_TDD repository, as its JUnit suite
`src/test/java/ChainblockImplTest.java` pins it down. A transaction has an
`id`, a `status` (SUCCESSFUL, FAILED, UNAUTHORIZED, ABORTED), a sender
`from`, a receiver `to` and an `amount`. The ledger has these operations:

- the mutations `add`, `changeTransactionStatus` and `removeTransactionById`;
- the lookups `contains(tx)`, `contains(id)`, `getCount` and `getById`;
- ten queries that filter the stored transactions, then either keep
  insertion order or sort by amount descending, optionally then by id ascending.

Layout, one module per file:

- `wrappers.dfy` (`Wrappers`): `Option`, and `Result` with `Ok(value)` and
  `NotFound`. `NotFound` stands for the `IllegalArgumentException` the ledger throws.
- `transaction.dfy` (`Transactions`): the `Transaction` record and the
  `IdsUnique` invariant. It also holds the two sort orders (`Ordering`,
  `Precedes`, `Sorted`) and the tie notions used for uniqueness (`Tied`, `NoTies`).
- `selection.dfy` (`Selection`): the order-preserving `Filter`,
  `IsSubsequence`, and the proof that the filter is the only subsequence
  holding exactly the matching transactions.
- `sorting.dfy` (`Sorting`): a stable functional insertion sort. It also
  proves that a sorted arrangement without ties is unique.
- `chainblock.dfy` (`Chainblock`): the store, an insertion-ordered `seq` with
  unique ids, and every operation of the ledger. `Chainblock.IndexOf` is
  the positional search by id behind `GetById`, `ChangeTransactionStatus`
  and `RemoveTransactionById`. The predicates
  `Chainblock.Contains` and `Chainblock.ContainsId` are the definitions of
  `contains(tx)` and `contains(id)`, and the function `Chainblock.Count` is
  the definition of `getCount`. What the suite asserts about them is stated
  by `Laws.ContainsAgree`, `Laws.CountIsNumberOfIds` and the contracts of
  the operations that use them.
- `laws.dfy` (`Laws`): properties that relate several operations. Filling a
  store, counting, idempotent adds, and the "the answer is determined"
  partner of every query.
- `scenarios.dfy` (`Scenarios`): the suite's seven-transaction fixture.
  For each test, it derives the answer the test expects from the contracts.

The model is purely functional. `ChangeTransactionStatus` and
`RemoveTransactionById` return `Result<Store>`. A failed call returns
`NotFound` and no store, so the caller still holds the store from before
the call. `Add` cannot fail and returns `Store`.

`Add` skips a transaction whose id is already stored. An equal transaction
has the same id, so adding the same transaction twice is skipped as well,
which is what lines 55-58 of the suite assert.

The store keeps insertion order. The suite compares `getAllInAmountRange`
and `getByTransactionStatusAndMaximumAmount` with a stream filter of the
fixture list, which is in insertion order (lines 201-207 and 302-308).
Those two queries therefore return subsequences of the store.

## Model

| member | source | states |
|---|---|---|
| Chainblock.Empty | src/test/java/ChainblockImplTest.java:16-22 | a new ledger is valid, counts zero and contains no transaction |
| Chainblock.Add | src/test/java/ChainblockImplTest.java:45-59 | adding keeps ids unique; re-adding a stored transaction, or any transaction whose id is stored, changes nothing; a transaction with a new id goes to the end of the insertion order and raises the count by exactly one; nothing stored is ever lost |
| Chainblock.GetById | src/test/java/ChainblockImplTest.java:105-119 | NotFound exactly when no stored transaction has the id; otherwise the result is a stored transaction with that id, and it is the very transaction that was added |
| Chainblock.ChangeTransactionStatus | src/test/java/ChainblockImplTest.java:89-103 | NotFound exactly for an absent id; otherwise count, validity and every position's id are kept; `GetById` afterwards returns the old transaction with only its status replaced; the lookup of every other id is unchanged |
| Chainblock.RemoveTransactionById | src/test/java/ChainblockImplTest.java:121-135 | NotFound exactly for an absent id; otherwise the count drops by exactly one, the id is no longer contained, exactly the other transactions remain, and they keep their insertion order |
| Chainblock.GetByTransactionStatus | src/test/java/ChainblockImplTest.java:137-154 | NotFound exactly when no transaction has the status; otherwise exactly the transactions with that status, each once, sorted by amount descending |
| Chainblock.GetAllSendersWithTransactionStatus | src/test/java/ChainblockImplTest.java:156-175 | NotFound exactly when no transaction has the status; otherwise one sender per transaction of the status query's answer, position by position (duplicates kept); a name occurs exactly when some transaction with that status has it as sender |
| Chainblock.GetAllReceiversWithTransactionStatus | src/test/java/ChainblockImplTest.java:177-196 | the same for receivers: NotFound exactly when no transaction has the status; otherwise the `to` of each transaction of the status query's answer, position by position |
| Chainblock.GetAllInAmountRange | src/test/java/ChainblockImplTest.java:198-221 | exactly the stored transactions with lo < amount < hi (both ends excluded), as a subsequence of the insertion order; empty rather than an error when none matches |
| Chainblock.GetByReceiverAndAmountRange | src/test/java/ChainblockImplTest.java:223-242 | NotFound exactly when no transaction to the receiver has lo < amount < hi; otherwise exactly those, each once, sorted by amount descending |
| Chainblock.GetAllOrderedByAmountDescendingThenById | src/test/java/ChainblockImplTest.java:244-255 | every stored transaction exactly once (same count), ordered strictly: for i < j, larger amount first, and equal amounts by strictly smaller id |
| Chainblock.GetByReceiverOrderedByAmountThenById | src/test/java/ChainblockImplTest.java:257-276 | NotFound exactly when nothing goes to the receiver; otherwise exactly those transactions, each once, strictly ordered by amount descending then id ascending |
| Chainblock.GetBySenderOrderedByAmountDescending | src/test/java/ChainblockImplTest.java:278-296 | NotFound exactly when nothing comes from the sender; otherwise exactly those transactions, each once, sorted by amount descending |
| Chainblock.GetByTransactionStatusAndMaximumAmount | src/test/java/ChainblockImplTest.java:298-309 | exactly the transactions with the status and amount < max, as a subsequence of the insertion order; empty rather than an error when none matches |
| Chainblock.GetBySenderAndMinimumAmountDescending | src/test/java/ChainblockImplTest.java:311-330 | NotFound exactly when nothing comes from the sender with amount > min; otherwise exactly those, each once, sorted by amount descending |
| Selection.Filter | src/test/java/ChainblockImplTest.java:201-203 | the stream filter: members are exactly the inputs satisfying the predicate, the result is a subsequence of the input, unique ids stay unique, and it is the identity when every element matches |
| Selection.FilterUnique | src/test/java/ChainblockImplTest.java:201-207 | over a list with unique ids, any subsequence whose members are exactly the matching elements is the filter, so the filter is fully determined by membership and order |
| Selection.SubsequenceMembers | src/test/java/ChainblockImplTest.java:201-203 | every element of a subsequence is an element of the whole list |
| Selection.FilterDropsOne | src/test/java/ChainblockImplTest.java:128-135 | filtering out the single element that fails the predicate shortens the list by exactly one |
| Sorting.SortBy | src/test/java/ChainblockImplTest.java:147-150 | the sort result is sorted by the chosen order and is a permutation (same multiset) of its input; unique ids stay unique |
| Sorting.InsertSorted | src/test/java/ChainblockImplTest.java:149 | inserting one transaction into a sorted list keeps it sorted |
| Sorting.InsertIdsUnique | src/test/java/ChainblockImplTest.java:249 | inserting a transaction with a fresh id keeps ids unique |
| Sorting.SortedUnique | src/test/java/ChainblockImplTest.java:248-254 | two duplicate-free arrangements of the same transactions, both sorted by an order that leaves no ties among them, are equal |
| Laws.AddAll | src/test/java/ChainblockImplTest.java:24-26 | adding a list one by one keeps the store valid and loses nothing already stored |
| Laws.AddAllAppends | src/test/java/ChainblockImplTest.java:24-26 | adding transactions with new, distinct ids appends them in order and raises the count by their number |
| Laws.FillFromEmpty | src/test/java/ChainblockImplTest.java:24-42 | filling an empty ledger with n transactions of distinct ids stores exactly that list, in order, and counts n |
| Laws.AddIdempotent | src/test/java/ChainblockImplTest.java:54-59 | adding the same transaction twice gives the same store as adding it once |
| Laws.ContainsAgree | src/test/java/ChainblockImplTest.java:61-87 | containing a transaction implies containing its id, and a transaction is contained exactly when `GetById` of its id returns it |
| Laws.RemoveUndoesAdd | src/test/java/ChainblockImplTest.java:121-135 | removing the transaction just added under a new id gives back exactly the store from before the add |
| Laws.ChangeStatusRestores | src/test/java/ChainblockImplTest.java:89-103 | changing a status and then changing it back to the old status gives back exactly the original store |
| Laws.CountIsNumberOfIds | src/test/java/ChainblockImplTest.java:45-59 | in a valid store the count equals the number of distinct ids |
| Laws.InAmountRangeIsFilter | src/test/java/ChainblockImplTest.java:198-209 | any subsequence of the store holding exactly the in-range transactions is the range query's answer: the query agrees with a stream filter of the insertion-ordered list |
| Laws.StatusAndMaximumAmountIsFilter | src/test/java/ChainblockImplTest.java:298-309 | the same determination for the status-and-maximum query |
| Laws.OrderedThenByIdIsUnique | src/test/java/ChainblockImplTest.java:244-255 | any duplicate-free arrangement of the store sorted by amount descending then id ascending is the query's answer |
| Laws.ReceiverThenByIdIsUnique | src/test/java/ChainblockImplTest.java:264-276 | any non-empty duplicate-free arrangement of a receiver's transactions, sorted by amount descending then id ascending, is the receiver query's answer |
| Laws.ByStatusIsUnique | src/test/java/ChainblockImplTest.java:144-154 | when the matching amounts are pairwise different, any duplicate-free arrangement of the transactions with the status by amount descending is the status query's answer |
| Chainblock.SortedMatches | src/test/java/ChainblockImplTest.java:144-154 | the shared core of the five sorted queries: NotFound exactly when no stored transaction matches; otherwise exactly the matching transactions, each once, sorted by the query's order |
| Laws.SortedMatchesIsUnique | src/test/java/ChainblockImplTest.java:144-154 | for every sorted query: any non-empty, duplicate-free, tie-free arrangement of exactly the matching transactions, sorted by the query's order, is its answer |
| Laws.ReceiverAndAmountRangeIsUnique | src/test/java/ChainblockImplTest.java:231-242 | when the matching amounts differ pairwise, any duplicate-free arrangement of the receiver's in-range transactions by amount descending is the query's answer |
| Laws.SenderDescendingIsUnique | src/test/java/ChainblockImplTest.java:285-296 | when the matching amounts differ pairwise, any duplicate-free arrangement of the sender's transactions by amount descending is the query's answer |
| Laws.SenderMinimumAmountIsUnique | src/test/java/ChainblockImplTest.java:318-330 | when the matching amounts differ pairwise, any duplicate-free arrangement of the sender's transactions above the minimum, by amount descending, is the query's answer |
| Scenarios.FixtureMembers | src/test/java/ChainblockImplTest.java:28-42 | the fixture holds exactly the seven listed transactions, and their ids are unique |
| Scenarios.Filled | src/test/java/ChainblockImplTest.java:24-26 | adding the fixture to an empty ledger stores the fixture list in order, seven transactions |
| Scenarios.AddScenario | src/test/java/ChainblockImplTest.java:45-59 | adding two different transactions counts two; adding one twice counts one |
| Scenarios.ContainsScenario | src/test/java/ChainblockImplTest.java:61-87 | the four contains checks: the added transaction and id are contained, the others are not |
| Scenarios.StatusChangeScenario | src/test/java/ChainblockImplTest.java:89-103 | changing the status of id 100 fails; after changing transaction 0 to FAILED, its lookup shows FAILED |
| Scenarios.GetByIdScenario | src/test/java/ChainblockImplTest.java:105-119 | the lookup of an added transaction returns it; id 199 is NotFound |
| Scenarios.RemoveMissingScenario | src/test/java/ChainblockImplTest.java:121-126 | removing id 200 from the filled ledger fails |
| Scenarios.RemoveScenario | src/test/java/ChainblockImplTest.java:128-135 | removing id 1 from the filled ledger leaves six transactions and no id 1 |
| Scenarios.StatusNotFoundScenario | src/test/java/ChainblockImplTest.java:137-182 | the ABORTED status query, sender query and receiver query are NotFound |
| Scenarios.ByStatusScenario | src/test/java/ChainblockImplTest.java:144-154 | SUCCESSFUL answers transactions 5, 0, 4, 1, 6, the fixture's stream sorted by amount descending |
| Scenarios.SendersAndReceiversScenario | src/test/java/ChainblockImplTest.java:163-196 | the senders and receivers of SUCCESSFUL, in that order |
| Scenarios.AmountRangeScenario | src/test/java/ChainblockImplTest.java:198-221 | the range (10, 12) answers transactions 0, 2, 4 in insertion order; the range (1000, 1100) answers the empty sequence |
| Scenarios.StatusAndMaximumAmountScenario | src/test/java/ChainblockImplTest.java:298-309 | SUCCESSFUL with amount < 11 answers transactions 1, 4, 6 in insertion order |
| Scenarios.OrderedThenByIdScenario | src/test/java/ChainblockImplTest.java:244-255 | the full ordering is transactions 5, 3, 0, 2, 4, 1, 6 |
| Scenarios.ReceiverScenario | src/test/java/ChainblockImplTest.java:223-276 | the receiver queries for "Ivan" are NotFound; "Sasho" with 10 < amount < 13 answers transactions 3, 0; "Sasho" by amount then id answers transactions 5, 3, 0, 6 |
| Scenarios.SenderScenario | src/test/java/ChainblockImplTest.java:278-330 | the sender queries for "Ivan" are NotFound; "Pesho" by amount descending answers transactions 5, 0, 1; "Pesho" with amount > 10 answers transactions 5, 0 |

## Left out

- The model states what the suite asserts about `ChainblockImpl` and `TransactionImpl`. Their internal fields, map and methods are not modelled.
- The JUnit plumbing (`@Before`, `@Test`, `expected = IllegalArgumentException.class`) is not modelled. Each thrown `IllegalArgumentException` is the `NotFound` variant of `Result`.
- Amounts are `real`, not `double`. The suite only compares amounts with `<`, `>` and equality, so the model ignores floating-point rounding.
- `TransactionStatus` is modelled with the four values the suite uses. Any further enum constants are not modelled.
- When a different transaction reuses a stored id, the model's `Add` keeps the stored transaction and drops the new one, and its contract says so. The suite never exercises this case, so a map that replaces the old entry would pass the suite too. The model does not cover that alternative.
- Chainblock.GetAllReceiversWithTransactionStatus: the suite's empty-result test at line 181 calls the senders method, so the receivers error is never asserted. The model mirrors the senders method and answers NotFound.
- Chainblock.GetByTransactionStatus: the order of transactions with equal amounts is left unspecified, because the fixture's amounts are all distinct. The sort used is stable, but the contract promises only amount-descending order. The same holds for the other amount-only queries, listed below. For the same reason their uniqueness lemmas require pairwise different amounts.
- Chainblock.GetBySenderOrderedByAmountDescending: equal-amount order unspecified, as above.
- Chainblock.GetByReceiverAndAmountRange: equal-amount order unspecified, as above.
- Chainblock.GetBySenderAndMinimumAmountDescending: equal-amount order unspecified, as above.
- The hash map and `equals`/`hashCode` of the implementation are not modelled. Structural datatype equality and an insertion-ordered sequence take their place.
