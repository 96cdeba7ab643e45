/** The seven-transaction fixture of the ledger's test suite and the answers
    the suite expects for it, derived from the model. */
module Scenarios {
  import opened Wrappers
  import opened Transactions
  import opened Selection
  import opened Sorting
  import opened Chainblock
  import opened Laws

  const t0 := Transaction(0, Successful, "Pesho", "Sasho", 11.20)
  const t1 := Transaction(1, Successful, "Pesho", "Toshko", 10.0)
  const t2 := Transaction(2, Unauthorized, "Sasho", "Pesho", 11.0)
  const t3 := Transaction(3, Failed, "Toshko", "Sasho", 12.20)
  const t4 := Transaction(4, Successful, "Sasho", "Pesho", 10.50)
  const t5 := Transaction(5, Successful, "Pesho", "Sasho", 14.0)
  const t6 := Transaction(6, Successful, "Toshko", "Sasho", 9.0)

  function Fixture(): seq<Transaction> {
    [t0, t1, t2, t3, t4, t5, t6]
  }

  lemma FixtureMembers()
    ensures forall t :: t in Fixture() <==>
      t == t0 || t == t1 || t == t2 || t == t3 || t == t4 || t == t5 || t == t6
    ensures IdsUnique(Fixture())
  {
  }

  /** The ledger after adding the whole fixture, in order. */
  function Filled(): (c: Store)
    ensures Valid(c) && c.txs == Fixture() && Count(c) == 7
  {
    FixtureMembers();
    FillFromEmpty(Fixture());
    AddAll(Empty(), Fixture())
  }

  /** Adding two different transactions counts two; adding one twice counts one. */
  lemma AddScenario()
    ensures Count(Add(Empty(), t0)) == 1
    ensures Count(Add(Add(Empty(), t0), t1)) == 2
    ensures Count(Add(Add(Empty(), t0), t0)) == 1
  {
    AddIdempotent(Empty(), t0);
  }

  lemma ContainsScenario()
    ensures !Contains(Add(Empty(), t0), t1) && Contains(Add(Empty(), t1), t1)
    ensures !ContainsId(Add(Empty(), t0), t1.id) && ContainsId(Add(Empty(), t0), t0.id)
  {
    var c := Add(Empty(), t0);
    assert c.txs == [t0] && c.txs[0].id == t0.id;
  }

  lemma StatusChangeScenario()
    ensures ChangeTransactionStatus(Empty(), 100, Failed) == NotFound
    ensures var r := ChangeTransactionStatus(Add(Empty(), t0), t0.id, Failed);
      r.Ok? && GetById(r.value, t0.id).Ok? && GetById(r.value, t0.id).value.status == Failed
  {
    var c := Add(Empty(), t0);
    assert c.txs == [t0] && c.txs[0].id == t0.id;
  }

  lemma GetByIdScenario()
    ensures GetById(Add(Empty(), t0), t0.id) == Ok(t0)
    ensures GetById(Filled(), 199) == NotFound
  {
    var c := Add(Empty(), t0);
    assert c.txs == [t0] && c.txs[0] == t0;
    FixtureMembers();
  }

  /** The fixture's ids are 0 to 6. */
  lemma FixtureIds()
    ensures forall k :: 0 <= k < |Fixture()| ==> Fixture()[k].id == k
  {
  }

  lemma RemoveMissingScenario()
    ensures RemoveTransactionById(Filled(), 200) == NotFound
  {
    FixtureIds();
    assert !ContainsId(Filled(), 200);
  }

  lemma RemoveScenario()
    ensures var r := RemoveTransactionById(Filled(), 1);
      r.Ok? && !ContainsId(r.value, 1) && Count(r.value) == 6
  {
    assert Filled().txs[1].id == 1;
  }

  /** The fixture's names differ from each other and from "Ivan" at their first letter. */
  lemma NamesDiffer()
    ensures "Pesho" != "Ivan" && "Sasho" != "Ivan" && "Toshko" != "Ivan"
    ensures "Pesho" != "Sasho" && "Pesho" != "Toshko" && "Sasho" != "Toshko"
  {
    assert "Pesho"[0] == 'P' && "Sasho"[0] == 'S' && "Toshko"[0] == 'T' && "Ivan"[0] == 'I';
  }

  /** No fixture transaction is ABORTED, and none involves "Ivan". */
  lemma AbsentKeys()
    ensures forall t :: t in Fixture() ==> t.status != Aborted
    ensures forall t :: t in Fixture() ==> t.from != "Ivan" && t.to != "Ivan"
  {
    FixtureMembers();
    NamesDiffer();
  }

  lemma StatusNotFoundScenario()
    ensures GetByTransactionStatus(Filled(), Aborted) == NotFound
    ensures GetAllSendersWithTransactionStatus(Filled(), Aborted) == NotFound
    ensures GetAllReceiversWithTransactionStatus(Filled(), Aborted) == NotFound
  {
    AbsentKeys();
  }

  lemma SuccessfulMembers()
    ensures forall t :: t in [t5, t0, t4, t1, t6] <==> t in Fixture() && t.status == Successful
  {
    FixtureMembers();
  }

  lemma SuccessfulOrder()
    ensures Sorted(AmountDescending, [t5, t0, t4, t1, t6])
    ensures NoTies(AmountDescending, [t5, t0, t4, t1, t6])
    ensures IdsUnique([t5, t0, t4, t1, t6])
  {
  }

  lemma ByStatusScenario()
    ensures GetByTransactionStatus(Filled(), Successful) == Ok([t5, t0, t4, t1, t6])
  {
    SuccessfulMembers();
    SuccessfulOrder();
    ByStatusIsUnique(Filled(), Successful, [t5, t0, t4, t1, t6]);
  }

  /** The sender and receiver names of the SUCCESSFUL transactions, by amount descending. */
  lemma SuccessfulNames(senders: seq<string>, receivers: seq<string>)
    requires |senders| == |receivers| == 5
    requires forall i :: 0 <= i < 5 ==> senders[i] == [t5, t0, t4, t1, t6][i].from
    requires forall i :: 0 <= i < 5 ==> receivers[i] == [t5, t0, t4, t1, t6][i].to
    ensures senders == ["Pesho", "Pesho", "Sasho", "Pesho", "Toshko"]
    ensures receivers == ["Sasho", "Sasho", "Pesho", "Toshko", "Sasho"]
  {
  }

  lemma SendersAndReceiversScenario()
    ensures GetAllSendersWithTransactionStatus(Filled(), Successful)
         == Ok(["Pesho", "Pesho", "Sasho", "Pesho", "Toshko"])
    ensures GetAllReceiversWithTransactionStatus(Filled(), Successful)
         == Ok(["Sasho", "Sasho", "Pesho", "Toshko", "Sasho"])
  {
    ByStatusScenario();
    var s := GetAllSendersWithTransactionStatus(Filled(), Successful);
    var r := GetAllReceiversWithTransactionStatus(Filled(), Successful);
    SuccessfulNames(s.value, r.value);
  }

  lemma AmountRangeFacts()
    ensures IsSubsequence([t0, t2, t4], Fixture()) && IsSubsequence([], Fixture())
    ensures forall t :: t in [t0, t2, t4] <==> t in Fixture() && 10.0 < t.amount < 12.0
    ensures forall t :: t in [] <==> t in Fixture() && 1000.0 < t.amount < 1100.0
  {
    FixtureMembers();
  }

  lemma AmountRangeScenario()
    ensures GetAllInAmountRange(Filled(), 10.0, 12.0) == [t0, t2, t4]
    ensures GetAllInAmountRange(Filled(), 1000.0, 1100.0) == []
  {
    AmountRangeFacts();
    InAmountRangeIsFilter(Filled(), 10.0, 12.0, [t0, t2, t4]);
    InAmountRangeIsFilter(Filled(), 1000.0, 1100.0, []);
  }

  lemma StatusAndMaximumAmountFacts()
    ensures IsSubsequence([t1, t4, t6], Fixture())
    ensures forall t :: t in [t1, t4, t6] <==> t in Fixture() && t.status == Successful && t.amount < 11.0
  {
    FixtureMembers();
    NamesDiffer();
  }

  lemma StatusAndMaximumAmountScenario()
    ensures GetByTransactionStatusAndMaximumAmount(Filled(), Successful, 11.0) == [t1, t4, t6]
  {
    StatusAndMaximumAmountFacts();
    StatusAndMaximumAmountIsFilter(Filled(), Successful, 11.0, [t1, t4, t6]);
  }

  lemma OrderedThenByIdFacts()
    ensures forall t :: t in [t5, t3, t0, t2, t4, t1, t6] <==> t in Fixture()
    ensures Sorted(AmountDescendingThenId, [t5, t3, t0, t2, t4, t1, t6])
    ensures IdsUnique([t5, t3, t0, t2, t4, t1, t6])
  {
    FixtureMembers();
  }

  lemma OrderedThenByIdScenario()
    ensures GetAllOrderedByAmountDescendingThenById(Filled()) == [t5, t3, t0, t2, t4, t1, t6]
  {
    OrderedThenByIdFacts();
    OrderedThenByIdIsUnique(Filled(), [t5, t3, t0, t2, t4, t1, t6]);
  }

  lemma ReceiverFacts()
    ensures forall t :: t in [t5, t3, t0, t6] <==> t in Fixture() && t.to == "Sasho"
    ensures Sorted(AmountDescendingThenId, [t5, t3, t0, t6]) && IdsUnique([t5, t3, t0, t6])
  {
    FixtureMembers();
    NamesDiffer();
  }

  lemma ReceiverRangeFacts()
    ensures forall t :: t in [t3, t0] <==> t in Fixture() && t.to == "Sasho" && 10.0 < t.amount < 13.0
    ensures Sorted(AmountDescending, [t3, t0]) && IdsUnique([t3, t0]) && NoTies(AmountDescending, [t3, t0])
  {
    FixtureMembers();
    NamesDiffer();
  }

  lemma ReceiverScenario()
    ensures GetByReceiverAndAmountRange(Filled(), "Ivan", 10.0, 12.0) == NotFound
    ensures GetByReceiverAndAmountRange(Filled(), "Sasho", 10.0, 13.0) == Ok([t3, t0])
    ensures GetByReceiverOrderedByAmountThenById(Filled(), "Ivan") == NotFound
    ensures GetByReceiverOrderedByAmountThenById(Filled(), "Sasho") == Ok([t5, t3, t0, t6])
  {
    AbsentKeys();
    ReceiverRangeFacts();
    ReceiverAndAmountRangeIsUnique(Filled(), "Sasho", 10.0, 13.0, [t3, t0]);
    ReceiverFacts();
    ReceiverThenByIdIsUnique(Filled(), "Sasho", [t5, t3, t0, t6]);
  }

  lemma SenderFacts()
    ensures forall t :: t in [t5, t0, t1] <==> t in Fixture() && t.from == "Pesho"
    ensures forall t :: t in [t5, t0] <==> t in Fixture() && t.from == "Pesho" && t.amount > 10.0
    ensures Sorted(AmountDescending, [t5, t0, t1]) && IdsUnique([t5, t0, t1]) && NoTies(AmountDescending, [t5, t0, t1])
    ensures Sorted(AmountDescending, [t5, t0]) && IdsUnique([t5, t0]) && NoTies(AmountDescending, [t5, t0])
  {
    FixtureMembers();
    NamesDiffer();
  }

  lemma SenderScenario()
    ensures GetBySenderOrderedByAmountDescending(Filled(), "Ivan") == NotFound
    ensures GetBySenderOrderedByAmountDescending(Filled(), "Pesho") == Ok([t5, t0, t1])
    ensures GetBySenderAndMinimumAmountDescending(Filled(), "Ivan", 1000.0) == NotFound
    ensures GetBySenderAndMinimumAmountDescending(Filled(), "Pesho", 10.0) == Ok([t5, t0])
  {
    AbsentKeys();
    SenderFacts();
    SenderDescendingIsUnique(Filled(), "Pesho", [t5, t0, t1]);
    SenderMinimumAmountIsUnique(Filled(), "Pesho", 10.0, [t5, t0]);
  }
}
