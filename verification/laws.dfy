/** Properties relating several ledger operations: filling a store, counting,
    idempotent adds and the uniqueness of every query's answer. */
module Laws {
  import opened Wrappers
  import opened Transactions
  import opened Selection
  import opened Sorting
  import opened Chainblock

  /** Adds the transactions of `xs` one after the other. */
  function AddAll(c: Store, xs: seq<Transaction>): (r: Store)
    requires Valid(c)
    ensures Valid(r)
    ensures forall t :: Contains(c, t) ==> Contains(r, t)
    decreases |xs|
  {
    if |xs| == 0 then c else AddAll(Add(c, xs[0]), xs[1..])
  }

  /** Adding transactions whose ids are all new appends them in order. */
  lemma {:induction false} AddAllAppends(c: Store, xs: seq<Transaction>)
    requires Valid(c) && IdsUnique(c.txs + xs)
    ensures AddAll(c, xs).txs == c.txs + xs
    ensures Count(AddAll(c, xs)) == Count(c) + |xs|
    decreases |xs|
  {
    if |xs| > 0 {
      var x := xs[0];
      var all := c.txs + xs;
      assert all[|c.txs|] == x;
      forall k | 0 <= k < |c.txs|
        ensures c.txs[k].id != x.id
      {
        assert all[k] == c.txs[k];
      }
      var c' := Add(c, x);
      assert c'.txs == c.txs + [x];
      assert c'.txs + xs[1..] == all;
      AddAllAppends(c', xs[1..]);
    }
  }

  /** Filling an empty ledger with n transactions of distinct ids stores
      exactly them, in the given order, and counts n. */
  lemma FillFromEmpty(xs: seq<Transaction>)
    requires IdsUnique(xs)
    ensures AddAll(Empty(), xs).txs == xs
    ensures Count(AddAll(Empty(), xs)) == |xs|
  {
    assert Empty().txs + xs == xs;
    AddAllAppends(Empty(), xs);
  }

  /** Adding the same transaction twice is the same as adding it once. */
  lemma AddIdempotent(c: Store, t: Transaction)
    requires Valid(c)
    ensures Add(Add(c, t), t) == Add(c, t)
    ensures Count(Add(Add(c, t), t)) <= Count(c) + 1
  {
    if !ContainsId(c, t.id) {
      assert Add(c, t).txs[Count(c)] == t;
    }
  }

  /** Containing a transaction implies containing its id; in a valid store a
      transaction is contained exactly when looking its id up returns it. */
  lemma ContainsAgree(c: Store, t: Transaction)
    requires Valid(c)
    ensures Contains(c, t) ==> ContainsId(c, t.id)
    ensures Contains(c, t) <==> GetById(c, t.id) == Ok(t)
  {
  }

  /** Removing the transaction just added restores the store. */
  lemma RemoveUndoesAdd(c: Store, t: Transaction)
    requires Valid(c) && !ContainsId(c, t.id)
    ensures RemoveTransactionById(Add(c, t), t.id) == Ok(c)
  {
    var added := Add(c, t);
    assert added.txs[|c.txs|] == t;
    var r := RemoveTransactionById(added, t.id);
    var keep := (u: Transaction) => u.id != t.id;
    PrefixIsSubsequence(c.txs, [t]);
    assert forall u :: u in c.txs <==> u in added.txs && keep(u);
    FilterUnique(added.txs, keep, c.txs);
    FilterUnique(added.txs, keep, r.value.txs);
  }

  /** Changing a status and then changing it back restores the store. */
  lemma ChangeStatusRestores(c: Store, id: int, status: Status)
    requires Valid(c) && ContainsId(c, id)
    ensures var changed := ChangeTransactionStatus(c, id, status).value;
      ChangeTransactionStatus(changed, id, GetById(c, id).value.status) == Ok(c)
  {
    var before := GetById(c, id).value;
    var changed := ChangeTransactionStatus(c, id, status).value;
    assert GetById(changed, id) == Ok(before.(status := status));
    var r := ChangeTransactionStatus(changed, id, before.status);
    var back := r.value;
    assert GetById(back, id) == Ok(before);
    forall i | 0 <= i < |c.txs|
      ensures back.txs[i] == c.txs[i]
    {
      var u := c.txs[i];
      assert GetById(c, u.id) == Ok(u);
      assert back.txs[i].id == u.id;
      assert GetById(back, u.id) == Ok(back.txs[i]);
      if u.id != id {
        assert GetById(back, u.id) == GetById(changed, u.id) == GetById(c, u.id);
      }
    }
    assert back.txs == c.txs;
  }

  /** The ids in use. */
  function Ids(xs: seq<Transaction>): set<int> {
    set t | t in xs :: t.id
  }

  /** The count equals the number of distinct ids: one transaction per id. */
  lemma {:induction false} CountIsNumberOfIds(c: Store)
    requires Valid(c)
    ensures Count(c) == |Ids(c.txs)|
    decreases |c.txs|
  {
    var xs := c.txs;
    if |xs| > 0 {
      var x, tail := xs[0], xs[1..];
      assert xs == [x] + tail;
      IdsUniqueCons(x, tail);
      assert Ids(xs) == {x.id} + Ids(tail);
      assert x.id !in Ids(tail) by {
        forall t | t in tail
          ensures t.id != x.id
        {
          var k :| 0 <= k < |tail| && tail[k] == t;
        }
      }
      CountIsNumberOfIds(Store(tail));
    }
  }

  /** The range query answers with the only subsequence of the store that
      holds exactly the in-range transactions, i.e. a filter of the
      insertion-ordered list. */
  lemma InAmountRangeIsFilter(c: Store, lo: real, hi: real, r: seq<Transaction>)
    requires Valid(c)
    requires IsSubsequence(r, c.txs)
    requires forall t :: t in r <==> Contains(c, t) && lo < t.amount < hi
    ensures r == GetAllInAmountRange(c, lo, hi)
  {
    var p := (t: Transaction) => lo < t.amount < hi;
    FilterUnique(c.txs, p, r);
    FilterUnique(c.txs, p, GetAllInAmountRange(c, lo, hi));
  }

  /** The status-and-maximum query answers with the only subsequence of the
      store that holds exactly the matching transactions. */
  lemma StatusAndMaximumAmountIsFilter(c: Store, status: Status, maxAmount: real, r: seq<Transaction>)
    requires Valid(c)
    requires IsSubsequence(r, c.txs)
    requires forall t :: t in r <==> Contains(c, t) && t.status == status && t.amount < maxAmount
    ensures r == GetByTransactionStatusAndMaximumAmount(c, status, maxAmount)
  {
    var p := (t: Transaction) => t.status == status && t.amount < maxAmount;
    FilterUnique(c.txs, p, r);
    FilterUnique(c.txs, p, GetByTransactionStatusAndMaximumAmount(c, status, maxAmount));
  }

  /** The full ordering is determined: any arrangement of the stored
      transactions sorted by amount descending, then id ascending, is it. */
  lemma OrderedThenByIdIsUnique(c: Store, r: seq<Transaction>)
    requires Valid(c)
    requires Sorted(AmountDescendingThenId, r) && IdsUnique(r)
    requires forall t :: t in r <==> Contains(c, t)
    ensures r == GetAllOrderedByAmountDescendingThenById(c)
  {
    var q := GetAllOrderedByAmountDescendingThenById(c);
    ThenIdStrict(r);
    ThenIdStrict(c.txs);
    assert Sorted(AmountDescendingThenId, q);
    assert IdsUnique(q) by {
      forall i, j | 0 <= i < |q| && 0 <= j < |q| && q[i].id == q[j].id
        ensures i == j
      {
      }
    }
    SortedUnique(AmountDescendingThenId, r, q);
  }

  /** Any arrangement of the transactions to `receiver` sorted by amount
      descending, then id ascending, is the receiver query's answer. */
  lemma ReceiverThenByIdIsUnique(c: Store, receiver: string, r: seq<Transaction>)
    requires Valid(c)
    requires Sorted(AmountDescendingThenId, r) && IdsUnique(r)
    requires forall t :: t in r <==> Contains(c, t) && t.to == receiver
    requires |r| > 0
    ensures GetByReceiverOrderedByAmountThenById(c, receiver) == Ok(r)
  {
    ThenIdStrict(r);
    SortedMatchesIsUnique(c, (t: Transaction) => t.to == receiver, AmountDescendingThenId, r);
  }

  /** Any duplicate-free arrangement of the matching transactions sorted by
      `o`, with no ties under `o`, is the answer of a NotFound-on-empty query. */
  lemma SortedMatchesIsUnique(c: Store, p: Transaction -> bool, o: Ordering, r: seq<Transaction>)
    requires Valid(c)
    requires Sorted(o, r) && IdsUnique(r) && NoTies(o, r)
    requires forall t :: t in r <==> Contains(c, t) && p(t)
    requires |r| > 0
    ensures SortedMatches(c, p, o) == Ok(r)
  {
    assert r[0] in r;
    SortedUnique(o, r, SortedMatches(c, p, o).value);
  }

  /** When the matching transactions have pairwise different amounts, any
      duplicate-free arrangement of them by amount descending is the status
      query's answer. */
  lemma ByStatusIsUnique(c: Store, status: Status, r: seq<Transaction>)
    requires Valid(c)
    requires Sorted(AmountDescending, r) && IdsUnique(r)
    requires forall t :: t in r <==> Contains(c, t) && t.status == status
    requires NoTies(AmountDescending, r)
    requires |r| > 0
    ensures GetByTransactionStatus(c, status) == Ok(r)
  {
    SortedMatchesIsUnique(c, (t: Transaction) => t.status == status, AmountDescending, r);
  }

  /** The same determination for transactions to a receiver within an amount range. */
  lemma ReceiverAndAmountRangeIsUnique(c: Store, receiver: string, lo: real, hi: real, r: seq<Transaction>)
    requires Valid(c)
    requires Sorted(AmountDescending, r) && IdsUnique(r) && NoTies(AmountDescending, r)
    requires forall t :: t in r <==> Contains(c, t) && t.to == receiver && lo < t.amount < hi
    requires |r| > 0
    ensures GetByReceiverAndAmountRange(c, receiver, lo, hi) == Ok(r)
  {
    SortedMatchesIsUnique(c, (t: Transaction) => t.to == receiver && lo < t.amount < hi, AmountDescending, r);
  }

  /** The same determination for transactions from a sender. */
  lemma SenderDescendingIsUnique(c: Store, sender: string, r: seq<Transaction>)
    requires Valid(c)
    requires Sorted(AmountDescending, r) && IdsUnique(r) && NoTies(AmountDescending, r)
    requires forall t :: t in r <==> Contains(c, t) && t.from == sender
    requires |r| > 0
    ensures GetBySenderOrderedByAmountDescending(c, sender) == Ok(r)
  {
    SortedMatchesIsUnique(c, (t: Transaction) => t.from == sender, AmountDescending, r);
  }

  /** The same determination for transactions from a sender above a minimum amount. */
  lemma SenderMinimumAmountIsUnique(c: Store, sender: string, minAmount: real, r: seq<Transaction>)
    requires Valid(c)
    requires Sorted(AmountDescending, r) && IdsUnique(r) && NoTies(AmountDescending, r)
    requires forall t :: t in r <==> Contains(c, t) && t.from == sender && t.amount > minAmount
    requires |r| > 0
    ensures GetBySenderAndMinimumAmountDescending(c, sender, minAmount) == Ok(r)
  {
    SortedMatchesIsUnique(c, (t: Transaction) => t.from == sender && t.amount > minAmount, AmountDescending, r);
  }
}
