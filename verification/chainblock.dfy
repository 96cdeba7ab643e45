/** The ledger: an insertion-ordered store of transactions with unique ids,
    its mutations, its lookups and its filtered, sorted queries. */
module Chainblock {
  import opened Wrappers
  import opened Transactions
  import opened Selection
  import opened Sorting

  /** The store's transactions in the order they were added. */
  datatype Store = Store(txs: seq<Transaction>)

  /** The store's invariant: at most one transaction per id. */
  predicate Valid(c: Store) {
    IdsUnique(c.txs)
  }

  /** `contains(tx)`: the very transaction is stored. */
  predicate Contains(c: Store, t: Transaction) {
    t in c.txs
  }

  /** `contains(id)`: some stored transaction carries `id`. */
  predicate ContainsId(c: Store, id: int) {
    HasId(c.txs, id)
  }

  /** `getCount`: the number of stored transactions. */
  function Count(c: Store): nat {
    |c.txs|
  }

  /** A new, empty ledger. */
  function Empty(): (c: Store)
    ensures Valid(c) && Count(c) == 0
    ensures forall t :: !Contains(c, t)
  {
    Store([])
  }

  /** Position of the transaction carrying `id`, if any. */
  function IndexOf(xs: seq<Transaction>, id: int): (r: Option<nat>)
    ensures r.None? <==> !HasId(xs, id)
    ensures r.Some? ==> r.value < |xs| && xs[r.value].id == id
  {
    if |xs| == 0 then None
    else if xs[0].id == id then Some(0)
    else
      match IndexOf(xs[1..], id)
      case None =>
        assert forall k :: 1 <= k < |xs| ==> xs[k] == xs[1..][k - 1];
        None
      case Some(k) => Some(k + 1)
  }

  /** Adds `t` at the end of the insertion order unless its id is already
      stored; adding a stored transaction again, the duplicate add of the
      suite, is the stored-id case and changes nothing. */
  function Add(c: Store, t: Transaction): (r: Store)
    requires Valid(c)
    ensures Valid(r)
    ensures ContainsId(c, t.id) ==> r == c
    ensures !ContainsId(c, t.id) ==> r.txs == c.txs + [t] && Count(r) == Count(c) + 1
    ensures forall u :: Contains(c, u) ==> Contains(r, u)
  {
    if ContainsId(c, t.id) then c
    else
      IdsUniqueSnoc(c.txs, t);
      Store(c.txs + [t])
  }

  /** The stored transaction with `id`; NotFound when there is none. */
  function GetById(c: Store, id: int): (r: Result<Transaction>)
    requires Valid(c)
    ensures r.NotFound? <==> !ContainsId(c, id)
    ensures r.Ok? ==> Contains(c, r.value) && r.value.id == id
    ensures forall t :: Contains(c, t) && t.id == id ==> r == Ok(t)
  {
    match IndexOf(c.txs, id)
    case None => NotFound
    case Some(k) => Ok(c.txs[k])
  }

  /** Replaces the status of the transaction with `id`, keeping its other
      fields and its place; NotFound when no transaction has that id. */
  function ChangeTransactionStatus(c: Store, id: int, status: Status): (r: Result<Store>)
    requires Valid(c)
    ensures r.NotFound? <==> !ContainsId(c, id)
    ensures r.Ok? ==> Valid(r.value) && Count(r.value) == Count(c)
    ensures r.Ok? ==> forall i :: 0 <= i < Count(c) ==> r.value.txs[i].id == c.txs[i].id
    ensures r.Ok? ==> GetById(r.value, id) == Ok(GetById(c, id).value.(status := status))
    ensures r.Ok? ==> forall other :: other != id ==> GetById(r.value, other) == GetById(c, other)
  {
    match IndexOf(c.txs, id)
    case None => NotFound
    case Some(k) =>
      var updated := c.txs[k := c.txs[k].(status := status)];
      var c' := Store(updated);
      assert Valid(c');
      assert forall i :: 0 <= i < |updated| && i != k ==> updated[i] == c.txs[i];
      assert forall other :: other != id ==> (ContainsId(c', other) <==> ContainsId(c, other));
      Ok(c')
  }

  /** Deletes the transaction with `id`, keeping the others in order;
      NotFound when no transaction has that id. */
  function RemoveTransactionById(c: Store, id: int): (r: Result<Store>)
    requires Valid(c)
    ensures r.NotFound? <==> !ContainsId(c, id)
    ensures r.Ok? ==> Valid(r.value) && Count(r.value) == Count(c) - 1
    ensures r.Ok? ==> !ContainsId(r.value, id)
    ensures r.Ok? ==> forall t :: Contains(r.value, t) <==> Contains(c, t) && t.id != id
    ensures r.Ok? ==> IsSubsequence(r.value.txs, c.txs)
  {
    match IndexOf(c.txs, id)
    case None => NotFound
    case Some(k) =>
      var keep := (t: Transaction) => t.id != id;
      FilterDropsOne(c.txs, keep, k);
      var rest := Filter(c.txs, keep);
      assert forall j :: 0 <= j < |rest| ==> rest[j] in rest;
      Ok(Store(rest))
  }

  /** The transactions of `c` satisfying `p`, sorted by `o`; NotFound when
      none does (the policy of the status, sender and receiver queries). */
  function SortedMatches(c: Store, p: Transaction -> bool, o: Ordering): (r: Result<seq<Transaction>>)
    requires Valid(c)
    ensures r.NotFound? <==> forall t :: Contains(c, t) ==> !p(t)
    ensures r.Ok? ==> Sorted(o, r.value) && IdsUnique(r.value)
    ensures r.Ok? ==> forall t :: t in r.value <==> Contains(c, t) && p(t)
  {
    var matches := Filter(c.txs, p);
    assert |matches| > 0 ==> matches[0] in matches;
    if |matches| == 0 then NotFound
    else
      var sorted := SortBy(o, matches);
      assert forall t :: t in sorted <==> t in multiset(sorted);
      Ok(sorted)
  }

  /** Transactions with `status`, largest amount first; NotFound when none. */
  function GetByTransactionStatus(c: Store, status: Status): (r: Result<seq<Transaction>>)
    requires Valid(c)
    ensures r.NotFound? <==> forall t :: Contains(c, t) ==> t.status != status
    ensures r.Ok? ==> Sorted(AmountDescending, r.value) && IdsUnique(r.value)
    ensures r.Ok? ==> forall t :: t in r.value <==> Contains(c, t) && t.status == status
  {
    SortedMatches(c, (t: Transaction) => t.status == status, AmountDescending)
  }

  /** Senders of the transactions with `status`, one per transaction, in the
      order of `GetByTransactionStatus`; NotFound when none. */
  function GetAllSendersWithTransactionStatus(c: Store, status: Status): (r: Result<seq<string>>)
    requires Valid(c)
    ensures r.NotFound? <==> forall t :: Contains(c, t) ==> t.status != status
    ensures var q := GetByTransactionStatus(c, status);
      r.Ok? ==> (q.Ok? && |r.value| == |q.value|
                 && forall i :: 0 <= i < |q.value| ==> r.value[i] == q.value[i].from)
    ensures r.Ok? ==> forall name :: name in r.value <==>
      exists t :: Contains(c, t) && t.status == status && t.from == name
  {
    match GetByTransactionStatus(c, status)
    case NotFound => NotFound
    case Ok(ts) =>
      var names := seq(|ts|, i requires 0 <= i < |ts| => ts[i].from);
      assert forall i :: 0 <= i < |ts| ==> ts[i] in ts;
      Ok(names)
  }

  /** Receivers of the transactions with `status`, one per transaction, in the
      order of `GetByTransactionStatus`; NotFound when none. */
  function GetAllReceiversWithTransactionStatus(c: Store, status: Status): (r: Result<seq<string>>)
    requires Valid(c)
    ensures r.NotFound? <==> forall t :: Contains(c, t) ==> t.status != status
    ensures var q := GetByTransactionStatus(c, status);
      r.Ok? ==> (q.Ok? && |r.value| == |q.value|
                 && forall i :: 0 <= i < |q.value| ==> r.value[i] == q.value[i].to)
    ensures r.Ok? ==> forall name :: name in r.value <==>
      exists t :: Contains(c, t) && t.status == status && t.to == name
  {
    match GetByTransactionStatus(c, status)
    case NotFound => NotFound
    case Ok(ts) =>
      var names := seq(|ts|, i requires 0 <= i < |ts| => ts[i].to);
      assert forall i :: 0 <= i < |ts| ==> ts[i] in ts;
      Ok(names)
  }

  /** Transactions with `lo < amount < hi`, in insertion order; empty, not
      an error, when none. */
  function GetAllInAmountRange(c: Store, lo: real, hi: real): (r: seq<Transaction>)
    ensures forall t :: t in r <==> Contains(c, t) && lo < t.amount < hi
    ensures IsSubsequence(r, c.txs)
  {
    Filter(c.txs, (t: Transaction) => lo < t.amount < hi)
  }

  /** Transactions to `receiver` with `lo < amount < hi`, largest amount
      first; NotFound when none. */
  function GetByReceiverAndAmountRange(c: Store, receiver: string, lo: real, hi: real): (r: Result<seq<Transaction>>)
    requires Valid(c)
    ensures r.NotFound? <==> forall t :: Contains(c, t) ==> !(t.to == receiver && lo < t.amount < hi)
    ensures r.Ok? ==> Sorted(AmountDescending, r.value) && IdsUnique(r.value)
    ensures r.Ok? ==> forall t :: t in r.value <==> Contains(c, t) && t.to == receiver && lo < t.amount < hi
  {
    SortedMatches(c, (t: Transaction) => t.to == receiver && lo < t.amount < hi, AmountDescending)
  }

  /** Every transaction, largest amount first and equal amounts by ascending
      id; empty, not an error, for an empty store. */
  function GetAllOrderedByAmountDescendingThenById(c: Store): (r: seq<Transaction>)
    requires Valid(c)
    ensures |r| == Count(c) && forall t :: t in r <==> Contains(c, t)
    ensures forall i, j :: 0 <= i < j < |r| ==>
      r[i].amount > r[j].amount || (r[i].amount == r[j].amount && r[i].id < r[j].id)
  {
    var sorted := SortBy(AmountDescendingThenId, c.txs);
    assert forall t :: t in sorted <==> t in multiset(sorted);
    assert |sorted| == |multiset(sorted)|;
    ThenIdStrict(sorted);
    sorted
  }

  /** Transactions to `receiver`, largest amount first and equal amounts by
      ascending id; NotFound when none. */
  function GetByReceiverOrderedByAmountThenById(c: Store, receiver: string): (r: Result<seq<Transaction>>)
    requires Valid(c)
    ensures r.NotFound? <==> forall t :: Contains(c, t) ==> t.to != receiver
    ensures r.Ok? ==> Sorted(AmountDescendingThenId, r.value) && IdsUnique(r.value)
    ensures r.Ok? ==> forall i, j :: 0 <= i < j < |r.value| ==>
      r.value[i].amount > r.value[j].amount
      || (r.value[i].amount == r.value[j].amount && r.value[i].id < r.value[j].id)
    ensures r.Ok? ==> forall t :: t in r.value <==> Contains(c, t) && t.to == receiver
  {
    var found := SortedMatches(c, (t: Transaction) => t.to == receiver, AmountDescendingThenId);
    if found.Ok? then ThenIdStrict(found.value); found else found
  }

  /** Transactions from `sender`, largest amount first; NotFound when none. */
  function GetBySenderOrderedByAmountDescending(c: Store, sender: string): (r: Result<seq<Transaction>>)
    requires Valid(c)
    ensures r.NotFound? <==> forall t :: Contains(c, t) ==> t.from != sender
    ensures r.Ok? ==> Sorted(AmountDescending, r.value) && IdsUnique(r.value)
    ensures r.Ok? ==> forall t :: t in r.value <==> Contains(c, t) && t.from == sender
  {
    SortedMatches(c, (t: Transaction) => t.from == sender, AmountDescending)
  }

  /** Transactions with `status` and `amount < maxAmount`, in insertion
      order; empty, not an error, when none. */
  function GetByTransactionStatusAndMaximumAmount(c: Store, status: Status, maxAmount: real): (r: seq<Transaction>)
    ensures forall t :: t in r <==> Contains(c, t) && t.status == status && t.amount < maxAmount
    ensures IsSubsequence(r, c.txs)
  {
    Filter(c.txs, (t: Transaction) => t.status == status && t.amount < maxAmount)
  }

  /** Transactions from `sender` with `amount > minAmount`, largest amount
      first; NotFound when none. */
  function GetBySenderAndMinimumAmountDescending(c: Store, sender: string, minAmount: real): (r: Result<seq<Transaction>>)
    requires Valid(c)
    ensures r.NotFound? <==> forall t :: Contains(c, t) ==> !(t.from == sender && t.amount > minAmount)
    ensures r.Ok? ==> Sorted(AmountDescending, r.value) && IdsUnique(r.value)
    ensures r.Ok? ==> forall t :: t in r.value <==> Contains(c, t) && t.from == sender && t.amount > minAmount
  {
    SortedMatches(c, (t: Transaction) => t.from == sender && t.amount > minAmount, AmountDescending)
  }
}
