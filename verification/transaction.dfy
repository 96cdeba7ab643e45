/** Transaction records, the id-uniqueness invariant and the two orders the
    ledger's queries sort by. */
module Transactions {

  datatype Status = Successful | Failed | Unauthorized | Aborted

  /** An immutable transfer record; equality is equality of all five fields. */
  datatype Transaction = Transaction(id: int, status: Status, from: string, to: string, amount: real)

  /** No id occurs at two positions of `xs` (so no transaction occurs twice either). */
  predicate IdsUnique(xs: seq<Transaction>) {
    forall i, j :: 0 <= i < |xs| && 0 <= j < |xs| && xs[i].id == xs[j].id ==> i == j
  }

  /** Some transaction of `xs` carries `id`. */
  predicate HasId(xs: seq<Transaction>, id: int) {
    exists k :: 0 <= k < |xs| && xs[k].id == id
  }

  /** Prepending keeps ids unique exactly when the new id is not already used. */
  lemma IdsUniqueCons(x: Transaction, xs: seq<Transaction>)
    ensures IdsUnique([x] + xs) <==> !HasId(xs, x.id) && IdsUnique(xs)
  {
    var ys := [x] + xs;
    if IdsUnique(ys) {
      forall i, j | 0 <= i < |xs| && 0 <= j < |xs| && xs[i].id == xs[j].id
        ensures i == j
      {
        assert ys[i + 1] == xs[i] && ys[j + 1] == xs[j];
      }
      forall k | 0 <= k < |xs|
        ensures xs[k].id != x.id
      {
        assert ys[k + 1] == xs[k] && ys[0] == x;
      }
    }
    if !HasId(xs, x.id) && IdsUnique(xs) {
      forall i, j | 0 <= i < |ys| && 0 <= j < |ys| && ys[i].id == ys[j].id
        ensures i == j
      {
        if i > 0 && j > 0 {
          assert ys[i] == xs[i - 1] && ys[j] == xs[j - 1];
        }
      }
    }
  }

  /** An id absent from `ys` is absent from any sequence drawn from `ys`'s elements. */
  lemma HasIdOfMembers(xs: seq<Transaction>, ys: seq<Transaction>, id: int)
    requires forall t :: t in xs ==> t in ys
    ensures HasId(xs, id) ==> HasId(ys, id)
  {
    if HasId(xs, id) {
      var k :| 0 <= k < |xs| && xs[k].id == id;
      assert xs[k] in ys;
      var j :| 0 <= j < |ys| && ys[j] == xs[k];
    }
  }

  /** Appending keeps ids unique when the new id is not already used. */
  lemma IdsUniqueSnoc(xs: seq<Transaction>, x: Transaction)
    requires IdsUnique(xs) && !HasId(xs, x.id)
    ensures IdsUnique(xs + [x])
  {
  }

  /** The two sort orders of the ledger's queries. */
  datatype Ordering =
    | AmountDescending        // larger amount first; equal amounts in either order
    | AmountDescendingThenId  // larger amount first; equal amounts by ascending id

  /** `a` may stand before `b` in a sequence sorted by `o` (a total preorder). */
  predicate Precedes(o: Ordering, a: Transaction, b: Transaction) {
    match o
    case AmountDescending => a.amount >= b.amount
    case AmountDescendingThenId => a.amount > b.amount || (a.amount == b.amount && a.id <= b.id)
  }

  /** Every earlier element of `xs` may precede every later one. */
  predicate Sorted(o: Ordering, xs: seq<Transaction>) {
    forall i, j :: 0 <= i < j < |xs| ==> Precedes(o, xs[i], xs[j])
  }

  /** `a` and `b` have the same sort key under `o`, so `o` alone cannot order them. */
  predicate Tied(o: Ordering, a: Transaction, b: Transaction) {
    Precedes(o, a, b) && Precedes(o, b, a)
  }

  /** No two different transactions of `xs` share a sort key under `o`. */
  predicate NoTies(o: Ordering, xs: seq<Transaction>) {
    forall i, j :: 0 <= i < |xs| && 0 <= j < |xs| && xs[i] != xs[j] ==> !Tied(o, xs[i], xs[j])
  }

  /** Under the id tie-break, unique ids leave no ties, and a sorted sequence
      is strictly ordered: larger amount first, equal amounts by strictly smaller id. */
  lemma ThenIdStrict(xs: seq<Transaction>)
    requires IdsUnique(xs)
    ensures NoTies(AmountDescendingThenId, xs)
    ensures Sorted(AmountDescendingThenId, xs) ==>
      forall i, j :: 0 <= i < j < |xs| ==>
        xs[i].amount > xs[j].amount || (xs[i].amount == xs[j].amount && xs[i].id < xs[j].id)
  {
  }
}
