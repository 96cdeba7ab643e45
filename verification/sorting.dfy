/** Sorting query results by amount, descending, with an optional id tie-break. */
module Sorting {
  import opened Transactions

  /** Places `x` into `s` in front of the first element it may precede,
      so into a sorted `s` it goes before the elements it is tied with. */
  function Insert(o: Ordering, x: Transaction, s: seq<Transaction>): (r: seq<Transaction>)
    ensures multiset(r) == multiset(s) + multiset{x}
  {
    if |s| == 0 || Precedes(o, x, s[0]) then [x] + s
    else
      assert s == [s[0]] + s[1..];
      [s[0]] + Insert(o, x, s[1..])
  }

  /** Inserting into a sorted sequence keeps it sorted. */
  lemma {:induction false} InsertSorted(o: Ordering, x: Transaction, s: seq<Transaction>)
    requires Sorted(o, s)
    ensures Sorted(o, Insert(o, x, s))
  {
    if |s| > 0 && !Precedes(o, x, s[0]) {
      var head, tail := s[0], s[1..];
      assert s == [head] + tail;
      InsertSorted(o, x, tail);
      var rest := Insert(o, x, tail);
      forall j | 0 <= j < |rest|
        ensures Precedes(o, head, rest[j])
      {
        assert rest[j] in multiset(rest);
        if rest[j] != x {
          assert rest[j] in multiset(tail);
        }
      }
      assert Insert(o, x, s) == [head] + rest;
    }
  }

  /** Inserting a transaction with a fresh id keeps ids unique. */
  lemma {:induction false} InsertIdsUnique(o: Ordering, x: Transaction, s: seq<Transaction>)
    requires IdsUnique(s) && !HasId(s, x.id)
    ensures IdsUnique(Insert(o, x, s))
  {
    if |s| == 0 || Precedes(o, x, s[0]) {
      IdsUniqueCons(x, s);
    } else {
      var head, tail := s[0], s[1..];
      assert s == [head] + tail;
      IdsUniqueCons(head, tail);
      assert !HasId(tail, x.id) by {
        HasIdOfMembers(tail, s, x.id);
      }
      InsertIdsUnique(o, x, tail);
      var rest := Insert(o, x, tail);
      assert !HasId(rest, head.id) by {
        assert !HasId([x] + tail, head.id) by {
          assert x.id != head.id;
          IdsUniqueCons(x, tail);
        }
        assert forall t :: t in rest ==> t in multiset(rest);
        HasIdOfMembers(rest, [x] + tail, head.id);
      }
      IdsUniqueCons(head, rest);
    }
  }

  /** Stable insertion sort of `xs` by `o`. */
  function SortBy(o: Ordering, xs: seq<Transaction>): (r: seq<Transaction>)
    ensures Sorted(o, r)
    ensures multiset(r) == multiset(xs)
    ensures IdsUnique(xs) ==> IdsUnique(r)
  {
    if |xs| == 0 then []
    else
      var x, tail := xs[0], xs[1..];
      assert xs == [x] + tail;
      var rest := SortBy(o, tail);
      IdsUniqueCons(x, tail);
      assert forall t :: t in rest ==> t in multiset(tail);
      HasIdOfMembers(rest, tail, x.id);
      InsertSorted(o, x, rest);
      if IdsUnique(xs) then
        InsertIdsUnique(o, x, rest);
        Insert(o, x, rest)
      else
        Insert(o, x, rest)
  }

  /** Dropping the first element keeps a sequence sorted, duplicate-free and tie-free. */
  lemma TailKeeps(o: Ordering, a: seq<Transaction>)
    requires |a| > 0
    ensures Sorted(o, a) ==> Sorted(o, a[1..])
    ensures IdsUnique(a) ==> IdsUnique(a[1..])
    ensures NoTies(o, a) ==> NoTies(o, a[1..])
  {
    var ta := a[1..];
    assert forall i :: 0 <= i < |ta| ==> ta[i] == a[i + 1];
  }

  /** Two sorted, duplicate-free, tie-free arrangements of the same
      transactions start with the same transaction. */
  lemma SameHead(o: Ordering, a: seq<Transaction>, b: seq<Transaction>)
    requires Sorted(o, a) && Sorted(o, b) && |a| > 0 && |b| > 0
    requires forall t :: t in a <==> t in b
    requires NoTies(o, a)
    ensures a[0] == b[0]
  {
    assert a[0] in a && b[0] in b;
    var k :| 0 <= k < |b| && b[k] == a[0];
    var m :| 0 <= m < |a| && a[m] == b[0];
    assert Precedes(o, b[0], b[k]) && Precedes(o, a[0], a[m]);
  }

  /** After a common, unrepeated first element, the remaining elements agree too. */
  lemma SameTailMembers(a: seq<Transaction>, b: seq<Transaction>)
    requires |a| > 0 && |b| > 0 && a[0] == b[0]
    requires IdsUnique(a) && IdsUnique(b)
    requires forall t :: t in a <==> t in b
    ensures forall t :: t in a[1..] <==> t in b[1..]
  {
    var ta, tb := a[1..], b[1..];
    forall t
      ensures t in ta <==> t in tb
    {
      if t in ta {
        var i :| 0 <= i < |ta| && ta[i] == t;
        assert a[i + 1] == t && a[i + 1].id != a[0].id;
        assert t in b && t != b[0];
        assert b == [b[0]] + tb;
      }
      if t in tb {
        var i :| 0 <= i < |tb| && tb[i] == t;
        assert b[i + 1] == t && b[i + 1].id != b[0].id;
        assert t in a && t != a[0];
        assert a == [a[0]] + ta;
      }
    }
  }

  /** Two arrangements of the same transactions, each sorted by `o` and free
      of duplicates, are identical when `o` leaves no ties among them: the
      sorted answer does not depend on how it was computed. */
  lemma {:induction false} SortedUnique(o: Ordering, a: seq<Transaction>, b: seq<Transaction>)
    requires Sorted(o, a) && Sorted(o, b)
    requires IdsUnique(a) && IdsUnique(b)
    requires forall t :: t in a <==> t in b
    requires NoTies(o, a)
    ensures a == b
  {
    assert |a| > 0 ==> a[0] in a;
    assert |b| > 0 ==> b[0] in b;
    if |a| > 0 {
      SameHead(o, a, b);
      SameTailMembers(a, b);
      TailKeeps(o, a);
      TailKeeps(o, b);
      SortedUnique(o, a[1..], b[1..]);
      assert a == [a[0]] + a[1..] && b == [b[0]] + b[1..];
    }
  }
}
