/** Order-preserving selection from the insertion-ordered store. */
module Selection {
  import opened Transactions

  /** `sub` is obtained from `xs` by deleting elements and keeping the rest
      in their original order (matched greedily from the front). */
  predicate IsSubsequence(sub: seq<Transaction>, xs: seq<Transaction>)
    decreases |xs|
  {
    if |sub| == 0 then true
    else if |xs| == 0 then false
    else if sub[0] == xs[0] then IsSubsequence(sub[1..], xs[1..])
    else IsSubsequence(sub, xs[1..])
  }

  /** The transactions of `xs` satisfying `p`, in the order of `xs`. */
  function Filter(xs: seq<Transaction>, p: Transaction -> bool): (r: seq<Transaction>)
    ensures forall t :: t in r <==> t in xs && p(t)
    ensures IsSubsequence(r, xs)
    ensures IdsUnique(xs) ==> IdsUnique(r)
    ensures (forall t :: t in xs ==> p(t)) ==> r == xs
  {
    if |xs| == 0 then []
    else
      var x, rest := xs[0], Filter(xs[1..], p);
      assert xs == [x] + xs[1..];
      IdsUniqueCons(x, xs[1..]);
      IdsUniqueCons(x, rest);
      HasIdOfMembers(rest, xs[1..], x.id);
      if p(x) then [x] + rest
      else
        assert rest == [] || rest[0] in rest;
        rest
  }

  /** Every element of a subsequence is an element of the whole. */
  lemma {:induction false} SubsequenceMembers(sub: seq<Transaction>, xs: seq<Transaction>)
    requires IsSubsequence(sub, xs)
    ensures forall t :: t in sub ==> t in xs
    decreases |xs|
  {
    if |sub| > 0 {
      if sub[0] == xs[0] {
        SubsequenceMembers(sub[1..], xs[1..]);
        assert sub == [sub[0]] + sub[1..];
      } else {
        SubsequenceMembers(sub, xs[1..]);
      }
    }
  }

  /** A list is a subsequence of itself extended at the end. */
  lemma {:induction false} PrefixIsSubsequence(xs: seq<Transaction>, ys: seq<Transaction>)
    ensures IsSubsequence(xs, xs + ys)
  {
    if |xs| > 0 {
      assert (xs + ys)[0] == xs[0] && (xs + ys)[1..] == xs[1..] + ys;
      PrefixIsSubsequence(xs[1..], ys);
    }
  }

  /** Over a store with unique ids, the filter is the ONLY subsequence whose
      members are exactly the matching transactions: a stream filter of the
      insertion-ordered list and `Filter` agree. */
  lemma {:induction false} FilterUnique(xs: seq<Transaction>, p: Transaction -> bool, r: seq<Transaction>)
    requires IdsUnique(xs)
    requires IsSubsequence(r, xs)
    requires forall t :: t in r <==> t in xs && p(t)
    ensures r == Filter(xs, p)
    decreases |xs|
  {
    assert |r| > 0 ==> r[0] in r;
    if |xs| > 0 {
      var x, tail := xs[0], xs[1..];
      assert xs == [x] + tail;
      IdsUniqueCons(x, tail);
      assert forall k :: 0 <= k < |tail| ==> tail[k].id != x.id;
      assert x !in tail;
      if p(x) {
        assert x in r;
        assert r[0] == x by {
          if r[0] != x {
            SubsequenceMembers(r, tail);
          }
        }
        var rt := r[1..];
        assert r == [x] + rt;
        SubsequenceMembers(rt, tail);
        FilterUnique(tail, p, rt);
      } else {
        assert IsSubsequence(r, tail) by {
          if |r| > 0 {
            assert r[0] in r;
          }
        }
        SubsequenceMembers(r, tail);
        FilterUnique(tail, p, r);
      }
    }
  }

  /** Dropping the one element that fails `p` shortens the sequence by exactly one. */
  lemma {:induction false} FilterDropsOne(xs: seq<Transaction>, p: Transaction -> bool, k: int)
    requires 0 <= k < |xs| && !p(xs[k])
    requires forall i :: 0 <= i < |xs| && i != k ==> p(xs[i])
    ensures |Filter(xs, p)| == |xs| - 1
  {
    if k > 0 {
      FilterDropsOne(xs[1..], p, k - 1);
    } else {
      var tail := xs[1..];
      forall t | t in tail
        ensures p(t)
      {
        var i :| 0 <= i < |tail| && tail[i] == t;
        assert xs[i + 1] == t;
      }
    }
  }
}
