/** A requested resource and the outstanding weight of a list of them. */
module Resources {

  /** One typed resource request of an outpost. `kind` is the resource type
      ("medicine", "food", "weapons", ...); `unfulfilledAmount` is what is still
      owed. A value: an outpost's resource vector holds copies. */
  datatype Resource = Resource(kind: string, unfulfilledAmount: real)

  /** Sum of the outstanding amounts, in stored order. Non-negative amounts
      add up to a non-negative weight. */
  function Weight(rs: seq<Resource>): (r: real)
    ensures NonNegative(rs) ==> r >= 0.0
  {
    if rs == [] then 0.0
    else
      assert NonNegative(rs) ==> NonNegative(rs[1..]) by {
        assert forall k :: 0 <= k < |rs| - 1 ==> rs[1..][k] == rs[k + 1];
      }
      rs[0].unfulfilledAmount + Weight(rs[1..])
  }

  /** The well-formedness the allocator assumes of its inputs. */
  predicate NonNegative(rs: seq<Resource>)
  {
    forall k :: 0 <= k < |rs| ==> rs[k].unfulfilledAmount >= 0.0
  }

  /** `after` is `before` with amounts lowered (never raised, never below zero)
      and nothing else changed. */
  predicate Reduced(after: seq<Resource>, before: seq<Resource>)
  {
    |after| == |before| &&
    forall k :: 0 <= k < |after| ==>
      after[k].kind == before[k].kind &&
      0.0 <= after[k].unfulfilledAmount <= before[k].unfulfilledAmount
  }

  /** The total of a concatenation is the sum of the totals. */
  lemma {:induction false} WeightAppend(a: seq<Resource>, b: seq<Resource>)
    ensures Weight(a + b) == Weight(a) + Weight(b)
    decreases |a|
  {
    if a == [] {
      assert a + b == b;
    } else {
      assert (a + b)[1..] == a[1..] + b;
      WeightAppend(a[1..], b);
    }
  }

  /** With non-negative amounts, a site is "satisfied" (weight at most zero)
      exactly when every one of its resources is at zero. */
  lemma {:induction false} SatisfiedIffAllZero(rs: seq<Resource>)
    requires NonNegative(rs)
    ensures Weight(rs) <= 0.0 <==> forall k :: 0 <= k < |rs| ==> rs[k].unfulfilledAmount == 0.0
    decreases |rs|
  {
    if rs != [] {
      SatisfiedIffAllZero(rs[1..]);
      assert forall k :: 1 <= k < |rs| ==> rs[k] == rs[1..][k - 1];
    }
  }

  /** Lowering amounts never raises the weight. */
  lemma {:induction false} ReducedWeight(after: seq<Resource>, before: seq<Resource>)
    requires Reduced(after, before)
    ensures 0.0 <= Weight(after) <= Weight(before)
    decreases |after|
  {
    if after != [] {
      assert Reduced(after[1..], before[1..]) by {
        forall k | 0 <= k < |after| - 1
          ensures after[1..][k] == after[k + 1] && before[1..][k] == before[k + 1]
        {
        }
      }
      ReducedWeight(after[1..], before[1..]);
    }
  }
}
