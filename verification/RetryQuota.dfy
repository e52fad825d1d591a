/** The token bucket shared by all bucket handles of a client: `src/client/mod.rs`. */
module RetryQuota {
  import opened Wire
  import opened RetryPolicy

  const CAPACITY: nat := 500
  const TRANSIENT_COST: nat := 14
  const THROTTLING_COST: nat := 5

  function CostOf(classification: Classification): Option<nat> {
    match classification
    case Throttled => Some(THROTTLING_COST)
    case Retryable => Some(TRANSIENT_COST)
    case Never => None
  }

  /** The tokens left by a successful `acquire`. */
  function Take(tokens: nat, classification: Classification): Option<nat> {
    match CostOf(classification)
    case None => None
    case Some(cost) => if tokens >= cost then Some(tokens - cost) else None
  }

  /** `replenish_after_success`. */
  function Restore(tokens: nat, amount: nat): nat {
    Min(tokens + amount, CAPACITY)
  }

  function SuccessCredit(lastRetryCost: Option<nat>): nat {
    match lastRetryCost
    case None => 1
    case Some(cost) => cost
  }

  /** The atomic counter. */
  class Quota {
    var tokens: nat

    constructor ()
      ensures tokens == CAPACITY
    {
      tokens := CAPACITY;
    }

    /** `acquire`: one atomic update. */
    method Acquire(classification: Classification) returns (permit: Permit?)
      modifies this
      ensures permit == null <==> Take(old(tokens), classification).None?
      ensures permit == null ==> tokens == old(tokens)
      ensures permit != null ==>
                && fresh(permit) && permit.quota == this && !permit.committed
                && CostOf(classification) == Some(permit.cost)
                && tokens == old(tokens) - permit.cost
    {
      var cost;
      match classification {
        case Throttled => cost := THROTTLING_COST;
        case Retryable => cost := TRANSIENT_COST;
        case Never => return null;
      }
      if tokens < cost {
        return null;
      }
      tokens := tokens - cost;
      permit := new Permit(this, cost);
    }

    /** `replenish_after_success`. */
    method ReplenishAfterSuccess(lastRetryCost: Option<nat>)
      modifies this
      ensures tokens == Restore(old(tokens), SuccessCredit(lastRetryCost))
    {
      var restored := if lastRetryCost.Some? then lastRetryCost.value else 1;
      tokens := if tokens + restored < CAPACITY then tokens + restored else CAPACITY;
    }
  }

  class Permit {
    const quota: Quota
    const cost: nat
    var committed: bool

    constructor (quota: Quota, cost: nat)
      ensures this.quota == quota && this.cost == cost && !committed
    {
      this.quota, this.cost, committed := quota, cost, false;
    }

    /** `commit`; the permit is consumed, and then dropped as committed. */
    method Commit() returns (paid: nat)
      modifies this
      ensures committed && paid == cost
    {
      committed := true;
      paid := cost;
    }

    /** `Drop`: an uncommitted permit gives its tokens back. */
    method Drop()
      modifies quota
      ensures quota.tokens == if committed then old(quota.tokens) else Restore(old(quota.tokens), cost)
    {
      if !committed {
        quota.ReplenishAfterSuccess(Some(cost));
      }
    }
  }

  // ----- the numbers -----------------------------------------------------------------------------

  /** The bucket after n retries of one class and nothing else. */
  function TakeTimes(tokens: nat, classification: Classification, n: nat): Option<nat> {
    if n == 0 then Some(tokens)
    else
      match TakeTimes(tokens, classification, n - 1)
      case None => None
      case Some(left) => Take(left, classification)
  }

  lemma {:induction false} TakeTimesMeaning(tokens: nat, classification: Classification, n: nat)
    requires classification != Never
    ensures var cost := if classification == Throttled then 5 else 14;
            TakeTimes(tokens, classification, n) == if n * cost <= tokens then Some(tokens - n * cost) else None
  {
    if n > 0 {
      TakeTimesMeaning(tokens, classification, n - 1);
    }
  }

  /** A fresh bucket pays for exactly 35 transient or 100 throttled retries, and for no other error. */
  lemma FreshBucketPaysFor(n: nat)
    ensures TakeTimes(500, Retryable, n).Some? <==> n <= 35
    ensures TakeTimes(500, Throttled, n).Some? <==> n <= 100
    ensures Take(n, Never) == None
  {
    TakeTimesMeaning(500, Retryable, n);
    TakeTimesMeaning(500, Throttled, n);
  }

  /** Success restores the cost of the last retry, or one token, and never more than 500 in all. */
  lemma SuccessRestores(tokens: nat, lastRetryCost: Option<nat>)
    ensures Restore(tokens, SuccessCredit(lastRetryCost)) ==
            Min(tokens + (if lastRetryCost.Some? then lastRetryCost.value else 1), 500)
    ensures CAPACITY == 500
  {
  }
}
