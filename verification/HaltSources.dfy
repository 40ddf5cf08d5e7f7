/** The two sources of a halt: the operator's interrupt and the token budget. */
module HaltSources {

  /** internal/interrupt/state.go: a two-stage interrupt machine. */
  class State {
    var inTurn: bool
    var tripped: bool

    constructor ()
      ensures !inTurn && !tripped
    {
      inTurn, tripped := false, false;
    }

    method BeginTurn()
      modifies this
      ensures inTurn && !tripped
    {
      tripped := false;
      inTurn := true;
    }

    method EndTurn()
      modifies this
      ensures !inTurn && tripped == old(tripped)
    {
      inTurn := false;
    }

    /** Reports whether the process should be killed at once. */
    method Trip() returns (kill: bool)
      modifies this
      ensures inTurn == old(inTurn)
      ensures tripped == (old(tripped) || old(inTurn))
      ensures !kill <==> !old(tripped) && tripped
      ensures !old(inTurn) ==> kill
    {
      if !inTurn {
        return true;
      }
      if tripped {
        return true;
      }
      tripped := true;
      return false;
    }
  }

  datatype Usage = Usage(prompt: nat, completion: nat, total: nat)

  /** What a model call is billed: its total when it reports one, else the sum of the parts. */
  function UsageTokens(u: Usage): nat {
    if u.total > 0 then u.total else u.prompt + u.completion
  }

  function TotalTokens(usages: seq<Usage>): nat {
    if usages == [] then 0 else TotalTokens(usages[..|usages| - 1]) + UsageTokens(usages[|usages| - 1])
  }

  /** Further model calls never bring the total down, so a spent budget stays spent. */
  lemma {:induction false} TotalGrows(usages: seq<Usage>, more: seq<Usage>)
    ensures TotalTokens(usages) <= TotalTokens(usages + more)
  {
    if more == [] {
      assert usages + more == usages;
    } else {
      var n := |more| - 1;
      TotalGrows(usages, more[..n]);
      assert (usages + more)[..|usages| + n] == usages + more[..n];
    }
  }

  /** internal/metrics/metrics.go: the billed tokens and their ceiling; 0 is unbounded. */
  class Accumulator {
    const maxTokens: int
    var billed: nat
    /** The model calls billed so far. */
    ghost var usages: seq<Usage>

    constructor (maxTokens: int)
      ensures this.maxTokens == maxTokens && usages == [] && Valid()
    {
      this.maxTokens := maxTokens;
      billed, usages := 0, [];
    }

    ghost predicate Valid()
      reads this
    {
      billed == TotalTokens(usages)
    }

    predicate Spent()
      reads this
    {
      maxTokens > 0 && billed >= maxTokens
    }

    method AddUsage(u: Usage)
      modifies this
      ensures usages == old(usages) + [u] && (old(Valid()) ==> Valid())
      ensures billed == old(billed) + UsageTokens(u)
      ensures old(Spent()) ==> Spent()
    {
      billed := billed + UsageTokens(u);
      usages := usages + [u];
      assert usages[..|usages| - 1] == old(usages);
    }

    /** The budget is exceeded when all the model calls so far together reach a positive ceiling. */
    method BudgetExceeded() returns (spent: bool)
      ensures spent == Spent()
      ensures Valid() ==> (spent <==> maxTokens > 0 && TotalTokens(usages) >= maxTokens)
      ensures Valid() && spent ==> forall more :: TotalTokens(usages + more) >= maxTokens
    {
      spent := maxTokens > 0 && billed >= maxTokens;
      forall more: seq<Usage>
        ensures TotalTokens(usages) <= TotalTokens(usages + more)
      {
        TotalGrows(usages, more);
      }
    }
  }
}
