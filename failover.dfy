/**
 * The failover executor: try an attempt on each candidate in order, return the first success,
 * otherwise fail with the last attempt's error, or with "No printers available" when there was
 * no candidate at all. The attempt is a function of the candidate (an oracle for the device I/O);
 * an attempt that throws is a `Failure` carrying the error's message.
 */
module Failover {
  import opened Wrappers

  const NO_PRINTERS := "No printers available"

  /** The loop as a recursive definition; `lastError` is the error of the latest failed attempt. */
  function Run<C, T>(ids: seq<C>, attempt: C -> Result<T, string>, lastError: Option<string>): (r: Result<T, string>)
    ensures r.Success? <==> exists i :: 0 <= i < |ids| && attempt(ids[i]).Success?
    ensures r.Success? ==> exists i :: 0 <= i < |ids| && attempt(ids[i]) == r
    decreases |ids|
  {
    if ids == [] then Failure(lastError.GetOr(NO_PRINTERS))
    else match attempt(ids[0])
      case Success(v) => Success(v)
      case Failure(e) =>
        assert forall i :: 0 < i < |ids| ==> ids[i] == ids[1..][i - 1];
        Run(ids[1..], attempt, Some(e))
  }

  /**
   * The outcome of `withFailover(ids, attempt)`: it succeeds exactly when some candidate's attempt
   * succeeds, with the value of one of them, and fails with NO_PRINTERS on an empty list.
   */
  function Failover<C, T>(ids: seq<C>, attempt: C -> Result<T, string>): (r: Result<T, string>)
    ensures r.Success? <==> exists i :: 0 <= i < |ids| && attempt(ids[i]).Success?
    ensures r.Success? ==> exists i :: 0 <= i < |ids| && attempt(ids[i]) == r
    ensures ids == [] ==> r == Failure(NO_PRINTERS)
  {
    Run(ids, attempt, None)
  }

  /** The candidates that `withFailover` attempts, in the order it attempts them. */
  function Attempted<C, T>(ids: seq<C>, attempt: C -> Result<T, string>): (tried: seq<C>)
    ensures |tried| <= |ids| && tried == ids[..|tried|]
    ensures forall j :: 0 <= j < |tried| - 1 ==> attempt(tried[j]).Failure?
    ensures |tried| < |ids| ==> tried != [] && attempt(tried[|tried| - 1]).Success?
    decreases |ids|
  {
    if ids == [] then []
    else if attempt(ids[0]).Success? then [ids[0]]
    else [ids[0]] + Attempted(ids[1..], attempt)
  }

  /**
   * `withFailover`. `tried` lists the candidates passed to `attempt`, in call order.
   * The attempts are made strictly in list order, each at most once, and the loop stops at the
   * first success, whose value is returned unchanged; when all fail, every candidate was tried
   * and the error is the last one's, or NO_PRINTERS for an empty list.
   */
  method WithFailover<C, T>(ids: seq<C>, attempt: C -> Result<T, string>) returns (r: Result<T, string>, tried: seq<C>)
    ensures r == Failover(ids, attempt) && tried == Attempted(ids, attempt)
    ensures |tried| <= |ids| && tried == ids[..|tried|]
    ensures forall j :: 0 <= j < |tried| - 1 ==> attempt(tried[j]).Failure?
    ensures r.Success? ==> tried != [] && r == attempt(tried[|tried| - 1])
    ensures r.Failure? ==> tried == ids
    ensures r.Failure? && ids == [] ==> r.error == NO_PRINTERS
    ensures r.Failure? && ids != [] ==> r == attempt(ids[|ids| - 1])
  {
    var lastError: Option<string> := None;
    tried := [];
    var i := 0;
    r := Failure(NO_PRINTERS);
    var done := false;
    while i < |ids| && !done
      invariant 0 <= i <= |ids|
      invariant !done ==> tried == ids[..i]
      invariant !done ==> forall j :: 0 <= j < i ==> attempt(ids[j]).Failure?
      invariant !done ==> lastError == if i == 0 then None else Some(attempt(ids[i - 1]).error)
      invariant !done ==> Failover(ids, attempt) == Run(ids[i..], attempt, lastError)
      invariant done ==> r == Failover(ids, attempt) && tried == Attempted(ids, attempt)
      decreases |ids| - i, if done then 0 else 1
    {
      tried := tried + [ids[i]];
      var outcome := attempt(ids[i]);
      if outcome.Success? {
        r := outcome;
        done := true;
        FirstSuccessWins(ids, attempt, i);
      } else {
        lastError := Some(outcome.error);
        assert ids[..i] + [ids[i]] == ids[..i + 1];
        assert ids[i..][1..] == ids[i + 1..];
        i := i + 1;
      }
    }
    if !done {
      assert ids[i..] == [];
      r := Failure(lastError.GetOr(NO_PRINTERS));
      AllFail(ids, attempt);
      assert ids[..i] == ids;
    }
    FailoverFacts(ids, attempt);
  }

  /** What the outcome and the attempted list say about each other. */
  lemma FailoverFacts<C, T>(ids: seq<C>, attempt: C -> Result<T, string>)
    ensures var r, tried := Failover(ids, attempt), Attempted(ids, attempt);
      && (r.Success? ==> tried != [] && r == attempt(tried[|tried| - 1]))
      && (r.Failure? ==> tried == ids)
      && (r.Failure? && ids == [] ==> r.error == NO_PRINTERS)
      && (r.Failure? && ids != [] ==> r == attempt(ids[|ids| - 1]))
  {
    var tried := Attempted(ids, attempt);
    if |tried| < |ids| {
      var k := |tried| - 1;
      assert ids[k] == tried[k];
      assert forall j :: 0 <= j < k ==> ids[j] == tried[j];
      FirstSuccessWins(ids, attempt, k);
    } else {
      assert tried == ids;
      if exists k :: 0 <= k < |ids| && attempt(ids[k]).Success? {
        var k :| 0 <= k < |ids| && attempt(ids[k]).Success?;
        assert k == |ids| - 1;
        assert forall j :: 0 <= j < k ==> attempt(tried[j]).Failure?;
        FirstSuccessWins(ids, attempt, k);
      } else {
        AllFail(ids, attempt);
      }
    }
  }

  lemma {:induction false} RunFirstSuccess<C, T>(ids: seq<C>, attempt: C -> Result<T, string>, lastError: Option<string>, k: nat)
    requires k < |ids| && attempt(ids[k]).Success?
    requires forall j :: 0 <= j < k ==> attempt(ids[j]).Failure?
    ensures Run(ids, attempt, lastError) == attempt(ids[k])
    ensures Attempted(ids, attempt) == ids[..k + 1]
    decreases k
  {
    if k > 0 {
      RunFirstSuccess(ids[1..], attempt, Some(attempt(ids[0]).error), k - 1);
      assert [ids[0]] + ids[1..][..k] == ids[..k + 1];
    }
  }

  /** If candidates 0..k-1 fail and candidate k succeeds, the result is k's and exactly k+1 attempts are made, in order. */
  lemma FirstSuccessWins<C, T>(ids: seq<C>, attempt: C -> Result<T, string>, k: nat)
    requires k < |ids| && attempt(ids[k]).Success?
    requires forall j :: 0 <= j < k ==> attempt(ids[j]).Failure?
    ensures Failover(ids, attempt) == attempt(ids[k])
    ensures Attempted(ids, attempt) == ids[..k + 1]
  {
    RunFirstSuccess(ids, attempt, None, k);
  }

  lemma {:induction false} RunAllFail<C, T>(ids: seq<C>, attempt: C -> Result<T, string>, lastError: Option<string>)
    requires forall j :: 0 <= j < |ids| ==> attempt(ids[j]).Failure?
    ensures Attempted(ids, attempt) == ids
    ensures ids == [] ==> Run(ids, attempt, lastError) == Failure(lastError.GetOr(NO_PRINTERS))
    ensures ids != [] ==> Run(ids, attempt, lastError) == attempt(ids[|ids| - 1])
    decreases |ids|
  {
    if ids != [] {
      RunAllFail(ids[1..], attempt, Some(attempt(ids[0]).error));
    }
  }

  /** When every attempt fails, all candidates are tried and the error is the last one's, or NO_PRINTERS when there are none. */
  lemma AllFail<C, T>(ids: seq<C>, attempt: C -> Result<T, string>)
    requires forall j :: 0 <= j < |ids| ==> attempt(ids[j]).Failure?
    ensures Attempted(ids, attempt) == ids
    ensures ids == [] ==> Failover(ids, attempt) == Failure(NO_PRINTERS)
    ensures ids != [] ==> Failover(ids, attempt) == attempt(ids[|ids| - 1])
  {
    RunAllFail(ids, attempt, None);
  }

  /** A candidate whose attempt fails is skipped: with more candidates behind it, the outcome is theirs alone. */
  lemma FailedHeadSkipped<C, T>(ids: seq<C>, attempt: C -> Result<T, string>)
    requires |ids| >= 2 && attempt(ids[0]).Failure?
    ensures Failover(ids, attempt) == Failover(ids[1..], attempt)
    ensures Attempted(ids, attempt) == [ids[0]] + Attempted(ids[1..], attempt)
  {
    var rest := ids[1..];
    assert rest[0] == ids[1] && rest[1..] == ids[2..];
    assert Run(ids, attempt, None) == Run(rest, attempt, Some(attempt(ids[0]).error));
  }
}
