/** Waiting for a run to leave its transient states, and the check that it
    ended in success. The service's `runs.get` is replaced by the finite
    sequence of statuses it is observed to return, one per call. */
module Polling {
  import opened Wrappers

  const QUEUED := "queued"
  const IN_PROGRESS := "in_progress"
  const COMPLETED := "completed"
  const RUN_FAILED_PREFIX := "Run ended with status: "

  /** A status for which the driver keeps polling. */
  predicate IsTransient(status: string) {
    status == QUEUED || status == IN_PROGRESS
  }

  /** How the polling ends: with a non-transient status after `gets` calls to
      `runs.get`, or not within the statuses observed (the source would go on
      polling; it has no timeout). */
  datatype PollResult = Settled(status: string, gets: nat) | Unsettled

  /** The first non-transient status among those observed (`[initial] +
      polls`: the status `runs.create` returned, then what successive
      `runs.get` calls return), with the number of `runs.get` calls made to
      reach it. */
  function Settle(initial: string, polls: seq<string>): (r: PollResult)
    ensures r.Settled? ==> r.gets <= |polls| && r.status == ([initial] + polls)[r.gets]
    ensures r.Settled? ==> !IsTransient(r.status)
    ensures r.Settled? ==> forall j :: 0 <= j < r.gets ==> IsTransient(([initial] + polls)[j])
    ensures r.Unsettled? <==> forall j :: 0 <= j <= |polls| ==> IsTransient(([initial] + polls)[j])
    decreases |polls|
  {
    if !IsTransient(initial) then Settled(initial, 0)
    else if polls == [] then Unsettled
    else
      var o := [initial] + polls;
      assert forall j :: 1 <= j <= |polls| ==> o[j] == ([polls[0]] + polls[1..])[j - 1];
      match Settle(polls[0], polls[1..])
      case Settled(s, k) => Settled(s, k + 1)
      case Unsettled => Unsettled
  }

  /** The poll loop: while the run is queued or in progress, fetch its status
      again. On exit the status is neither, unless the observations ran out. */
  method PollRun(initial: string, polls: seq<string>) returns (r: PollResult)
    ensures r == Settle(initial, polls)
  {
    ghost var o := [initial] + polls;
    var status := initial;
    var gets := 0;
    while IsTransient(status) && gets < |polls|
      invariant 0 <= gets <= |polls|
      invariant status == o[gets]
      invariant forall j :: 0 <= j < gets ==> IsTransient(o[j])
      decreases |polls| - gets
    {
      assert o[gets + 1] == polls[gets];
      status := polls[gets];
      gets := gets + 1;
    }
    if IsTransient(status) {
      assert gets == |polls|;
      assert forall j :: 0 <= j <= |polls| ==> IsTransient(o[j]);
      r := Unsettled;
    } else {
      r := Settled(status, gets);
      SettleAt(initial, polls, gets);
    }
  }

  /** The settled status is the first non-transient one observed, whatever
      follows it. */
  lemma {:induction false} SettleAt(initial: string, polls: seq<string>, k: nat)
    requires k <= |polls| && !IsTransient(([initial] + polls)[k])
    requires forall j :: 0 <= j < k ==> IsTransient(([initial] + polls)[j])
    ensures Settle(initial, polls) == Settled(([initial] + polls)[k], k)
    decreases k
  {
    if k > 0 {
      var o := [initial] + polls;
      assert IsTransient(o[0]);
      assert forall j :: 0 <= j < k - 1 ==> o[j + 1] == ([polls[0]] + polls[1..])[j];
      SettleAt(polls[0], polls[1..], k - 1);
    }
  }

  /** The check after polling: `None` when the run completed, otherwise the
      failure message, which ends with the terminal status itself. */
  function CompletionCheck(status: string): (r: Option<string>)
    ensures r.None? <==> status == COMPLETED
    ensures r.Some? ==> |r.value| > |status| && r.value[|r.value| - |status|..] == status
  {
    if status != COMPLETED then Some(RUN_FAILED_PREFIX + status) else None
  }

  /** A run that settled without completing ("failed", "cancelled",
      "expired" or any other non-transient status) fails the request, and the
      failure carries that status. */
  lemma SettledRunFails(initial: string, polls: seq<string>)
    requires Settle(initial, polls).Settled?
    ensures var s := Settle(initial, polls).status;
            CompletionCheck(s).Some? <==> s != COMPLETED && s != QUEUED && s != IN_PROGRESS
  {
  }
}
