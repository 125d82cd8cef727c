/**
 * Batch-job status handling: the poll loop of `submit_klusterai_job`, the
 * `save_results` branch, and the notebook helper `monitor_job_status`. The
 * statuses the provider reports on successive polls are given as a finite
 * sequence; running out of it means the source would still be polling.
 */
module BatchStatus {
  import opened Wrappers
  import opened Text

  /** The bot's test: the lower-cased status is completed, failed or canceled. */
  predicate IsTerminal(status: string) {
    Lower(status) in {"completed", "failed", "canceled"}
  }

  /** The notebook helper's test, also used by `save_results` and the bot's `main`. */
  predicate IsCompleted(status: string) {
    Lower(status) == "completed"
  }

  /** The first position where `stop` holds, if any. */
  function FirstWhere(observed: seq<string>, stop: string -> bool): (r: Option<nat>)
    ensures r.Some? ==> r.value < |observed| && stop(observed[r.value])
    ensures r.Some? ==> forall j :: 0 <= j < r.value ==> !stop(observed[j])
    ensures r.None? ==> forall j :: 0 <= j < |observed| ==> !stop(observed[j])
  {
    if observed == [] then None
    else if stop(observed[0]) then Some(0)
    else match FirstWhere(observed[1..], stop)
         case None => None
         case Some(k) => Some(k + 1)
  }

  /**
   * The `while True` loop of `submit_klusterai_job`: poll, leave on the first
   * terminal status. `None` means no terminal status was observed.
   */
  method AwaitBatch(observed: seq<string>) returns (stop: Option<nat>)
    ensures stop.Some? ==> stop.value < |observed| && IsTerminal(observed[stop.value])
    ensures stop.Some? ==> forall j :: 0 <= j < stop.value ==> !IsTerminal(observed[j])
    ensures stop.None? ==> forall j :: 0 <= j < |observed| ==> !IsTerminal(observed[j])
    ensures stop == FirstWhere(observed, IsTerminal)
  {
    var polls := 0;
    while polls < |observed|
      invariant polls <= |observed|
      invariant forall j :: 0 <= j < polls ==> !IsTerminal(observed[j])
    {
      var status := observed[polls];
      if Lower(status) in ["completed", "failed", "canceled"] {
        FirstWhereIsFirst(observed, IsTerminal, polls);
        return Some(polls);
      }
      polls := polls + 1;
    }
    FirstWhereIsFirst(observed, IsTerminal, polls);
    return None;
  }

  /**
   * `monitor_job_status`: the loop runs while the `all_completed` flag is
   * false, and the flag stays true only for a status that is completed. A
   * failed or canceled job keeps it polling.
   */
  method MonitorJobStatus(observed: seq<string>) returns (stop: Option<nat>)
    ensures stop.Some? ==> stop.value < |observed| && IsCompleted(observed[stop.value])
    ensures stop.Some? ==> forall j :: 0 <= j < stop.value ==> !IsCompleted(observed[j])
    ensures stop.None? ==> forall j :: 0 <= j < |observed| ==> !IsCompleted(observed[j])
    ensures stop == FirstWhere(observed, IsCompleted)
  {
    var allCompleted := false;
    var polls := 0;
    while !allCompleted && polls < |observed|
      invariant polls <= |observed|
      invariant allCompleted ==> 0 < polls && IsCompleted(observed[polls - 1])
      invariant forall j :: 0 <= j < (if allCompleted then polls - 1 else polls) ==> !IsCompleted(observed[j])
    {
      allCompleted := true;
      var updatedJob := observed[polls];
      if Lower(updatedJob) != "completed" {
        allCompleted := false;
      }
      polls := polls + 1;
    }
    if allCompleted {
      stop := Some(polls - 1);
    } else {
      stop := None;
    }
    FirstWhereIsFirst(observed, IsCompleted, if allCompleted then polls - 1 else polls);
  }

  /** The position characterised by `FirstWhere`'s contract is the one it returns. */
  lemma {:induction false} FirstWhereIsFirst(observed: seq<string>, stop: string -> bool, k: nat)
    requires k <= |observed|
    requires forall j :: 0 <= j < k ==> !stop(observed[j])
    ensures k < |observed| && stop(observed[k]) ==> FirstWhere(observed, stop) == Some(k)
    ensures k == |observed| ==> FirstWhere(observed, stop) == None
  {
    if 0 < k && observed != [] {
      FirstWhereIsFirst(observed[1..], stop, k - 1);
    }
  }

  /** Every status that ends the notebook helper's loop also ends the bot's. */
  lemma CompletedIsTerminal(status: string)
    ensures IsCompleted(status) ==> IsTerminal(status)
  {
  }

  /**
   * The notebook helper never stops before the bot would: whenever it stops,
   * the bot has stopped at that poll or earlier.
   */
  lemma {:induction false} MonitorStopsNoEarlier(observed: seq<string>)
    ensures FirstWhere(observed, IsCompleted).Some? ==>
              FirstWhere(observed, IsTerminal).Some?
              && FirstWhere(observed, IsTerminal).value <= FirstWhere(observed, IsCompleted).value
  {
    if observed != [] && !IsTerminal(observed[0]) {
      MonitorStopsNoEarlier(observed[1..]);
    }
  }

  /** A failed or canceled job ends the bot's loop at once but not the notebook helper's. */
  lemma FailedStopsOnlyTheBot()
    ensures FirstWhere(["FAILED", "completed"], IsTerminal) == Some(0)
    ensures FirstWhere(["FAILED", "completed"], IsCompleted) == Some(1)
    ensures FirstWhere(["canceled"], IsCompleted) == None
  {
    assert Lower("FAILED") == "failed";
    assert ["FAILED", "completed"][1..] == ["completed"];
    assert Lower("completed") == "completed";
    assert Lower("canceled") == "canceled" != "completed";
  }

  /**
   * A job whose every observed status is failed or canceled never ends the
   * notebook helper's loop, while the bot's loop ends at the first poll.
   */
  lemma {:induction false} FailedOrCanceledStopsOnlyTheBot(observed: seq<string>)
    requires forall j :: 0 <= j < |observed| ==> Lower(observed[j]) in {"failed", "canceled"}
    ensures FirstWhere(observed, IsCompleted) == None
    ensures observed != [] ==> FirstWhere(observed, IsTerminal) == Some(0)
  {
    if observed != [] {
      assert !IsCompleted(observed[0]);
      FailedOrCanceledStopsOnlyTheBot(observed[1..]);
    }
  }

  /** What `save_results` does: whether it reports success, and the file it writes. */
  datatype Saved = Saved(ok: bool, resultsFile: Option<seq<bv8>>)

  /**
   * `save_results`: the output file's content is written, and True returned,
   * only for a completed status; any other status writes nothing.
   */
  function SaveResults(status: string, output: seq<bv8>): (r: Saved)
    ensures r.ok <==> IsCompleted(status)
    ensures r.ok <==> r.resultsFile.Some?
    ensures r.resultsFile.Some? ==> r.resultsFile.value == output
  {
    if Lower(status) == "completed" then Saved(true, Some(output)) else Saved(false, None)
  }

  /**
   * After the bot's loop ends, results are saved exactly when the job
   * completed: a job that ended failed or canceled is terminal but saves nothing.
   */
  lemma SavedOnlyWhenCompleted(observed: seq<string>, output: seq<bv8>)
    requires FirstWhere(observed, IsTerminal).Some?
    ensures var status := observed[FirstWhere(observed, IsTerminal).value];
            SaveResults(status, output).ok <==> Lower(status) == "completed"
    ensures var status := observed[FirstWhere(observed, IsTerminal).value];
            !SaveResults(status, output).ok <==> Lower(status) in {"failed", "canceled"}
  {
  }
}
