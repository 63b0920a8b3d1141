/**
 * The download loop of the status handler. It walks the slot list in index
 * order, skips empty slots, resolves each reference, marks the job
 * DOWNLOADING, fetches the segment, writes it to `<i>.ts` and then sets the
 * progress count to `i + 1`. The first failure ends the handler with an
 * error; after the last slot the status becomes DOWNLOADED. The network and
 * the disk are an oracle that says, per slot, which of the three I/O steps
 * succeed.
 */
module Orchestrator {
  import opened Common
  import opened Locator

  /** What the network and the disk do for one slot: fetch, file creation, copy. */
  datatype Transfer = Transfer(fetched: bool, created: bool, copied: bool)

  /** The error the handler returns for a slot's I/O, checked in the source's order. */
  function TransferFailure(t: Transfer, slot: nat): Option<Failure> {
    if !t.fetched then Some(ChunkFetchFailed(slot))
    else if !t.created then Some(ChunkCreateFailed(slot))
    else if !t.copied then Some(ChunkCopyFailed(slot))
    else None
  }

  /**
   * How a run ends. `Aborted` records the slot being processed and the job
   * record as it stood when the handler returned its error; the handler
   * itself discards that record.
   */
  datatype RunOutcome =
    | Finished(response: Download)
    | Aborted(failure: Failure, slot: nat, response: Download)

  /** Slot `j` goes through: its reference resolves and all three I/O steps succeed. */
  predicate SlotSucceeds(url: string, files: seq<string>, j: nat, transfer: nat -> Transfer)
    requires j < |files|
  {
    Resolve(url, files[j]).Ok? && TransferFailure(transfer(j), j).None?
  }

  /** The loop from slot `from` on, as a reference definition. */
  function Run(resp: Download, files: seq<string>, from: nat, transfer: nat -> Transfer): RunOutcome
    decreases |files| - from
  {
    if from >= |files| then Finished(resp.(status := Downloaded))
    else if files[from] == "" then Run(resp, files, from + 1, transfer)
    else match Resolve(resp.url, files[from])
      case Err(f) => Aborted(f, from, resp)
      case Ok(_) =>
        var fetching := resp.(status := Downloading);
        match TransferFailure(transfer(from), from)
        case Some(f) => Aborted(f, from, fetching)
        case None => Run(fetching.(downloadedFiles := from + 1), files, from + 1, transfer)
  }

  /** The download loop itself, step by step on a local copy of the record. */
  method RunDownloads(response: Download, fileList: seq<string>, transfer: nat -> Transfer)
    returns (outcome: RunOutcome, ghost trace: seq<nat>)
    ensures outcome == Run(response, fileList, 0, transfer)
    ensures trace == Assigned(response.url, fileList, 0, transfer)
  {
    var resp := response;
    var i := 0;
    trace := [];
    while i < |fileList|
      invariant i <= |fileList|
      invariant resp.url == response.url
      invariant Run(resp, fileList, i, transfer) == Run(response, fileList, 0, transfer)
      invariant Assigned(response.url, fileList, 0, transfer) == trace + Assigned(response.url, fileList, i, transfer)
    {
      var fileString := fileList[i];
      if fileString == "" {
        i := i + 1;
        continue;
      }
      var requestUrl := Resolve(resp.url, fileString);
      if requestUrl.Err? {
        outcome := Aborted(requestUrl.failure, i, resp);
        return;
      }
      resp := resp.(status := Downloading);
      var step := transfer(i);
      if !step.fetched {
        outcome := Aborted(ChunkFetchFailed(i), i, resp);
        return;
      }
      if !step.created {
        outcome := Aborted(ChunkCreateFailed(i), i, resp);
        return;
      }
      if !step.copied {
        outcome := Aborted(ChunkCopyFailed(i), i, resp);
        return;
      }
      resp := resp.(downloadedFiles := i + 1);
      AppendAssigned(trace, i + 1, Assigned(response.url, fileList, i + 1, transfer));
      trace := trace + [i + 1];
      i := i + 1;
    }
    resp := resp.(status := Downloaded);
    outcome := Finished(resp);
  }

  /**
   * The run changes only the status and the progress count, and the progress
   * count only grows, stays within the slot list, and on a failure at slot
   * `k` stays at most `k`.
   */
  lemma {:induction false} RunProgress(resp: Download, files: seq<string>, from: nat, transfer: nat -> Transfer)
    requires resp.downloadedFiles <= from <= |files|
    ensures var o := Run(resp, files, from, transfer);
            && o.response == resp.(status := o.response.status, downloadedFiles := o.response.downloadedFiles)
            && resp.downloadedFiles <= o.response.downloadedFiles <= |files|
            && (o.Aborted? ==> from <= o.slot < |files| && files[o.slot] != ""
                               && o.response.downloadedFiles <= o.slot)
    decreases |files| - from
  {
    if from < |files| {
      if files[from] == "" {
        RunProgress(resp, files, from + 1, transfer);
      } else if SlotSucceeds(resp.url, files, from, transfer) {
        RunProgress(resp.(status := Downloading, downloadedFiles := from + 1), files, from + 1, transfer);
      }
    }
  }

  /**
   * A finished run is DOWNLOADED; an aborted one keeps the old status or
   * DOWNLOADING, so it never reads DOWNLOADED unless it started so; and
   * DOWNLOADING is only ever set when some slot is non-empty.
   */
  lemma {:induction false} RunStatus(resp: Download, files: seq<string>, from: nat, transfer: nat -> Transfer)
    ensures var o := Run(resp, files, from, transfer);
            && (o.Finished? ==> o.response.status == Downloaded)
            && (o.Aborted? ==> o.response.status == resp.status || o.response.status == Downloading)
            && (o.response.status == Downloading && resp.status != Downloading ==>
                  exists j :: from <= j < |files| && files[j] != "")
    decreases |files| - from
  {
    if from < |files| {
      if files[from] == "" {
        RunStatus(resp, files, from + 1, transfer);
      } else if SlotSucceeds(resp.url, files, from, transfer) {
        RunStatus(resp.(status := Downloading, downloadedFiles := from + 1), files, from + 1, transfer);
      }
    }
  }

  /** A run finishes exactly when every non-empty slot from `from` on goes through. */
  lemma {:induction false} RunFinishesIff(resp: Download, files: seq<string>, from: nat, transfer: nat -> Transfer)
    ensures Run(resp, files, from, transfer).Finished?
        <==> forall j :: from <= j < |files| && files[j] != "" ==> SlotSucceeds(resp.url, files, j, transfer)
    decreases |files| - from
  {
    if from < |files| {
      if files[from] == "" {
        RunFinishesIff(resp, files, from + 1, transfer);
      } else if SlotSucceeds(resp.url, files, from, transfer) {
        RunFinishesIff(resp.(status := Downloading, downloadedFiles := from + 1), files, from + 1, transfer);
      }
    }
  }

  /**
   * After a finished run the progress count is one past the last non-empty
   * slot, or unchanged when every slot was empty.
   */
  lemma {:induction false} RunFinishedProgress(resp: Download, files: seq<string>, from: nat, transfer: nat -> Transfer)
    requires resp.downloadedFiles <= from
    ensures var o := Run(resp, files, from, transfer);
            var d := o.response.downloadedFiles;
            o.Finished? ==>
              && (forall j :: from <= j < |files| && files[j] != "" ==> j < d)
              && (d == resp.downloadedFiles || (from < d <= |files| && files[d - 1] != ""))
    decreases |files| - from
  {
    if from < |files| {
      if files[from] == "" {
        RunFinishedProgress(resp, files, from + 1, transfer);
      } else if SlotSucceeds(resp.url, files, from, transfer) {
        RunFinishedProgress(resp.(status := Downloading, downloadedFiles := from + 1), files, from + 1, transfer);
      }
    }
  }

  /** With no non-empty slot the status goes straight to DOWNLOADED and nothing else changes. */
  lemma {:induction false} RunAllEmpty(resp: Download, files: seq<string>, from: nat, transfer: nat -> Transfer)
    requires forall j :: from <= j < |files| ==> files[j] == ""
    ensures Run(resp, files, from, transfer) == Finished(resp.(status := Downloaded))
    decreases |files| - from
  {
    if from < |files| {
      RunAllEmpty(resp, files, from + 1, transfer);
    }
  }

  /**
   * Stop on failure: what the oracle would do for slots after the failing
   * one does not matter, because they are never fetched.
   */
  lemma {:induction false} RunStopsAtFailure(resp: Download, files: seq<string>, from: nat,
                                            t1: nat -> Transfer, t2: nat -> Transfer)
    requires Run(resp, files, from, t1).Aborted?
    requires forall j :: from <= j <= Run(resp, files, from, t1).slot ==> t1(j) == t2(j)
    ensures Run(resp, files, from, t2) == Run(resp, files, from, t1)
    decreases |files| - from
  {
    if from < |files| {
      if files[from] == "" {
        RunStopsAtFailure(resp, files, from + 1, t1, t2);
      } else if SlotSucceeds(resp.url, files, from, t1) {
        RunProgressSlot(resp.(status := Downloading, downloadedFiles := from + 1), files, from + 1, t1);
        RunStopsAtFailure(resp.(status := Downloading, downloadedFiles := from + 1), files, from + 1, t1, t2);
      }
    }
  }

  /** An aborting run fails at a slot at or after where it starts. */
  lemma {:induction false} RunProgressSlot(resp: Download, files: seq<string>, from: nat, transfer: nat -> Transfer)
    requires Run(resp, files, from, transfer).Aborted?
    ensures from <= Run(resp, files, from, transfer).slot < |files|
    decreases |files| - from
  {
    if from < |files| {
      if files[from] == "" {
        RunProgressSlot(resp, files, from + 1, transfer);
      } else if SlotSucceeds(resp.url, files, from, transfer) {
        RunProgressSlot(resp.(status := Downloading, downloadedFiles := from + 1), files, from + 1, transfer);
      }
    }
  }

  /** The values the loop assigns to the progress count, in assignment order. */
  function Assigned(url: string, files: seq<string>, from: nat, transfer: nat -> Transfer): seq<nat>
    decreases |files| - from
  {
    if from >= |files| then []
    else if files[from] == "" then Assigned(url, files, from + 1, transfer)
    else if !SlotSucceeds(url, files, from, transfer) then []
    else [from + 1] + Assigned(url, files, from + 1, transfer)
  }

  lemma AppendAssigned(done: seq<nat>, v: nat, rest: seq<nat>)
    ensures done + ([v] + rest) == (done + [v]) + rest
  {
  }

  /**
   * The progress count is assigned strictly increasing values, each above
   * `from` and at most the number of slots, and it ends at the last of them.
   */
  lemma {:induction false} AssignedIncreasing(resp: Download, files: seq<string>, from: nat, transfer: nat -> Transfer)
    ensures var s := Assigned(resp.url, files, from, transfer);
            && (forall a :: 0 <= a < |s| ==> from < s[a] <= |files|)
            && (forall a, b :: 0 <= a < b < |s| ==> s[a] < s[b])
            && Run(resp, files, from, transfer).response.downloadedFiles
               == if s == [] then resp.downloadedFiles else s[|s| - 1]
    decreases |files| - from
  {
    if from < |files| {
      if files[from] == "" {
        AssignedIncreasing(resp, files, from + 1, transfer);
      } else if SlotSucceeds(resp.url, files, from, transfer) {
        AssignedIncreasing(resp.(status := Downloading, downloadedFiles := from + 1), files, from + 1, transfer);
      }
    }
  }

  /**
   * When every slot is filled and goes through, the progress count takes
   * every value from `from + 1` to the number of slots, once each, in order.
   */
  lemma {:induction false} AssignedEverySlot(url: string, files: seq<string>, from: nat, transfer: nat -> Transfer)
    requires from <= |files|
    requires forall j :: from <= j < |files| ==> files[j] != "" && SlotSucceeds(url, files, j, transfer)
    ensures Assigned(url, files, from, transfer) == seq(|files| - from, a => from + a + 1)
    decreases |files| - from
  {
    if from < |files| {
      assert SlotSucceeds(url, files, from, transfer);
      AssignedEverySlot(url, files, from + 1, transfer);
      CountUpCons(from, |files| - from);
    }
  }

  /** The run of values counting up from `from + 1`, split after its first value. */
  lemma CountUpCons(from: nat, n: nat)
    requires n > 0
    ensures [from + 1] + seq(n - 1, a => from + 1 + a + 1) == seq(n, a => from + a + 1)
  {
  }
}
