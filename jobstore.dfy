/**
 * The job table (the global `responses` map) and the two handlers that use
 * it: creating a job, and polling a job, which also drives its download.
 *
 * The polling handler copies the stored record into a local variable and
 * works on that copy only, so the table never changes after creation: in
 * this model `Status` has no `modifies` clause at all.
 */
module JobStore {
  import opened Common
  import opened Playlist
  import opened Orchestrator

  /** `responses[id]`: the stored record, or Go's zero value when the key is missing. */
  function Lookup(table: map<string, Download>, id: string): Download {
    if id in table then table[id] else Missing
  }

  /** The record the creating handler stores for a new job. */
  function NewRecord(id: string, url: string): Download {
    Download(url, ReadyToDownload, ManifestFile, id, 0, 0, [])
  }

  /** Every stored record is exactly as creation left it, under its own id, with a URL. */
  predicate WellFormed(table: map<string, Download>) {
    forall id :: id in table ==> table[id] == NewRecord(id, table[id].url) && table[id].url != ""
  }

  /**
   * In a well-formed table, the "not found" test on the URL of the looked-up
   * record holds exactly for ids that were never stored, and a found record
   * still reads READY_TO_DOWNLOAD with no progress.
   */
  lemma LookupFinds(table: map<string, Download>, id: string)
    requires WellFormed(table)
    ensures Lookup(table, id).url == "" <==> id !in table
    ensures id in table ==> Lookup(table, id) == NewRecord(id, Lookup(table, id).url)
  {
  }

  /** What the network and the disk do while a job is created. */
  datatype ManifestIo = ManifestIo(fetched: bool, folderMade: bool, fileCreated: bool, copied: bool)

  /** The error the creating handler returns, checked in the source's order. */
  function CreateFailure(url: string, io: ManifestIo): Option<Failure> {
    if url == "" then Some(NoUrlProvided)
    else if !io.fetched then Some(ManifestFetchFailed)
    else if !io.folderMade then Some(FolderCreateFailed)
    else if !io.fileCreated then Some(ManifestCreateFailed)
    else if !io.copied then Some(ManifestCopyFailed)
    else None
  }

  /**
   * The reply of the polling handler for the stored record `stored`, given
   * whether the manifest copy opens, the lines pass 1 reads, the lines pass 2
   * reads and the per-slot I/O oracle.
   */
  function StatusReply(stored: Download, id: string, readable: bool,
                       pass1: seq<string>, pass2: seq<string>, transfer: nat -> Transfer): Result<Download>
  {
    if id == "" then Err(NoDownloadProvided)
    else if stored.url == "" then Err(NotFound)
    else if !readable then Err(ManifestOpenFailed)
    else match ScanResult(pass1)
      case Err(f) => Err(f)
      case Ok(count) =>
        var refs := Extracted(pass2);
        if |refs| > count then Err(Panicked(SlotIndex(count)))
        else
          var slots := Slots(refs, count);
          match Run(stored.(totalFiles := count, tsFiles := slots), slots, 0, transfer)
          case Finished(d) => Ok(d)
          case Aborted(f, _, _) => Err(f)
  }

  /**
   * A successful poll of a freshly created record: the version check passed,
   * the totals agree with the slot list, the non-empty slots are the
   * extracted references in order, every one of them was downloaded, the
   * status is DOWNLOADED and the identity fields are those stored.
   */
  lemma StatusReplyOk(stored: Download, id: string, readable: bool,
                      pass1: seq<string>, pass2: seq<string>, transfer: nat -> Transfer)
    requires stored == NewRecord(stored.id, stored.url)
    requires StatusReply(stored, id, readable, pass1, pass2, transfer).Ok?
    ensures var d := StatusReply(stored, id, readable, pass1, pass2, transfer).value;
            && id != "" && stored.url != "" && readable
            && ScanResult(pass1) == Ok(d.totalFiles)
            && d.totalFiles == |d.tsFiles|
            && NonEmpty(d.tsFiles) == Extracted(pass2)
            && d.status == Downloaded
            && d.downloadedFiles <= d.totalFiles
            && (forall j :: 0 <= j < |d.tsFiles| && d.tsFiles[j] != "" ==> j < d.downloadedFiles)
            && d.url == stored.url && d.id == stored.id && d.sourceFile == ManifestFile
  {
    var count := ScanResult(pass1).value;
    var refs := Extracted(pass2);
    var slots := Slots(refs, count);
    var start := stored.(totalFiles := count, tsFiles := slots);
    RunProgress(start, slots, 0, transfer);
    RunStatus(start, slots, 0, transfer);
    RunFinishedProgress(start, slots, 0, transfer);
    ExtractedNonEmpty(pass2);
    SlotsHoldReferences(refs, count);
  }

  /**
   * A poll succeeds exactly when the request names a stored job whose
   * manifest opens and passes the version check, pass 2 fits its slots, and
   * every filled slot resolves and downloads.
   */
  lemma StatusReplyOkIff(stored: Download, id: string, readable: bool,
                         pass1: seq<string>, pass2: seq<string>, transfer: nat -> Transfer)
    ensures StatusReply(stored, id, readable, pass1, pass2, transfer).Ok?
        <==> && id != "" && stored.url != "" && readable
             && ScanResult(pass1).Ok?
             && |Extracted(pass2)| <= ScanResult(pass1).value
             && var slots := Slots(Extracted(pass2), ScanResult(pass1).value);
                forall j :: 0 <= j < |slots| && slots[j] != "" ==> SlotSucceeds(stored.url, slots, j, transfer)
  {
    if id != "" && stored.url != "" && readable && ScanResult(pass1).Ok? {
      var count := ScanResult(pass1).value;
      var slots := Slots(Extracted(pass2), count);
      RunFinishesIff(stored.(totalFiles := count, tsFiles := slots), slots, 0, transfer);
    }
  }

  /**
   * For the example playlist, when pass 2 re-reads the file from its first
   * line (as when the file ends with the terminator and a newline), the
   * pairing of pass 2 is off by one line (the version line opens the first
   * pair), so no reference is extracted: two empty slots, nothing
   * downloaded, and the job still ends DOWNLOADED.
   */
  lemma ExampleManifestReply(url: string, transfer: nat -> Transfer)
    requires url != ""
    ensures StatusReply(NewRecord("job", url), "job", true, ExampleManifest, ExampleManifest, transfer)
         == Ok(NewRecord("job", url).(status := Downloaded, totalFiles := 2, tsFiles := ["", ""]))
  {
    ExampleScans();
    ExampleExtracts();
    var slots := Slots([], 2);
    assert slots == ["", ""];
    RunAllEmpty(NewRecord("job", url).(totalFiles := 2, tsFiles := slots), slots, 0, transfer);
  }

  /**
   * Behind an `#EXTM3U` header, when pass 2 re-reads the file from its first
   * line, the pairs line up and both references are extracted, but "a.ts"
   * has only four characters, so the URL rule panics before anything is
   * fetched, whatever the network does.
   */
  lemma HeaderedManifestReply(url: string, transfer: nat -> Transfer)
    requires url != ""
    ensures StatusReply(NewRecord("job", url), "job", true, HeaderedManifest, HeaderedManifest, transfer)
         == Err(Panicked(UrlSlice("a.ts")))
  {
    ExampleScans();
    ExampleExtracts();
    var slots := Slots(["a.ts", "b.ts"], 2);
    assert slots == ["a.ts", "b.ts"];
    assert "a.ts"[..4] != Locator.Scheme by {
      assert "a.ts"[..4][0] != Locator.Scheme[0];
    }
  }

  /**
   * When pass 1 reads to the end of the file (no terminator, or a terminator
   * without a trailing newline), the shared scanner is exhausted and pass 2
   * reads no lines: the headered example then ends DOWNLOADED with two empty
   * slots instead of panicking.
   */
  lemma ExhaustedScannerReply(url: string, transfer: nat -> Transfer)
    requires url != ""
    ensures StatusReply(NewRecord("job", url), "job", true, HeaderedManifest, [], transfer)
         == Ok(NewRecord("job", url).(status := Downloaded, totalFiles := 2, tsFiles := ["", ""]))
  {
    ExampleScans();
    var slots := Slots(Extracted([]), 2);
    assert slots == ["", ""];
    RunAllEmpty(NewRecord("job", url).(totalFiles := 2, tsFiles := slots), slots, 0, transfer);
  }

  /** The job table: the source's global map from job id to its record. */
  class JobTable {
    var responses: map<string, Download>

    ghost predicate Valid()
      reads this
    {
      WellFormed(responses)
    }

    constructor ()
      ensures Valid() && responses == map[]
    {
      responses := map[];
    }

    /**
     * The creating handler: rejects an empty URL, fails on the first I/O
     * step that fails, and otherwise stores a fresh READY_TO_DOWNLOAD record
     * under `id` (the generated UUID) and returns that id.
     */
    method Create(url: string, id: string, io: ManifestIo) returns (r: Result<string>)
      requires Valid()
      modifies this
      ensures Valid()
      ensures r == match CreateFailure(url, io) case Some(f) => Err(f) case None => Ok(id)
      ensures r.Ok? ==> responses == old(responses)[id := NewRecord(id, url)]
      ensures r.Err? ==> responses == old(responses)
    {
      if url == "" {
        return Err(NoUrlProvided);
      }
      if !io.fetched {
        return Err(ManifestFetchFailed);
      }
      if !io.folderMade {
        return Err(FolderCreateFailed);
      }
      if !io.fileCreated {
        return Err(ManifestCreateFailed);
      }
      if !io.copied {
        return Err(ManifestCopyFailed);
      }
      var download := NewRecord(id, url);
      responses := responses[id := download];
      return Ok(id);
    }

    /**
     * The polling handler: looks the job up, runs both passes over the
     * manifest, fills the slots and drives the download loop on a local copy
     * of the record, which it returns on success.
     */
    method Status(id: string, readable: bool, pass1: seq<string>, pass2: seq<string>,
                  transfer: nat -> Transfer) returns (r: Result<Download>)
      ensures r == StatusReply(Lookup(responses, id), id, readable, pass1, pass2, transfer)
    {
      if id == "" {
        return Err(NoDownloadProvided);
      }
      var response := Lookup(responses, id);
      if response.url == "" {
        return Err(NotFound);
      }
      if !readable {
        return Err(ManifestOpenFailed);
      }
      var scanned := ScanManifest(pass1);
      if scanned.Err? {
        return Err(scanned.failure);
      }
      var count := scanned.value;
      var fileList, overflow := FillSlots(pass2, count);
      if overflow {
        return Err(Panicked(SlotIndex(count)));
      }
      response := response.(totalFiles := count, tsFiles := fileList[..]);
      var outcome;
      ghost var progress;
      outcome, progress := RunDownloads(response, fileList[..], transfer);
      match outcome {
        case Finished(d) => r := Ok(d);
        case Aborted(f, _, _) => r := Err(f);
      }
    }
  }
}
