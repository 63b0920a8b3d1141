/**
 * Records, status values and failures shared by the downloader's components.
 *
 * The Go program keeps one `Download` struct per job; a struct is a value in
 * Go (the job map stores copies), so it is a datatype here.
 */
module Common {

  /** The `DownloadStatus` constants: the status field is a plain string. */
  const ReadyToDownload := "READY_TO_DOWNLOAD"
  const Downloading := "DOWNLOADING"
  const Downloaded := "DOWNLOADED"

  /** Name of the manifest copy inside a job's folder. */
  const ManifestFile := "main.m3u8"

  /** One download job: the fields of the source's `Download` struct. */
  datatype Download = Download(
    url: string,
    status: string,
    sourceFile: string,
    id: string,
    totalFiles: nat,
    downloadedFiles: nat,
    tsFiles: seq<string>)

  /** The zero value Go yields for a key missing from the job map. */
  const Missing := Download("", "", "", "", 0, 0, [])

  /** The runtime panics the handlers can hit: a slice or index out of range. */
  datatype Panic =
    | VersionSlice(line: string)   // `text[15:]` on a version line of 14 characters
    | SlotIndex(index: nat)        // `fileList[i]` with `i == count`
    | UrlSlice(ref: string)        // `fileString[:4]` or `fileString[:5]` on a short reference

  /** Every way a handler can stop short of its success response. */
  datatype Failure =
    // creating a job
    | NoUrlProvided
    | ManifestFetchFailed
    | FolderCreateFailed
    | ManifestCreateFailed
    | ManifestCopyFailed
    // polling (and driving) a job
    | NoDownloadProvided
    | NotFound
    | ManifestOpenFailed
    | UnsupportedVersion(line: string)
    | ChunkFetchFailed(slot: nat)
    | ChunkCreateFailed(slot: nat)
    | ChunkCopyFailed(slot: nat)
    | Panicked(panic: Panic)

  datatype Option<T> = None | Some(value: T)

  datatype Result<T> = Ok(value: T) | Err(failure: Failure)

  /**
   * `len(s) >= len(p) && s[:len(p)] == p`, the guard-then-slice idiom the
   * source uses for every tag test.
   */
  predicate HasPrefix(s: string, p: string) {
    |p| <= |s| && s[..|p|] == p
  }
}
