# HLS playlist downloader: a verified model of its core

The program is a small web server (`cmd/main.go`). A client posts the URL of an
HLS media playlist (an `.m3u8` file). The server fetches it, copies it to
`downloads/<uuid>/main.m3u8`, remembers a job record under the UUID in a global
map, and redirects the client to `/status?download=<uuid>`. Polling that
address runs the whole download inside the request:

- **Pass 1** scans the saved playlist. It checks every `#EXT-X-VERSION` line
  (only version 3 is accepted). It counts the `#EXTINF` lines in a 16-bit
  unsigned counter. It stops at the first line that is exactly `#EXT-X-ENDLIST`.
- **Pass 2** allocates that many slots. It reads the lines two at a time and
  stores the second line of a pair in the next slot when the first line is an
  `#EXTINF` tag.
- **Download loop.** Each non-empty slot is turned into a URL and fetched to
  `<index>.ts`, and the progress count is updated. On success the record is
  returned as JSON with status `DOWNLOADED`.

The model has five modules:

- `Common` (`common.dfy`): the job record, the status strings and every failure.
  Go runtime panics are failures too, because the server's recovery middleware
  turns them into an error response.
- `Playlist` (`playlist.dfy`): both passes.
  - Each pass is an imperative method: `ScanManifest` over the lines, and
    `FillSlots` filling an `array<string>`.
  - Each method is proved equal to a reference function (`ScanResult`,
    `Slots(Extracted(..), ..)`), and the lemmas are about those functions.
- `Locator` (`locator.dfy`): the segment URL rule.
- `Orchestrator` (`orchestrator.dfy`): the download loop.
  - The method `RunDownloads` is proved equal to the recursive function `Run`.
  - The network and the disk are a per-slot oracle saying which I/O step
    fails.
- `JobStore` (`jobstore.dfy`): the job table.
  - It is a class over a `map` with the two handlers as methods.
  - `StatusReply` composes the reference functions into the reply of the
    polling handler.

Some behaviour of the code differs from how the program is usually described.
The model follows the code in each case:

- **No failed state.** There is no `FAILED` status. A failed chunk ends the
  request with an error, and the stored record keeps `READY_TO_DOWNLOAD`. The
  handler works on a copy of the record and never writes it back.
- **Relative references** are joined to the full manifest URL plus `/`, not to
  its directory.
- **Pass-2 pairing.** Pass 2 reuses pass 1's scanner after rewinding the
  file. That scanner keeps its buffered bytes and its end-of-file state.
  - **When pass 2 re-reads the file from its first line** (as when the file
    ends with `#EXT-X-ENDLIST` and a newline), it pairs lines from that first
    line. A playlist whose first line is `#EXT-X-VERSION:3`, followed by
    tag/URI pairs, therefore extracts nothing: its slots stay empty and the job
    still reports `DOWNLOADED`.
  - **When pass 1 reaches the end of the file** (no terminator, or a terminator
    without a trailing newline), pass 2 reads no lines at all. Every slot stays
    empty and the job reports `DOWNLOADED`.
- **Short references panic.** Behind an `#EXTM3U` header, when pass 2 re-reads
  the file from its first line, the pairs line up. But a four-character
  reference such as `a.ts` makes the five-character slice panic.
  `ExampleManifestReply`, `HeaderedManifestReply` and `ExhaustedScannerReply`
  state these outcomes.

## Model

| member | source | states |
|---|---|---|
| Playlist.ScanManifest | cmd/main.go:166-185 | The scan loop returns exactly `ScanResult(lines)`: the first version failure before the terminator, or the wrapped number of `#EXTINF` lines before it |
| Playlist.VersionLine | cmd/main.go:170-175 | A bare `#EXT-X-VERSION` line panics on the slice from index 15. Tag, separator and version is accepted exactly when the version is "3", and otherwise rejected with that line |
| Playlist.EndListIsPlain | cmd/main.go:170-184 | The terminator line is neither a version line nor a segment tag, so the checks before the `break` leave it alone |
| Playlist.EndIndex | cmd/main.go:178-180 | The index where pass 1 stops is within the lines. No earlier line is the terminator. The line there is the terminator unless the input ran out |
| Playlist.FirstFaultMeaning | cmd/main.go:168-176 | The first-fault search fails exactly when some line fails the version check, and then with the failure of the earliest such line |
| Playlist.ScanResultMeaning | cmd/main.go:166-185 | Pass 1 accepts exactly when no line before the terminator fails the version check. Otherwise it returns the failure of the first such line. An accepted count is below 65536 |
| Playlist.ScanIgnoresTail | cmd/main.go:178-180 | Nothing after the first terminator affects pass 1 |
| Playlist.RepeatedTagsWrap | cmd/main.go:166-183 | n segment-tag lines count as n mod 65536: the `uint16` counter wraps |
| Playlist.FillSlots | cmd/main.go:189-204 | The slot array has `count` entries. It holds the extracted references in order, then blanks. The overflow flag (the out-of-range panic) is raised exactly when there are more references than slots |
| Playlist.ExtractedNonEmpty | cmd/main.go:197-200 | No extracted reference is empty: an empty line after a tag is skipped |
| Playlist.ExtractedAtMostTags | cmd/main.go:192-203 | Pass 2 extracts at most one reference per segment tag in the file |
| Playlist.SameLinesFit | cmd/main.go:166-204 | If pass 2 reads the same lines, no tag follows the terminator and the counter did not wrap, then the references fit their slots |
| Playlist.TagAfterEndOverflows | cmd/main.go:178-203 | In the playlist `#EXT-X-ENDLIST`, "", `#EXTINF:10,`, `x.ts`, read by both passes, pass 1 counts 0 and pass 2 extracts `x.ts`, so the slots overflow |
| Playlist.BlankSlots | cmd/main.go:189 | A slot list with no references holds only blanks |
| Playlist.SlotsHoldReferences | cmd/main.go:189-204 | Without overflow, the non-empty slots are exactly the extracted references in order, so the loop visits nothing else |
| Playlist.ExampleScans | cmd/main.go:166-185 | Pass 1 counts two segments in the example playlist, with or without an `#EXTM3U` header |
| Playlist.ExampleExtracts | cmd/main.go:191-204 | Pass 2 extracts nothing from the example playlist, because its pairs are off by one. Behind a header it extracts both references |
| Locator.Resolve | cmd/main.go:214-221 | A reference starting with "http" is used as it is. Any other reference of at least five characters is joined to the manifest URL with "/". A shorter one panics on the slice |
| Locator.ResolveIdempotent | cmd/main.go:214-221 | For an http manifest URL, every resolved address starts with "http", and resolving it again changes nothing |
| Locator.ResolveEndsWithReference | cmd/main.go:217-221 | A resolved address always ends with the reference |
| Locator.JoinExamples | cmd/main.go:217-221 | The join is to the manifest URL itself. An https reference is kept as it is. "a.ts" panics |
| Orchestrator.RunDownloads | cmd/main.go:209-246 | The download loop returns exactly the outcome of the reference run `Run` from slot 0. The sequence of values it assigns to the progress count is exactly `Assigned` from slot 0 |
| Orchestrator.RunProgress | cmd/main.go:209-244 | A run changes only the status and the progress count. The count only grows and stays within the slot list. A failure happens at a non-empty slot past the count |
| Orchestrator.RunStatus | cmd/main.go:223-246 | A finished run reads DOWNLOADED. An aborted run keeps its status or reads DOWNLOADING. DOWNLOADING is set only when some slot is non-empty |
| Orchestrator.RunFinishesIff | cmd/main.go:209-246 | A run finishes exactly when every non-empty slot resolves and its fetch, file creation and copy all succeed |
| Orchestrator.RunFinishedProgress | cmd/main.go:243 | After a finished run, every non-empty slot lies below the progress count. The count is unchanged or one past a non-empty slot |
| Orchestrator.RunAllEmpty | cmd/main.go:209-212 | With only empty slots the run goes straight to DOWNLOADED and changes nothing else |
| Orchestrator.RunStopsAtFailure | cmd/main.go:225-241 | Slots after the failing one are never fetched: the oracle's answers for them do not matter |
| Orchestrator.RunProgressSlot | cmd/main.go:209-241 | An aborted run fails at a slot within the list, at or after where it started |
| Orchestrator.AssignedIncreasing | cmd/main.go:243 | The values assigned to the progress count increase strictly, lie within the slot range, and the last one is the final count |
| Orchestrator.AssignedEverySlot | cmd/main.go:209-244 | When every slot is filled and succeeds, the count takes every value from 1 to the number of slots, in order |
| JobStore.LookupFinds | cmd/main.go:148-153 | In a well-formed table, the empty-URL test fails exactly for stored ids, and a stored record is still as created |
| JobStore.StatusReplyOk | cmd/main.go:142-248 | A successful poll means the manifest passed pass 1 and the total equals the slot count. The non-empty slots are the extracted references, all of them downloaded. The status is DOWNLOADED and the identity fields are the stored ones |
| JobStore.StatusReplyOkIff | cmd/main.go:142-248 | A poll succeeds exactly when the id is given and stored, the manifest opens and passes pass 1, the references fit, and every filled slot resolves and downloads |
| JobStore.ExampleManifestReply | cmd/main.go:142-248 | Polling the example playlist gives DOWNLOADED, two slots, both empty, and nothing downloaded |
| JobStore.HeaderedManifestReply | cmd/main.go:209-221 | Polling the example behind a header panics on "a.ts" before anything is fetched |
| JobStore.ExhaustedScannerReply | cmd/main.go:162-204 | When pass 1 exhausts the shared scanner, pass 2 reads no lines. Polling the headered example then gives DOWNLOADED with two empty slots instead of the panic |
| JobStore.JobTable.constructor | cmd/main.go:70 | The job table starts empty |
| JobStore.JobTable.Create | cmd/main.go:97-135 | Creating a job fails with the first failing check, in the handler's order, and leaves the table alone. Otherwise it stores a READY_TO_DOWNLOAD record with the URL, the id and `main.m3u8` under the id, and returns the id |
| JobStore.JobTable.Status | cmd/main.go:142-248 | Polling returns `StatusReply` for the stored record, and leaves the table unchanged |

## Left out

- The web framework is not modelled. This covers the routes, templates, static files, the index and 404 pages, logging, CORS and gzip. The recovery middleware is modelled only as panics becoming failures.
- Response details are not modelled: HTTP status codes, the `Location` headers, the JSON encoding and the log output.
- Network and file I/O are oracles. `ManifestIo` says which steps succeed when a job is created. `Transfer` says the same per slot, and `readable` whether the manifest copy opens. No bytes are modelled. Like the source, a non-2xx HTTP response counts as a successful fetch.
- UUID generation is not modelled: the id is a parameter of `Create`.
- The line splitting of the Go scanner is not modelled. The lines are given as a sequence, so the scanner's carriage-return handling and its 64 KiB line limit are left out.
- Playlist.FillSlots: the lines pass 2 reads are a separate input. Which lines the scanner delivers after the file is rewound depends on the scanner's buffering, which is library behaviour.
- Playlist.FillSlots: reports the out-of-range write as an `overflow` result instead of panicking mid-loop. The polling handler turns it into the panic failure.
- Strings are sequences of characters in which each character stands for one byte of the source's string. So a multi-byte UTF-8 character is several characters here, and the slices `[15..]`, `[..4]` and `[..5]` count bytes as Go's do. All strings written out in the model are ASCII.
- The `int` fields of the record are `nat`, because the values they hold are never negative and never near 64 bits.
- Orchestrator.RunDownloads: the `Aborted` record is returned only so that lemmas can state it. The handler discards it, and the stored record is never updated.
- Concurrency is not modelled. Concurrent requests share the unsynchronised map, and deferred closes run at handler exit.
