# Chunked uploader, modelled in Dafny

The chunked uploader sends a byte range `[start, end)` of a local file to
an HTTP endpoint, one request per chunk. `do_upload` seeks the file to the
start of the range once. Then, for each chunk, it:

- allocates a zero-filled buffer as long as the chunk;
- reads once into it;
- sends the whole buffer with the header `Content-Range: bytes
  {start}-{end}/{range end}`;
- checks that the reply is 200.

The loop stops at the end of the range, after a read that returned fewer
bytes than a chunk (or none), or at the first failure. `main` scans the
command line (`-f`, `-r`, `-c`, `-u`, `-m`, `-fb`, `-h`, `-v`), applies
the defaults and checks the range against the file's length. It then calls
`do_upload`.

The model is in seven modules, one file each:

- `Wrappers`: `Option` and `Result`.
- `Text`: decimal rendering as `format!` prints a `u64`. Decimal parsing as
  `str::parse::<u64>` accepts it: an optional `+`, digits only, a value
  below 2^64. `str::split` at a character, with its inverse `Join`.
- `Http`:
  - request methods (`Method::from_str` accepts a non-empty token);
  - the Content-Range value and its parser;
  - the `Request` and `Reply` values;
  - the class `Client`, whose `log` records every request sent. Its replies
    come from an oracle, `network(k)` being the reply to the k-th request.
- `Source`: the class `SourceFile`, holding the file's bytes and the read
  cursor. Seeking beyond `seekLimit` fails. A read at position p is served
  as the oracle `serve(p)` says: at most `limit` bytes, or an error. It
  never returns more than the buffer or the bytes left in the file.
- `Chunking`: the chunk boundary (`ChunkEnd`) and `Plan`, the chunks the
  loop walks through when every read fills its buffer. The lemmas show
  that, for a positive chunk size, the plan tiles the range, has no
  overlap, has ceil(len / chunk) entries and puts chunk k at k chunks from
  the start. With chunk size 0 it is a single empty chunk.
- `Upload`:
  - `Iteration`, `Loop` and `Upload`, pure functions that specify one
    iteration, the loop and a whole run of `do_upload`;
  - the imperative `DoUpload` and its loop body `UploadChunk`, proved equal
    to `Upload`;
  - lemmas about every run: requests follow the plan, failures and short
    reads end the run, and an all-good run uploads the whole range.
- `Cli`:
  - the argument scan: `Step` for one argument, `ScanFrom` and `Scan` for
    the whole line;
  - the imperative `ParseArgs` loop and its body `ScanArgument`;
  - `Resolve`, the checks made after the scan;
  - `Command`, a whole run of the program, with the imperative
    `RunCommand`.

The model performs no I/O. The network, the file system and the operating
system's read behaviour are parameters (oracles). Each property holds for
every reply, read and failure that meets the conditions stated with it,
such as a successful seek or a positive chunk size.

The Content-Range header is modelled as the code writes it, not as section
14.4 of RFC 9110 defines it. The code writes an exclusive `end` where the
RFC has an inclusive last position. It writes the end of the uploaded range
where the RFC has the length of the whole file. The body of every request
is the whole zero-filled buffer, even when the read returned fewer bytes.

## Model

| member | source | states |
|---|---|---|
| Text.ShowNat | src/main.rs:206-209 | A number printed by `format!` is a non-empty run of decimal digits without a leading zero |
| Text.ShowNatValue | src/main.rs:206-209 | The printed digits denote the number printed |
| Text.ParseU64 | src/main.rs:47-59 | `parse::<u64>` accepts only non-empty strings without '-', and only values below 2^64 |
| Text.ParseU64ShowNat | src/main.rs:47-59 | Every u64, printed with or without a leading '+', parses back to itself |
| Text.Split | src/main.rs:45 | `split('-')` yields one piece more than there are separators, and no piece contains the separator |
| Text.JoinSplit | src/main.rs:45 | Gluing the pieces of a split back together with the separator gives the original string |
| Text.SplitJoin | src/main.rs:45 | Splitting separator-free pieces joined by the separator gives exactly those pieces |
| Text.SplitOnce | src/main.rs:45-46 | A string with exactly one separator splits into two separator-free pieces that are the text before and after it |
| Http.ParseMethod | src/main.rs:88-98 | `-m` accepts a method exactly when its value is a non-empty token, and the method keeps that exact name |
| Http.Format | src/main.rs:206-209 | The Content-Range value is `bytes {start}-{end}/{range end}` and starts with `bytes ` |
| Http.FormatRoundTrip | src/main.rs:206-209 | The header loses nothing: start, exclusive end and total are read back from every formatted value |
| Http.Client.constructor | src/main.rs:186 | A new client has sent nothing |
| Http.Client.Send | src/main.rs:204-211 | Sending appends exactly that request to the log, and the reply is the network's answer to the k-th request |
| Source.ReadCount | src/main.rs:202 | A read returns at most the buffer's length and the bytes left, fills the buffer when the system serves enough and the file has the bytes, and fails exactly when the system reports an error |
| Source.Zeros | src/main.rs:195-200 | The buffer `vec![0; len]` holds `len` zero bytes |
| Source.SourceFile.Seek | src/main.rs:189-191 | Seeking succeeds exactly within the seekable limit, moves the cursor to the position on success and leaves it alone on failure |
| Source.SourceFile.Read | src/main.rs:202 | The read puts the next n file bytes at the front of the buffer, keeps the rest of the buffer, and advances the cursor by n; on error nothing changes |
| Chunking.ChunkEnd | src/main.rs:195-200 | A chunk ends `min(chunk_size, bytes left)` after its start, never beyond the range end, and strictly after its start when the chunk size is positive |
| Chunking.Plan | src/main.rs:193-233 | The chunks the loop visits when every read fills its buffer: from the range start one chunk at a time, the last cut at the range end, a single chunk for chunk size 0; its properties are the Plan lemmas below |
| Chunking.PlanTiles | src/main.rs:193-233 | For a positive chunk size: every chunk lies inside the range, is non-empty and at most one chunk long, and names the range end as total; consecutive chunks touch; every chunk but the last is exactly one chunk long; the first starts at the range start and the last ends at the range end |
| Chunking.PlanBounds | src/main.rs:195-233 | Even with chunk size 0, every chunk lies inside the range, is at most one chunk long, names the range end as total, and the first starts at the range start |
| Chunking.PlanCovers | src/main.rs:193-233 | For a positive chunk size, a position is covered by some chunk exactly when it lies in the range |
| Chunking.PlanAt | src/main.rs:193-233 | For a positive chunk size, chunk k begins at `start + k * chunk_size` and ends at `min(start + (k + 1) * chunk_size, range end)` |
| Chunking.PlanDisjoint | src/main.rs:193-233 | For a positive chunk size, no two chunks overlap: each ends before any later one begins |
| Chunking.PlanCount | src/main.rs:193-233 | For a positive chunk size there are ceil((end - start) / chunk_size) chunks; the last is a full chunk when the chunk size divides the length, the remainder otherwise |
| Chunking.PlanExample | src/main.rs:195-209 | Range (100, 250) with chunk 100 gives `bytes 100-200/250` then `bytes 200-250/250` |
| Upload.ChunkRequest | src/main.rs:195-211 | The request for the chunk at `start`: the job's method and URL, the header `bytes {start}-{end}/{range end}`, and the whole buffer (the bytes read, then zeros) as body |
| Upload.Iteration | src/main.rs:195-233 | The loop goes on only after a 200 reply to a chunk whose read filled a whole, non-empty chunk; the next iteration starts one chunk on, and the request just sent is the one for this chunk |
| Upload.Loop | src/main.rs:193-234 | The `while start < file_end` loop: iterations from `start` until one stops it; what it sends and how it ends are the Loop lemmas below |
| Upload.Upload | src/main.rs:189-191 | A run fails with the seek error exactly when the seek to the range start fails, and then sends nothing and leaves the cursor alone |
| Upload.StopSent | src/main.rs:202-227 | An iteration that ends the run sends nothing more when the read failed, and otherwise exactly the request for its chunk |
| Upload.LoopLastChunk | src/main.rs:229-231 | After a 200 reply, a short or empty read ends the loop successfully, right after that chunk's request, with the cursor after the bytes read |
| Upload.StopAfterOk | src/main.rs:229-233 | An iteration that got 200 stops only because its read came back short |
| Upload.ChunkRequestFollowsPlan | src/main.rs:195-210 | When the read succeeds, the request for the chunk at `start` has the plan's first range, the job's method and URL, and the read bytes followed by zeros as body |
| Upload.LoopFollowsPlan | src/main.rs:193-233 | From any iteration on, the requests the loop adds follow the plan one by one, and there are never more of them than chunks |
| Upload.LoopStopsEarly | src/main.rs:213-231 | From any iteration on, every request the loop adds except the last had a full read and a 200 reply |
| Upload.LoopOutcome | src/main.rs:213-227 | A transport error or a non-200 status on the last request is the fault the loop ends with, with the same status |
| Upload.LoopCompletes | src/main.rs:193-233 | When the range lies in the file, every read fills its buffer and every reply is 200, the loop sends one request per planned chunk with the file's bytes of that chunk and succeeds; for a positive chunk size and a non-empty range it leaves the cursor at the range end |
| Upload.RequestsFollowPlan | src/main.rs:193-233 | Request k of any run has the k-th planned range, the header `bytes {start}-{end}/{range end}` for it, the job's method and URL, and the read bytes followed by zeros as body |
| Upload.CarriesReadLength | src/main.rs:195-210 | The body sent is always exactly as long as its range |
| Upload.ChunksWellFormed | src/main.rs:193-233 | In any run the first request starts at the range start; each request lies in the range, is at most one chunk long and non-empty for a positive chunk size, and its body is exactly `end - start` bytes; each request begins where the previous one ended |
| Upload.ShortReadIsLast | src/main.rs:229-231 | Every request except the last had a read that filled a whole chunk |
| Upload.FailureIsLast | src/main.rs:213-227 | After a transport error or non-200 reply to request k there is no request k+1, and a run that sent request k ended with that failure |
| Upload.EmptyRangeSendsNothing | src/main.rs:193-236 | When the seek to the range start succeeds and the range is empty, nothing is sent and the run succeeds with the cursor at the range start |
| Upload.WholeRangeUploaded | src/main.rs:193-236 | When the seek to the range start succeeds, the range is in the file, reads are full and replies are 200, the run succeeds with one request per planned chunk, each carrying the file's bytes of that chunk. For a positive chunk size that is ceil(len / chunk) requests, and for a non-empty range the cursor ends at the range end |
| Upload.ZeroChunkSizeSendsOneEmptyRequest | src/main.rs:195-231 | With chunk size 0, when the seek and the first read succeed, a non-empty range gets one empty request `bytes s-s/e` and the loop stops, successfully when that request gets 200 |
| Upload.UploadChunk | src/main.rs:195-233 | One pass of the loop body does what `Iteration` specifies: the same request, reply check, stop decision, outcome and cursor |
| Upload.DoUpload | src/main.rs:179-237 | `do_upload` returns the outcome and sends the requests that `Upload` specifies, and leaves the cursor where `Upload` says; its loop keeps the file cursor equal to `start` at every iteration head |
| Cli.ParseRange | src/main.rs:45-65 | A `-r` value is accepted only when it has exactly one '-' and both sides are u64s. Any other number of pieces is reported with the value; a bad start or end is reported with the flag |
| Cli.ParseRangePieces | src/main.rs:45-65 | For a value `a-b` with dash-free `a` and `b` (by `Text.SplitOnce`, every value with one '-'), the range is accepted exactly when both pieces parse as u64, and then as the pair of their values; otherwise a bad start is reported before a bad end |
| Cli.ParseRangeRoundTrip | src/main.rs:45-61 | Every pair of u64s written as `start-end` is accepted as that pair |
| Cli.ReadRange | src/main.rs:45-65 | The `-r` value handling of the loop answers as `ParseRange` does, checking the start before the end |
| Cli.Classify | src/main.rs:34-123 | The short and long spellings of each match arm; anything else falls to the unknown-argument arm |
| Cli.Step | src/main.rs:34-124 | One argument moves the scan on by one, or by two for a flag with a value, and never past the end; an exit reports success exactly for help, version or an unknown argument |
| Cli.ScanFrom | src/main.rs:32-126 | The argument loop from index `i` with the options collected so far: step after step until the arguments run out (the options) or a step exits (that exit) |
| Cli.Scan | src/main.rs:22-126 | The argument loop from the first argument after the program name, with the defaults |
| Cli.ScanArgument | src/main.rs:34-125 | The match on one argument updates the options and the index as `Step` specifies |
| Cli.ParseArgs | src/main.rs:25-126 | The argument loop ends with the options or the exit that `Scan` specifies |
| Cli.TrailingFlag | src/main.rs:35-99 | A flag that needs a value but stands last fails with a message naming it, except `-c`, which is then ignored |
| Cli.UnknownArgumentExits | src/main.rs:118-123 | An unrecognised argument ends the program with success, whatever follows it |
| Cli.LaterFlagOverrides | src/main.rs:32-126 | When a flag with an accepted value is given again later with an accepted value, anywhere the scan reaches, the scan ends as if the earlier flag and its value were not there |
| Cli.ScanFitsU64 | src/main.rs:25-78 | The scanned chunk size and range values all fit in a u64 |
| Cli.ScanExitStatus | src/main.rs:40-123 | An exit during the scan has status 0 exactly for help, version and an unknown argument |
| Cli.NoArgumentsKeepDefaults | src/main.rs:25-30 | Without arguments the options are: no file, no range, chunk 5000000, no URL, PUT |
| Cli.Resolve | src/main.rs:128-176 | The upload goes ahead only with an opened file and a URL. A range end beyond the file's length is rejected exactly when the range was given, and the range defaults to the whole file. The job keeps the scanned chunk size and method |
| Cli.UploadExit | src/main.rs:213-236 | The program exits with status 0 after an upload exactly when the upload succeeded |
| Cli.RequestsStayInFile | src/main.rs:149-176 | A request is sent only for accepted arguments; it lies inside the requested range and the file, names the range end as total, and uses the given method and URL |
| Cli.Command | src/main.rs:22-177 | A whole run of the program: the scan, then the checks of `Resolve`, then the upload, each exit ending the run where `main` ends it |
| Cli.RunCommand | src/main.rs:22-177 | The program's run gives the exit, the requests and the cursor that `Command` specifies |

## Left out

- The HTTP client (`reqwest`): connections, TLS, redirects, timeouts and the other headers. A reply is whatever the `network` oracle says. Only its status, and the body text when it can be read, matter to the loop.
- Opening the file, the existence check and `metadata()`. `Resolve` takes the file system's answer for the path as a parameter. The file's length is taken to be the length of its bytes.
- The operating system's read and seek behaviour. The oracles `serve` and `seekLimit` give every count and failure a real read or seek can produce; which one happens is not modelled.
- Printing: the messages of `exit!`, the help text, the version string, and the file size printed by `-fb`. `-fb` sets an option that nothing else reads. Exits are values (`Exit`) instead of process termination.
- The u64 overflow of `start + chunk_size` (src/main.rs:195, 233). Positions are unbounded naturals. A chunk size close to 2^64 would overflow in the source (a panic in debug builds, wrap-around in release builds); the model does not show this.
- The `usize` conversion and the allocation of the buffer. An allocation failure for a huge chunk size is not modelled.
- Text.ParseU64: models Rust's `u64` parsing as an optional '+' followed by one or more ASCII digits below 2^64. The standard library's parser is not part of this model.
- Http.ParseMethod: models `Method::from_str` as accepting any non-empty token of RFC 9110 section 5.6.2, case-sensitively. The `http` crate's own parser is not part of this model, so its mapping of standard names to constants is not shown.
- Upload.DoUpload: the error text of a non-200 reply is kept, with the fallback "Response body is empty" when the body cannot be read. The error of a failed send or read is kept only as its kind.
