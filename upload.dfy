/** The chunked upload loop (`do_upload`): one seek to the start of the
    range, then per chunk a fresh zeroed buffer, one read, one request with
    a Content-Range header, and a check of the reply, until the range is
    done, a read comes back short, or something fails. */
module Upload {
  import opened Wrappers
  import opened Http
  import opened Source
  import opened Chunking

  /** What `do_upload` is called with: the byte range `[rangeStart,
      rangeEnd)`, the chunk size, the URL and the request method. */
  datatype Job = Job(rangeStart: nat, rangeEnd: nat, chunkSize: nat, url: string, verb: Method)

  /** Why an upload was abandoned. */
  datatype Fault =
    | SeekFailed
    | ReadFailed
    | TransportFailed
    | StatusNot200(status: nat, message: string)

  /** How an upload ended, in place of the process exit. */
  datatype Outcome = Succeeded | Failed(fault: Fault)

  /** The message reported for a non-200 reply whose body cannot be read. */
  const EmptyBodyText: string := "Response body is empty"

  /** The result of a run: its outcome, every request sent, in order, and
      where the file cursor was left. */
  datatype Run = Run(outcome: Outcome, sent: seq<Request>, cursor: nat)

  /** The request the loop sends for the chunk at `start` after reading `n`
      bytes into a zeroed buffer as long as the chunk. */
  function ChunkRequest(job: Job, data: seq<bv8>, start: nat, n: nat): Request
    requires start < job.rangeEnd
    requires n <= ChunkEnd(start, job.chunkSize, job.rangeEnd) - start && n <= Remaining(data, start)
  {
    var end := ChunkEnd(start, job.chunkSize, job.rangeEnd);
    Request(job.verb, job.url, ContentRange(start, end, job.rangeEnd), Fetched(data, start, n) + Zeros(end - start - n))
  }

  /** Where one iteration of the loop leads: the run ends, or the next
      iteration starts at `start` with `sent` sent. */
  datatype Step = Stop(run: Run) | Next(start: nat, sent: seq<Request>)

  /** One iteration, from the chunk boundary to the decision whether to
      go on. The loop goes on only after a reply of 200 to a chunk whose
      read filled a whole non-empty chunk, and then the cursor has moved
      exactly to the next chunk's start. */
  function Iteration(job: Job, data: seq<bv8>, serve: nat -> ReadReply, network: nat -> Reply,
                     start: nat, sent: seq<Request>): (s: Step)
    requires start < job.rangeEnd
    ensures s.Next? ==>
      0 < job.chunkSize && s.start == start + job.chunkSize <= job.rangeEnd &&
      ChunkEnd(start, job.chunkSize, job.rangeEnd) == s.start &&
      ReadCount(serve(start), job.chunkSize, data, start) == Some(job.chunkSize) &&
      IsOk(network(|sent|)) && s.sent == sent + [ChunkRequest(job, data, start, job.chunkSize)]
  {
    var end := ChunkEnd(start, job.chunkSize, job.rangeEnd);
    match ReadCount(serve(start), end - start, data, start)
    case None => Stop(Run(Failed(ReadFailed), sent, start))
    case Some(n) =>
      var sent' := sent + [ChunkRequest(job, data, start, n)];
      match network(|sent|)
      case TransportError => Stop(Run(Failed(TransportFailed), sent', start + n))
      case Response(status, text) =>
        if status != 200 then Stop(Run(Failed(StatusNot200(status, text.GetOr(EmptyBodyText))), sent', start + n))
        else if n == 0 || n < job.chunkSize then Stop(Run(Succeeded, sent', start + n))
        else Next(start + job.chunkSize, sent')
  }

  /** The loop from the iteration that starts at `start` on, with the file
      cursor at `start` and `sent` already sent. */
  function Loop(job: Job, data: seq<bv8>, serve: nat -> ReadReply, network: nat -> Reply,
                start: nat, sent: seq<Request>): Run
    decreases if start <= job.rangeEnd then job.rangeEnd - start else 0
  {
    if start >= job.rangeEnd then Run(Succeeded, sent, start)
    else
      match Iteration(job, data, serve, network, start, sent)
      case Stop(r) => r
      case Next(start', sent') => Loop(job, data, serve, network, start', sent')
  }

  /** A whole run of `do_upload` on a file holding `data` whose cursor is at
      `cursor`: seek to the start of the range, then loop. */
  function Upload(job: Job, data: seq<bv8>, seekLimit: nat, serve: nat -> ReadReply,
                  network: nat -> Reply, cursor: nat): (r: Run)
    ensures r.outcome == Failed(SeekFailed) <==> job.rangeStart > seekLimit
    ensures r.outcome == Failed(SeekFailed) ==> r.sent == [] && r.cursor == cursor
  {
    if job.rangeStart > seekLimit then Run(Failed(SeekFailed), [], cursor)
    else
      LoopNeverSeeks(job, data, serve, network, job.rangeStart, []);
      Loop(job, data, serve, network, job.rangeStart, [])
  }

  /** What an iteration that ends the loop leaves behind: nothing new sent
      if the read failed, otherwise exactly the request for this chunk. */
  lemma StopSent(job: Job, data: seq<bv8>, serve: nat -> ReadReply, network: nat -> Reply,
                 start: nat, sent: seq<Request>)
    requires start < job.rangeEnd
    requires Iteration(job, data, serve, network, start, sent).Stop?
    ensures var r := Iteration(job, data, serve, network, start, sent).run;
      var n := ReadCount(serve(start), ChunkEnd(start, job.chunkSize, job.rangeEnd) - start, data, start);
      (n.None? ==> r == Run(Failed(ReadFailed), sent, start)) &&
      (n.Some? ==> r.sent == sent + [ChunkRequest(job, data, start, n.value)] && r.outcome != Failed(SeekFailed))
  {
  }

  lemma {:induction false} LoopNeverSeeks(job: Job, data: seq<bv8>, serve: nat -> ReadReply,
                                          network: nat -> Reply, start: nat, sent: seq<Request>)
    ensures Loop(job, data, serve, network, start, sent).outcome != Failed(SeekFailed)
    decreases if start <= job.rangeEnd then job.rangeEnd - start else 0
  {
    if start < job.rangeEnd {
      var st := Iteration(job, data, serve, network, start, sent);
      if st.Next? {
        LoopNeverSeeks(job, data, serve, network, st.start, st.sent);
      } else {
        StopSent(job, data, serve, network, start, sent);
      }
    }
  }

  /** One iteration that ends the loop successfully: a reply of 200 to the
      request for a chunk whose read came back short. */
  lemma LoopLastChunk(job: Job, data: seq<bv8>, serve: nat -> ReadReply, network: nat -> Reply,
                      start: nat, sent: seq<Request>, n: nat)
    requires start < job.rangeEnd
    requires ReadCount(serve(start), ChunkEnd(start, job.chunkSize, job.rangeEnd) - start, data, start) == Some(n)
    requires IsOk(network(|sent|)) && (n == 0 || n < job.chunkSize)
    ensures Loop(job, data, serve, network, start, sent) ==
            Run(Succeeded, sent + [ChunkRequest(job, data, start, n)], start + n)
  {
  }

  /** The body of `req` is what the read at the start of its range put into
      a zeroed buffer as long as the range: the bytes read, then zeros. */
  predicate CarriesRead(data: seq<bv8>, serve: nat -> ReadReply, req: Request) {
    var first := req.range.first;
    first <= req.range.last &&
    match ReadCount(serve(first), req.range.last - first, data, first)
    case Some(n) => req.body == Fetched(data, first, n) + Zeros(req.range.last - first - n)
    case None => false
  }

  /** The read for `req` returned a whole, non-empty chunk. */
  predicate ReadWasFull(data: seq<bv8>, serve: nat -> ReadReply, req: Request, chunkSize: nat) {
    var first := req.range.first;
    first <= req.range.last && chunkSize > 0 &&
    ReadCount(serve(first), req.range.last - first, data, first) == Some(chunkSize)
  }

  /** `req` is the request for the chunk `cr` of the job: its range, the
      job's method and URL, and the body the read produced. */
  predicate SentFor(job: Job, data: seq<bv8>, serve: nat -> ReadReply, req: Request, cr: ContentRange) {
    req.range == cr && req.verb == job.verb && req.url == job.url && CarriesRead(data, serve, req)
  }

  /** The request for the chunk at `start` is the plan's first chunk, with
      the job's method and URL and the body the read produced. */
  lemma ChunkRequestFollowsPlan(job: Job, data: seq<bv8>, serve: nat -> ReadReply, start: nat)
    requires start < job.rangeEnd
    requires ReadCount(serve(start), ChunkEnd(start, job.chunkSize, job.rangeEnd) - start, data, start).Some?
    ensures var n := ReadCount(serve(start), ChunkEnd(start, job.chunkSize, job.rangeEnd) - start, data, start).value;
      var req := ChunkRequest(job, data, start, n);
      SentFor(job, data, serve, req, Plan(start, job.rangeEnd, job.chunkSize)[0])
  {
  }

  /** `all` extends `sent` by requests that follow the chunks of `p`, one
      by one from its first. */
  predicate FollowsPlan(job: Job, data: seq<bv8>, serve: nat -> ReadReply,
                        sent: seq<Request>, all: seq<Request>, p: seq<ContentRange>) {
    |sent| <= |all| <= |sent| + |p| && all[..|sent|] == sent &&
    forall i :: |sent| <= i < |all| ==> SentFor(job, data, serve, all[i], p[i - |sent|])
  }

  lemma FollowsPlanCons(job: Job, data: seq<bv8>, serve: nat -> ReadReply,
                        sent: seq<Request>, req: Request, all: seq<Request>, p: seq<ContentRange>)
    requires |p| > 0 && SentFor(job, data, serve, req, p[0])
    requires FollowsPlan(job, data, serve, sent + [req], all, p[1..])
    ensures FollowsPlan(job, data, serve, sent, all, p)
  {
    assert all[..|sent|] == (sent + [req])[..|sent|];
    forall i | |sent| <= i < |all|
      ensures SentFor(job, data, serve, all[i], p[i - |sent|])
    {
      if i == |sent| {
        assert all[i] == (sent + [req])[i];
      } else {
        assert p[i - |sent|] == p[1..][i - |sent + [req]|];
      }
    }
  }

  lemma FollowsPlanNext(job: Job, data: seq<bv8>, serve: nat -> ReadReply, network: nat -> Reply,
                        start: nat, sent: seq<Request>)
    requires start < job.rangeEnd
    requires Iteration(job, data, serve, network, start, sent).Next?
    requires var st := Iteration(job, data, serve, network, start, sent);
      FollowsPlan(job, data, serve, st.sent, Loop(job, data, serve, network, st.start, st.sent).sent,
                  Plan(st.start, job.rangeEnd, job.chunkSize))
    ensures FollowsPlan(job, data, serve, sent, Loop(job, data, serve, network, start, sent).sent,
                        Plan(start, job.rangeEnd, job.chunkSize))
  {
    var st := Iteration(job, data, serve, network, start, sent);
    var p := Plan(start, job.rangeEnd, job.chunkSize);
    ChunkRequestFollowsPlan(job, data, serve, start);
    assert p[1..] == Plan(st.start, job.rangeEnd, job.chunkSize);
    FollowsPlanCons(job, data, serve, sent, ChunkRequest(job, data, start, job.chunkSize),
                    Loop(job, data, serve, network, st.start, st.sent).sent, p);
  }

  lemma FollowsPlanStop(job: Job, data: seq<bv8>, serve: nat -> ReadReply, network: nat -> Reply,
                        start: nat, sent: seq<Request>)
    requires start < job.rangeEnd
    requires Iteration(job, data, serve, network, start, sent).Stop?
    ensures FollowsPlan(job, data, serve, sent, Loop(job, data, serve, network, start, sent).sent,
                        Plan(start, job.rangeEnd, job.chunkSize))
  {
    var p := Plan(start, job.rangeEnd, job.chunkSize);
    var n := ReadCount(serve(start), ChunkEnd(start, job.chunkSize, job.rangeEnd) - start, data, start);
    StopSent(job, data, serve, network, start, sent);
    if n.Some? {
      var req := ChunkRequest(job, data, start, n.value);
      ChunkRequestFollowsPlan(job, data, serve, start);
      assert FollowsPlan(job, data, serve, sent + [req], sent + [req], p[1..]);
      FollowsPlanCons(job, data, serve, sent, req, sent + [req], p);
    } else {
      assert FollowsPlan(job, data, serve, sent, sent, p);
    }
  }

  /** Every request the loop adds follows the plan from `start`, with the
      job's method and URL and the body the read produced. */
  lemma {:induction false} LoopFollowsPlan(job: Job, data: seq<bv8>, serve: nat -> ReadReply,
                                           network: nat -> Reply, start: nat, sent: seq<Request>)
    ensures FollowsPlan(job, data, serve, sent, Loop(job, data, serve, network, start, sent).sent,
                        Plan(start, job.rangeEnd, job.chunkSize))
    decreases if start <= job.rangeEnd then job.rangeEnd - start else 0
  {
    if start < job.rangeEnd {
      var st := Iteration(job, data, serve, network, start, sent);
      if st.Next? {
        LoopFollowsPlan(job, data, serve, network, st.start, st.sent);
        FollowsPlanNext(job, data, serve, network, start, sent);
      } else {
        FollowsPlanStop(job, data, serve, network, start, sent);
      }
    } else {
      assert FollowsPlan(job, data, serve, sent, sent, []);
    }
  }

  /** `all` extends `sent`, and every request it adds but the last had a
      full read and a reply of 200. */
  predicate StopsEarly(data: seq<bv8>, serve: nat -> ReadReply, network: nat -> Reply, chunkSize: nat,
                       sent: seq<Request>, all: seq<Request>) {
    |sent| <= |all| && all[..|sent|] == sent &&
    forall i :: |sent| <= i < |all| - 1 ==>
      ReadWasFull(data, serve, all[i], chunkSize) && IsOk(network(i))
  }

  lemma StopsEarlyCons(data: seq<bv8>, serve: nat -> ReadReply, network: nat -> Reply, chunkSize: nat,
                       sent: seq<Request>, req: Request, all: seq<Request>)
    requires ReadWasFull(data, serve, req, chunkSize) && IsOk(network(|sent|))
    requires StopsEarly(data, serve, network, chunkSize, sent + [req], all)
    ensures StopsEarly(data, serve, network, chunkSize, sent, all)
  {
    assert all[..|sent|] == (sent + [req])[..|sent|];
    assert all[|sent|] == (sent + [req])[|sent|];
  }

  /** Only the last request of the loop may follow a read that did not fill
      a whole chunk, and only the last may have had a reply other than 200:
      a short read, a failed send or a non-200 status ends the loop. */
  lemma {:induction false} LoopStopsEarly(job: Job, data: seq<bv8>, serve: nat -> ReadReply,
                                          network: nat -> Reply, start: nat, sent: seq<Request>)
    ensures StopsEarly(data, serve, network, job.chunkSize, sent, Loop(job, data, serve, network, start, sent).sent)
    decreases if start <= job.rangeEnd then job.rangeEnd - start else 0
  {
    if start < job.rangeEnd {
      var st := Iteration(job, data, serve, network, start, sent);
      if st.Next? {
        LoopStopsEarly(job, data, serve, network, st.start, st.sent);
        var req := ChunkRequest(job, data, start, job.chunkSize);
        assert ReadWasFull(data, serve, req, job.chunkSize);
        StopsEarlyCons(data, serve, network, job.chunkSize, sent, req, Loop(job, data, serve, network, start, sent).sent);
      } else {
        StopSent(job, data, serve, network, start, sent);
      }
    }
  }

  /** A failed send or a non-200 reply to the last request of the loop is
      the fault the loop ended with. */
  lemma {:induction false} LoopOutcome(job: Job, data: seq<bv8>, serve: nat -> ReadReply,
                                       network: nat -> Reply, start: nat, sent: seq<Request>)
    ensures AnswersLastReply(network, sent, Loop(job, data, serve, network, start, sent))
    decreases if start <= job.rangeEnd then job.rangeEnd - start else 0
  {
    if start < job.rangeEnd {
      var st := Iteration(job, data, serve, network, start, sent);
      if st.Next? {
        LoopOutcome(job, data, serve, network, st.start, st.sent);
      } else {
        OutcomeStop(job, data, serve, network, start, sent);
      }
    }
  }

  /** `r` extends `sent`, and if it sent anything, a failed last send or
      a non-200 reply to the last request is the fault it ended with. */
  predicate AnswersLastReply(network: nat -> Reply, sent: seq<Request>, r: Run) {
    |sent| <= |r.sent| &&
    (|r.sent| > |sent| ==>
      (network(|r.sent| - 1).TransportError? ==> r.outcome == Failed(TransportFailed)) &&
      (network(|r.sent| - 1).Response? && network(|r.sent| - 1).status != 200 ==>
         r.outcome.Failed? && r.outcome.fault.StatusNot200? &&
         r.outcome.fault.status == network(|r.sent| - 1).status))
  }

  lemma OutcomeStop(job: Job, data: seq<bv8>, serve: nat -> ReadReply, network: nat -> Reply,
                    start: nat, sent: seq<Request>)
    requires start < job.rangeEnd
    requires Iteration(job, data, serve, network, start, sent).Stop?
    ensures AnswersLastReply(network, sent, Iteration(job, data, serve, network, start, sent).run)
  {
    StopSent(job, data, serve, network, start, sent);
  }

  /** `all` extends `sent`, and every request it adds carries the file's
      bytes of its range. */
  predicate Intact(data: seq<bv8>, sent: seq<Request>, all: seq<Request>) {
    |sent| <= |all| && all[..|sent|] == sent &&
    forall i :: |sent| <= i < |all| ==>
      all[i].range.first <= all[i].range.last <= |data| &&
      all[i].body == data[all[i].range.first..all[i].range.last]
  }

  lemma IntactCons(data: seq<bv8>, sent: seq<Request>, req: Request, all: seq<Request>)
    requires req.range.first <= req.range.last <= |data|
    requires req.body == data[req.range.first..req.range.last]
    requires Intact(data, sent + [req], all)
    ensures Intact(data, sent, all)
  {
    assert all[..|sent|] == (sent + [req])[..|sent|];
    assert all[|sent|] == (sent + [req])[|sent|];
  }

  /** What LoopCompletes promises of the run `r` of the loop from `start`. */
  predicate Completes(job: Job, data: seq<bv8>, start: nat, sent: seq<Request>, r: Run) {
    r.outcome == Succeeded &&
    |r.sent| == |sent| + |Plan(start, job.rangeEnd, job.chunkSize)| &&
    Intact(data, sent, r.sent) &&
    (start < job.rangeEnd && job.chunkSize > 0 ==> r.cursor == job.rangeEnd)
  }

  /** Every read of the loop from `start` on fills its buffer. */
  ghost predicate ReadsFull(job: Job, serve: nat -> ReadReply, start: nat) {
    forall pos :: start <= pos < job.rangeEnd ==>
      serve(pos).Serve? && serve(pos).limit >= job.chunkSize
  }

  /** Every reply from the `from`-th on is 200. */
  ghost predicate RepliesOk(network: nat -> Reply, from: nat) {
    forall k :: from <= k ==> IsOk(network(k))
  }

  /** The request for the chunk at `start`, in a range that lies in the
      file, when the read fills the buffer. */
  lemma FullChunk(job: Job, data: seq<bv8>, serve: nat -> ReadReply, start: nat)
    requires start < job.rangeEnd <= |data| && ReadsFull(job, serve, start)
    ensures var end := ChunkEnd(start, job.chunkSize, job.rangeEnd);
      var req := ChunkRequest(job, data, start, end - start);
      ReadCount(serve(start), end - start, data, start) == Some(end - start) &&
      req.range.first == start && req.range.last == end &&
      req.body == data[start..end]
  {
    var end := ChunkEnd(start, job.chunkSize, job.rangeEnd);
    assert serve(start).Serve? && serve(start).limit >= job.chunkSize;
    var req := ChunkRequest(job, data, start, end - start);
    assert req.body == Fetched(data, start, end - start) + Zeros(0);
  }

  lemma CompletesNext(job: Job, data: seq<bv8>, serve: nat -> ReadReply, network: nat -> Reply,
                      start: nat, sent: seq<Request>)
    requires start < job.rangeEnd <= |data| && ReadsFull(job, serve, start)
    requires Iteration(job, data, serve, network, start, sent).Next?
    requires var st := Iteration(job, data, serve, network, start, sent);
      Completes(job, data, st.start, st.sent, Loop(job, data, serve, network, st.start, st.sent))
    ensures Completes(job, data, start, sent, Loop(job, data, serve, network, start, sent))
  {
    var st := Iteration(job, data, serve, network, start, sent);
    var r := Loop(job, data, serve, network, start, sent);
    assert r == Loop(job, data, serve, network, st.start, st.sent);
    FullChunk(job, data, serve, start);
    var req := ChunkRequest(job, data, start, job.chunkSize);
    IntactCons(data, sent, req, r.sent);
    assert |Plan(start, job.rangeEnd, job.chunkSize)| == 1 + |Plan(st.start, job.rangeEnd, job.chunkSize)|;
    if st.start < job.rangeEnd {
    } else {
      assert Plan(st.start, job.rangeEnd, job.chunkSize) == [];
      assert r.cursor == st.start;
    }
  }

  /** An iteration that read `n` bytes and got a 200 stops only because
      the read was short. */
  lemma StopAfterOk(job: Job, data: seq<bv8>, serve: nat -> ReadReply, network: nat -> Reply,
                    start: nat, sent: seq<Request>, n: nat)
    requires start < job.rangeEnd
    requires ReadCount(serve(start), ChunkEnd(start, job.chunkSize, job.rangeEnd) - start, data, start) == Some(n)
    requires IsOk(network(|sent|)) && Iteration(job, data, serve, network, start, sent).Stop?
    ensures n == 0 || n < job.chunkSize
  {
  }

  lemma CompletesStop(job: Job, data: seq<bv8>, serve: nat -> ReadReply, network: nat -> Reply,
                      start: nat, sent: seq<Request>)
    requires start < job.rangeEnd <= |data| && ReadsFull(job, serve, start) && RepliesOk(network, |sent|)
    requires Iteration(job, data, serve, network, start, sent).Stop?
    ensures Completes(job, data, start, sent, Loop(job, data, serve, network, start, sent))
  {
    var end := ChunkEnd(start, job.chunkSize, job.rangeEnd);
    FullChunk(job, data, serve, start);
    assert IsOk(network(|sent|));
    var req := ChunkRequest(job, data, start, end - start);
    var r := Loop(job, data, serve, network, start, sent);
    StopAfterOk(job, data, serve, network, start, sent, end - start);
    LoopLastChunk(job, data, serve, network, start, sent, end - start);
    assert Intact(data, sent + [req], sent + [req]);
    IntactCons(data, sent, req, r.sent);
    if job.chunkSize > 0 {
      assert end == job.rangeEnd;
      assert Plan(start + job.chunkSize, job.rangeEnd, job.chunkSize) == [];
    }
  }

  /** When the range lies in the file, every read fills its buffer and
      every reply is 200, the loop sends one request per chunk of the plan
      from `start`, each body being the file's bytes of that chunk,
      succeeds, and leaves the cursor at the range end. */
  lemma {:induction false} LoopCompletes(job: Job, data: seq<bv8>, serve: nat -> ReadReply,
                                         network: nat -> Reply, start: nat, sent: seq<Request>)
    requires job.rangeEnd <= |data| && ReadsFull(job, serve, start) && RepliesOk(network, |sent|)
    ensures Completes(job, data, start, sent, Loop(job, data, serve, network, start, sent))
    decreases if start <= job.rangeEnd then job.rangeEnd - start else 0
  {
    if start < job.rangeEnd {
      var st := Iteration(job, data, serve, network, start, sent);
      if st.Next? {
        LoopCompletes(job, data, serve, network, st.start, st.sent);
        CompletesNext(job, data, serve, network, start, sent);
      } else {
        CompletesStop(job, data, serve, network, start, sent);
      }
    } else {
      assert Intact(data, sent, sent);
    }
  }

  /** Every request of a run follows the plan of the job's range: request
      k has the k-th planned chunk (by PlanAt, for a positive chunk size,
      `[rangeStart + k * chunkSize, min(rangeStart + (k + 1) * chunkSize,
      rangeEnd))`) with the range end as total, whatever the reads and
      replies were. Each carries the job's method and URL and,
      as its body, the bytes read into a zeroed buffer of the chunk's
      length. */
  lemma RequestsFollowPlan(job: Job, data: seq<bv8>, seekLimit: nat, serve: nat -> ReadReply,
                           network: nat -> Reply, cursor: nat)
    ensures var r := Upload(job, data, seekLimit, serve, network, cursor);
      var p := Plan(job.rangeStart, job.rangeEnd, job.chunkSize);
      |r.sent| <= |p| &&
      forall i :: 0 <= i < |r.sent| ==>
        r.sent[i].range == p[i] && r.sent[i].verb == job.verb && r.sent[i].url == job.url &&
        CarriesRead(data, serve, r.sent[i]) &&
        r.sent[i].ContentRangeHeader() == Format(ContentRange(p[i].first, p[i].last, job.rangeEnd))
  {
    var p := Plan(job.rangeStart, job.rangeEnd, job.chunkSize);
    PlanBounds(job.rangeStart, job.rangeEnd, job.chunkSize);
    if job.rangeStart <= seekLimit {
      var sent := Loop(job, data, serve, network, job.rangeStart, []).sent;
      LoopFollowsPlan(job, data, serve, network, job.rangeStart, []);
      SentFollowsPlan(job, data, serve, sent, p);
    }
  }

  /** The requests that follow a plan whose chunks name the range end as
      total carry the header for their planned chunk. */
  lemma SentFollowsPlan(job: Job, data: seq<bv8>, serve: nat -> ReadReply, sent: seq<Request>, p: seq<ContentRange>)
    requires FollowsPlan(job, data, serve, [], sent, p)
    requires forall i :: 0 <= i < |p| ==> p[i].total == job.rangeEnd
    ensures |sent| <= |p|
    ensures forall i :: 0 <= i < |sent| ==>
      sent[i].range == p[i] && sent[i].verb == job.verb && sent[i].url == job.url &&
      CarriesRead(data, serve, sent[i]) &&
      sent[i].ContentRangeHeader() == Format(ContentRange(p[i].first, p[i].last, job.rangeEnd))
  {
    forall i | 0 <= i < |sent|
      ensures sent[i].range == p[i] && sent[i].verb == job.verb && sent[i].url == job.url &&
              CarriesRead(data, serve, sent[i])
    {
      assert SentFor(job, data, serve, sent[i], p[i - 0]);
    }
  }

  /** The body of a request that carries its read is exactly as long as
      its range. */
  lemma CarriesReadLength(data: seq<bv8>, serve: nat -> ReadReply, req: Request)
    requires CarriesRead(data, serve, req)
    ensures |req.body| == req.range.last - req.range.first
  {
  }

  /** The shape of the requests of any run: the first starts at the range
      start, each lies inside the range, is at most one chunk long and
      non-empty when the chunk size is positive, its body is exactly as
      long as its range (the whole zeroed buffer is sent even after a short
      read), and each request begins where the one before it ended. */
  lemma ChunksWellFormed(job: Job, data: seq<bv8>, seekLimit: nat, serve: nat -> ReadReply,
                         network: nat -> Reply, cursor: nat)
    ensures var r := Upload(job, data, seekLimit, serve, network, cursor);
      (|r.sent| > 0 ==> r.sent[0].range.first == job.rangeStart) &&
      (forall i :: 0 <= i < |r.sent| ==>
         job.rangeStart <= r.sent[i].range.first <= r.sent[i].range.last <= job.rangeEnd &&
         r.sent[i].range.last - r.sent[i].range.first <= job.chunkSize &&
         (job.chunkSize > 0 ==> r.sent[i].range.first < r.sent[i].range.last) &&
         |r.sent[i].body| == r.sent[i].range.last - r.sent[i].range.first) &&
      (forall i :: 0 <= i < |r.sent| - 1 ==> r.sent[i].range.last == r.sent[i + 1].range.first)
  {
    var r := Upload(job, data, seekLimit, serve, network, cursor);
    var p := Plan(job.rangeStart, job.rangeEnd, job.chunkSize);
    RequestsFollowPlan(job, data, seekLimit, serve, network, cursor);
    PlanBounds(job.rangeStart, job.rangeEnd, job.chunkSize);
    if job.chunkSize > 0 {
      PlanTiles(job.rangeStart, job.rangeEnd, job.chunkSize);
    } else {
      assert |p| <= 1;
    }
    forall i | 0 <= i < |r.sent|
      ensures |r.sent[i].body| == r.sent[i].range.last - r.sent[i].range.first
    {
      CarriesReadLength(data, serve, r.sent[i]);
    }
  }

  /** A short read ends the run: every request but the last one carried a
      full chunk. */
  lemma ShortReadIsLast(job: Job, data: seq<bv8>, seekLimit: nat, serve: nat -> ReadReply,
                        network: nat -> Reply, cursor: nat)
    ensures var r := Upload(job, data, seekLimit, serve, network, cursor);
      forall i :: 0 <= i < |r.sent| - 1 ==> ReadWasFull(data, serve, r.sent[i], job.chunkSize)
  {
    if job.rangeStart <= seekLimit {
      LoopStopsEarly(job, data, serve, network, job.rangeStart, []);
    }
  }

  /** A failed send or a non-200 reply to request k ends the run in
      failure with no request k + 1; a run that succeeds had every request
      answered with 200. */
  lemma FailureIsLast(job: Job, data: seq<bv8>, seekLimit: nat, serve: nat -> ReadReply,
                      network: nat -> Reply, cursor: nat, k: nat)
    requires !IsOk(network(k))
    ensures var r := Upload(job, data, seekLimit, serve, network, cursor);
      |r.sent| <= k + 1 &&
      (|r.sent| == k + 1 ==>
         r.outcome.Failed? &&
         (network(k).TransportError? ==> r.outcome.fault == TransportFailed) &&
         (network(k).Response? ==> r.outcome.fault.StatusNot200? && r.outcome.fault.status == network(k).status))
  {
    var r := Upload(job, data, seekLimit, serve, network, cursor);
    if job.rangeStart <= seekLimit {
      LoopStopsEarly(job, data, serve, network, job.rangeStart, []);
      LoopOutcome(job, data, serve, network, job.rangeStart, []);
    }
  }

  /** An empty range (start at or past the end): nothing is sent and the
      run succeeds with the cursor at the start. */
  lemma EmptyRangeSendsNothing(job: Job, data: seq<bv8>, seekLimit: nat, serve: nat -> ReadReply,
                               network: nat -> Reply, cursor: nat)
    requires job.rangeStart >= job.rangeEnd && job.rangeStart <= seekLimit
    ensures Upload(job, data, seekLimit, serve, network, cursor) == Run(Succeeded, [], job.rangeStart)
  {
  }

  /** When the seek succeeds, the range lies in the file, every read fills
      its buffer and every reply is 200, the run succeeds after sending
      exactly one request per chunk of the plan, each carrying the file's
      bytes of that chunk; for a positive chunk size that is
      ceil((rangeEnd - rangeStart) / chunkSize) requests. */
  lemma WholeRangeUploaded(job: Job, data: seq<bv8>, seekLimit: nat, serve: nat -> ReadReply,
                           network: nat -> Reply, cursor: nat)
    requires job.rangeStart <= seekLimit && job.rangeEnd <= |data|
    requires forall pos :: job.rangeStart <= pos < job.rangeEnd ==>
               serve(pos).Serve? && serve(pos).limit >= job.chunkSize
    requires forall k :: IsOk(network(k))
    ensures var r := Upload(job, data, seekLimit, serve, network, cursor);
      var p := Plan(job.rangeStart, job.rangeEnd, job.chunkSize);
      r.outcome == Succeeded && |r.sent| == |p| &&
      (forall i :: 0 <= i < |p| ==>
         r.sent[i].range == p[i] && p[i].first <= p[i].last <= |data| &&
         r.sent[i].body == data[p[i].first..p[i].last]) &&
      (job.chunkSize > 0 && job.rangeStart <= job.rangeEnd ==>
         |r.sent| == (job.rangeEnd - job.rangeStart + job.chunkSize - 1) / job.chunkSize) &&
      (job.rangeStart < job.rangeEnd && job.chunkSize > 0 ==> r.cursor == job.rangeEnd)
  {
    assert ReadsFull(job, serve, job.rangeStart) && RepliesOk(network, 0);
    assert Upload(job, data, seekLimit, serve, network, cursor) ==
           Loop(job, data, serve, network, job.rangeStart, []);
    LoopUploadsWhole(job, data, serve, network);
  }

  /** The conclusion of WholeRangeUploaded about a run `r` of the job. */
  predicate UploadedWhole(job: Job, data: seq<bv8>, r: Run) {
    var p := Plan(job.rangeStart, job.rangeEnd, job.chunkSize);
    r.outcome == Succeeded && |r.sent| == |p| &&
    (forall i :: 0 <= i < |p| ==>
       r.sent[i].range == p[i] && p[i].first <= p[i].last <= |data| &&
       r.sent[i].body == data[p[i].first..p[i].last]) &&
    (job.chunkSize > 0 && job.rangeStart <= job.rangeEnd ==>
       |r.sent| == (job.rangeEnd - job.rangeStart + job.chunkSize - 1) / job.chunkSize) &&
    (job.rangeStart < job.rangeEnd && job.chunkSize > 0 ==> r.cursor == job.rangeEnd)
  }

  lemma LoopUploadsWhole(job: Job, data: seq<bv8>, serve: nat -> ReadReply, network: nat -> Reply)
    requires job.rangeEnd <= |data| && ReadsFull(job, serve, job.rangeStart) && RepliesOk(network, 0)
    ensures UploadedWhole(job, data, Loop(job, data, serve, network, job.rangeStart, []))
  {
    LoopCompletes(job, data, serve, network, job.rangeStart, []);
    LoopFollowsPlan(job, data, serve, network, job.rangeStart, []);
    RunUploadsWhole(job, data, serve, Loop(job, data, serve, network, job.rangeStart, []));
  }

  lemma RunUploadsWhole(job: Job, data: seq<bv8>, serve: nat -> ReadReply, r: Run)
    requires Completes(job, data, job.rangeStart, [], r)
    requires FollowsPlan(job, data, serve, [], r.sent, Plan(job.rangeStart, job.rangeEnd, job.chunkSize))
    ensures UploadedWhole(job, data, r)
  {
    var p := Plan(job.rangeStart, job.rangeEnd, job.chunkSize);
    assert |r.sent| == |p| && Intact(data, [], r.sent);
    PlanBodies(job, data, serve, r.sent, p);
    PlanLength(job);
  }

  /** The plan of a job has ceil((rangeEnd - rangeStart) / chunkSize)
      chunks. */
  lemma PlanLength(job: Job)
    ensures job.chunkSize > 0 && job.rangeStart <= job.rangeEnd ==>
      |Plan(job.rangeStart, job.rangeEnd, job.chunkSize)| ==
      (job.rangeEnd - job.rangeStart + job.chunkSize - 1) / job.chunkSize
  {
    if job.chunkSize > 0 {
      PlanCount(job.rangeStart, job.rangeEnd, job.chunkSize);
    }
  }

  lemma PlanBodies(job: Job, data: seq<bv8>, serve: nat -> ReadReply, all: seq<Request>, p: seq<ContentRange>)
    requires FollowsPlan(job, data, serve, [], all, p) && Intact(data, [], all) && |all| == |p|
    ensures forall i :: 0 <= i < |p| ==>
      all[i].range == p[i] && p[i].first <= p[i].last <= |data| &&
      all[i].body == data[p[i].first..p[i].last]
  {
    forall i | 0 <= i < |p|
      ensures all[i].range == p[i] && p[i].first <= p[i].last <= |data| &&
              all[i].body == data[p[i].first..p[i].last]
    {
      PlanBody(job, data, serve, all, p, i);
    }
  }

  lemma PlanBody(job: Job, data: seq<bv8>, serve: nat -> ReadReply, all: seq<Request>, p: seq<ContentRange>, i: nat)
    requires FollowsPlan(job, data, serve, [], all, p) && Intact(data, [], all) && i < |all| == |p|
    ensures all[i].range == p[i] && p[i].first <= p[i].last <= |data| &&
            all[i].body == data[p[i].first..p[i].last]
  {
    assert SentFor(job, data, serve, all[i], p[i - 0]);
    assert all[i].range.first <= all[i].range.last <= |data|;
  }

  /** With a chunk size of zero the loop still terminates: a non-empty
      range gets a single request with an empty body, whose read returned
      zero bytes. */
  lemma ZeroChunkSizeSendsOneEmptyRequest(job: Job, data: seq<bv8>, seekLimit: nat,
                                          serve: nat -> ReadReply, network: nat -> Reply, cursor: nat)
    requires job.chunkSize == 0 && job.rangeStart < job.rangeEnd && job.rangeStart <= seekLimit
    requires serve(job.rangeStart).Serve?
    ensures var r := Upload(job, data, seekLimit, serve, network, cursor);
      |r.sent| == 1 && r.sent[0].body == [] &&
      r.sent[0].range == ContentRange(job.rangeStart, job.rangeStart, job.rangeEnd) &&
      (IsOk(network(0)) ==> r.outcome == Succeeded)
  {
  }

  /** One pass of the loop body of `do_upload` for the chunk at `start`:
      a fresh zeroed buffer as long as the chunk, one read, one request,
      and the check of its reply. `done` says whether the loop ends here,
      and with what outcome. */
  method UploadChunk(job: Job, file: SourceFile, client: Client, start: nat) returns (done: bool, outcome: Outcome)
    requires start < job.rangeEnd && file.cursor == start
    modifies file, client
    ensures var st := Iteration(job, file.data, file.serve, client.network, start, old(client.log));
      (done <==> st.Stop?) &&
      (done ==> st.run == Run(outcome, client.log, file.cursor)) &&
      (!done ==> st.start == file.cursor && st.sent == client.log)
  {
    var end := ChunkEnd(start, job.chunkSize, job.rangeEnd);
    var buf := new bv8[end - start](_ => 0);
    var n := file.Read(buf);
    if n.None? {
      return true, Failed(ReadFailed);
    }
    var body := buf[..];
    assert body == Fetched(file.data, start, n.value) + Zeros(end - start - n.value);
    var req := Request(job.verb, job.url, ContentRange(start, end, job.rangeEnd), body);
    assert req == ChunkRequest(job, file.data, start, n.value);
    var reply := client.Send(req);
    match reply
    case TransportError =>
      return true, Failed(TransportFailed);
    case Response(status, text) =>
      if status != 200 {
        return true, Failed(StatusNot200(status, text.GetOr(EmptyBodyText)));
      }
    if n.value == 0 || n.value < job.chunkSize {
      return true, Succeeded;
    }
    return false, Succeeded;
  }

  /** `do_upload`. The request log is that of a client created for the run;
      the loop keeps the file cursor at `start`. */
  method DoUpload(job: Job, file: SourceFile, network: nat -> Reply) returns (outcome: Outcome, sent: seq<Request>)
    modifies file
    ensures Run(outcome, sent, file.cursor) ==
            Upload(job, file.data, file.seekLimit, file.serve, network, old(file.cursor))
  {
    var client := new Client(network);
    var ok := file.Seek(job.rangeStart);
    if !ok {
      return Failed(SeekFailed), client.log;
    }
    var start := job.rangeStart;
    while start < job.rangeEnd
      invariant file.cursor == start
      invariant client.network == network
      invariant Loop(job, file.data, file.serve, network, start, client.log) ==
                Upload(job, file.data, file.seekLimit, file.serve, network, old(file.cursor))
      decreases job.rangeEnd - start
    {
      var done, result := UploadChunk(job, file, client, start);
      if done {
        return result, client.log;
      }
      start := start + job.chunkSize;
    }
    return Succeeded, client.log;
  }
}
