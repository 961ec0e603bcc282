/** The command line of the uploader (`main`): the scan over the
    arguments with its flags, defaults and early exits, then the checks on
    the file, the byte range and the URL before `do_upload` runs. */
module Cli {
  import opened Wrappers
  import opened Text
  import opened Http
  import opened Source
  import opened Chunking
  import Upload

  /** The chunk size used when no `-c` is given. */
  const DefaultChunkSize: nat := 5000000

  /** Everything the scan collects. */
  datatype Options = Options(path: Option<string>, range: Option<(nat, nat)>, chunkSize: nat,
                             url: Option<string>, verb: Method, printFileBytes: bool)

  /** The options before any argument is seen. */
  const Defaults: Options := Options(None, None, DefaultChunkSize, None, Put, false)

  /** Why the program stopped: each message `main` prints before it exits,
      and the end of an upload. */
  datatype Reason =
    | MissingFilePath(flag: string)
    | InvalidStartRange(flag: string)
    | InvalidEndRange(flag: string)
    | InvalidByteRange(value: string)
    | MissingByteRange(flag: string)
    | InvalidChunkSize(flag: string)
    | MissingUrl(flag: string)
    | InvalidMethod(value: string)
    | MissingMethod(flag: string)
    | HelpRequested
    | VersionRequested
    | UnknownArgument(arg: string)
    | NoFileGiven
    | FileDoesNotExist(path: string)
    | FileOpenFailed
    | RangeBeyondFile(rangeEnd: nat, fileLength: nat)
    | NoUrlGiven
    | Completed
    | UploadFailed(fault: Upload.Fault)

  /** A process exit: `success` is exit status 0, otherwise 1. */
  datatype Exit = Exit(success: bool, reason: Reason)

  /** The exits with status 0: help, version, an unknown argument and a
      finished upload. */
  predicate IsInformational(reason: Reason) {
    reason.HelpRequested? || reason.VersionRequested? || reason.UnknownArgument? || reason.Completed?
  }

  /** What an argument is, by its short or long spelling. */
  datatype Flag = FileFlag | RangeFlag | ChunkFlag | UrlFlag | MethodFlag | FileBytesFlag
                | HelpFlag | VersionFlag | OtherArgument

  function Classify(a: string): Flag {
    if a == "-f" || a == "--file" then FileFlag
    else if a == "-r" || a == "--file-range" then RangeFlag
    else if a == "-c" || a == "--chunk" then ChunkFlag
    else if a == "-u" || a == "--url" then UrlFlag
    else if a == "-m" || a == "--method" then MethodFlag
    else if a == "-fb" || a == "--file-bytes" then FileBytesFlag
    else if a == "-h" || a == "--help" then HelpFlag
    else if a == "-v" || a == "--version" then VersionFlag
    else OtherArgument
  }

  /** The flags that take the next argument as their value. */
  predicate TakesValue(f: Flag) {
    f.FileFlag? || f.RangeFlag? || f.ChunkFlag? || f.UrlFlag? || f.MethodFlag?
  }

  /** The value of `-r`: two unsigned 64-bit numbers around a single '-'.
      A value that does not split into exactly two pieces is reported with
      the value itself, a bad number with the flag. */
  function ParseRange(flag: string, value: string): (r: Result<(nat, nat), Reason>)
    ensures r.Success? ==>
      Count(value, '-') == 1 && r.value.0 < U64Limit && r.value.1 < U64Limit
    ensures r == Failure(InvalidByteRange(value)) <==> Count(value, '-') != 1
    ensures r.Failure? && Count(value, '-') == 1 ==>
      r.error == InvalidStartRange(flag) || r.error == InvalidEndRange(flag)
  {
    var parts := Split(value, '-');
    if |parts| != 2 then Failure(InvalidByteRange(value))
    else
      match (ParseU64(parts[0]), ParseU64(parts[1]))
      case (None, _) => Failure(InvalidStartRange(flag))
      case (Some(_), None) => Failure(InvalidEndRange(flag))
      case (Some(s), Some(e)) => Success((s, e))
  }

  /** Every pair of u64 values is read back from its `start-end` form. */
  lemma ParseRangeRoundTrip(flag: string, s: nat, e: nat)
    requires s < U64Limit && e < U64Limit
    ensures ParseRange(flag, ShowNat(s) + "-" + ShowNat(e)) == Success((s, e))
  {
    var a, b := ShowNat(s), ShowNat(e);
    DigitsHaveNoDash(a);
    DigitsHaveNoDash(b);
    CountZero(a, '-');
    CountZero(b, '-');
    assert a + "-" + b == Join([a, b], '-');
    SplitJoin([a, b], '-');
    ParseU64ShowNat(s);
    ParseU64ShowNat(e);
  }

  /** A `-r` value of two dash-free pieces around one '-' (by SplitOnce,
      every value with one '-' is such) is accepted exactly when both
      pieces parse as u64, and then as the pair of their values; otherwise
      a bad start is reported before a bad end. */
  lemma ParseRangePieces(flag: string, a: string, b: string)
    requires '-' !in a && '-' !in b
    ensures var r := ParseRange(flag, a + "-" + b);
      (r.Success? <==> ParseU64(a).Some? && ParseU64(b).Some?) &&
      (r.Success? ==> r.value == (ParseU64(a).value, ParseU64(b).value)) &&
      (ParseU64(a).None? ==> r == Failure(InvalidStartRange(flag))) &&
      (ParseU64(a).Some? && ParseU64(b).None? ==> r == Failure(InvalidEndRange(flag)))
  {
    assert [a, b][1..] == [b];
    assert a + "-" + b == Join([a, b], '-');
    SplitJoin([a, b], '-');
  }

  /** Where one argument of the scan leads: on to the argument at `next`
      with the options updated, or to an exit. */
  datatype Scanned = Continue(next: nat, opts: Options) | Stopped(exit: Exit)

  /** The effect of the argument at `i` (and of its value, for a flag that
      takes one). */
  function Step(args: seq<string>, i: nat, o: Options): (s: Scanned)
    requires i < |args|
    ensures s.Continue? ==> s.next == i + 1 || s.next == i + 2 <= |args|
    ensures s.Continue? && s.next == i + 2 ==> TakesValue(Classify(args[i]))
    ensures s.Stopped? ==> (s.exit.success <==> IsInformational(s.exit.reason))
  {
    var a := args[i];
    var hasValue := i + 1 < |args|;
    match Classify(a)
    case FileFlag =>
      if hasValue then Continue(i + 2, o.(path := Some(args[i + 1])))
      else Stopped(Exit(false, MissingFilePath(a)))
    case RangeFlag =>
      if hasValue then
        match ParseRange(a, args[i + 1])
        case Success(r) => Continue(i + 2, o.(range := Some(r)))
        case Failure(why) => Stopped(Exit(false, why))
      else Stopped(Exit(false, MissingByteRange(a)))
    case ChunkFlag =>
      if hasValue then
        match ParseU64(args[i + 1])
        case Some(c) => Continue(i + 2, o.(chunkSize := c))
        case None => Stopped(Exit(false, InvalidChunkSize(a)))
      else Continue(i + 1, o)
    case UrlFlag =>
      if hasValue then Continue(i + 2, o.(url := Some(args[i + 1])))
      else Stopped(Exit(false, MissingUrl(a)))
    case MethodFlag =>
      if hasValue then
        match ParseMethod(args[i + 1])
        case Some(m) => Continue(i + 2, o.(verb := m))
        case None => Stopped(Exit(false, InvalidMethod(args[i + 1])))
      else Stopped(Exit(false, MissingMethod(a)))
    case FileBytesFlag => Continue(i + 1, o.(printFileBytes := true))
    case HelpFlag => Stopped(Exit(true, HelpRequested))
    case VersionFlag => Stopped(Exit(true, VersionRequested))
    case OtherArgument => Stopped(Exit(true, UnknownArgument(a)))
  }

  /** The result of the whole scan: the options, or the exit it ran into. */
  datatype ScanResult = Parsed(opts: Options) | Exited(exit: Exit)

  /** The scan from the argument at `i` on, with options `o` so far. */
  function ScanFrom(args: seq<string>, i: nat, o: Options): ScanResult
    decreases |args| - i
  {
    if i >= |args| then Parsed(o)
    else
      match Step(args, i, o)
      case Continue(next, o') => ScanFrom(args, next, o')
      case Stopped(e) => Exited(e)
  }

  /** The scan of the whole command line; the first argument is the
      program's own name. */
  function Scan(args: seq<string>): ScanResult {
    ScanFrom(args, 1, Defaults)
  }

  /** The handling of the value of `-r` in the argument loop: split at
      '-', then parse the start and the end, reporting the first problem. */
  method ReadRange(flag: string, value: string) returns (r: Result<(nat, nat), Reason>)
    ensures r == ParseRange(flag, value)
  {
    var parts := Split(value, '-');
    if |parts| != 2 {
      return Failure(InvalidByteRange(value));
    }
    var start := ParseU64(parts[0]);
    if start.None? {
      return Failure(InvalidStartRange(flag));
    }
    var end := ParseU64(parts[1]);
    if end.None? {
      return Failure(InvalidEndRange(flag));
    }
    return Success((start.value, end.value));
  }

  /** The body of the argument loop of `main`: the match on the argument
      at `i`, updating the options it collects. */
  method ScanArgument(args: seq<string>, i: nat, o: Options) returns (s: Scanned)
    requires i < |args|
    ensures s == Step(args, i, o)
  {
    var a := args[i];
    var opts := o;
    var next := i;
    match Classify(a) {
    case FileFlag =>
      if i + 1 < |args| {
        opts := opts.(path := Some(args[i + 1]));
        next := next + 1;
      } else {
        return Stopped(Exit(false, MissingFilePath(a)));
      }
    case RangeFlag =>
      if i + 1 < |args| {
        var parsed := ReadRange(a, args[i + 1]);
        if parsed.Failure? {
          return Stopped(Exit(false, parsed.error));
        }
        opts := opts.(range := Some(parsed.value));
        next := next + 1;
      } else {
        return Stopped(Exit(false, MissingByteRange(a)));
      }
    case ChunkFlag =>
      if i + 1 < |args| {
        var c := ParseU64(args[i + 1]);
        if c.None? {
          return Stopped(Exit(false, InvalidChunkSize(a)));
        }
        opts := opts.(chunkSize := c.value);
        next := next + 1;
      }
    case UrlFlag =>
      if i + 1 < |args| {
        opts := opts.(url := Some(args[i + 1]));
        next := next + 1;
      } else {
        return Stopped(Exit(false, MissingUrl(a)));
      }
    case MethodFlag =>
      if i + 1 < |args| {
        var m := ParseMethod(args[i + 1]);
        if m.None? {
          return Stopped(Exit(false, InvalidMethod(args[i + 1])));
        }
        opts := opts.(verb := m.value);
        next := next + 1;
      } else {
        return Stopped(Exit(false, MissingMethod(a)));
      }
    case FileBytesFlag =>
      opts := opts.(printFileBytes := true);
    case HelpFlag =>
      return Stopped(Exit(true, HelpRequested));
    case VersionFlag =>
      return Stopped(Exit(true, VersionRequested));
    case OtherArgument =>
      return Stopped(Exit(true, UnknownArgument(a)));
    }
    return Continue(next + 1, opts);
  }

  /** The argument loop of `main`: from the argument after the program
      name, one argument (with its value) at a time, until the arguments
      run out or one of them ends the program. */
  method ParseArgs(args: seq<string>) returns (r: ScanResult)
    ensures r == Scan(args)
  {
    var opts := Defaults;
    var i := 1;
    while i < |args|
      invariant ScanFrom(args, i, opts) == Scan(args)
      decreases |args| - i
    {
      var s := ScanArgument(args, i, opts);
      match s {
      case Stopped(e) =>
        return Exited(e);
      case Continue(next, o) =>
        i, opts := next, o;
      }
    }
    return Parsed(opts);
  }

  /** A flag that takes a value but stands last gets none: `-c` is then
      ignored and the scan ends with the options as they were, while every
      other such flag ends the program with a failure naming the flag. */
  lemma TrailingFlag(args: seq<string>, o: Options)
    requires |args| > 0 && TakesValue(Classify(args[|args| - 1]))
    ensures var a := args[|args| - 1];
      var r := ScanFrom(args, |args| - 1, o);
      (Classify(a).ChunkFlag? ==> r == Parsed(o)) &&
      (Classify(a).FileFlag? ==> r == Exited(Exit(false, MissingFilePath(a)))) &&
      (Classify(a).RangeFlag? ==> r == Exited(Exit(false, MissingByteRange(a)))) &&
      (Classify(a).UrlFlag? ==> r == Exited(Exit(false, MissingUrl(a)))) &&
      (Classify(a).MethodFlag? ==> r == Exited(Exit(false, MissingMethod(a))))
  {
  }

  /** An argument that is no flag ends the program at once, with success,
      whatever follows it. */
  lemma UnknownArgumentExits(args: seq<string>, i: nat, o: Options)
    requires i < |args| && Classify(args[i]).OtherArgument?
    ensures ScanFrom(args, i, o) == Exited(Exit(true, UnknownArgument(args[i])))
  {
  }

  /** The value `v` is one the flag `a` accepts: a range, a chunk size or
      a method that parses; any path or URL. */
  predicate Accepts(a: string, v: string) {
    match Classify(a)
    case RangeFlag => ParseRange(a, v).Success?
    case ChunkFlag => ParseU64(v).Some?
    case MethodFlag => ParseMethod(v).Some?
    case _ => true
  }

  /** `o` and `o'` agree on every option except the one flag `f` sets. */
  predicate DifferOnlyIn(o: Options, o': Options, f: Flag) {
    match f
    case FileFlag => o.(path := o'.path) == o'
    case RangeFlag => o.(range := o'.range) == o'
    case ChunkFlag => o.(chunkSize := o'.chunkSize) == o'
    case UrlFlag => o.(url := o'.url) == o'
    case MethodFlag => o.(verb := o'.verb) == o'
    case _ => o == o'
  }

  /** The scan from `k` with options `o` reaches the argument at `j`
      without stopping before it. */
  predicate Visits(args: seq<string>, k: nat, o: Options, j: nat)
    decreases |args| - k
  {
    k == j ||
    (k < j && k < |args| && Step(args, k, o).Continue? &&
     Visits(args, Step(args, k, o).next, Step(args, k, o).opts, j))
  }

  /** Two option sets that differ only in what `f` sets take the same step
      on every argument and still differ only there, unless the argument is
      `f` with an accepted value, which makes them equal. */
  lemma StepDifferOnlyIn(args: seq<string>, k: nat, o: Options, o': Options, f: Flag)
    requires k < |args| && TakesValue(f) && DifferOnlyIn(o, o', f)
    ensures var s, s' := Step(args, k, o), Step(args, k, o');
      (s.Stopped? <==> s'.Stopped?) &&
      (s.Stopped? ==> s.exit == s'.exit) &&
      (s.Continue? ==> s.next == s'.next && DifferOnlyIn(s.opts, s'.opts, f)) &&
      (s.Continue? && Classify(args[k]) == f && s.next == k + 2 ==> s.opts == s'.opts)
  {
  }

  /** A flag with an accepted value moves the scan on past the value and
      changes only its own option. */
  lemma AcceptedValueTaken(args: seq<string>, i: nat, o: Options)
    requires i + 1 < |args| && TakesValue(Classify(args[i])) && Accepts(args[i], args[i + 1])
    ensures var s := Step(args, i, o);
      s.Continue? && s.next == i + 2 && DifferOnlyIn(o, s.opts, Classify(args[i]))
  {
  }

  /** Options that differ only in what `f` sets scan alike from `k` on
      when the scan reaches `f` with an accepted value at `j`. */
  lemma {:induction false} OverriddenAt(args: seq<string>, k: nat, o: Options, o': Options, j: nat, f: Flag)
    requires j + 1 < |args| && Classify(args[j]) == f && TakesValue(f) && Accepts(args[j], args[j + 1])
    requires DifferOnlyIn(o, o', f) && Visits(args, k, o, j)
    ensures ScanFrom(args, k, o) == ScanFrom(args, k, o')
    decreases |args| - k
  {
    StepDifferOnlyIn(args, k, o, o', f);
    if k < j {
      var s, s' := Step(args, k, o), Step(args, k, o');
      OverriddenAt(args, s.next, s.opts, s'.opts, j, f);
    } else {
      AcceptedValueTaken(args, k, o);
    }
  }

  /** The same flag given twice with accepted values: the later value
      wins, as if the earlier flag and its value had not been there,
      wherever the later one stands, as long as the scan reaches it. */
  lemma LaterFlagOverrides(args: seq<string>, i: nat, j: nat, o: Options)
    requires i + 2 <= j && j + 1 < |args|
    requires TakesValue(Classify(args[i])) && Classify(args[j]) == Classify(args[i])
    requires Accepts(args[i], args[i + 1]) && Accepts(args[j], args[j + 1])
    requires Visits(args, i + 2, o, j)
    ensures ScanFrom(args, i, o) == ScanFrom(args, i + 2, o)
  {
    var f := Classify(args[i]);
    AcceptedValueTaken(args, i, o);
    var o' := Step(args, i, o).opts;
    assert ScanFrom(args, i, o) == ScanFrom(args, i + 2, o');
    OverriddenAt(args, i + 2, o, o', j, f);
  }

  /** The options the scan ends with hold values that fit a u64, as the
      source's `u64` variables do. */
  predicate FitsU64(o: Options) {
    o.chunkSize < U64Limit &&
    (o.range.Some? ==> o.range.value.0 < U64Limit && o.range.value.1 < U64Limit)
  }

  lemma {:induction false} ScanFitsU64(args: seq<string>, i: nat, o: Options)
    requires FitsU64(o)
    ensures ScanFrom(args, i, o).Parsed? ==> FitsU64(ScanFrom(args, i, o).opts)
    decreases |args| - i
  {
    if i < |args| {
      match Step(args, i, o)
      case Continue(next, o') =>
        assert FitsU64(o');
        ScanFitsU64(args, next, o');
      case Stopped(_) =>
    }
  }

  /** An exit during the scan has status 0 exactly for help, version and
      an unknown argument. */
  lemma {:induction false} ScanExitStatus(args: seq<string>, i: nat, o: Options)
    ensures ScanFrom(args, i, o).Exited? ==>
      var e := ScanFrom(args, i, o).exit;
      (e.success <==> e.reason.HelpRequested? || e.reason.VersionRequested? || e.reason.UnknownArgument?)
    decreases |args| - i
  {
    if i < |args| {
      match Step(args, i, o)
      case Continue(next, o') => ScanExitStatus(args, next, o');
      case Stopped(e) =>
    }
  }

  /** With no arguments after the program name the scan keeps the
      defaults: no file, no range, chunks of 5000000 bytes, no URL, PUT. */
  lemma NoArgumentsKeepDefaults(program: string)
    ensures Scan([program]) == Parsed(Options(None, None, 5000000, None, Method("PUT"), false))
  {
  }

  /** What the file system says about a path: it does not exist, it
      cannot be opened, or it is opened. */
  datatype FileLookup = Absent | Unopenable | Opened

  /** The checks `main` makes after the scan, in its order: a file was
      given, exists and opens; the range, if given, ends within the file
      (`fileLength` bytes); a URL was given. The range defaults to the
      whole file. */
  function Resolve(o: Options, lookup: string -> FileLookup, fileLength: nat): (r: Result<Upload.Job, Exit>)
    ensures r.Success? ==>
      o.path.Some? && lookup(o.path.value) == Opened && o.url == Some(r.value.url) &&
      r.value.chunkSize == o.chunkSize && r.value.verb == o.verb &&
      r.value.rangeEnd <= fileLength &&
      (o.range.Some? ==> (r.value.rangeStart, r.value.rangeEnd) == o.range.value) &&
      (o.range.None? ==> r.value.rangeStart == 0 && r.value.rangeEnd == fileLength)
    ensures r.Failure? ==> !r.error.success
    ensures o.path.Some? && lookup(o.path.value) == Opened ==>
      (r.Failure? && r.error.reason.RangeBeyondFile? <==> o.range.Some? && o.range.value.1 > fileLength)
    ensures r.Failure? && r.error.reason.RangeBeyondFile? ==>
      o.range.Some? && r.error.reason == RangeBeyondFile(o.range.value.1, fileLength)
    ensures (o.path.Some? && lookup(o.path.value) == Opened && o.url.Some? &&
             (o.range.None? || o.range.value.1 <= fileLength)) ==> r.Success?
  {
    match o.path
    case None => Failure(Exit(false, NoFileGiven))
    case Some(p) =>
      match lookup(p)
      case Absent => Failure(Exit(false, FileDoesNotExist(p)))
      case Unopenable => Failure(Exit(false, FileOpenFailed))
      case Opened =>
        if o.range.Some? && o.range.value.1 > fileLength then
          Failure(Exit(false, RangeBeyondFile(o.range.value.1, fileLength)))
        else
          match o.url
          case None => Failure(Exit(false, NoUrlGiven))
          case Some(u) =>
            var (s, e) := if o.range.Some? then o.range.value else (0, fileLength);
            Success(Upload.Job(s, e, o.chunkSize, u, o.verb))
  }

  /** How a run of the program ended: its exit, the requests it sent and
      where the file cursor was left. */
  datatype Session = Session(exit: Exit, sent: seq<Request>, cursor: nat)

  /** The exit `do_upload` ends with. */
  function UploadExit(outcome: Upload.Outcome): (e: Exit)
    ensures e.success <==> outcome == Upload.Succeeded
  {
    match outcome
    case Succeeded => Exit(true, Completed)
    case Failed(f) => Exit(false, UploadFailed(f))
  }

  /** A whole run of the program on `args`, where `lookup` answers for
      the path, the file opened holds `data`, and the file and the server
      behave as `seekLimit`, `serve` and `network` say. */
  function Command(args: seq<string>, lookup: string -> FileLookup, data: seq<bv8>, seekLimit: nat,
                   serve: nat -> ReadReply, network: nat -> Reply, cursor: nat): Session
  {
    match Scan(args)
    case Exited(e) => Session(e, [], cursor)
    case Parsed(o) =>
      match Resolve(o, lookup, |data|)
      case Failure(e) => Session(e, [], cursor)
      case Success(job) =>
        var r := Upload.Upload(job, data, seekLimit, serve, network, cursor);
        Session(UploadExit(r.outcome), r.sent, r.cursor)
  }

  /** Nothing is sent unless the arguments are accepted, and every request
      the program sends covers bytes inside the file and inside the range
      that was asked for, names the range end as total, and uses the method
      and URL given on the command line. */
  lemma RequestsStayInFile(args: seq<string>, lookup: string -> FileLookup, data: seq<bv8>, seekLimit: nat,
                           serve: nat -> ReadReply, network: nat -> Reply, cursor: nat)
    ensures var c := Command(args, lookup, data, seekLimit, serve, network, cursor);
      c.sent != [] ==>
        Scan(args).Parsed? && Resolve(Scan(args).opts, lookup, |data|).Success? &&
        var job := Resolve(Scan(args).opts, lookup, |data|).value;
        forall i :: 0 <= i < |c.sent| ==>
          job.rangeStart <= c.sent[i].range.first <= c.sent[i].range.last <= job.rangeEnd <= |data| &&
          c.sent[i].range.total == job.rangeEnd &&
          c.sent[i].verb == job.verb && c.sent[i].url == job.url
  {
    var c := Command(args, lookup, data, seekLimit, serve, network, cursor);
    if c.sent != [] {
      var job := Resolve(Scan(args).opts, lookup, |data|).value;
      var r := Upload.Upload(job, data, seekLimit, serve, network, cursor);
      assert c.sent == r.sent;
      Upload.RequestsFollowPlan(job, data, seekLimit, serve, network, cursor);
      var p := Plan(job.rangeStart, job.rangeEnd, job.chunkSize);
      PlanBounds(job.rangeStart, job.rangeEnd, job.chunkSize);
      forall i | 0 <= i < |c.sent|
        ensures job.rangeStart <= c.sent[i].range.first <= c.sent[i].range.last <= job.rangeEnd
      {
        assert c.sent[i].range == p[i];
      }
    }
  }

  /** `main` after the scan: open the file, check the range and the URL,
      and run `do_upload` on the opened file. */
  method RunCommand(args: seq<string>, lookup: string -> FileLookup, file: SourceFile, network: nat -> Reply)
    returns (exit: Exit, sent: seq<Request>)
    modifies file
    ensures Session(exit, sent, file.cursor) ==
            Command(args, lookup, file.data, file.seekLimit, file.serve, network, old(file.cursor))
  {
    var scanned := ParseArgs(args);
    if scanned.Exited? {
      return scanned.exit, [];
    }
    var job := Resolve(scanned.opts, lookup, |file.data|);
    if job.Failure? {
      return job.error, [];
    }
    var outcome;
    outcome, sent := Upload.DoUpload(job.value, file, network);
    exit := UploadExit(outcome);
  }
}
