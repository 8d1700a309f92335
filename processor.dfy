/** The batch processor (src/processor.py): one file's pass through parse, patient
    lookup, duplicate check and upload; a worker's loop over its files; the
    round-robin split of a directory over workers; and the tally of results into the
    report's buckets. What the server answers at each stage is an input. */
module Processor {
  import opened Wrappers
  import opened Text
  import opened Types
  import opened Parser
  import opened Api

  /** Seconds a worker pauses before each file after its first, outside a dry run. */
  const InterFileSleep: real := 2.0

  /** The `category` string of a result; a success keeps the default, "failed". */
  datatype Category = CategoryFailed | CategorySkipped | CategoryDuplicate

  /** `_FileResult` */
  datatype FileResult = FileResult(
    filename: string,
    succeeded: bool,
    error: Option<FileError>,
    category: Category,
    documentId: Option<int>)

  /** Which server calls one file's processing makes, and whether the file is moved to
      the destination directory. */
  datatype Effects = Effects(lookedUp: bool, checkedDuplicate: bool, uploaded: bool, moved: bool)

  /** A file's processing returns a result, or an exception escapes it (and its
      worker). */
  datatype FileOutcome =
    | Finished(result: FileResult, effects: Effects)
    | Propagated(effects: Effects)

  /** What every file of a run shares: the metatag table, the compiled template's
      matcher, the dry-run flag and whether a destination directory is set. */
  datatype Settings = Settings(
    metatags: map<string, string>,
    matcher: string -> Option<Groups>,
    dryRun: bool,
    hasDest: bool)

  /** One file: its name, and what find_patient, is_duplicate and upload_document
      answer for it if they are called. */
  datatype FileInput = FileInput(
    filename: string,
    lookup: Called<PatientLookupResult>,
    duplicate: Called<bool>,
    upload: Called<UploadResult>)

  const NoEffects := Effects(false, false, false, false)
  const LookupOnly := Effects(true, false, false, false)
  const LookupAndCheck := Effects(true, true, false, false)

  function ErrorResult(filename: string, reason: FileErrorReason, detail: Option<string>, category: Category): FileResult {
    FileResult(filename, false, Some(FileError(filename, reason, detail)), category, None)
  }

  /** `str(exc)` of a RateLimitError is its message. */
  function RateLimitedResult(filename: string, e: RateLimitError): FileResult {
    ErrorResult(filename, RateLimited, Some(e.message), CategoryFailed)
  }

  function DuplicateDetail(patientId: int, date: string, description: string): string {
    "patient " + IntToString(patientId) + ", date " + date + ", description '" + description + "'"
  }

  /** A result is either a success without an error or a failure with one. */
  predicate WellFormed(r: FileResult) {
    r.succeeded <==> r.error.None?
  }

  /** `_process_single_file` after parsing: the stages given the parse's outcome. A
      RateLimitError at any stage is a rate-limited failure; a RequestException at
      lookup or duplicate check is an upload failure with a prefixed detail; any other
      exception, and any exception but a RateLimitError from the upload, escapes. */
  function Handle(f: FileInput, parse: ParseOutcome, dryRun: bool, hasDest: bool): (r: FileOutcome)
    ensures r.effects.lookedUp <==> parse.Parsed?
    ensures r.effects.checkedDuplicate ==> r.effects.lookedUp && f.lookup.Returned? && f.lookup.value.Found?
    ensures r.effects.uploaded ==> r.effects.checkedDuplicate && f.duplicate == Returned(false) && !dryRun
    ensures r.effects.moved <==> r.effects.uploaded && hasDest && r.Finished? && r.result.succeeded
    ensures r.Finished? ==> r.result.filename == f.filename && WellFormed(r.result)
    ensures r.Finished? && r.result.error.Some? ==> r.result.error.value.filename == f.filename
  {
    match parse
    case Raised(_) => Propagated(NoEffects)
    case NotParsed => Finished(ErrorResult(f.filename, ParseFailed, None, CategorySkipped), NoEffects)
    case Parsed(p) =>
      match f.lookup
      case Threw(RateLimit(e)) => Finished(RateLimitedResult(f.filename, e), LookupOnly)
      case Threw(RequestFailed(m)) =>
        Finished(ErrorResult(f.filename, UploadFailed, Some("patient lookup failed: " + m), CategoryFailed), LookupOnly)
      case Threw(Unexpected(_)) => Propagated(LookupOnly)
      case Returned(NotFound) => Finished(ErrorResult(f.filename, PatientNotFound, None, CategoryFailed), LookupOnly)
      case Returned(MultipleMatches(d)) =>
        Finished(ErrorResult(f.filename, PatientMultipleMatches, Some(d), CategoryFailed), LookupOnly)
      case Returned(Found(patientId, _)) =>
        match f.duplicate
        case Threw(RateLimit(e)) => Finished(RateLimitedResult(f.filename, e), LookupAndCheck)
        case Threw(RequestFailed(m)) =>
          Finished(ErrorResult(f.filename, UploadFailed, Some("duplicate check failed: " + m), CategoryFailed), LookupAndCheck)
        case Threw(Unexpected(_)) => Propagated(LookupAndCheck)
        case Returned(true) =>
          Finished(ErrorResult(f.filename, Duplicate, Some(DuplicateDetail(patientId, p.date, p.description)), CategoryDuplicate),
                   LookupAndCheck)
        case Returned(false) =>
          if dryRun then Finished(FileResult(f.filename, true, None, CategoryFailed, None), LookupAndCheck)
          else
            var attempted := Effects(true, true, true, false);
            match f.upload
            case Threw(RateLimit(e)) => Finished(RateLimitedResult(f.filename, e), attempted)
            case Threw(_) => Propagated(attempted)
            case Returned(UploadSucceeded(id)) =>
              Finished(FileResult(f.filename, true, None, CategoryFailed, id), Effects(true, true, true, hasDest))
            case Returned(UploadRejected(d)) =>
              Finished(ErrorResult(f.filename, UploadFailed, Some(d), CategoryFailed), attempted)
  }

  /** `_process_single_file`: parse the filename, then the stages. Every result is
      the file's own and well formed. */
  function ProcessFile(s: Settings, f: FileInput): (r: FileOutcome)
    ensures r.Finished? ==> r.result.filename == f.filename && WellFormed(r.result)
  {
    Handle(f, ParseFilename(f.filename, s.metatags, s.matcher), s.dryRun, s.hasDest)
  }

  /** The patient is looked up exactly for a file name that parses; one that does not
      parse is skipped. */
  lemma {:induction false} ProcessFileStages(s: Settings, f: FileInput)
    ensures ProcessFile(s, f).effects.lookedUp <==> ParseFilename(f.filename, s.metatags, s.matcher).Parsed?
    ensures ParseFilename(f.filename, s.metatags, s.matcher).NotParsed? ==>
      ProcessFile(s, f) == Finished(ErrorResult(f.filename, ParseFailed, None, CategorySkipped), NoEffects)
  {
  }

  /** `_process_single_file` as written. ParsedFilename (src/types.py:37-44) declares
      no `dob` field, so pydantic's default of ignoring extra arguments drops the
      `dob=` that parse_filename passes, and the read of `parsed.dob` before the lookup
      raises AttributeError outside any try. */
  function ProcessFileAsWritten(s: Settings, f: FileInput): FileOutcome {
    match ParseFilename(f.filename, s.metatags, s.matcher)
    case Parsed(_) => Propagated(NoEffects)
    case _ => ProcessFile(s, f)
  }

  /** The discrepancy: as written every file name that parses makes the exception
      escape before any server call, where the intended pass looks the patient up. */
  lemma {:induction false} DroppedDobRaises(s: Settings, f: FileInput)
    requires ParseFilename(f.filename, s.metatags, s.matcher).Parsed?
    ensures ProcessFileAsWritten(s, f) == Propagated(NoEffects)
    ensures ProcessFile(s, f).effects.lookedUp
  {
  }

  /** Apart from that read, the code as written and the intended pass agree. */
  lemma {:induction false} DroppedDobOnlyParsed(s: Settings, f: FileInput)
    requires !ParseFilename(f.filename, s.metatags, s.matcher).Parsed?
    ensures ProcessFileAsWritten(s, f) == ProcessFile(s, f)
  {
  }

  predicate Crashes(s: Settings, f: FileInput) {
    ProcessFile(s, f).Propagated?
  }

  /** A filename that does not parse is skipped, and no server call is made. */
  lemma ParseFailureSkips(f: FileInput, parse: ParseOutcome, dryRun: bool, hasDest: bool)
    requires parse.NotParsed?
    ensures Handle(f, parse, dryRun, hasDest) == Finished(ErrorResult(f.filename, ParseFailed, None, CategorySkipped), NoEffects)
  {
  }

  /** A patient not found, or found more than once, fails the file with the lookup's
      detail, before any duplicate check or upload. */
  lemma LookupMissFails(f: FileInput, parse: ParseOutcome, dryRun: bool, hasDest: bool)
    requires parse.Parsed?
    requires f.lookup.Returned? && !f.lookup.value.Found?
    ensures Handle(f, parse, dryRun, hasDest).Finished? && Handle(f, parse, dryRun, hasDest).effects == LookupOnly
    ensures Handle(f, parse, dryRun, hasDest).result.category == CategoryFailed
    ensures Handle(f, parse, dryRun, hasDest).result.error ==
      Some(FileError(f.filename,
                     if f.lookup.value.NotFound? then PatientNotFound else PatientMultipleMatches,
                     if f.lookup.value.NotFound? then None else Some(f.lookup.value.detail)))
  {
  }

  /** A rate limit at whichever stage is reached first gives a rate-limited failure
      carrying the error's message, which the tally never counts as failed. */
  lemma RateLimitAnyStage(f: FileInput, parse: ParseOutcome, dryRun: bool, hasDest: bool, e: RateLimitError)
    requires parse.Parsed?
    requires f.lookup == Threw(RateLimit(e)) ||
             (f.lookup.Returned? && f.lookup.value.Found? &&
              (f.duplicate == Threw(RateLimit(e)) ||
               (f.duplicate == Returned(false) && !dryRun && f.upload == Threw(RateLimit(e)))))
    ensures Handle(f, parse, dryRun, hasDest) == Finished(RateLimitedResult(f.filename, e), Handle(f, parse, dryRun, hasDest).effects)
    ensures BucketOf(Handle(f, parse, dryRun, hasDest).result) == RateLimitedBucket
  {
  }

  /** A transport error at lookup or duplicate check fails the file with a detail
      naming the stage; one from the upload escapes. */
  lemma TransportErrors(f: FileInput, parse: ParseOutcome, dryRun: bool, hasDest: bool, m: string)
    requires parse.Parsed?
    ensures f.lookup == Threw(RequestFailed(m)) ==>
      Handle(f, parse, dryRun, hasDest).Finished? &&
      Handle(f, parse, dryRun, hasDest).result.error == Some(FileError(f.filename, UploadFailed, Some("patient lookup failed: " + m)))
    ensures f.lookup.Returned? && f.lookup.value.Found? && f.duplicate == Threw(RequestFailed(m)) ==>
      Handle(f, parse, dryRun, hasDest).Finished? &&
      Handle(f, parse, dryRun, hasDest).result.error == Some(FileError(f.filename, UploadFailed, Some("duplicate check failed: " + m)))
    ensures f.lookup.Returned? && f.lookup.value.Found? && f.duplicate == Returned(false) && !dryRun &&
            f.upload == Threw(RequestFailed(m)) ==>
      Handle(f, parse, dryRun, hasDest).Propagated?
  {
  }

  /** A duplicate is reported as one and never uploaded; in a dry run the duplicate
      check still runs, and a file that passes it succeeds without upload or move. */
  lemma DuplicateAndDryRun(f: FileInput, parse: ParseOutcome, dryRun: bool, hasDest: bool)
    requires parse.Parsed?
    requires f.lookup.Returned? && f.lookup.value.Found?
    ensures f.duplicate == Returned(true) ==>
      Handle(f, parse, dryRun, hasDest).Finished? && Handle(f, parse, dryRun, hasDest).result.category == CategoryDuplicate &&
      !Handle(f, parse, dryRun, hasDest).effects.uploaded
    ensures dryRun ==> !Handle(f, parse, dryRun, hasDest).effects.uploaded && !Handle(f, parse, dryRun, hasDest).effects.moved
    ensures dryRun && f.duplicate == Returned(false) ==>
      Handle(f, parse, dryRun, hasDest) == Finished(FileResult(f.filename, true, None, CategoryFailed, None), LookupAndCheck)
  {
  }

  /** A real upload's answer decides the result: success carries the document id and
      moves the file when a destination is set; a rejection keeps the server's detail
      and leaves the file where it is. */
  lemma UploadAnswers(f: FileInput, parse: ParseOutcome, dryRun: bool, hasDest: bool)
    requires parse.Parsed?
    requires f.lookup.Returned? && f.lookup.value.Found? && f.duplicate == Returned(false) && !dryRun
    ensures f.upload.Returned? && f.upload.value.UploadSucceeded? ==>
      Handle(f, parse, dryRun, hasDest) == Finished(FileResult(f.filename, true, None, CategoryFailed, f.upload.value.documentId),
                                    Effects(true, true, true, hasDest))
    ensures f.upload.Returned? && f.upload.value.UploadRejected? ==>
      Handle(f, parse, dryRun, hasDest).Finished? && !Handle(f, parse, dryRun, hasDest).effects.moved &&
      Handle(f, parse, dryRun, hasDest).result.error == Some(FileError(f.filename, UploadFailed, Some(f.upload.value.detail)))
  {
  }

  // ---------------------------------------------------------------------------
  // One worker
  // ---------------------------------------------------------------------------

  /** A worker's results in input order, the pauses it makes, and whether an
      exception ended it. */
  datatype WorkerRun = WorkerRun(results: seq<FileResult>, sleeps: nat, crashed: bool)

  /** What processing each file of a worker's list gives. */
  function OutcomesOf(s: Settings, files: seq<FileInput>): (r: seq<FileOutcome>)
    ensures |r| == |files|
    ensures forall k :: 0 <= k < |files| ==> r[k] == ProcessFile(s, files[k])
  {
    seq(|files|, k requires 0 <= k < |files| => ProcessFile(s, files[k]))
  }

  /** The worker's run from file i on, given each file's outcome: a pause before every
      file but the first unless in a dry run, and a stop at the first file whose
      processing raises. */
  function WorkerFrom(outcomes: seq<FileOutcome>, dryRun: bool, i: nat): WorkerRun
    requires i <= |outcomes|
    decreases |outcomes| - i
  {
    if i == |outcomes| then WorkerRun([], 0, false)
    else
      var pause := if i > 0 && !dryRun then 1 else 0;
      match outcomes[i]
      case Propagated(_) => WorkerRun([], pause, true)
      case Finished(r, _) =>
        var rest := WorkerFrom(outcomes, dryRun, i + 1);
        WorkerRun([r] + rest.results, pause + rest.sleeps, rest.crashed)
  }

  function Extend(results: seq<FileResult>, sleeps: nat, rest: WorkerRun): WorkerRun {
    WorkerRun(results + rest.results, sleeps + rest.sleeps, rest.crashed)
  }

  /** `_worker_task` after its start-up jitter. */
  method WorkerTask(s: Settings, files: seq<FileInput>) returns (results: seq<FileResult>, sleeps: nat, crashed: bool)
    ensures WorkerRun(results, sleeps, crashed) == WorkerFrom(OutcomesOf(s, files), s.dryRun, 0)
  {
    ghost var outcomes := OutcomesOf(s, files);
    results := [];
    sleeps := 0;
    crashed := false;
    var i := 0;
    while i < |files|
      invariant 0 <= i <= |files|
      invariant WorkerFrom(outcomes, s.dryRun, 0) == Extend(results, sleeps, WorkerFrom(outcomes, s.dryRun, i))
    {
      WorkerStep(outcomes, s.dryRun, i, results, sleeps);
      if i > 0 && !s.dryRun {
        sleeps := sleeps + 1;
      }
      var outcome := ProcessFile(s, files[i]);
      assert outcome == outcomes[i];
      if outcome.Propagated? {
        crashed := true;
        return;
      }
      results := results + [outcome.result];
      i := i + 1;
    }
    assert results + [] == results;
  }

  /** One file of the worker's loop: a crash ends the run, otherwise the result is
      appended. */
  lemma WorkerStep(outcomes: seq<FileOutcome>, dryRun: bool, i: nat, results: seq<FileResult>, sleeps: nat)
    requires i < |outcomes|
    ensures outcomes[i].Propagated? ==>
      Extend(results, sleeps, WorkerFrom(outcomes, dryRun, i)) ==
      WorkerRun(results, sleeps + (if i > 0 && !dryRun then 1 else 0), true)
    ensures outcomes[i].Finished? ==>
      Extend(results, sleeps, WorkerFrom(outcomes, dryRun, i)) ==
      Extend(results + [outcomes[i].result], sleeps + (if i > 0 && !dryRun then 1 else 0), WorkerFrom(outcomes, dryRun, i + 1))
  {
    if outcomes[i].Propagated? {
      assert results + [] == results;
    } else {
      var rest := WorkerFrom(outcomes, dryRun, i + 1);
      assert results + ([outcomes[i].result] + rest.results) == (results + [outcomes[i].result]) + rest.results;
    }
  }

  /** Pauses a crash-free worker makes from file i on. */
  function Pauses(dryRun: bool, n: nat, i: nat): nat {
    if dryRun || i >= n then 0 else if i == 0 then n - 1 else n - i
  }

  /** Without an escaping exception a worker returns one result per file, in input
      order, after n - 1 pauses (none in a dry run). */
  lemma {:induction false} WorkerAllFinish(outcomes: seq<FileOutcome>, dryRun: bool, i: nat)
    requires i <= |outcomes|
    requires forall k :: i <= k < |outcomes| ==> outcomes[k].Finished?
    ensures !WorkerFrom(outcomes, dryRun, i).crashed
    ensures |WorkerFrom(outcomes, dryRun, i).results| == |outcomes| - i
    ensures forall k :: 0 <= k < |outcomes| - i ==> WorkerFrom(outcomes, dryRun, i).results[k] == outcomes[i + k].result
    ensures WorkerFrom(outcomes, dryRun, i).sleeps == Pauses(dryRun, |outcomes|, i)
    decreases |outcomes| - i
  {
    if i < |outcomes| {
      var next := i + 1;
      WorkerAllFinish(outcomes, dryRun, next);
      var rest := WorkerFrom(outcomes, dryRun, next);
      forall k | 0 <= k < |outcomes| - i
        ensures WorkerFrom(outcomes, dryRun, i).results[k] == outcomes[i + k].result
      {
        if k > 0 {
          var k' := k - 1;
          assert WorkerFrom(outcomes, dryRun, i).results[k] == rest.results[k'];
          assert i + k == next + k';
        }
      }
    }
  }

  /** A worker ends by an exception exactly when one of its files raises. */
  lemma {:induction false} WorkerCrashes(outcomes: seq<FileOutcome>, dryRun: bool, i: nat)
    requires i <= |outcomes|
    ensures WorkerFrom(outcomes, dryRun, i).crashed <==> exists k :: i <= k < |outcomes| && outcomes[k].Propagated?
    decreases |outcomes| - i
  {
    if i < |outcomes| {
      var next := i + 1;
      WorkerCrashes(outcomes, dryRun, next);
      if outcomes[i].Propagated? {
        assert i <= i < |outcomes| && outcomes[i].Propagated?;
      }
    }
  }

  // ---------------------------------------------------------------------------
  // The round-robin split
  // ---------------------------------------------------------------------------

  /** Files in order, file i appended to chunk i mod n. */
  function RoundRobin<T>(files: seq<T>, n: nat): (r: seq<seq<T>>)
    requires n >= 1
    ensures |r| == n
    decreases |files|
  {
    if |files| == 0 then EmptyChunks(n)
    else
      var k := |files| - 1;
      var prev := RoundRobin(files[..k], n);
      prev[k % n := prev[k % n] + [files[k]]]
  }

  /** The chunking loop of process_directory. With no workers and at least one file,
      `i % num_workers` divides by zero, and with a negative count it indexes an empty
      list; both raise. */
  method Partition<T>(files: seq<T>, n: int) returns (chunks: array<seq<T>>, ok: bool)
    ensures fresh(chunks)
    ensures ok <==> n >= 1 || |files| == 0
    ensures ok ==> chunks.Length == (if n >= 1 then n else 0)
    ensures ok && n >= 1 ==> chunks[..] == RoundRobin(files, n)
  {
    chunks := new seq<T>[if n >= 1 then n else 0](_ => []);
    if n < 1 {
      return chunks, |files| == 0;
    }
    assert chunks[..] == RoundRobin(files[..0], n);
    var i := 0;
    while i < |files|
      invariant 0 <= i <= |files|
      invariant chunks.Length == n
      invariant chunks[..] == RoundRobin(files[..i], n)
      modifies chunks
    {
      assert files[..i + 1][..i] == files[..i];
      chunks[i % n] := chunks[i % n] + [files[i]];
      i := i + 1;
    }
    assert files[..|files|] == files;
    ok := true;
  }

  /** Division with remainder has one answer. */
  lemma DivModUnique(a: nat, n: nat, q: nat, r: nat)
    requires n >= 1 && r < n && a == q * n + r
    ensures a / n == q && a % n == r
  {
    var q', r' := a / n, a % n;
    assert q' * n + r' == q * n + r;
    if q' > q {
      MulAtLeast(q' - q, n);
      Distribute(q', q, n);
      assert false;
    } else if q' < q {
      MulAtLeast(q - q', n);
      Distribute(q, q', n);
      assert false;
    }
  }

  lemma Distribute(a: int, b: int, n: int)
    ensures (a - b) * n == a * n - b * n
  {
  }

  lemma MulAtLeast(d: int, n: nat)
    requires d >= 1
    ensures d * n >= n
  {
  }

  lemma DivModStep(k: nat, n: nat)
    requires n >= 1
    ensures k % n == n - 1 ==> (k + 1) % n == 0 && (k + 1) / n == k / n + 1
    ensures k % n < n - 1 ==> (k + 1) % n == k % n + 1 && (k + 1) / n == k / n
  {
    var q, r := k / n, k % n;
    if r == n - 1 {
      DivModUnique(k + 1, n, q + 1, 0);
    } else {
      DivModUnique(k + 1, n, q, r + 1);
    }
  }

  /** Chunk c holds |files| / n files, one more for the first |files| mod n chunks, so
      chunk sizes differ by at most one. */
  lemma {:induction false} RoundRobinSizes<T>(files: seq<T>, n: nat, c: nat)
    requires n >= 1 && c < n
    ensures |RoundRobin(files, n)[c]| == |files| / n + (if c < |files| % n then 1 else 0)
    decreases |files|
  {
    if |files| > 0 {
      var k := |files| - 1;
      RoundRobinSizes(files[..k], n, c);
      DivModStep(k, n);
    }
  }

  /** File i is element i / n of chunk i mod n. */
  lemma {:induction false} RoundRobinPlace<T>(files: seq<T>, n: nat, i: nat)
    requires n >= 1 && i < |files|
    ensures i / n < |RoundRobin(files, n)[i % n]|
    ensures RoundRobin(files, n)[i % n][i / n] == files[i]
    decreases |files|
  {
    var k := |files| - 1;
    var c := i % n;
    RoundRobinSizes(files[..k], n, c);
    if i < k {
      RoundRobinPlace(files[..k], n, i);
    }
  }

  /** Chunk c is empty exactly when there are at most c files: the workers that run
      are the first min(n, |files|). */
  lemma RoundRobinNonEmpty<T>(files: seq<T>, n: nat, c: nat)
    requires n >= 1 && c < n
    ensures RoundRobin(files, n)[c] != [] <==> c < |files|
  {
    RoundRobinSizes(files, n, c);
    if |files| < n {
      DivModUnique(|files|, n, 0, |files|);
    } else {
      assert |files| == (|files| / n) * n + |files| % n;
    }
  }

  function Flatten<T>(s: seq<seq<T>>): seq<T> {
    if s == [] then [] else s[0] + Flatten(s[1..])
  }

  lemma {:induction false} FlattenUpdate<T>(s: seq<seq<T>>, c: nat, x: T)
    requires c < |s|
    ensures multiset(Flatten(s[c := s[c] + [x]])) == multiset(Flatten(s)) + multiset{x}
    decreases |s|
  {
    var t := s[c := s[c] + [x]];
    if c > 0 {
      assert t[1..] == s[1..][c - 1 := s[1..][c - 1] + [x]];
      FlattenUpdate(s[1..], c - 1, x);
    } else {
      assert t[1..] == s[1..];
    }
  }

  function EmptyChunks<T>(n: nat): (r: seq<seq<T>>)
    ensures |r| == n
  {
    seq(n, _ => [])
  }

  lemma {:induction false} FlattenEmpties<T>(n: nat)
    ensures Flatten(EmptyChunks<T>(n)) == []
  {
    if n > 0 {
      assert EmptyChunks<T>(n)[1..] == EmptyChunks<T>(n - 1);
      FlattenEmpties<T>(n - 1);
    }
  }

  /** The chunks hold exactly the files. */
  lemma {:induction false} RoundRobinKeepsFiles<T>(files: seq<T>, n: nat)
    requires n >= 1
    ensures multiset(Flatten(RoundRobin(files, n))) == multiset(files)
    decreases |files|
  {
    if |files| == 0 {
      FlattenEmpties<T>(n);
    } else {
      var k := |files| - 1;
      var prefix, last := files[..k], files[k];
      var prev := RoundRobin(prefix, n);
      var c := k % n;
      assert RoundRobin(files, n) == prev[c := prev[c] + [last]];
      RoundRobinKeepsFiles(prefix, n);
      FlattenUpdate(prev, c, last);
      assert files == prefix + [last];
      assert multiset(files) == multiset(prefix) + multiset{last};
    }
  }

  // ---------------------------------------------------------------------------
  // The tally
  // ---------------------------------------------------------------------------

  /** The list of the report a result lands in; a result that neither succeeded nor
      carries an error is in none. */
  datatype Bucket = Uploaded | FailedBucket | SkippedBucket | DuplicateBucket | RateLimitedBucket | Unreported

  /** The aggregation loop's branches, in their order: success, then skipped, then
      duplicate, then rate limited before the remaining failures. */
  function BucketOf(r: FileResult): (b: Bucket)
    ensures b != Uploaded && b != Unreported ==> r.error.Some?
    ensures b == Unreported <==> !WellFormed(r) && !r.succeeded
    ensures b == RateLimitedBucket <==>
      !r.succeeded && r.error.Some? && r.error.value.reason == RateLimited && r.category.CategoryFailed?
  {
    if r.succeeded then Uploaded
    else if r.error.None? then Unreported
    else if r.category == CategorySkipped then SkippedBucket
    else if r.category == CategoryDuplicate then DuplicateBucket
    else if r.error.value.reason == RateLimited then RateLimitedBucket
    else FailedBucket
  }

  datatype Report = Report(
    succeeded: nat,
    failed: seq<FileError>,
    skipped: seq<FileError>,
    duplicates: seq<FileError>,
    rateLimited: seq<FileError>)

  function Total(r: Report): nat {
    r.succeeded + |r.failed| + |r.skipped| + |r.duplicates| + |r.rateLimited|
  }

  function CountIn(s: seq<FileResult>, b: Bucket): nat {
    if s == [] then 0 else (if BucketOf(s[0]) == b then 1 else 0) + CountIn(s[1..], b)
  }

  /** The errors of the results in bucket b, in order. */
  function ErrorsIn(s: seq<FileResult>, b: Bucket): seq<FileError> {
    if s == [] then [] else ErrorOf(s[0], b) + ErrorsIn(s[1..], b)
  }

  /** The error a result adds to bucket b's list. */
  function ErrorOf(r: FileResult, b: Bucket): seq<FileError> {
    if BucketOf(r) == b && r.error.Some? then [r.error.value] else []
  }

  /** The report of a list of results. */
  function Tally(s: seq<FileResult>): Report {
    Report(CountIn(s, Uploaded), ErrorsIn(s, FailedBucket), ErrorsIn(s, SkippedBucket),
           ErrorsIn(s, DuplicateBucket), ErrorsIn(s, RateLimitedBucket))
  }

  lemma {:induction false} TallyConcat(a: seq<FileResult>, c: seq<FileResult>, b: Bucket)
    ensures CountIn(a + c, b) == CountIn(a, b) + CountIn(c, b)
    ensures ErrorsIn(a + c, b) == ErrorsIn(a, b) + ErrorsIn(c, b)
  {
    CountConcat(a, c, b);
    ErrorsConcat(a, c, b);
  }

  lemma {:induction false} CountConcat(a: seq<FileResult>, c: seq<FileResult>, b: Bucket)
    ensures CountIn(a + c, b) == CountIn(a, b) + CountIn(c, b)
    decreases |a|
  {
    if a != [] {
      assert (a + c)[1..] == a[1..] + c;
      CountConcat(a[1..], c, b);
    } else {
      assert a + c == c;
    }
  }

  lemma {:induction false} ErrorsConcat(a: seq<FileResult>, c: seq<FileResult>, b: Bucket)
    ensures ErrorsIn(a + c, b) == ErrorsIn(a, b) + ErrorsIn(c, b)
    decreases |a|
  {
    if a != [] {
      var rest := a[1..];
      assert (a + c)[1..] == rest + c;
      ErrorsConcat(rest, c, b);
      var here := ErrorOf(a[0], b);
      assert ErrorsIn(a + c, b) == here + ErrorsIn(rest + c, b);
      assert here + (ErrorsIn(rest, b) + ErrorsIn(c, b)) == (here + ErrorsIn(rest, b)) + ErrorsIn(c, b);
    } else {
      assert a + c == c;
    }
  }

  /** The report after one more result. */
  function Add(rep: Report, r: FileResult): Report {
    Report(rep.succeeded + (if BucketOf(r) == Uploaded then 1 else 0),
           rep.failed + ErrorOf(r, FailedBucket),
           rep.skipped + ErrorOf(r, SkippedBucket),
           rep.duplicates + ErrorOf(r, DuplicateBucket),
           rep.rateLimited + ErrorOf(r, RateLimitedBucket))
  }

  lemma TallyOne(r: FileResult, b: Bucket)
    ensures CountIn([r], b) == (if BucketOf(r) == b then 1 else 0)
    ensures ErrorsIn([r], b) == ErrorOf(r, b)
  {
    assert [r][1..] == [];
  }

  lemma TallySnoc(s: seq<FileResult>, r: FileResult)
    ensures Tally(s + [r]) == Add(Tally(s), r)
  {
    TallyConcat(s, [r], Uploaded);
    TallyOne(r, Uploaded);
    TallyConcat(s, [r], FailedBucket);
    TallyOne(r, FailedBucket);
    TallyConcat(s, [r], SkippedBucket);
    TallyOne(r, SkippedBucket);
    TallyConcat(s, [r], DuplicateBucket);
    TallyOne(r, DuplicateBucket);
    TallyConcat(s, [r], RateLimitedBucket);
    TallyOne(r, RateLimitedBucket);
  }

  /** The aggregation loop of process_directory. */
  method Aggregate(results: seq<FileResult>) returns (report: Report)
    ensures report == Tally(results)
  {
    var succeeded := 0;
    var failed: seq<FileError> := [];
    var skipped: seq<FileError> := [];
    var duplicates: seq<FileError> := [];
    var rateLimited: seq<FileError> := [];
    for i := 0 to |results|
      invariant Report(succeeded, failed, skipped, duplicates, rateLimited) == Tally(results[..i])
    {
      var r := results[i];
      assert results[..i + 1] == results[..i] + [r];
      TallySnoc(results[..i], r);
      if r.succeeded {
        succeeded := succeeded + 1;
      } else if r.error.Some? {
        if r.category == CategorySkipped {
          skipped := skipped + [r.error.value];
        } else if r.category == CategoryDuplicate {
          duplicates := duplicates + [r.error.value];
        } else if r.error.value.reason == RateLimited {
          rateLimited := rateLimited + [r.error.value];
        } else {
          failed := failed + [r.error.value];
        }
      }
    }
    assert results[..|results|] == results;
    report := Report(succeeded, failed, skipped, duplicates, rateLimited);
  }

  /** Every well-formed result lands in exactly one bucket, so the report's counts sum
      to the number of results. */
  lemma {:induction false} TallyTotal(s: seq<FileResult>)
    requires forall k :: 0 <= k < |s| ==> WellFormed(s[k])
    ensures Total(Tally(s)) == |s|
    decreases |s|
  {
    if s != [] {
      TallyTotal(s[1..]);
      assert WellFormed(s[0]);
    }
  }

  /** The report does not depend on the order results arrive in (the workers finish in
      any order): the counts and the multiset of each list are the same. */
  lemma {:induction false} TallyPermutation(a: seq<FileResult>, c: seq<FileResult>, b: Bucket)
    requires multiset(a) == multiset(c)
    ensures CountIn(a, b) == CountIn(c, b)
    ensures multiset(ErrorsIn(a, b)) == multiset(ErrorsIn(c, b))
    decreases |a|
  {
    if a == [] {
      assert |c| == |multiset(c)| == 0;
    } else {
      var j := RemoveFirst(a, c);
      var x, before, after := a[0], c[..j], c[j + 1..];
      TallyPermutation(a[1..], before + after, b);
      TallyConcat(before, [x] + after, b);
      TallyConcat([x], after, b);
      TallyConcat(before, after, b);
      TallyConcat([x], a[1..], b);
    }
  }

  /** The first element of a taken out of a permutation c of it. */
  lemma RemoveFirst<T>(a: seq<T>, c: seq<T>) returns (j: nat)
    requires a != [] && multiset(a) == multiset(c)
    ensures j < |c| && c[j] == a[0]
    ensures c == c[..j] + ([a[0]] + c[j + 1..]) && a == [a[0]] + a[1..]
    ensures multiset(a[1..]) == multiset(c[..j] + c[j + 1..])
  {
    var x := a[0];
    assert x in multiset(c);
    j :| 0 <= j < |c| && c[j] == x;
    var before, after := c[..j], c[j + 1..];
    assert c == before + ([x] + after);
    assert a == [x] + a[1..];
    calc {
      multiset(a[1..]) + multiset{x};
      multiset([x] + a[1..]);
      multiset(c);
      multiset(before) + multiset([x] + after);
      multiset(before) + multiset(after) + multiset{x};
      multiset(before + after) + multiset{x};
    }
    Cancel(multiset(a[1..]), multiset(before + after), x);
  }

  lemma Cancel<T>(m: multiset<T>, m': multiset<T>, x: T)
    requires m + multiset{x} == m' + multiset{x}
    ensures m == m'
  {
    forall y
      ensures m[y] == m'[y]
    {
      assert (m + multiset{x})[y] == (m' + multiset{x})[y];
    }
  }

  // ---------------------------------------------------------------------------
  // A whole directory
  // ---------------------------------------------------------------------------

  /** Processing a file ends with a well-formed result. */
  predicate FinishesWell(o: FileOutcome) {
    o.Finished? && WellFormed(o.result)
  }

  /** The outcomes of the files of each chunk. */
  function OutcomesOfChunks(s: Settings, chunks: seq<seq<FileInput>>): (r: seq<seq<FileOutcome>>)
    ensures |r| == |chunks|
    ensures forall c :: 0 <= c < |chunks| ==> r[c] == OutcomesOf(s, chunks[c])
  {
    seq(|chunks|, c requires 0 <= c < |chunks| => OutcomesOf(s, chunks[c]))
  }

  /** The workers' results, worker by worker, given the outcomes of their files. */
  function RunAll(outs: seq<seq<FileOutcome>>, dryRun: bool): seq<FileResult> {
    if outs == [] then [] else WorkerFrom(outs[0], dryRun, 0).results + RunAll(outs[1..], dryRun)
  }

  /** The results of the workers of a directory, chunk by chunk. */
  function AllResults(s: Settings, chunks: seq<seq<FileInput>>): seq<FileResult> {
    RunAll(OutcomesOfChunks(s, chunks), s.dryRun)
  }

  lemma {:induction false} RunAllFinish(outs: seq<seq<FileOutcome>>, dryRun: bool)
    requires forall c, k :: 0 <= c < |outs| && 0 <= k < |outs[c]| ==> FinishesWell(outs[c][k])
    ensures |RunAll(outs, dryRun)| == |Flatten(outs)|
    ensures forall k :: 0 <= k < |RunAll(outs, dryRun)| ==> WellFormed(RunAll(outs, dryRun)[k])
    decreases |outs|
  {
    if outs != [] {
      var head := outs[0];
      assert forall k :: 0 <= k < |head| ==> FinishesWell(head[k]);
      assert forall c, k :: 0 <= c < |outs[1..]| && 0 <= k < |outs[1..][c]| ==> outs[1..][c][k] == outs[c + 1][k];
      WorkerAllFinish(head, dryRun, 0);
      RunAllFinish(outs[1..], dryRun);
      var mine := WorkerFrom(head, dryRun, 0).results;
      forall k | 0 <= k < |mine|
        ensures WellFormed(mine[k])
      {
        assert mine[k] == head[0 + k].result;
      }
    }
  }

  lemma {:induction false} FlattenLengths<A, B>(a: seq<seq<A>>, b: seq<seq<B>>)
    requires |a| == |b| && forall c :: 0 <= c < |a| ==> |a[c]| == |b[c]|
    ensures |Flatten(a)| == |Flatten(b)|
    decreases |a|
  {
    if a != [] {
      FlattenLengths(a[1..], b[1..]);
    }
  }

  lemma {:induction false} InFlatten<T>(s: seq<seq<T>>, c: nat, k: nat)
    requires c < |s| && k < |s[c]|
    ensures s[c][k] in Flatten(s)
    decreases c
  {
    if c > 0 {
      InFlatten(s[1..], c - 1, k);
    }
  }

  /** Every file of every chunk finishes well when no file of the directory raises. */
  lemma ChunksFinish(s: Settings, files: seq<FileInput>, n: nat)
    requires n >= 1
    requires forall x :: x in files ==> !Crashes(s, x)
    ensures forall c, k :: 0 <= c < n && 0 <= k < |OutcomesOfChunks(s, RoundRobin(files, n))[c]| ==>
      FinishesWell(OutcomesOfChunks(s, RoundRobin(files, n))[c][k])
  {
    var chunks := RoundRobin(files, n);
    RoundRobinKeepsFiles(files, n);
    forall c, k | 0 <= c < n && 0 <= k < |OutcomesOfChunks(s, chunks)[c]|
      ensures FinishesWell(OutcomesOfChunks(s, chunks)[c][k])
    {
      InFlatten(chunks, c, k);
      assert chunks[c][k] in multiset(Flatten(chunks));
      FileFinishesWell(s, chunks[c][k]);
    }
  }

  lemma FileFinishesWell(s: Settings, x: FileInput)
    requires !Crashes(s, x)
    ensures FinishesWell(ProcessFile(s, x))
  {
  }

  /** When no file raises, the report of a run with n workers accounts for every file
      once, whatever order the workers' results arrive in. */
  lemma DirectoryTotal(s: Settings, files: seq<FileInput>, n: nat, arrived: seq<FileResult>)
    requires n >= 1
    requires forall x :: x in files ==> !Crashes(s, x)
    requires multiset(arrived) == multiset(AllResults(s, RoundRobin(files, n)))
    ensures Total(Tally(arrived)) == |files|
  {
    var chunks := RoundRobin(files, n);
    var outs := OutcomesOfChunks(s, chunks);
    var all := RunAll(outs, s.dryRun);
    ChunksFinish(s, files, n);
    RunAllFinish(outs, s.dryRun);
    FlattenLengths(outs, chunks);
    RoundRobinKeepsFiles(files, n);
    assert |arrived| == |multiset(arrived)| == |all|;
    assert |Flatten(chunks)| == |multiset(files)| == |files|;
    forall k | 0 <= k < |arrived|
      ensures WellFormed(arrived[k])
    {
      assert arrived[k] in multiset(all);
      var j :| 0 <= j < |all| && all[j] == arrived[k];
    }
    TallyTotal(arrived);
  }
}
