/** The job registry of app.js (`processRequests`) and the routes and background
    loop that change it: creating a job on upload, processing its files one by one,
    reporting progress, listing, deleting, and saving/reloading the registry to and
    from its snapshot file. The JavaScript `Map` is an insertion-ordered sequence of
    keys beside a map from key to job record. */
module Jobs {
  import opened Wrappers
  import opened Engines
  import opened Percent

  // ---------------------------------------------------------------------------
  // Records

  datatype Status = Pending | Processing | Completed | Error

  /** An entry of a job's `errors`: the file it concerns ("general" for the job) and
      the error message. */
  datatype FileError = FileError(file: string, error: string)

  /** A job record as the registry holds it. `createdAt` is a timestamp in
      milliseconds. */
  datatype Job = Job(
    id: string,
    status: Status,
    createdAt: int,
    filename: string,
    total: nat,
    processed: nat,
    currentFile: string,
    errors: seq<FileError>,
    results: seq<Extracted>,
    engineType: string)

  /** The registry's contents: keys in insertion order and the record of each key.
      The snapshot file holds the same (a JSON object keeps the `Map`'s order, as no
      request id looks like an array index). */
  datatype Registry = Registry(order: seq<string>, jobs: map<string, Job>)

  predicate NoDuplicates(s: seq<string>) {
    forall i, j :: 0 <= i < j < |s| ==> s[i] != s[j]
  }

  /** What every record of the registry satisfies: it is stored under its own id, its
      engine is registered, its output file name is derived from engine and id,
      `processed` counts its results, and its entries fit its status: none yet while
      pending, at most one per file while processing, exactly one per file once
      completed, and one per file plus a final "general" entry on error. */
  ghost predicate JobValid(key: string, j: Job) {
    && j.id == key
    && EngineNamed(j.engineType).Some?
    && j.filename == OutputFilename(j.engineType, j.id)
    && j.processed == |j.results|
    && match j.status
       case Pending => j.results == [] && j.errors == []
       case Processing => |j.results| + |j.errors| <= j.total
       case Completed => |j.results| + |j.errors| == j.total
       case Error =>
         && |j.errors| >= 1
         && |j.results| + |j.errors| == j.total + 1
         && j.errors[|j.errors| - 1].file == "general"
  }

  /** The order lists every key of the map exactly once. */
  ghost predicate Indexed(order: seq<string>, jobs: map<string, Job>) {
    NoDuplicates(order) && forall k :: k in jobs <==> k in order
  }

  ghost predicate RegistryValid(r: Registry) {
    && Indexed(r.order, r.jobs)
    && (forall k :: k in r.jobs ==> JobValid(k, r.jobs[k]))
  }

  /** `Map.prototype.set`: a new key goes to the end of the order, an existing key
      keeps its place and gets the new record. */
  function SetJob(r: Registry, key: string, j: Job): (r': Registry)
    ensures r'.jobs == r.jobs[key := j]
    ensures key in r.jobs ==> r'.order == r.order
    ensures key !in r.jobs ==> r'.order == r.order + [key]
  {
    Registry(if key in r.jobs then r.order else r.order + [key], r.jobs[key := j])
  }

  /** Setting a valid record keeps the registry valid. */
  lemma SetJobValid(r: Registry, key: string, j: Job)
    requires RegistryValid(r) && JobValid(key, j)
    ensures RegistryValid(SetJob(r, key, j))
  {
    var r' := SetJob(r, key, j);
    if key !in r.jobs {
      forall a, b | 0 <= a < b < |r'.order| ensures r'.order[a] != r'.order[b] {
        if b == |r.order| {
          assert r'.order[a] == r.order[a];
        }
      }
    }
  }

  /** Setting a key twice is setting it once to the second record. */
  lemma SetJobTwice(r: Registry, key: string, j1: Job, j2: Job)
    ensures SetJob(SetJob(r, key, j1), key, j2) == SetJob(r, key, j2)
  {
    UpdateTwice(r.jobs, key, j1, j2);
  }

  lemma UpdateTwice(m: map<string, Job>, key: string, j1: Job, j2: Job)
    ensures m[key := j1][key := j2] == m[key := j2]
  {
    assert m[key := j1][key := j2].Keys == m[key := j2].Keys;
  }

  /** A valid record never counts more processed files than were submitted. */
  lemma ProcessedAtMostTotal(key: string, j: Job)
    requires JobValid(key, j)
    ensures j.processed <= j.total
  {
  }

  /** No two jobs of a valid registry write to the same output file. */
  lemma OutputFilesDistinct(r: Registry, k1: string, k2: string)
    requires RegistryValid(r) && k1 in r.jobs && k2 in r.jobs && k1 != k2
    ensures r.jobs[k1].filename != r.jobs[k2].filename
  {
    var j1, j2 := r.jobs[k1], r.jobs[k2];
    var e1, e2 := EngineNamed(j1.engineType).value, EngineNamed(j2.engineType).value;
    if j1.filename == j2.filename {
      OutputFilenameInjective(e1, j1.id, e2, j2.id);
    }
  }

  // ---------------------------------------------------------------------------
  // Processing one job's files (processFiles), as functions of the record

  /** The record after one file: a success appends its result, counts it and
      names it the current file; a failure appends `{file, error}` only. */
  function AfterFile(j: Job, file: string, outcome: Result<Extracted>): Job {
    match outcome
    case Success(record) =>
      j.(results := j.results + [record], processed := j.processed + 1, currentFile := file)
    case Failure(message) =>
      j.(errors := j.errors + [FileError(file, message)])
  }

  /** The record after the files in order, each with its outcome. Nothing but the
      entries, the count and the current file changes, and every file adds exactly
      one entry. */
  function AfterFiles(j: Job, files: seq<string>, outcomes: seq<Result<Extracted>>): (r: Job)
    requires |files| == |outcomes|
    ensures r.id == j.id && r.status == j.status && r.createdAt == j.createdAt
    ensures r.filename == j.filename && r.total == j.total && r.engineType == j.engineType
    ensures |r.results| + |r.errors| == |j.results| + |j.errors| + |files|
    ensures r.processed - |r.results| == j.processed - |j.results|
    decreases |files|
  {
    if files == [] then j
    else
      var n := |files| - 1;
      AfterFile(AfterFiles(j, files[..n], outcomes[..n]), files[n], outcomes[n])
  }

  /** One more file is one more step of `AfterFile`. */
  lemma AfterFilesStep(j: Job, files: seq<string>, outcomes: seq<Result<Extracted>>, n: nat)
    requires |files| == |outcomes| && n < |files|
    ensures AfterFiles(j, files[..n + 1], outcomes[..n + 1])
            == AfterFile(AfterFiles(j, files[..n], outcomes[..n]), files[n], outcomes[n])
  {
    assert files[..n + 1][..n] == files[..n] && outcomes[..n + 1][..n] == outcomes[..n];
  }

  /** The records of the successful outcomes, in order. */
  function Successes(outcomes: seq<Result<Extracted>>): seq<Extracted> {
    if outcomes == [] then []
    else (if outcomes[0].Success? then [outcomes[0].value] else []) + Successes(outcomes[1..])
  }

  /** The `{file, error}` entries of the failed outcomes, in order. */
  function Failures(files: seq<string>, outcomes: seq<Result<Extracted>>): seq<FileError>
    requires |files| == |outcomes|
  {
    if outcomes == [] then []
    else (if outcomes[0].Failure? then [FileError(files[0], outcomes[0].error)] else [])
         + Failures(files[1..], outcomes[1..])
  }

  lemma {:induction false} SuccessesSnoc(outcomes: seq<Result<Extracted>>, o: Result<Extracted>)
    ensures Successes(outcomes + [o]) == Successes(outcomes) + (if o.Success? then [o.value] else [])
  {
    if outcomes == [] {
      assert [] + [o] == [o];
      assert [o][1..] == [];
    } else {
      SuccessesSnoc(outcomes[1..], o);
      assert (outcomes + [o])[1..] == outcomes[1..] + [o];
    }
  }

  lemma {:induction false} FailuresSnoc(files: seq<string>, outcomes: seq<Result<Extracted>>,
                                        f: string, o: Result<Extracted>)
    requires |files| == |outcomes|
    ensures Failures(files + [f], outcomes + [o])
            == Failures(files, outcomes) + (if o.Failure? then [FileError(f, o.error)] else [])
  {
    if outcomes == [] {
      assert [] + [o] == [o] && [] + [f] == [f];
      assert [o][1..] == [] && [f][1..] == [];
    } else {
      var fs, os := files + [f], outcomes + [o];
      assert os[1..] == outcomes[1..] + [o] && fs[1..] == files[1..] + [f];
      assert os[0] == outcomes[0] && fs[0] == files[0];
      FailuresSnoc(files[1..], outcomes[1..], f, o);
    }
  }

  /** Results and errors follow submission order: after the files, the results are
      the earlier ones followed by the records of the successful files, the errors
      the earlier ones followed by one entry per failed file, and `processed` grew by
      the number of successes only. */
  lemma {:induction false} AfterFilesContents(j: Job, files: seq<string>, outcomes: seq<Result<Extracted>>)
    requires |files| == |outcomes|
    ensures AfterFiles(j, files, outcomes).results == j.results + Successes(outcomes)
    ensures AfterFiles(j, files, outcomes).errors == j.errors + Failures(files, outcomes)
    ensures AfterFiles(j, files, outcomes).processed == j.processed + |Successes(outcomes)|
  {
    if files != [] {
      var n := |files| - 1;
      assert outcomes[..n] + [outcomes[n]] == outcomes;
      assert files[..n] + [files[n]] == files;
      AfterFilesContents(j, files[..n], outcomes[..n]);
      SuccessesSnoc(outcomes[..n], outcomes[n]);
      FailuresSnoc(files[..n], outcomes[..n], files[n], outcomes[n]);
      var prev := AfterFiles(j, files[..n], outcomes[..n]);
      assert AfterFiles(j, files, outcomes) == AfterFile(prev, files[n], outcomes[n]);
    }
  }

  /** The position of the last successful outcome, if any. */
  function LastSuccess(outcomes: seq<Result<Extracted>>): (r: Option<nat>)
    ensures r.Some? ==> r.value < |outcomes| && outcomes[r.value].Success?
    ensures r.Some? ==> forall k :: r.value < k < |outcomes| ==> outcomes[k].Failure?
    ensures r.None? ==> forall k :: 0 <= k < |outcomes| ==> outcomes[k].Failure?
  {
    if outcomes == [] then None
    else if outcomes[|outcomes| - 1].Success? then Some(|outcomes| - 1)
    else LastSuccess(outcomes[..|outcomes| - 1])
  }

  /** The current file is the last file that succeeded, or the old one if none did. */
  lemma {:induction false} CurrentFileIsLastSuccess(j: Job, files: seq<string>, outcomes: seq<Result<Extracted>>)
    requires |files| == |outcomes|
    ensures AfterFiles(j, files, outcomes).currentFile
            == match LastSuccess(outcomes) case None => j.currentFile case Some(i) => files[i]
  {
    if files != [] {
      var n := |files| - 1;
      CurrentFileIsLastSuccess(j, files[..n], outcomes[..n]);
      if outcomes[n].Failure? {
        assert LastSuccess(outcomes) == LastSuccess(outcomes[..n]);
      }
    }
  }

  /** The record once the loop is over: "completed" if the CSV file was written,
      otherwise "error" with one more entry for the whole job. */
  function Finish(j: Job, csvError: Option<string>): (r: Job)
    ensures r.status == Completed <==> csvError.None?
    ensures r.status == Error <==> csvError.Some?
    ensures r.results == j.results && r.processed == j.processed && r.currentFile == j.currentFile
    ensures r.id == j.id && r.createdAt == j.createdAt && r.filename == j.filename
    ensures r.total == j.total && r.engineType == j.engineType
    ensures csvError.None? ==> r.errors == j.errors
    ensures csvError.Some? ==> r.errors == j.errors + [FileError("general", csvError.value)]
  {
    match csvError
    case None => j.(status := Completed)
    case Some(message) => j.(status := Error, errors := j.errors + [FileError("general", message)])
  }

  /** One more file of a job still being processed keeps its record valid. */
  lemma AfterFileValid(key: string, j: Job, file: string, outcome: Result<Extracted>)
    requires JobValid(key, j) && j.status == Processing && |j.results| + |j.errors| < j.total
    ensures JobValid(key, AfterFile(j, file, outcome))
  {
  }

  /** Finishing a job all of whose files went through leaves a valid record. */
  lemma FinishValid(key: string, j: Job, csvError: Option<string>)
    requires JobValid(key, j) && j.status == Processing && |j.results| + |j.errors| == j.total
    ensures JobValid(key, Finish(j, csvError))
  {
  }

  /** Recording one file's outcome in a valid registry keeps it valid. */
  lemma RecordValid(order: seq<string>, jobs: map<string, Job>, key: string, file: string,
                    outcome: Result<Extracted>)
    requires RegistryValid(Registry(order, jobs)) && key in jobs && jobs[key].status == Processing
    requires |jobs[key].results| + |jobs[key].errors| < jobs[key].total
    ensures RegistryValid(Registry(order, jobs[key := AfterFile(jobs[key], file, outcome)]))
  {
    AfterFileValid(key, jobs[key], file, outcome);
    SetJobValid(Registry(order, jobs), key, AfterFile(jobs[key], file, outcome));
  }

  /** Finishing a job whose files all went through keeps a valid registry valid. */
  lemma FinishInRegistryValid(order: seq<string>, jobs: map<string, Job>, key: string,
                              csvError: Option<string>)
    requires RegistryValid(Registry(order, jobs)) && key in jobs && jobs[key].status == Processing
    requires |jobs[key].results| + |jobs[key].errors| == jobs[key].total
    ensures RegistryValid(Registry(order, jobs[key := Finish(jobs[key], csvError)]))
  {
    FinishValid(key, jobs[key], csvError);
    SetJobValid(Registry(order, jobs), key, Finish(jobs[key], csvError));
  }

  /** Failed files alone never fail a job: when every file fails and the CSV file
      is written, the job still ends "completed", with nothing processed and one
      error entry per file. */
  lemma FileFailuresNeverFailTheJob(j: Job, files: seq<string>, outcomes: seq<Result<Extracted>>)
    requires |files| == |outcomes|
    requires forall i :: 0 <= i < |outcomes| ==> outcomes[i].Failure?
    ensures var done := Finish(AfterFiles(j, files, outcomes), None);
            && done.status == Completed
            && done.results == j.results && done.processed == j.processed
            && |done.errors| == |j.errors| + |files|
  {
    AfterFilesContents(j, files, outcomes);
    NoSuccesses(outcomes);
  }

  lemma {:induction false} NoSuccesses(outcomes: seq<Result<Extracted>>)
    requires forall i :: 0 <= i < |outcomes| ==> outcomes[i].Failure?
    ensures Successes(outcomes) == []
  {
    if outcomes != [] {
      NoSuccesses(outcomes[1..]);
    }
  }

  /** Three files, the second of which fails, and a written CSV file: two results,
      one error, `processed` is 2 (not 3), and the job is completed. */
  lemma SecondOfThreeFails(j: Job, r1: Extracted, r3: Extracted, message: string)
    requires j.status == Processing && j.results == [] && j.errors == [] && j.processed == 0
    ensures var files := ["a.txt", "b.txt", "c.txt"];
            var outcomes := [Success(r1), Failure(message), Success(r3)];
            var done := Finish(AfterFiles(j, files, outcomes), None);
            && done.results == [r1, r3]
            && done.errors == [FileError("b.txt", message)]
            && done.processed == 2
            && done.status == Completed
  {
    var files := ["a.txt", "b.txt", "c.txt"];
    var outcomes := [Success(r1), Failure(message), Success(r3)];
    assert files[..2][..1] == ["a.txt"] && outcomes[..2][..1] == [Success(r1)];
    assert files[..2][..1][..0] == [] && outcomes[..2][..1][..0] == [];
  }

  // ---------------------------------------------------------------------------
  // Route replies and projections

  datatype UploadReply =
    | Started(requestId: string, message: string, totalFiles: nat, engineType: string)
    | BadRequest(error: string)

  datatype DeleteReply = Deleted(message: string) | NotFound(error: string)

  /** The progress route's answer for a job. */
  datatype ProgressView = ProgressView(
    id: string, percentage: nat, currentFile: string, processed: nat, total: nat,
    status: Status, errors: seq<FileError>, filename: string, engineType: string, createdAt: int)

  /** One element of the `/requests` list. */
  datatype Summary = Summary(
    id: string, status: Status, createdAt: int, filename: string,
    totalFiles: nat, processedFiles: nat, errors: seq<FileError>, engineType: string)

  function Summarize(j: Job): Summary {
    Summary(j.id, j.status, j.createdAt, j.filename, j.total, j.processed, j.errors, j.engineType)
  }

  /** `output` without the entry `key`, the others in their order. */
  function RemoveKey(order: seq<string>, key: string): (r: seq<string>)
    ensures forall x :: x in r <==> x in order && x != key
    ensures key !in order ==> r == order
    ensures NoDuplicates(order) ==> NoDuplicates(r)
    ensures NoDuplicates(order) && key in order ==> |r| == |order| - 1
  {
    if order == [] then []
    else
      var rest := RemoveKey(order[1..], key);
      if order[0] == key then rest
      else
        assert NoDuplicates(order) ==> order[0] !in order[1..];
        [order[0]] + rest
  }

  /** The position of the first occurrence of `key` in `order`. */
  function IndexOf(order: seq<string>, key: string): (m: nat)
    requires key in order
    ensures m < |order| && order[m] == key
  {
    if order[0] == key then 0 else 1 + IndexOf(order[1..], key)
  }

  /** In an order without repeats, deleting a present key cuts out its one position
      and leaves the keys before and after it as they were. */
  lemma RemoveKeyCutsOut(order: seq<string>, key: string)
    requires NoDuplicates(order) && key in order
    ensures var m := IndexOf(order, key);
            RemoveKey(order, key) == order[..m] + order[m + 1..]
  {
    var k := IndexOf(order, key);
    assert key !in order[k + 1..] by {
      forall i | k + 1 <= i < |order| ensures order[i] != key {
        assert order[k] != order[i];
      }
    }
    RemoveKeyAtLastOccurrence(order, key);
  }

  /** Deleting a key that occurs nowhere after its first position cuts out that position. */
  lemma {:induction false} RemoveKeyAtLastOccurrence(order: seq<string>, key: string)
    requires key in order && key !in order[IndexOf(order, key) + 1..]
    ensures var m := IndexOf(order, key);
            RemoveKey(order, key) == order[..m] + order[m + 1..]
  {
    var tail := order[1..];
    var k := IndexOf(order, key);
    if order[0] == key {
      assert k == 0 && tail == order[k + 1..];
      assert order[..k] + order[k + 1..] == tail;
    } else {
      var m := IndexOf(tail, key);
      assert k == m + 1 && tail[m + 1..] == order[k + 1..];
      RemoveKeyAtLastOccurrence(tail, key);
      ConsOntoCut(order, RemoveKey(tail, key), m);
    }
  }

  /** Putting the head back in front of the tail with position `m` cut out gives the
      whole sequence with position `m + 1` cut out. */
  lemma ConsOntoCut(s: seq<string>, rest: seq<string>, m: nat)
    requires m + 1 < |s| && rest == s[1..][..m] + s[1..][m + 1..]
    ensures [s[0]] + rest == s[..m + 1] + s[m + 2..]
  {
    assert [s[0]] + s[1..][..m] == s[..m + 1];
    assert s[1..][m + 1..] == s[m + 2..];
  }

  // ---------------------------------------------------------------------------
  // The registry

  class JobStore {
    /** Keys of `processRequests`, in insertion order. */
    var order: seq<string>
    /** The records of `processRequests`. */
    var requests: map<string, Job>
    /** The contents of the snapshot file: `None` while it is missing or unreadable. */
    var snapshot: Option<Registry>

    ghost predicate Valid()
      reads this
    {
      RegistryValid(Registry(order, requests)) && (snapshot.Some? ==> RegistryValid(snapshot.value))
    }

    /** The registry at process start: empty, beside whatever snapshot the previous
        run left (one this program wrote). */
    constructor (persisted: Option<Registry>)
      requires persisted.Some? ==> RegistryValid(persisted.value)
      ensures Valid()
      ensures order == [] && requests == map[] && snapshot == persisted
    {
      order := [];
      requests := map[];
      snapshot := persisted;
    }

    /** `saveRequests`: the snapshot becomes a copy of the registry. */
    method SaveRequests()
      requires RegistryValid(Registry(order, requests))
      modifies this`snapshot
      ensures Valid()
      ensures snapshot == Some(Registry(order, requests))
    {
      snapshot := Some(Registry(order, requests));
    }

    /** `loadRequests`: with a readable snapshot, clear the registry and set every
        saved entry in the saved order; otherwise leave the registry as it is. */
    method LoadRequests()
      requires Valid()
      modifies this`order, this`requests
      ensures Valid()
      ensures snapshot.None? ==> order == old(order) && requests == old(requests)
      ensures snapshot.Some? ==> order == snapshot.value.order && requests == snapshot.value.jobs
    {
      if snapshot.None? {
        return;
      }
      var saved := snapshot.value;
      order, requests := [], map[];
      var i := 0;
      while i < |saved.order|
        invariant snapshot == Some(saved)
        invariant 0 <= i <= |saved.order|
        invariant order == saved.order[..i]
        invariant forall k :: k in requests <==> k in saved.order[..i]
        invariant forall k :: k in requests ==> k in saved.jobs && requests[k] == saved.jobs[k]
      {
        var key := saved.order[i];
        assert key !in saved.order[..i];
        if key !in requests {
          order := order + [key];
        }
        requests := requests[key := saved.jobs[key]];
        assert saved.order[..i + 1] == saved.order[..i] + [key];
        i := i + 1;
      }
      assert saved.order[..i] == saved.order;
      assert requests.Keys == saved.jobs.Keys;
    }

    /** The upload handler: reject an unknown engine, then an empty file list, with
        400; otherwise set a pending record under the new id, save, flip it to
        processing, save, and answer with the id and the file count. */
    method Upload(engineType: string, files: seq<string>, requestId: string, now: int)
      returns (reply: UploadReply)
      requires Valid()
      modifies this
      ensures Valid()
      ensures EngineNamed(engineType).None? ==>
                reply == BadRequest("Invalid engine type") && unchanged(this)
      ensures EngineNamed(engineType).Some? && files == [] ==>
                reply == BadRequest("No files uploaded") && unchanged(this)
      ensures EngineNamed(engineType).Some? && files != [] ==>
                && reply == Started(requestId, "Processing started", |files|, engineType)
                && Registry(order, requests) == SetJob(Registry(old(order), old(requests)), requestId,
                     Job(requestId, Processing, now, OutputFilename(engineType, requestId),
                         |files|, 0, "", [], [], engineType))
                && snapshot == Some(Registry(order, requests))
    {
      if EngineNamed(engineType).None? {
        return BadRequest("Invalid engine type");
      }
      if |files| == 0 {
        return BadRequest("No files uploaded");
      }
      var job := Job(requestId, Pending, now, OutputFilename(engineType, requestId),
                     |files|, 0, "", [], [], engineType);
      var before := Registry(order, requests);
      var pending := SetJob(before, requestId, job);
      SetJobValid(before, requestId, job);
      order, requests := pending.order, pending.jobs;
      SaveRequests();
      var started := SetJob(pending, requestId, job.(status := Processing));
      SetJobValid(pending, requestId, job.(status := Processing));
      SetJobTwice(before, requestId, job, job.(status := Processing));
      order, requests := started.order, started.jobs;
      SaveRequests();
      reply := Started(requestId, "Processing started", |files|, engineType);
    }

    /** One pass of the `processFiles` loop: a success appends the file's record,
        counts it and names it the current file; a failure appends `{file, error}`;
        either way the registry is saved. */
    method RecordFile(requestId: string, file: string, outcome: Result<Extracted>)
      requires Valid()
      requires requestId in requests && requests[requestId].status == Processing
      requires |requests[requestId].results| + |requests[requestId].errors| < requests[requestId].total
      modifies this`requests, this`snapshot
      ensures Valid()
      ensures requests == old(requests)[requestId := AfterFile(old(requests)[requestId], file, outcome)]
      ensures snapshot == Some(Registry(order, requests))
    {
      var jobs0 := requests;
      RecordValid(order, jobs0, requestId, file, outcome);
      var job := jobs0[requestId];
      match outcome {
        case Success(record) =>
          job := job.(results := job.results + [record], processed := job.processed + 1,
                      currentFile := file);
        case Failure(message) =>
          job := job.(errors := job.errors + [FileError(file, message)]);
      }
      assert job == AfterFile(jobs0[requestId], file, outcome);
      requests := jobs0[requestId := job];
      SaveRequests();
    }

    /** The end of `processFiles`: "completed" once the CSV file is written,
        otherwise "error" with a "general" entry carrying the write error; then save. */
    method FinishJob(requestId: string, csvError: Option<string>)
      requires Valid()
      requires requestId in requests && requests[requestId].status == Processing
      requires |requests[requestId].results| + |requests[requestId].errors| == requests[requestId].total
      modifies this`requests, this`snapshot
      ensures Valid()
      ensures requests == old(requests)[requestId := Finish(old(requests)[requestId], csvError)]
      ensures snapshot == Some(Registry(order, requests))
    {
      var jobs0 := requests;
      FinishInRegistryValid(order, jobs0, requestId, csvError);
      var job := jobs0[requestId];
      match csvError {
        case None =>
          job := job.(status := Completed);
        case Some(message) =>
          job := job.(status := Error, errors := job.errors + [FileError("general", message)]);
      }
      assert job == Finish(jobs0[requestId], csvError);
      requests := jobs0[requestId := job];
      SaveRequests();
    }

    /** `processFiles`: each file's outcome updates the record in turn, and the
        registry is saved after each; then the job is finished with the outcome of
        writing the CSV file (`csvError`). */
    method ProcessFiles(requestId: string, files: seq<string>, outcomes: seq<Result<Extracted>>,
                        csvError: Option<string>)
      requires Valid()
      requires requestId in requests && requests[requestId].status == Processing
      requires |requests[requestId].results| + |requests[requestId].errors| + |files|
               == requests[requestId].total
      requires |outcomes| == |files|
      modifies this`requests, this`snapshot
      ensures Valid()
      ensures requests == old(requests)[requestId :=
                Finish(AfterFiles(old(requests)[requestId], files, outcomes), csvError)]
      ensures snapshot == Some(Registry(order, requests))
    {
      ghost var initial := requests;
      ghost var start := requests[requestId];
      var i := 0;
      assert files[..0] == [] && outcomes[..0] == [];
      while i < |files|
        invariant 0 <= i <= |files|
        invariant Valid()
        invariant requests == initial[requestId := AfterFiles(start, files[..i], outcomes[..i])]
      {
        ghost var prev := requests[requestId];
        RecordFile(requestId, files[i], outcomes[i]);
        AfterFilesStep(start, files, outcomes, i);
        UpdateTwice(initial, requestId, prev, requests[requestId]);
        i := i + 1;
      }
      assert files[..i] == files && outcomes[..i] == outcomes;
      ghost var last := requests[requestId];
      FinishJob(requestId, csvError);
      UpdateTwice(initial, requestId, last, requests[requestId]);
    }

    /** The progress route: a miss for an unknown id, otherwise the record's
        counters, a percentage between 0 and 100, and its other fields. */
    function Progress(requestId: string): (r: Option<ProgressView>)
      reads this
      requires Valid()
      ensures r.None? <==> requestId !in requests
      ensures r.Some? ==>
                && r.value.id == requestId
                && r.value.processed <= r.value.total
                && r.value.percentage <= 100
                && (r.value.total == 0 ==> r.value.percentage == 0)
                && r.value.processed == |requests[requestId].results|
      ensures r.Some? ==>
                var j := requests[requestId];
                && r.value.percentage == Percentage(j.processed, j.total)
                && r.value.processed == j.processed && r.value.total == j.total
                && r.value.currentFile == j.currentFile && r.value.status == j.status
                && r.value.errors == j.errors && r.value.filename == j.filename
                && r.value.engineType == j.engineType && r.value.createdAt == j.createdAt
    {
      if requestId !in requests then None
      else
        var j := requests[requestId];
        PercentageAtMost100(j.processed, j.total);
        Some(ProgressView(j.id, Percentage(j.processed, j.total), j.currentFile, j.processed,
                          j.total, j.status, j.errors, j.filename, j.engineType, j.createdAt))
    }

    /** The `/requests` route: the summaries of the records in insertion order, one
        per record (`SummariesListEveryJob` states the rest). */
    function Requests(): (r: seq<Summary>)
      reads this
      requires Indexed(order, requests)
      ensures |r| == |requests|
      ensures r == Summaries(order, requests)
    {
      assert forall i :: 0 <= i < |order| ==> order[i] in requests;
      DistinctKeysCount(order, requests);
      Summaries(order, requests)
    }

    /** The delete route: a miss for an unknown id leaves everything unchanged;
        otherwise only that key is removed, the rest keeping their records and order,
        and the registry is saved. */
    method DeleteRequest(requestId: string) returns (reply: DeleteReply)
      requires Valid()
      modifies this
      ensures Valid()
      ensures requestId !in old(requests) ==> reply == NotFound("Request not found") && unchanged(this)
      ensures requestId in old(requests) ==>
                && reply == Deleted("Request deleted successfully")
                && requests == old(requests) - {requestId}
                && order == RemoveKey(old(order), requestId)
                && snapshot == Some(Registry(order, requests))
    {
      if requestId !in requests {
        return NotFound("Request not found");
      }
      requests := requests - {requestId};
      order := RemoveKey(order, requestId);
      SaveRequests();
      reply := Deleted("Request deleted successfully");
    }
  }

  /** The `/requests` list: one summary per key, in key order. */
  function Summaries(keys: seq<string>, jobs: map<string, Job>): (r: seq<Summary>)
    requires forall i :: 0 <= i < |keys| ==> keys[i] in jobs
    ensures |r| == |keys|
  {
    seq(|keys|, i requires 0 <= i < |keys| => Summarize(jobs[keys[i]]))
  }

  /** Over a valid registry the list holds every job exactly once, in insertion
      order, each entry carrying its own key as id. */
  lemma SummariesListEveryJob(keys: seq<string>, jobs: map<string, Job>)
    requires Indexed(keys, jobs) && forall k :: k in jobs ==> jobs[k].id == k
    ensures forall i :: 0 <= i < |keys| ==> keys[i] in jobs
    ensures |Summaries(keys, jobs)| == |jobs|
    ensures forall i :: 0 <= i < |keys| ==>
      Summaries(keys, jobs)[i].id == keys[i] && Summaries(keys, jobs)[i] == Summarize(jobs[keys[i]])
    ensures forall id :: id in jobs <==> exists i :: 0 <= i < |keys| && Summaries(keys, jobs)[i].id == id
  {
    assert forall i :: 0 <= i < |keys| ==> keys[i] in jobs;
    DistinctKeysCount(keys, jobs);
    var r := Summaries(keys, jobs);
    IdsCoverKeys(keys, jobs, r);
  }

  /** A list whose ids follow the key order names every key of the map. */
  lemma IdsCoverKeys(keys: seq<string>, jobs: map<string, Job>, r: seq<Summary>)
    requires Indexed(keys, jobs)
    requires |r| == |keys| && forall i :: 0 <= i < |r| ==> r[i].id == keys[i]
    ensures forall id :: id in jobs <==> exists i :: 0 <= i < |r| && r[i].id == id
  {
    forall id | id in jobs ensures exists i :: 0 <= i < |r| && r[i].id == id {
      var i :| 0 <= i < |keys| && keys[i] == id;
      assert r[i].id == id;
    }
  }

  /** A duplicate-free key list naming exactly the keys of a map is as long as the map. */
  lemma DistinctKeysCount(order: seq<string>, jobs: map<string, Job>)
    requires Indexed(order, jobs)
    ensures |order| == |jobs|
  {
    var keys := set k | k in order;
    assert keys == jobs.Keys;
    DistinctSeqSetSize(order);
  }

  lemma {:induction false} DistinctSeqSetSize(s: seq<string>)
    requires NoDuplicates(s)
    ensures |set k | k in s| == |s|
  {
    if s != [] {
      DistinctSeqSetSize(s[1..]);
      assert (set k | k in s) == (set k | k in s[1..]) + {s[0]};
      assert s[0] !in s[1..];
    }
  }

  /** Saving the registry and reloading it in a new process gives back the same
      registry. */
  method SaveThenReload(store: JobStore) returns (restarted: JobStore)
    requires store.Valid()
    modifies store`snapshot
    ensures restarted.Valid()
    ensures restarted.order == store.order && restarted.requests == store.requests
  {
    store.SaveRequests();
    restarted := new JobStore(store.snapshot);
    restarted.LoadRequests();
  }
}
