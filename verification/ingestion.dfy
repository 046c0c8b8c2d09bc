/**
 * The upload loop of `upload_10_k_to_qdrant`: every file of the input
 * directory is normalised, split into chunks and stored point by point; a
 * file that raises is skipped, one that completes is counted and moved.
 */
module Ingestion {
  import opened Wrappers
  import opened PyValue
  import opened Text
  import opened Filing
  import opened Payload
  import CikMapping

  /**
   * The collaborators of the loop: the date parser, the text splitter, and
   * whether embedding and upserting one point succeeds.
   */
  datatype Env = Env(parse: DateParser, split: string -> seq<string>, store: Payload -> bool)

  /** A directory entry: its name and its JSON object, `None` when `json.load` raises. */
  datatype FileInput = FileInput(name: string, json: Option<Object>)

  /** What the `try` around one file ends with, and the points it stored before. */
  datatype FileOutcome =
    | Completed(stored: seq<Payload>)
    | Skipped(error: FileError, stored: seq<Payload>)

  /** The counters and side effects of one run. */
  datatype RunReport = RunReport(total: nat, completed: nat, stored: seq<Payload>, moved: seq<string>)

  predicate IsJsonName(name: string) {
    EndsWith(name, ".json")
  }

  /**
   * Upserting the points in order: the stored points are the longest prefix
   * whose points all succeed; the point after it is the one that raised.
   */
  function StoreAll(ps: seq<Payload>, store: Payload -> bool): (r: seq<Payload>)
    ensures |r| <= |ps| && r == ps[..|r|]
    ensures forall i :: 0 <= i < |r| ==> store(ps[i])
    ensures |r| < |ps| ==> !store(ps[|r|])
    decreases |ps|
  {
    if |ps| == 0 || !store(ps[0]) then []
    else [ps[0]] + StoreAll(ps[1..], store)
  }

  /**
   * A file whose JSON loaded, given the result of normalising it: nothing is
   * stored unless the whole filing normalises; then its payloads are stored
   * in order until one fails, and the file completes when none fails.
   */
  function StoreFiling(normalized: Result<seq<Section>, FileError>, env: Env): (r: FileOutcome)
    ensures normalized.Failure? ==> r == Skipped(normalized.error, [])
    ensures r.Completed? <==>
              && normalized.Success?
              && var ps := FilingPayloads(normalized.value, env.split);
                 forall i :: 0 <= i < |ps| ==> env.store(ps[i])
    ensures r.Completed? ==> r.stored == FilingPayloads(normalized.value, env.split)
    ensures r.Skipped? && normalized.Success? ==>
              var ps := FilingPayloads(normalized.value, env.split);
              && |r.stored| < |ps| && r.stored == ps[..|r.stored|]
              && !env.store(ps[|r.stored|]) && r.error == UpsertFailed(ps[|r.stored|].fileId)
  {
    match normalized
    case Failure(e) => Skipped(e, [])
    case Success(sections) =>
      var ps := FilingPayloads(sections, env.split);
      var stored := StoreAll(ps, env.store);
      if |stored| == |ps| then Completed(stored)
      else Skipped(UpsertFailed(ps[|stored|].fileId), stored)
  }

  /**
   * One file inside the `try`. All or nothing per filing: a file stores
   * points only when it loaded and its whole filing normalised, and then
   * they are a prefix of its payloads.
   */
  function ProcessFile(f: FileInput, mapping: map<string, Scalar>, env: Env): (r: FileOutcome)
    ensures r.stored != [] ==>
              && f.json.Some? && NormalizeFiling(f.name, f.json.value, mapping, env.parse).Success?
              && var ps := FilingPayloads(NormalizeFiling(f.name, f.json.value, mapping, env.parse).value, env.split);
                 |r.stored| <= |ps| && r.stored == ps[..|r.stored|]
  {
    match f.json
    case None => Skipped(MalformedJson, [])
    case Some(data) => StoreFiling(NormalizeFiling(f.name, data, mapping, env.parse), env)
  }

  /** One attempted file: its name and how its `try` ended. */
  datatype Attempt = Attempt(name: string, outcome: FileOutcome)

  /** The points a file stores have pairwise distinct `file_id`s. */
  lemma StoredFileIdsDistinct(f: FileInput, mapping: map<string, Scalar>, env: Env)
    ensures DistinctIds(ProcessFile(f, mapping, env).stored)
  {
    if f.json.Some? {
      var normalized := NormalizeFiling(f.name, f.json.value, mapping, env.parse);
      if normalized.Success? {
        NormalizedFileIdsDistinct(f.name, f.json.value, mapping, env.parse, env.split);
      }
      StoreFilingDistinct(normalized, env);
    }
  }

  lemma StoreFilingDistinct(normalized: Result<seq<Section>, FileError>, env: Env)
    requires normalized.Success? ==> DistinctIds(FilingPayloads(normalized.value, env.split))
    ensures DistinctIds(StoreFiling(normalized, env).stored)
  {
    if normalized.Success? {
      var all := FilingPayloads(normalized.value, env.split);
      var r := StoreFiling(normalized, env);
      if r.Completed? {
        assert r.stored == all;
      } else {
        assert r.stored == all[..|r.stored|];
        PrefixOfDistinctIds(all, r.stored);
      }
    }
  }

  lemma PrefixOfDistinctIds(all: seq<Payload>, prefix: seq<Payload>)
    requires DistinctIds(all)
    requires |prefix| <= |all| && prefix == all[..|prefix|]
    ensures DistinctIds(prefix)
  {
    forall a, b | 0 <= a < b < |prefix|
      ensures prefix[a].fileId != prefix[b].fileId
    {
      assert prefix[a] == all[a] && prefix[b] == all[b];
    }
  }

  /** How one file's `try` ends; the script's is `Processor(mapping, env)`. */
  type FileProcessor = FileInput -> FileOutcome

  /** The body of the `try` with the CIK mapping and the collaborators fixed. */
  function Processor(mapping: map<string, Scalar>, env: Env): FileProcessor {
    f => ProcessFile(f, mapping, env)
  }

  /**
   * A file whose JSON does not load or whose filing does not normalise is
   * counted in `total_file` and changes nothing else: no point, no move.
   */
  lemma UnnormalizedFileOnlyCounted(before: RunReport, f: FileInput, mapping: map<string, Scalar>, env: Env)
    requires f.json.None? || NormalizeFiling(f.name, f.json.value, mapping, env.parse).Failure?
    ensures Step(before, Attempt(f.name, Processor(mapping, env)(f))) == before.(total := before.total + 1)
  {
  }

  /** Processing every file of `files`, in order. */
  function Attempts(files: seq<FileInput>, process: FileProcessor): (r: seq<Attempt>)
    ensures |r| == |files|
    ensures forall i :: 0 <= i < |r| ==> r[i] == Attempt(files[i].name, process(files[i]))
  {
    seq(|files|, i requires 0 <= i < |files| => Attempt(files[i].name, process(files[i])))
  }

  const NoFiles: RunReport := RunReport(0, 0, [], [])

  /** One iteration of the loop body for an attempted file. */
  function Step(before: RunReport, a: Attempt): RunReport {
    RunReport(before.total + 1,
              before.completed + (if a.outcome.Completed? then 1 else 0),
              before.stored + a.outcome.stored,
              before.moved + (if a.outcome.Completed? then [a.name] else []))
  }

  /** The counters and effects of a sequence of attempts. */
  function Tally(attempts: seq<Attempt>): RunReport
    decreases |attempts|
  {
    if |attempts| == 0 then NoFiles
    else Step(Tally(attempts[..|attempts| - 1]), attempts[|attempts| - 1])
  }

  /**
   * The counters of a run: every attempted file is counted, at most that
   * many complete (all of them exactly when every one completed), and one
   * name is moved per completed file.
   */
  lemma {:induction false} TallyCounts(attempts: seq<Attempt>)
    ensures var t := Tally(attempts);
      && t.total == |attempts| && t.completed <= t.total && |t.moved| == t.completed
      && (t.completed == t.total <==> forall i :: 0 <= i < |attempts| ==> attempts[i].outcome.Completed?)
    decreases |attempts|
  {
    if |attempts| > 0 {
      var init := attempts[..|attempts| - 1];
      TallyCounts(init);
      assert forall i :: 0 <= i < |init| ==> init[i] == attempts[i];
    }
  }

  /** A name is moved exactly when a file of that name completed. */
  lemma {:induction false} MovedAreCompleted(attempts: seq<Attempt>)
    ensures forall name :: name in Tally(attempts).moved <==>
              exists i :: 0 <= i < |attempts| && attempts[i].name == name && attempts[i].outcome.Completed?
    decreases |attempts|
  {
    if |attempts| > 0 {
      var init := attempts[..|attempts| - 1];
      MovedAreCompleted(init);
      assert forall i :: 0 <= i < |init| ==> init[i] == attempts[i];
    }
  }

  /** A point is stored exactly when some attempt stored it. */
  lemma {:induction false} StoredComeFromAttempts(attempts: seq<Attempt>)
    ensures forall p :: p in Tally(attempts).stored <==>
              exists i :: 0 <= i < |attempts| && p in attempts[i].outcome.stored
    decreases |attempts|
  {
    if |attempts| > 0 {
      var init := attempts[..|attempts| - 1];
      StoredComeFromAttempts(init);
      assert forall i :: 0 <= i < |init| ==> init[i] == attempts[i];
    }
  }

  /** The files the corrected reading of line 142 lets through: all but non-`.json` names containing `10K`. */
  predicate Attempted(f: FileInput) {
    IsJsonName(f.name) || !Occurs(f.name, "10K")
  }

  /** The attempted files, in directory order. */
  function AttemptedFiles(files: seq<FileInput>): (r: seq<FileInput>)
    ensures IsSubseq(r, files)
    ensures forall i :: 0 <= i < |r| ==> Attempted(r[i])
    ensures forall i :: 0 <= i < |files| && Attempted(files[i]) ==> files[i] in r
    decreases |files|
  {
    if |files| == 0 then []
    else
      var rest := AttemptedFiles(files[1..]);
      assert forall i :: 1 <= i < |files| ==> files[i] == files[1..][i - 1];
      if Attempted(files[0]) then [files[0]] + rest else rest
  }

  /**
   * Each attempted file is attempted as often as the listing holds it, so
   * two entries with the same name and JSON are both counted.
   */
  lemma {:induction false} AttemptedFilesCounts(files: seq<FileInput>)
    ensures forall x :: multiset(AttemptedFiles(files))[x] == if Attempted(x) then multiset(files)[x] else 0
    decreases |files|
  {
    if |files| > 0 {
      AttemptedFilesCounts(files[1..]);
      assert files == [files[0]] + files[1..];
    }
  }

  /**
   * The upload loop with the file filter of line 142 evaluated as its
   * authors meant it (`"10K" in file`): non-`.json` 10-K files are skipped,
   * every other file is attempted inside the `try`.
   */
  method UploadRun(files: seq<FileInput>, process: FileProcessor) returns (report: RunReport)
    ensures report == Tally(Attempts(AttemptedFiles(files), process))
    ensures report.total == |AttemptedFiles(files)| && report.completed <= report.total
  {
    var total, completed := 0, 0;
    var stored: seq<Payload> := [];
    var moved: seq<string> := [];
    var i := 0;
    while i < |files|
      invariant 0 <= i <= |files|
      invariant RunReport(total, completed, stored, moved) == Tally(Attempts(AttemptedFiles(files[..i]), process))
      invariant total == |AttemptedFiles(files[..i])| && completed <= total
    {
      RunPrefix(files, i, process);
      if Attempted(files[i]) {
        total := total + 1;
        var outcome := process(files[i]);
        stored := stored + outcome.stored;
        if outcome.Completed? {
          completed := completed + 1;
          moved := moved + [files[i].name];
        }
      }
      i := i + 1;
    }
    assert files[..i] == files;
    report := RunReport(total, completed, stored, moved);
  }

  /** One more file of the listing: one more step when it is attempted, no change otherwise. */
  lemma RunPrefix(files: seq<FileInput>, i: nat, process: FileProcessor)
    requires i < |files|
    ensures var before := Tally(Attempts(AttemptedFiles(files[..i]), process));
      Tally(Attempts(AttemptedFiles(files[..i + 1]), process)) ==
        if Attempted(files[i]) then Step(before, Attempt(files[i].name, process(files[i]))) else before
    ensures |AttemptedFiles(files[..i + 1])| == |AttemptedFiles(files[..i])| + if Attempted(files[i]) then 1 else 0
  {
    var done := AttemptedFiles(files[..i]);
    AttemptedPrefix(files, i);
    if Attempted(files[i]) {
      TallySnoc(done, files[i], process);
    } else {
      assert AttemptedFiles(files[..i + 1]) == done + [] == done;
    }
  }

  /** Attempting one more file is one more step of the loop body. */
  lemma TallySnoc(files: seq<FileInput>, f: FileInput, process: FileProcessor)
    ensures Tally(Attempts(files + [f], process)) ==
              Step(Tally(Attempts(files, process)), Attempt(f.name, process(f)))
  {
    var all := Attempts(files + [f], process);
    assert all[..|files|] == Attempts(files, process);
    assert all[|files|] == Attempt(f.name, process(f));
  }

  /** Filtering a one-longer prefix appends the new file when it is attempted. */
  lemma {:induction false} AttemptedPrefix(files: seq<FileInput>, i: nat)
    requires i < |files|
    ensures AttemptedFiles(files[..i + 1]) ==
              AttemptedFiles(files[..i]) + (if Attempted(files[i]) then [files[i]] else [])
  {
    AttemptedAppend(files[..i], files[i]);
    assert files[..i + 1] == files[..i] + [files[i]];
  }

  lemma {:induction false} AttemptedAppend(files: seq<FileInput>, f: FileInput)
    ensures AttemptedFiles(files + [f]) == AttemptedFiles(files) + (if Attempted(f) then [f] else [])
    decreases |files|
  {
    if |files| > 0 {
      assert (files + [f])[1..] == files[1..] + [f];
      AttemptedAppend(files[1..], f);
    } else {
      assert files + [f] == [f];
    }
  }

  /**
   * The loop as written: at the first name that does not end in `.json`,
   * `file.name` on a `str` raises `AttributeError` outside the `try`, which
   * ends the run before the summary. `Failure` carries what the files before
   * it did; their stored points and moved files stay.
   */
  function RunAsWritten(files: seq<FileInput>, process: FileProcessor): Result<RunReport, RunReport>
    decreases |files|
  {
    if |files| == 0 then Success(NoFiles)
    else
      match RunAsWritten(files[..|files| - 1], process)
      case Failure(partial) => Failure(partial)
      case Success(before) =>
        var last := files[|files| - 1];
        if !IsJsonName(last.name) then Failure(before)
        else Success(Step(before, Attempt(last.name, process(last))))
  }

  /** `i` is the first position whose name does not end in `.json`. */
  predicate FirstNonJson(files: seq<FileInput>, i: int) {
    && 0 <= i < |files| && !IsJsonName(files[i].name)
    && forall j :: 0 <= j < i ==> IsJsonName(files[j].name)
  }

  /** The as-written run crashes exactly when some name does not end in `.json`. */
  lemma {:induction false} AsWrittenCrashesOnNonJson(files: seq<FileInput>, process: FileProcessor)
    ensures RunAsWritten(files, process).Failure? <==> exists i :: 0 <= i < |files| && !IsJsonName(files[i].name)
    decreases |files|
  {
    if |files| > 0 {
      var init := files[..|files| - 1];
      AsWrittenCrashesOnNonJson(init, process);
      assert forall i :: 0 <= i < |init| ==> init[i] == files[i];
    }
  }

  /**
   * The crash keeps the effects of every file before the first non-`.json`
   * name, which are those of the corrected loop over those files.
   */
  lemma {:induction false} AsWrittenKeepsEarlierEffects(files: seq<FileInput>, process: FileProcessor, i: nat)
    requires FirstNonJson(files, i)
    ensures RunAsWritten(files, process) == Failure(Tally(Attempts(files[..i], process)))
    ensures AttemptedFiles(files[..i]) == files[..i]
    decreases |files|
  {
    var init := files[..|files| - 1];
    AllJsonAttempted(files[..i]);
    if i == |files| - 1 {
      AsWrittenTalliesAll(init, process);
    } else {
      assert FirstNonJson(init, i);
      AsWrittenKeepsEarlierEffects(init, process, i);
      assert init[..i] == files[..i];
    }
  }

  /** Without such a name the as-written run is the intended one. */
  lemma {:induction false} AsWrittenAgreesOnJsonNames(files: seq<FileInput>, process: FileProcessor)
    requires forall i :: 0 <= i < |files| ==> IsJsonName(files[i].name)
    ensures RunAsWritten(files, process) == Success(Tally(Attempts(AttemptedFiles(files), process)))
  {
    AllJsonAttempted(files);
    AsWrittenTalliesAll(files, process);
  }

  lemma {:induction false} AsWrittenTalliesAll(files: seq<FileInput>, process: FileProcessor)
    requires forall i :: 0 <= i < |files| ==> IsJsonName(files[i].name)
    ensures RunAsWritten(files, process) == Success(Tally(Attempts(files, process)))
    decreases |files|
  {
    if |files| > 0 {
      AsWrittenTalliesAll(files[..|files| - 1], process);
      TallyOfInit(files, process);
    }
  }

  lemma TallyOfInit(files: seq<FileInput>, process: FileProcessor)
    requires |files| > 0
    ensures Tally(Attempts(files, process)) ==
              Step(Tally(Attempts(files[..|files| - 1], process)), Attempt(files[|files| - 1].name, process(files[|files| - 1])))
  {
    assert Attempts(files, process)[..|files| - 1] == Attempts(files[..|files| - 1], process);
  }

  /** With only `.json` names, every file is attempted. */
  lemma {:induction false} AllJsonAttempted(files: seq<FileInput>)
    requires forall i :: 0 <= i < |files| ==> IsJsonName(files[i].name)
    ensures AttemptedFiles(files) == files
    decreases |files|
  {
    if |files| > 0 {
      assert forall i :: 1 <= i < |files| ==> files[1..][i - 1] == files[i];
      AllJsonAttempted(files[1..]);
      assert files == [files[0]] + files[1..];
    }
  }

  /**
   * The mapping load of `upload_10_k_to_qdrant` composed with the corrected
   * loop `UploadRun` (line 142 read as `"10K" in file`), not the loop as
   * written: `load_cik_ticker_mapping()` runs before the loop and outside any
   * `try`, so when it raises the run ends before any file is read; otherwise
   * the corrected loop runs with that mapping.
   */
  method UploadToQdrant(table: CikMapping.TickerTable, files: seq<FileInput>, env: Env)
    returns (r: Result<RunReport, CikMapping.MappingError>)
    ensures CikMapping.LoadCikTickerMapping(table).Failure? ==> r == Failure(CikMapping.LoadCikTickerMapping(table).error)
    ensures JStr("cik") !in table.fields ==> r == Failure(CikMapping.MissingField("cik"))
    ensures CikMapping.LoadCikTickerMapping(table).Success? ==>
              var process := Processor(CikMapping.LoadCikTickerMapping(table).value, env);
              && r == Success(Tally(Attempts(AttemptedFiles(files), process)))
              && r.value.total == |AttemptedFiles(files)|
  {
    match CikMapping.LoadCikTickerMapping(table)
    case Failure(e) =>
      r := Failure(e);
    case Success(mapping) =>
      var report := UploadRun(files, Processor(mapping, env));
      r := Success(report);
  }
}
