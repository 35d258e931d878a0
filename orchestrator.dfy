/** The run over the input directory: every discovered file is extracted,
    transformed, its valid cohort loaded, its invalid cohort saved, and the
    file archived. File contents, the outcome of each archive move and the
    store are inputs; an extraction or load failure ends the run. */
module Orchestrator {
  import opened Wrappers
  import opened Text
  import opened Frames
  import opened Extractors
  import opened Transformers
  import opened Loaders

  /** What the two readers give for one file. */
  datatype Content = Content(csv: Result<Table, string>, book: Result<seq<Sheet>, string>)

  /** A reader returns a table with one cell per column in each row. */
  predicate Readable(c: Content) {
    c.csv.Ok? ==> WellFormed(c.csv.value)
  }

  /** The dictionary `run_players` returns. */
  datatype Summary = Summary(processed: nat, created: nat, errors: nat)

  datatype Totals = Totals(created: nat, errors: nat)

  /** The valid and the invalid cohort of one file, or the extraction error. */
  function Cohorts(name: string, c: Content): (r: Result<(seq<Row>, seq<Row>), string>)
    requires Readable(c)
  {
    var x := Extracted(name, c.csv, c.book);
    if x.Err? then Err(x.error)
    else
      ExtractWellFormed(name, c.csv, c.book);
      Ok((ValidOf(PlayerRows(x.value.table)), InvalidOf(PlayerRows(x.value.table))))
  }

  /** The error artifacts of one file's invalid cohort. */
  function Artifacts(errorsDir: string, invalid: seq<Row>, name: string): (string, string)
    requires invalid != []
  {
    SaveErrors(errorsDir, Some(invalid), Stem(name)).value
  }

  /** What the run has done so far: the committed table, the counters, the
      files archived and the artifacts written. */
  datatype Progress = Progress(committed: seq<Player>, totals: Totals, moved: seq<string>, written: seq<(string, string)>)

  datatype Outcome = Outcome(state: Progress, result: Result<Totals, string>)

  /** A discovered file with its cohorts (or its extraction error). */
  datatype Staged = Staged(name: string, cohorts: Result<(seq<Row>, seq<Row>), string>)

  predicate AllReadable(files: seq<string>, contents: string -> Content) {
    forall f | f in files :: Readable(contents(f))
  }

  /** Each file with what extracting and transforming it gives. */
  function Stage(files: seq<string>, contents: string -> Content): (staged: seq<Staged>)
    requires AllReadable(files, contents)
    ensures |staged| == |files|
    decreases |files|
  {
    if files == [] then []
    else
      var n := |files| - 1;
      assert forall f | f in files[..n] :: f in files;
      Stage(files[..n], contents) + [Staged(files[n], Cohorts(files[n], contents(files[n])))]
  }

  /** The loader call for one file's valid cohort: none for an empty cohort. */
  function LoadCohort(committed: seq<Player>, valid: seq<Row>): LoadOutcome {
    if valid == [] then LoadOutcome(committed, Ok(0)) else Load(committed, Chunks(valid), 0)
  }

  /** The progress after a file whose cohort loaded with `created` records:
      the counters grow, the file is archived when its move succeeds, and
      its errors are saved when it has any. */
  function Advance(p: Progress, name: string, committed: seq<Player>, created: nat, invalid: seq<Row>,
                   moves: string -> bool, errorsDir: string): Progress
  {
    Progress(committed,
             Totals(p.totals.created + created, p.totals.errors + |invalid|),
             p.moved + (if moves(name) then [name] else []),
             p.written + (if invalid == [] then [] else [Artifacts(errorsDir, invalid, name)]))
  }

  lemma AdvanceIs(p: Progress, name: string, committed: seq<Player>, created: nat, invalid: seq<Row>,
                  moves: string -> bool, errorsDir: string, q: Progress)
    requires q.committed == committed
    requires q.totals == Totals(p.totals.created + created, p.totals.errors + |invalid|)
    requires q.moved == p.moved + (if moves(name) then [name] else [])
    requires q.written == p.written + (if invalid == [] then [] else [Artifacts(errorsDir, invalid, name)])
    ensures q == Advance(p, name, committed, created, invalid, moves, errorsDir)
  {
  }

  /** The loop of `run_players` over the staged files, from progress `p`;
      `moves(f)` says whether archiving `f` succeeds. An extraction error or
      a load error ends the run. */
  function Run(staged: seq<Staged>, moves: string -> bool, errorsDir: string, p: Progress): Outcome
    decreases |staged|
  {
    if staged == [] then Outcome(p, Ok(p.totals))
    else
      var s := staged[0];
      if s.cohorts.Err? then Outcome(p, Err(s.cohorts.error))
      else
        var load := LoadCohort(p.committed, s.cohorts.value.0);
        if load.result.Err? then Outcome(p.(committed := load.committed), Err(load.result.error))
        else Run(staged[1..], moves, errorsDir, Advance(p, s.name, load.committed, load.result.value, s.cohorts.value.1, moves, errorsDir))
  }

  /** What one file does to the run: the run goes on from new progress, or
      ends with an outcome. */
  datatype Next = Continue(progress: Progress) | Stop(outcome: Outcome)

  /** One iteration of the loop of `run_players`. */
  function StepOf(s: Staged, moves: string -> bool, errorsDir: string, p: Progress): Next {
    if s.cohorts.Err? then Stop(Outcome(p, Err(s.cohorts.error)))
    else
      var load := LoadCohort(p.committed, s.cohorts.value.0);
      if load.result.Err? then Stop(Outcome(p.(committed := load.committed), Err(load.result.error)))
      else Continue(Advance(p, s.name, load.committed, load.result.value, s.cohorts.value.1, moves, errorsDir))
  }

  lemma RunUnfold(staged: seq<Staged>, moves: string -> bool, errorsDir: string, p: Progress)
    requires staged != []
    ensures StepOf(staged[0], moves, errorsDir, p).Stop? ==>
              Run(staged, moves, errorsDir, p) == StepOf(staged[0], moves, errorsDir, p).outcome
    ensures StepOf(staged[0], moves, errorsDir, p).Continue? ==>
              Run(staged, moves, errorsDir, p) == Run(staged[1..], moves, errorsDir, StepOf(staged[0], moves, errorsDir, p).progress)
  {
  }

  // ---------------------------------------------------------------------
  // The input and processed directories

  /** The names in the input directory and in the processed directory. */
  class Inbox {
    var input: seq<string>
    var processed: seq<string>

    constructor (input: seq<string>, processed: seq<string>)
      ensures this.input == input && this.processed == processed
    {
      this.input := input;
      this.processed := processed;
    }

    /** `f.rename(processed_dir / f.name)`: on success the file leaves the
        input directory for the processed one; on failure nothing moves. */
    method Rename(f: string, succeeds: bool) returns (moved: bool)
      modifies this
      ensures moved == succeeds
      ensures succeeds ==> input == Without(old(input), f) && processed == old(processed) + [f]
      ensures !succeeds ==> input == old(input) && processed == old(processed)
    {
      moved := succeeds;
      if succeeds {
        input := Without(input, f);
        processed := processed + [f];
      }
    }
  }

  /** `s` without `f`. */
  function Without(s: seq<string>, f: string): (r: seq<string>)
    ensures forall x :: x in r <==> x in s && x != f
  {
    if s == [] then [] else (if s[0] == f then [] else [s[0]]) + Without(s[1..], f)
  }

  // ---------------------------------------------------------------------
  // run_players

  function Start(committed: seq<Player>): Progress {
    Progress(committed, Totals(0, 0), [], [])
  }

  /** Extracting and transforming one file. */
  method ProcessFile(f: string, c: Content) returns (cohorts: Result<(seq<Row>, seq<Row>), string>)
    requires Readable(c)
    ensures cohorts == Cohorts(f, c)
  {
    var x := Extract(f, c.csv, c.book);
    if x.Err? {
      return Err(x.error);
    }
    ExtractWellFormed(f, c.csv, c.book);
    var valid, invalid := TransformPlayers(x.value.table);
    return Ok((valid, invalid));
  }

  /** `if not valid_df.empty: bulk_insert_players(records)`. */
  method LoadValid(db: Session, valid: seq<Row>) returns (created: Result<nat, string>)
    requires db.Valid() && db.pending == []
    modifies db
    ensures db.Valid() && db.pending == []
    ensures created == LoadCohort(old(db.committed), valid).result && db.committed == LoadCohort(old(db.committed), valid).committed
  {
    if valid == [] {
      return Ok(0);
    }
    created := BulkInsertPlayers(db, valid);
  }

  /** The rest of one file of the loop, once it is extracted and
      transformed: load its valid cohort, save its invalid cohort, archive
      it. */
  method HandleFile(inbox: Inbox, db: Session, f: string, cohorts: Result<(seq<Row>, seq<Row>), string>,
                    moves: string -> bool, errorsDir: string,
                    totals: Totals, written: seq<(string, string)>, ghost p: Progress)
    returns (failure: Option<string>, totals': Totals, written': seq<(string, string)>, ghost next: Next)
    requires db.Valid() && db.pending == []
    requires p.committed == db.committed && p.totals == totals && p.written == written
    modifies inbox, db
    ensures db.Valid() && db.pending == []
    ensures next == StepOf(Staged(f, cohorts), moves, errorsDir, p)
    ensures failure.Some? <==> next.Stop?
    ensures next.Stop? ==> && failure.value == next.outcome.result.error && written' == written
                           && next.outcome.state == p.(committed := db.committed)
                           && inbox.processed == old(inbox.processed) && inbox.input == old(inbox.input)
    ensures next.Continue? ==> && next.progress == Progress(db.committed, totals', next.progress.moved, written')
                               && next.progress.moved == p.moved + (if moves(f) then [f] else [])
                               && inbox.processed == old(inbox.processed) + (if moves(f) then [f] else [])
                               && forall x :: x in inbox.input <==> x in old(inbox.input) && (x != f || !moves(f))
  {
    next := StepOf(Staged(f, cohorts), moves, errorsDir, p);
    totals', written' := totals, written;
    if cohorts.Err? {
      return Some(cohorts.error), totals', written', next;
    }
    var valid, invalid := cohorts.value.0, cohorts.value.1;
    var created := LoadValid(db, valid);
    if created.Err? {
      return Some(created.error), totals', written', next;
    }
    totals' := Totals(totals.created + created.value, totals.errors);
    if invalid != [] {
      var paths := SaveErrors(errorsDir, Some(invalid), Stem(f));
      written' := written + [paths.value];
      totals' := Totals(totals'.created, totals'.errors + |invalid|);
    }
    var archived := inbox.Rename(f, moves(f));
    AdvanceIs(p, f, db.committed, created.value, invalid, moves, errorsDir,
              Progress(db.committed, totals', p.moved + (if archived then [f] else []), written'));
    failure := None;
  }

  /** `extract` and `transform_players` on each discovered file. No file is
      touched and the store is not used, so computing the cohorts of every
      file before the loads gives what the interleaved loop of
      `run_players` gives. */
  method StageFiles(files: seq<string>, contents: string -> Content) returns (staged: seq<Staged>)
    requires forall f :: Readable(contents(f))
    ensures staged == Stage(files, contents)
    decreases |files|
  {
    if files == [] {
      return [];
    }
    var n := |files| - 1;
    staged := StageFiles(files[..n], contents);
    var cohorts := ProcessFile(files[n], contents(files[n]));
    staged := staged + [Staged(files[n], cohorts)];
  }

  /** The loop of `run_players` over the staged files. */
  method RunFiles(inbox: Inbox, db: Session, staged: seq<Staged>, moves: string -> bool, errorsDir: string)
    returns (r: Result<Totals, string>, written: seq<(string, string)>)
    requires db.Valid() && db.pending == []
    modifies inbox, db
    ensures db.Valid() && db.pending == []
    ensures var out := Run(staged, moves, errorsDir, Start(old(db.committed)));
            && db.committed == out.state.committed
            && inbox.processed == old(inbox.processed) + out.state.moved
            && written == out.state.written
            && r == out.result
    ensures forall x :: x in inbox.input <==> x in old(inbox.input) && x !in inbox.processed[|old(inbox.processed)|..]
  {
    written := [];
    ghost var moved: seq<string> := [];
    ghost var before := inbox.processed;
    ghost var listing := inbox.input;
    var totals := Totals(0, 0);
    var i := 0;
    while i < |staged|
      invariant i <= |staged| && db.Valid() && db.pending == []
      invariant inbox.processed == before + moved
      invariant forall x :: x in inbox.input <==> x in listing && x !in moved
      invariant Run(staged, moves, errorsDir, Start(old(db.committed)))
             == Run(staged[i..], moves, errorsDir, Progress(db.committed, totals, moved, written))
      decreases |staged| - i
    {
      var s := staged[i];
      ghost var p := Progress(db.committed, totals, moved, written);
      assert staged[i..][0] == s && staged[i..][1..] == staged[i + 1..];
      RunUnfold(staged[i..], moves, errorsDir, p);
      var failure; ghost var next;
      failure, totals, written, next := HandleFile(inbox, db, s.name, s.cohorts, moves, errorsDir, totals, written, p);
      if failure.Some? {
        return Err(failure.value), written;
      }
      Chain(before, moved, if moves(s.name) then [s.name] else [], before + moved, inbox.processed);
      moved := moved + (if moves(s.name) then [s.name] else []);
      i := i + 1;
    }
    assert staged[i..] == [];
    return Ok(totals), written;
  }

  /** `run_players`. */
  method RunPlayers(inbox: Inbox, db: Session, contents: string -> Content, moves: string -> bool, errorsDir: string)
    returns (r: Result<Summary, string>, written: seq<(string, string)>)
    requires db.Valid() && db.pending == []
    requires forall f :: Readable(contents(f))
    modifies inbox, db
    ensures db.Valid() && db.pending == []
    ensures var files := Glob(old(inbox.input), ".csv") + Glob(old(inbox.input), ".xls") + Glob(old(inbox.input), ".xlsx");
            var out := Run(Stage(files, contents), moves, errorsDir, Start(old(db.committed)));
            && db.committed == out.state.committed
            && inbox.processed == old(inbox.processed) + out.state.moved
            && written == out.state.written
            && (r.Ok? <==> out.result.Ok?)
            && (r.Ok? ==> r.value == Summary(|files|, out.result.value.created, out.result.value.errors))
            && (r.Err? ==> r.error == out.result.error)
    ensures forall x :: x in inbox.input <==> x in old(inbox.input) && x !in inbox.processed[|old(inbox.processed)|..]
    ensures old(inbox.input) == [] ==> r == Ok(Summary(0, 0, 0))
  {
    var files := ListFiles(inbox.input);
    if files == [] {
      return Ok(Summary(0, 0, 0)), [];
    }
    var staged := StageFiles(files, contents);
    var totals;
    totals, written := RunFiles(inbox, db, staged, moves, errorsDir);
    if totals.Err? {
      return Err(totals.error), written;
    }
    return Ok(Summary(|files|, totals.value.created, totals.value.errors)), written;
  }

  // ---------------------------------------------------------------------
  // Properties of the run

  /** The valid rows of every staged file, in file order. */
  function AllValid(staged: seq<Staged>): seq<Row> {
    if staged == [] then []
    else (if staged[0].cohorts.Ok? then staged[0].cohorts.value.0 else []) + AllValid(staged[1..])
  }

  /** The invalid rows of every staged file, in file order. */
  function AllInvalid(staged: seq<Staged>): seq<Row> {
    if staged == [] then []
    else (if staged[0].cohorts.Ok? then staged[0].cohorts.value.1 else []) + AllInvalid(staged[1..])
  }

  /** The files whose archive move succeeds, in order. */
  function Moved(staged: seq<Staged>, moves: string -> bool): seq<string> {
    if staged == [] then [] else (if moves(staged[0].name) then [staged[0].name] else []) + Moved(staged[1..], moves)
  }

  predicate AllExtracted(staged: seq<Staged>) {
    forall k | 0 <= k < |staged| :: staged[k].cohorts.Ok?
  }

  /** A file whose cohorts load is followed by the rest of the run. */
  lemma RunStep(staged: seq<Staged>, moves: string -> bool, errorsDir: string, p: Progress)
    requires staged != [] && staged[0].cohorts.Ok? && LoadCohort(p.committed, staged[0].cohorts.value.0).result.Ok?
    ensures var s, load := staged[0], LoadCohort(p.committed, staged[0].cohorts.value.0);
            Run(staged, moves, errorsDir, p)
            == Run(staged[1..], moves, errorsDir, Advance(p, s.name, load.committed, load.result.value, s.cohorts.value.1, moves, errorsDir))
  {
  }

  /** Loading a cohort that loads commits and counts all of it. */
  lemma LoadedCohort(committed: seq<Player>, valid: seq<Row>)
    requires LoadCohort(committed, valid).result.Ok?
    ensures LoadCohort(committed, valid).result.value == |valid|
    ensures LoadCohort(committed, valid).committed == committed + Players(valid)
  {
    if valid != [] {
      LoadSuccess(committed, Chunks(valid), 0);
      ChunksFlatten(valid);
    } else {
      assert Players(valid) == [];
    }
  }

  /** A cohort loads exactly when it keeps the unique e-mail constraint. */
  lemma LoadCohortIff(committed: seq<Player>, valid: seq<Row>)
    requires UniqueEmails(committed)
    ensures LoadCohort(committed, valid).result.Ok? <==> UniqueEmails(committed + Players(valid))
  {
    if valid != [] {
      LoadSucceedsIff(committed, Chunks(valid), 0);
      ChunksFlatten(valid);
    } else {
      assert committed + Players(valid) == committed;
    }
  }

  /** A run that returns has extracted every file, counts as created every
      valid row and as errors every invalid row, commits the valid rows in
      file order and archives exactly the files whose move succeeds. */
  lemma {:induction false} RunTotals(staged: seq<Staged>, moves: string -> bool, errorsDir: string, p: Progress)
    requires Run(staged, moves, errorsDir, p).result.Ok?
    decreases |staged|
    ensures AllExtracted(staged)
    ensures Run(staged, moves, errorsDir, p).result.value
            == Totals(p.totals.created + |AllValid(staged)|, p.totals.errors + |AllInvalid(staged)|)
    ensures Run(staged, moves, errorsDir, p).state.committed == p.committed + Players(AllValid(staged))
    ensures Run(staged, moves, errorsDir, p).state.moved == p.moved + Moved(staged, moves)
  {
    if staged != [] {
      var s := staged[0];
      var valid := s.cohorts.value.0;
      var load := LoadCohort(p.committed, valid);
      var q := Advance(p, s.name, load.committed, load.result.value, s.cohorts.value.1, moves, errorsDir);
      RunStep(staged, moves, errorsDir, p);
      RunTotals(staged[1..], moves, errorsDir, q);
      LoadedCohort(p.committed, valid);
      CommitChain(p.committed, valid, AllValid(staged[1..]), load.committed, Run(staged, moves, errorsDir, p).state.committed);
      Chain(p.moved, if moves(s.name) then [s.name] else [], Moved(staged[1..], moves), q.moved, Run(staged, moves, errorsDir, p).state.moved);
    }
  }

  lemma Chain<T>(a: seq<T>, b: seq<T>, c: seq<T>, ab: seq<T>, out: seq<T>)
    requires ab == a + b && out == ab + c
    ensures out == a + (b + c)
  {
  }

  lemma CommitChain(c0: seq<Player>, valid: seq<Row>, rest: seq<Row>, c1: seq<Player>, out: seq<Player>)
    requires c1 == c0 + Players(valid) && out == c1 + Players(rest)
    ensures out == c0 + Players(valid + rest)
  {
    PlayersConcat(valid, rest);
  }

  /** The run returns exactly when every file extracts and the valid rows of
      all files together keep the unique e-mail constraint. */
  lemma {:induction false} RunOkIff(staged: seq<Staged>, moves: string -> bool, errorsDir: string, p: Progress)
    requires UniqueEmails(p.committed)
    decreases |staged|
    ensures Run(staged, moves, errorsDir, p).result.Ok?
            <==> AllExtracted(staged) && UniqueEmails(p.committed + Players(AllValid(staged)))
  {
    if staged == [] {
      assert p.committed + Players([]) == p.committed;
    } else if staged[0].cohorts.Ok? {
      var s := staged[0];
      var valid := s.cohorts.value.0;
      var rest := Players(AllValid(staged[1..]));
      PlayersConcat(valid, AllValid(staged[1..]));
      assert p.committed + Players(AllValid(staged)) == (p.committed + Players(valid)) + rest;
      var load := LoadCohort(p.committed, valid);
      LoadCohortIff(p.committed, valid);
      if load.result.Ok? {
        LoadedCohort(p.committed, valid);
        var q := Advance(p, s.name, load.committed, load.result.value, s.cohorts.value.1, moves, errorsDir);
        RunStep(staged, moves, errorsDir, p);
        RunOkIff(staged[1..], moves, errorsDir, q);
        assert AllExtracted(staged) <==> AllExtracted(staged[1..]) by {
          assert forall k | 1 <= k < |staged| :: staged[k] == staged[1..][k - 1];
        }
      } else if UniqueEmails(p.committed + Players(valid) + rest) {
        UniquePrefix(p.committed + Players(valid), rest);
      }
    }
  }

  /** A failing archive move changes nothing but the list of archived files:
      the counters, the committed table, the artifacts and whether the run
      returns are the same whichever moves succeed. */
  lemma {:induction false} RunIgnoresMoves(staged: seq<Staged>, m1: string -> bool, m2: string -> bool,
                                           errorsDir: string, p1: Progress, p2: Progress)
    requires p1.committed == p2.committed && p1.totals == p2.totals && p1.written == p2.written
    decreases |staged|
    ensures Run(staged, m1, errorsDir, p1).result == Run(staged, m2, errorsDir, p2).result
    ensures Run(staged, m1, errorsDir, p1).state.committed == Run(staged, m2, errorsDir, p2).state.committed
    ensures Run(staged, m1, errorsDir, p1).state.written == Run(staged, m2, errorsDir, p2).state.written
  {
    if staged != [] && staged[0].cohorts.Ok? {
      var s := staged[0];
      var load := LoadCohort(p1.committed, s.cohorts.value.0);
      if load.result.Ok? {
        RunStep(staged, m1, errorsDir, p1);
        RunStep(staged, m2, errorsDir, p2);
        RunIgnoresMoves(staged[1..], m1, m2, errorsDir,
                        Advance(p1, s.name, load.committed, load.result.value, s.cohorts.value.1, m1, errorsDir),
                        Advance(p2, s.name, load.committed, load.result.value, s.cohorts.value.1, m2, errorsDir));
      }
    }
  }

  /** The counters never go down. */
  lemma {:induction false} RunMonotone(staged: seq<Staged>, moves: string -> bool, errorsDir: string, p: Progress)
    decreases |staged|
    ensures p.totals.created <= Run(staged, moves, errorsDir, p).state.totals.created
    ensures p.totals.errors <= Run(staged, moves, errorsDir, p).state.totals.errors
  {
    if staged != [] && staged[0].cohorts.Ok? {
      var s := staged[0];
      var load := LoadCohort(p.committed, s.cohorts.value.0);
      if load.result.Ok? {
        RunStep(staged, moves, errorsDir, p);
        RunMonotone(staged[1..], moves, errorsDir, Advance(p, s.name, load.committed, load.result.value, s.cohorts.value.1, moves, errorsDir));
      }
    }
  }

  /** The run stopped at file `k`: the files before it extracted and only
      those were archived. */
  predicate StoppedAt(staged: seq<Staged>, moves: string -> bool, k: int, before: seq<string>, moved: seq<string>) {
    && 0 <= k < |staged|
    && AllExtracted(staged[..k])
    && moved == before + Moved(staged[..k], moves)
  }

  /** Stopping at file `k` after the first file went through is stopping at
      file `k + 1` of the whole run. */
  lemma StoppedAtStep(staged: seq<Staged>, moves: string -> bool, k: int, before: seq<string>, moved: seq<string>)
    requires staged != [] && staged[0].cohorts.Ok?
    requires StoppedAt(staged[1..], moves, k, before + (if moves(staged[0].name) then [staged[0].name] else []), moved)
    ensures StoppedAt(staged, moves, k + 1, before, moved)
  {
    var s := staged[0];
    var pre := staged[..k + 1];
    assert pre[0] == s && pre[1..] == staged[1..][..k];
    Chain(before, if moves(s.name) then [s.name] else [], Moved(staged[1..][..k], moves),
          before + (if moves(s.name) then [s.name] else []), moved);
    assert AllExtracted(pre) by {
      assert forall j | 1 <= j < k + 1 :: pre[j] == pre[1..][j - 1];
    }
  }

  /** A run that fails stops at one file: every file before it extracted and
      only files before it were archived; no later file is touched. */
  lemma {:induction false} RunStops(staged: seq<Staged>, moves: string -> bool, errorsDir: string, p: Progress)
    requires Run(staged, moves, errorsDir, p).result.Err?
    decreases |staged|
    ensures exists k :: StoppedAt(staged, moves, k, p.moved, Run(staged, moves, errorsDir, p).state.moved)
  {
    var s := staged[0];
    var out := Run(staged, moves, errorsDir, p);
    if s.cohorts.Ok? && LoadCohort(p.committed, s.cohorts.value.0).result.Ok? {
      var load := LoadCohort(p.committed, s.cohorts.value.0);
      var q := Advance(p, s.name, load.committed, load.result.value, s.cohorts.value.1, moves, errorsDir);
      RunStep(staged, moves, errorsDir, p);
      RunStops(staged[1..], moves, errorsDir, q);
      var k :| StoppedAt(staged[1..], moves, k, q.moved, out.state.moved);
      StoppedAtStep(staged, moves, k, p.moved, out.state.moved);
    } else {
      assert staged[..0] == [] && Moved([], moves) == [];
      assert StoppedAt(staged, moves, 0, p.moved, out.state.moved);
    }
  }

  /** Two sources that differ only in their extension write the same error
      artifacts: `errors_<stem>` does not carry the extension. */
  lemma SharedStemSharesArtifacts(errorsDir: string, base: string, invalid: seq<Row>)
    requires base != [] && invalid != []
    ensures Artifacts(errorsDir, invalid, base + ".csv") == Artifacts(errorsDir, invalid, base + ".xlsx")
  {
    StemOf(base, ".csv");
    StemOf(base, ".xlsx");
  }
}
