/** The worker pool that renders a package's files: workers share a job counter and a failure
    flag, and their steps interleave freely. */
module Writer {
  import opened Wrappers
  import opened Walks
  import Outputs

  datatype Job = Job(path: string, weight: nat, pieces: seq<Outputs.Piece>) {
    function Text(): string {
      Outputs.Text(pieces)
    }
  }

  /** Where a worker is: about to read the flag, about to take a number, writing a job's file,
      about to raise the flag, or finished. */
  datatype Worker =
    | Checking
    | Claiming
    | Writing(job: nat)
    | Failing(job: nat, error: string)
    | Done
    | Failed(job: nat, error: string)

  /** What the workers share and where each is; `claimed` and `rendered` are the history. */
  datatype State = State(
    next: nat,
    failed: bool,
    workers: seq<Worker>,
    files: map<string, string>,
    claimed: seq<nat>,
    rendered: seq<nat>
  )

  /** Largest first; jobs of one weight keep their order. */
  function Place(jobs: seq<Job>, job: Job): seq<Job> {
    if jobs == [] then [job]
    else if jobs[|jobs| - 1].weight >= job.weight then jobs + [job]
    else Place(jobs[..|jobs| - 1], job) + [jobs[|jobs| - 1]]
  }

  function LargestFirst(jobs: seq<Job>): seq<Job> {
    if jobs == [] then [] else Place(LargestFirst(jobs[..|jobs| - 1]), jobs[|jobs| - 1])
  }

  ghost predicate Descending(jobs: seq<Job>) {
    forall i, j :: 0 <= i < j < |jobs| ==> jobs[i].weight >= jobs[j].weight
  }

  lemma {:induction false} PlaceKeeps(jobs: seq<Job>, job: Job)
    ensures multiset(Place(jobs, job)) == multiset(jobs) + multiset{job}
  {
    if jobs != [] {
      assert jobs == jobs[..|jobs| - 1] + [jobs[|jobs| - 1]];
      if jobs[|jobs| - 1].weight < job.weight {
        PlaceKeeps(jobs[..|jobs| - 1], job);
      }
    }
  }

  lemma {:induction false} PlaceSpec(jobs: seq<Job>, job: Job)
    requires Descending(jobs)
    ensures Descending(Place(jobs, job))
  {
    if jobs != [] && jobs[|jobs| - 1].weight < job.weight {
      var init, last := jobs[..|jobs| - 1], jobs[|jobs| - 1];
      PlaceSpec(init, job);
      PlaceKeeps(init, job);
      var placed := Place(init, job);
      forall i | 0 <= i < |placed|
        ensures placed[i].weight >= last.weight
      {
        assert placed[i] in multiset(placed);
      }
    }
  }

  lemma {:induction false} LargestFirstDescends(jobs: seq<Job>)
    ensures Descending(LargestFirst(jobs))
  {
    if jobs != [] {
      LargestFirstDescends(jobs[..|jobs| - 1]);
      PlaceSpec(LargestFirst(jobs[..|jobs| - 1]), jobs[|jobs| - 1]);
    }
  }

  lemma {:induction false} LargestFirstKeeps(jobs: seq<Job>)
    ensures multiset(LargestFirst(jobs)) == multiset(jobs)
  {
    if jobs != [] {
      LargestFirstKeeps(jobs[..|jobs| - 1]);
      PlaceKeepsAll(LargestFirst(jobs[..|jobs| - 1]), jobs);
    }
  }

  lemma PlaceKeepsAll(sorted: seq<Job>, jobs: seq<Job>)
    requires jobs != [] && multiset(sorted) == multiset(jobs[..|jobs| - 1])
    ensures multiset(Place(sorted, jobs[|jobs| - 1])) == multiset(jobs)
  {
    var init, last := jobs[..|jobs| - 1], jobs[|jobs| - 1];
    PlaceKeeps(sorted, last);
    assert jobs == init + [last];
  }

  /** The jobs of one weight, in order. */
  function OfWeight(jobs: seq<Job>, weight: nat): seq<Job> {
    if jobs == [] then []
    else
      var last := jobs[|jobs| - 1];
      OfWeight(jobs[..|jobs| - 1], weight) + if last.weight == weight then [last] else []
  }

  lemma OfWeightSnoc(init: seq<Job>, last: Job, weight: nat)
    ensures OfWeight(init + [last], weight) == OfWeight(init, weight) + if last.weight == weight then [last] else []
  {
    assert (init + [last])[..|init|] == init;
  }

  lemma {:induction false} PlaceIsStable(jobs: seq<Job>, job: Job, weight: nat)
    ensures OfWeight(Place(jobs, job), weight) == OfWeight(jobs, weight) + if job.weight == weight then [job] else []
  {
    if jobs == [] {
      assert [job] == [] + [job];
      OfWeightSnoc([], job, weight);
    } else if jobs[|jobs| - 1].weight >= job.weight {
      OfWeightSnoc(jobs, job, weight);
    } else {
      var init, last := jobs[..|jobs| - 1], jobs[|jobs| - 1];
      var before := OfWeight(init, weight);
      PlaceIsStable(init, job, weight);
      OfWeightSnoc(Place(init, job), last, weight);
      assert before + [] == before && (before + [job]) + [] == before + [job];
    }
  }

  lemma {:induction false} LargestFirstIsStable(jobs: seq<Job>, weight: nat)
    ensures OfWeight(LargestFirst(jobs), weight) == OfWeight(jobs, weight)
  {
    if jobs != [] {
      LargestFirstIsStable(jobs[..|jobs| - 1], weight);
      PlaceIsStable(LargestFirst(jobs[..|jobs| - 1]), jobs[|jobs| - 1], weight);
    }
  }

  /** Largest first, the jobs of one weight as they came, none lost or added. */
  lemma LargestFirstSpec(jobs: seq<Job>)
    ensures Descending(LargestFirst(jobs))
    ensures multiset(LargestFirst(jobs)) == multiset(jobs)
    ensures forall weight :: OfWeight(LargestFirst(jobs), weight) == OfWeight(jobs, weight)
  {
    LargestFirstDescends(jobs);
    LargestFirstKeeps(jobs);
    forall weight: nat
      ensures OfWeight(LargestFirst(jobs), weight) == OfWeight(jobs, weight)
    {
      LargestFirstIsStable(jobs, weight);
    }
  }

  ghost predicate Starts(s: State, files: map<string, string>) {
    && s.next == 0 && !s.failed && s.files == files
    && s.workers != [] && (forall w :: 0 <= w < |s.workers| ==> s.workers[w] == Checking)
    && s.claimed == [] && s.rendered == []
  }

  /** A worker looks at the flag. A relaxed read may miss that it was raised, never invent it. */
  ghost predicate Checks(s: State, t: State, w: nat)
    requires w < |s.workers|
  {
    && s.workers[w] == Checking
    && (t == s.(workers := s.workers[w := Claiming])
        || (s.failed && t == s.(workers := s.workers[w := Done])))
  }

  /** A worker takes the next number; past the last job it is finished, otherwise it creates the
      job's file. */
  ghost predicate Claims(jobs: seq<Job>, s: State, t: State, w: nat)
    requires w < |s.workers|
  {
    && s.workers[w] == Claiming
    && (if s.next < |jobs| then
          t == s.(next := s.next + 1, workers := s.workers[w := Writing(s.next)],
          files := s.files[jobs[s.next].path := ""], claimed := s.claimed + [s.next])
        else
          t == s.(next := s.next + 1, workers := s.workers[w := Done]))
  }

  ghost predicate Renders(jobs: seq<Job>, s: State, t: State, w: nat)
    requires w < |s.workers|
  {
    && s.workers[w].Writing? && s.workers[w].job < |jobs|
    && var job := s.workers[w].job;
    t == s.(workers := s.workers[w := Checking], files := s.files[jobs[job].path := jobs[job].Text()],
      rendered := s.rendered + [job])
  }

  /** Creating, writing or flushing the file fails, at any point of its text. */
  ghost predicate Breaks(jobs: seq<Job>, s: State, t: State, w: nat)
    requires w < |s.workers|
  {
    && s.workers[w].Writing? && s.workers[w].job < |jobs|
    && exists error, part :: BreaksWith(jobs[s.workers[w].job], s, t, w, error, part)
  }

  ghost predicate BreaksWith(job: Job, s: State, t: State, w: nat, error: string, part: string)
    requires w < |s.workers| && s.workers[w].Writing?
  {
    && part <= job.Text()
    && t == s.(workers := s.workers[w := Failing(s.workers[w].job, error)], files := s.files[job.path := part])
  }

  ghost predicate Raises(s: State, t: State, w: nat)
    requires w < |s.workers|
  {
    && s.workers[w].Failing?
    && t == s.(failed := true, workers := s.workers[w := Failed(s.workers[w].job, s.workers[w].error)])
  }

  ghost predicate Step(jobs: seq<Job>, s: State, t: State, w: nat) {
    && w < |s.workers|
    && (Checks(s, t, w) || Claims(jobs, s, t, w) || Renders(jobs, s, t, w) || Breaks(jobs, s, t, w) || Raises(s, t, w))
  }

  /** One step of any of the workers. */
  ghost predicate Next(jobs: seq<Job>, s: State, t: State) {
    exists w: nat :: Step(jobs, s, t, w)
  }

  ghost predicate IsRun(jobs: seq<Job>, files: map<string, string>, run: seq<State>) {
    && run != [] && Starts(run[0], files)
    && (forall i :: 0 <= i < |run| - 1 ==> Next(jobs, run[i], run[i + 1]))
  }

  /** The first error in worker order, if any worker failed. */
  function Outcome(workers: seq<Worker>): Option<string> {
    if workers == [] then None
    else if workers[0].Failed? then Some(workers[0].error)
    else Outcome(workers[1..])
  }

  ghost predicate Finished(s: State) {
    forall w :: 0 <= w < |s.workers| ==> s.workers[w].Done? || s.workers[w].Failed?
  }

  // What every step keeps.

  /** The numbers handed out so far are the jobs from the first on, each once. */
  ghost predicate ClaimsInOrder(jobs: seq<Job>, s: State) {
    && |s.claimed| == (if s.next < |jobs| then s.next else |jobs|)
    && (forall k :: 0 <= k < |s.claimed| ==> s.claimed[k] == k)
  }

  predicate Holds(worker: Worker, job: nat) {
    (worker.Writing? || worker.Failing? || worker.Failed?) && worker.job == job
  }

  ghost predicate Held(s: State, job: nat) {
    exists w :: 0 <= w < |s.workers| && Holds(s.workers[w], job)
  }

  /** A claimed job is held by one worker or rendered, and not both. */
  ghost predicate Accounted(jobs: seq<Job>, s: State) {
    && Distinct(s.rendered)
    && (forall job: nat :: job in s.rendered || Held(s, job) <==> job in s.claimed)
    && (forall job: nat :: !(job in s.rendered && Held(s, job)))
    && (forall w, v, job :: 0 <= w < v < |s.workers| ==> !(Holds(s.workers[w], job) && Holds(s.workers[v], job)))
  }

  /** The flag is up exactly when some worker has failed; a worker that is done saw the flag or ran
      out of jobs. */
  ghost predicate StopsForAReason(jobs: seq<Job>, s: State) {
    && (s.failed <==> exists w :: 0 <= w < |s.workers| && s.workers[w].Failed?)
    && (forall w :: 0 <= w < |s.workers| && s.workers[w].Done? ==> s.failed || s.next > |jobs|)
  }

  ghost predicate Invariant(jobs: seq<Job>, s: State) {
    ClaimsInOrder(jobs, s) && Accounted(jobs, s) && StopsForAReason(jobs, s)
  }

  lemma HeldAfter(s: State, t: State, w: nat, worker: Worker, job: nat)
    requires w < |s.workers| && t.workers == s.workers[w := worker]
    ensures Held(t, job) <==>
            Holds(worker, job) || exists v :: 0 <= v < |s.workers| && v != w && Holds(s.workers[v], job)
  {
    if Holds(worker, job) {
      assert Holds(t.workers[w], job);
    }
    if v :| 0 <= v < |s.workers| && v != w && Holds(s.workers[v], job) {
      assert Holds(t.workers[v], job);
    }
  }

  /** A step that moves one worker and leaves its job with it. */
  lemma KeepsJob(jobs: seq<Job>, s: State, t: State, w: nat, worker: Worker)
    requires Accounted(jobs, s) && w < |s.workers| && t.workers == s.workers[w := worker]
    requires t.claimed == s.claimed && t.rendered == s.rendered
    requires forall job: nat :: Holds(worker, job) <==> Holds(s.workers[w], job)
    ensures Accounted(jobs, t)
  {
    forall job: nat
      ensures Held(t, job) <==> Held(s, job)
    {
      HeldAfter(s, t, w, worker, job);
      if Held(s, job) {
        var v :| 0 <= v < |s.workers| && Holds(s.workers[v], job);
        assert v == w || Holds(s.workers[v], job);
      }
    }
  }

  lemma ClaimAccounted(jobs: seq<Job>, s: State, t: State, w: nat)
    requires ClaimsInOrder(jobs, s) && Accounted(jobs, s) && w < |s.workers| && Claims(jobs, s, t, w) && s.next < |jobs|
    ensures Accounted(jobs, t)
  {
    var taken := s.next;
    assert taken !in s.claimed;
    assert !Held(s, taken) && taken !in s.rendered;
    forall job: nat
      ensures Held(t, job) <==> Held(s, job) || job == taken
    {
      HeldAfter(s, t, w, Writing(taken), job);
      if Held(s, job) {
        var v :| 0 <= v < |s.workers| && Holds(s.workers[v], job);
        assert v != w;
      }
    }
    forall v | 0 <= v < |s.workers| && v != w
      ensures !Holds(t.workers[v], taken)
    {
      assert !Holds(s.workers[v], taken);
    }
  }

  lemma RenderAccounted(jobs: seq<Job>, s: State, t: State, w: nat)
    requires Accounted(jobs, s) && w < |s.workers| && Renders(jobs, s, t, w)
    ensures Accounted(jobs, t)
  {
    var done := s.workers[w].job;
    assert Holds(s.workers[w], done);
    assert Held(s, done);
    DistinctSnoc(s.rendered, done);
    forall job: nat
      ensures Held(t, job) <==> Held(s, job) && job != done
    {
      HeldAfter(s, t, w, Checking, job);
      if Held(s, job) && job != done {
        var v :| 0 <= v < |s.workers| && Holds(s.workers[v], job);
        assert v != w;
      }
    }
  }

  lemma StepAccounted(jobs: seq<Job>, s: State, t: State, w: nat)
    requires ClaimsInOrder(jobs, s) && Accounted(jobs, s) && Step(jobs, s, t, w)
    ensures Accounted(jobs, t)
  {
    if Claims(jobs, s, t, w) && s.next < |jobs| {
      ClaimAccounted(jobs, s, t, w);
    } else if Renders(jobs, s, t, w) {
      RenderAccounted(jobs, s, t, w);
    } else {
      KeepsJob(jobs, s, t, w, t.workers[w]);
    }
  }

  lemma StepStops(jobs: seq<Job>, s: State, t: State, w: nat)
    requires StopsForAReason(jobs, s) && Step(jobs, s, t, w)
    ensures StopsForAReason(jobs, t)
  {
    if t.failed {
      if Raises(s, t, w) {
        assert t.workers[w].Failed?;
      } else {
        var v :| 0 <= v < |s.workers| && s.workers[v].Failed?;
        assert t.workers[v].Failed?;
      }
    }
  }

  lemma StepKeepsInvariant(jobs: seq<Job>, s: State, t: State)
    requires Invariant(jobs, s) && Next(jobs, s, t)
    ensures Invariant(jobs, t)
  {
    var w: nat :| Step(jobs, s, t, w);
    StepAccounted(jobs, s, t, w);
    StepStops(jobs, s, t, w);
  }

  lemma RunSplits(jobs: seq<Job>, files: map<string, string>, run: seq<State>)
    requires IsRun(jobs, files, run) && |run| > 1
    ensures IsRun(jobs, files, run[..|run| - 1]) && Next(jobs, run[|run| - 2], run[|run| - 1])
  {
    var init := run[..|run| - 1];
    forall i | 0 <= i < |init| - 1
      ensures Next(jobs, init[i], init[i + 1])
    {
      assert Next(jobs, run[i], run[i + 1]);
    }
  }

  lemma {:induction false} RunKeepsInvariant(jobs: seq<Job>, files: map<string, string>, run: seq<State>)
    requires IsRun(jobs, files, run)
    ensures Invariant(jobs, run[|run| - 1])
  {
    if |run| == 1 {
      StartKeepsInvariant(jobs, files, run[0]);
    } else {
      RunSplits(jobs, files, run);
      RunKeepsInvariant(jobs, files, run[..|run| - 1]);
      StepKeepsInvariant(jobs, run[|run| - 2], run[|run| - 1]);
    }
  }

  lemma StartKeepsInvariant(jobs: seq<Job>, files: map<string, string>, s: State)
    requires Starts(s, files)
    ensures Invariant(jobs, s)
  {
  }

  /** In every interleaving no job is taken twice, and the jobs are taken largest first. */
  lemma ClaimsDescend(jobs: seq<Job>, files: map<string, string>, run: seq<State>)
    requires IsRun(jobs, files, run) && Descending(jobs)
    ensures var claimed := run[|run| - 1].claimed;
            && Distinct(claimed)
            && (forall k :: 0 <= k < |claimed| ==> claimed[k] < |jobs|)
            && (forall k, l :: 0 <= k < l < |claimed| ==> jobs[claimed[k]].weight >= jobs[claimed[l]].weight)
  {
    RunKeepsInvariant(jobs, files, run);
  }

  ghost predicate FirstFailure(workers: seq<Worker>, w: nat) {
    w < |workers| && workers[w].Failed? && forall v :: 0 <= v < w ==> !workers[v].Failed?
  }

  lemma {:induction false} OutcomeSpec(workers: seq<Worker>)
    ensures Outcome(workers) == None <==> forall w :: 0 <= w < |workers| ==> !workers[w].Failed?
    ensures Outcome(workers).Some? ==>
              exists w: nat :: FirstFailure(workers, w) && workers[w].error == Outcome(workers).value
  {
    if workers != [] && workers[0].Failed? {
      assert FirstFailure(workers, 0);
    } else if workers != [] {
      var rest := workers[1..];
      OutcomeSpec(rest);
      if Outcome(rest).Some? {
        var w: nat :| FirstFailure(rest, w) && rest[w].error == Outcome(rest).value;
        assert workers[w + 1] == rest[w];
        forall v | 0 <= v < w + 1
          ensures !workers[v].Failed?
        {
          assert v > 0 ==> workers[v] == rest[v - 1];
        }
        assert FirstFailure(workers, w + 1);
      }
      forall w | 0 <= w < |workers| && workers[w].Failed?
        ensures Outcome(workers).Some?
      {
        assert rest[w - 1].Failed?;
      }
    }
  }

  /** An error in the result is that of the first worker, in order, that failed, and it has raised
      the flag; without an error the flag is down. */
  lemma ErrorsAreRaised(jobs: seq<Job>, files: map<string, string>, run: seq<State>)
    requires IsRun(jobs, files, run)
    ensures var s := run[|run| - 1];
            match Outcome(s.workers)
            case None => !s.failed
            case Some(error) => s.failed && exists w: nat :: FirstFailure(s.workers, w) && s.workers[w].error == error
  {
    RunKeepsInvariant(jobs, files, run);
    OutcomeSpec(run[|run| - 1].workers);
  }

  /** When the workers have finished, the result is a success exactly when every job was rendered
      without an error, and then each was rendered once. */
  lemma SuccessIsEveryJobOnce(jobs: seq<Job>, files: map<string, string>, run: seq<State>)
    requires IsRun(jobs, files, run) && Finished(run[|run| - 1])
    ensures var s := run[|run| - 1];
            && Distinct(s.rendered)
            && (Outcome(s.workers) == None <==> forall job: nat :: job in s.rendered <==> job < |jobs|)
  {
    var s := run[|run| - 1];
    RunKeepsInvariant(jobs, files, run);
    OutcomeSpec(s.workers);
    WorkersStay(jobs, files, run);
    forall job: nat
      ensures job in s.claimed ==> job < |jobs|
    {
    }
    if Outcome(s.workers) == None {
      assert s.workers[0].Done?;
      forall job: nat
        ensures job in s.rendered <==> job < |jobs|
      {
        assert !Held(s, job);
        if job < |jobs| {
          assert s.claimed[job] == job;
        }
      }
    } else {
      var w :| 0 <= w < |s.workers| && s.workers[w].Failed?;
      var job := s.workers[w].job;
      assert Holds(s.workers[w], job);
      assert Held(s, job) && job in s.claimed;
    }
  }

  lemma {:induction false} WorkersStay(jobs: seq<Job>, files: map<string, string>, run: seq<State>)
    requires IsRun(jobs, files, run)
    ensures |run[|run| - 1].workers| == |run[0].workers| > 0
  {
    if |run| > 1 {
      RunSplits(jobs, files, run);
      WorkersStay(jobs, files, run[..|run| - 1]);
      var w: nat :| Step(jobs, run[|run| - 2], run[|run| - 1], w);
    }
  }

  // The files.

  ghost predicate DistinctPaths(jobs: seq<Job>) {
    forall i, j :: 0 <= i < j < |jobs| ==> jobs[i].path != jobs[j].path
  }

  ghost predicate IsPath(jobs: seq<Job>, path: string) {
    exists i :: 0 <= i < |jobs| && jobs[i].path == path
  }

  /** No other job writes to this job's file. */
  ghost predicate Sole(jobs: seq<Job>, job: nat) {
    job < |jobs| && forall j :: 0 <= j < |jobs| && j != job ==> jobs[j].path != jobs[job].path
  }

  /** A rendered job's file has the job's text, unless another job writes there too; files of no
      job are as they were. */
  ghost predicate FilesHold(jobs: seq<Job>, before: map<string, string>, s: State) {
    && (forall job :: RenderedHolds(jobs, s.rendered, s.files, job))
    && (forall job :: CreatedHolds(jobs, s.claimed, s.files, job))
    && (forall path :: SameFile(jobs, before, s.files, path))
  }

  ghost predicate HasText(job: Job, files: map<string, string>) {
    job.path in files && files[job.path] == Outputs.Text(job.pieces)
  }

  ghost predicate RenderedHolds(jobs: seq<Job>, rendered: seq<nat>, files: map<string, string>, job: nat) {
    job in rendered && Sole(jobs, job) ==> HasText(jobs[job], files)
  }

  ghost predicate CreatedHolds(jobs: seq<Job>, claimed: seq<nat>, files: map<string, string>, job: nat) {
    job in claimed && job < |jobs| ==> jobs[job].path in files
  }

  ghost predicate SameFile(jobs: seq<Job>, before: map<string, string>, after: map<string, string>, path: string) {
    !IsPath(jobs, path) ==> (path in before <==> path in after) && (path in before ==> before[path] == after[path])
  }

  /** A step writes at most one file, the file of the job it claims, renders or breaks. */
  ghost predicate Writes(jobs: seq<Job>, s: State, t: State, job: nat, text: string) {
    && job < |jobs| && job !in s.rendered
    && t.files == s.files[jobs[job].path := text]
    && (t.claimed == s.claimed || t.claimed == s.claimed + [job])
    && (t.rendered == s.rendered || (t.rendered == s.rendered + [job] && text == jobs[job].Text()))
  }

  lemma WriteHolds(jobs: seq<Job>, before: map<string, string>, s: State, t: State, job: nat, text: string)
    requires FilesHold(jobs, before, s) && Writes(jobs, s, t, job, text)
    ensures FilesHold(jobs, before, t)
  {
    forall other: nat
      ensures RenderedHolds(jobs, t.rendered, t.files, other)
      ensures CreatedHolds(jobs, t.claimed, t.files, other)
    {
      assert RenderedHolds(jobs, s.rendered, s.files, other);
      assert CreatedHolds(jobs, s.claimed, s.files, other);
    }
    forall path
      ensures SameFile(jobs, before, t.files, path)
    {
      assert SameFile(jobs, before, s.files, path);
    }
  }

  lemma HeldIsClaimed(jobs: seq<Job>, s: State, w: nat, job: nat)
    requires Invariant(jobs, s) && w < |s.workers| && Holds(s.workers[w], job)
    ensures job < |jobs| && job !in s.rendered
  {
    assert Held(s, job) && job in s.claimed;
  }

  lemma StepWrites(jobs: seq<Job>, s: State, t: State) returns (job: nat, text: string)
    requires Invariant(jobs, s) && Next(jobs, s, t)
    ensures Writes(jobs, s, t, job, text) || (t.files, t.claimed, t.rendered) == (s.files, s.claimed, s.rendered)
  {
    var w: nat :| Step(jobs, s, t, w);
    job, text := 0, "";
    if Claims(jobs, s, t, w) {
      if s.next < |jobs| {
        assert s.next !in s.claimed;
        job := s.next;
      }
    } else if s.workers[w].Writing? {
      job := s.workers[w].job;
      HeldIsClaimed(jobs, s, w, job);
      if Renders(jobs, s, t, w) {
        text := jobs[job].Text();
      } else {
        var error, part :| BreaksWith(jobs[job], s, t, w, error, part);
        text := part;
      }
    }
  }

  lemma {:induction false} RunFilesHold(jobs: seq<Job>, before: map<string, string>, run: seq<State>)
    requires IsRun(jobs, before, run)
    ensures FilesHold(jobs, before, run[|run| - 1])
  {
    if |run| > 1 {
      var s, t := run[|run| - 2], run[|run| - 1];
      RunSplits(jobs, before, run);
      RunFilesHold(jobs, before, run[..|run| - 1]);
      RunKeepsInvariant(jobs, before, run[..|run| - 1]);
      var job, text := StepWrites(jobs, s, t);
      if Writes(jobs, s, t, job, text) {
        WriteHolds(jobs, before, s, t, job, text);
      }
    }
  }

  /** The package rendered in memory: each path with its text. */
  function Package(jobs: seq<Job>): map<string, string> {
    if jobs == [] then map[]
    else
      var last := jobs[|jobs| - 1];
      Package(jobs[..|jobs| - 1])[last.path := Outputs.Text(last.pieces)]
  }

  lemma {:induction false} PackagePaths(jobs: seq<Job>, path: string)
    ensures path in Package(jobs) <==> IsPath(jobs, path)
  {
    if jobs != [] {
      var init, last := jobs[..|jobs| - 1], jobs[|jobs| - 1];
      PackagePaths(init, path);
      if IsPath(jobs, path) && path != last.path {
        var i :| 0 <= i < |jobs| && jobs[i].path == path;
        assert init[i].path == path;
      }
      if IsPath(init, path) {
        var i :| 0 <= i < |init| && init[i].path == path;
        assert jobs[i].path == path;
      }
      assert jobs[|jobs| - 1].path == last.path;
    }
  }

  lemma {:induction false} PackageHasText(jobs: seq<Job>, job: nat)
    requires Sole(jobs, job)
    ensures HasText(jobs[job], Package(jobs))
    decreases |jobs|
  {
    var last := |jobs| - 1;
    if job < last {
      assert jobs[last].path != jobs[job].path;
      PackageHasText(jobs[..last], job);
    }
  }

  /** A successful parallel write leaves exactly the files the in-memory package has over those
      that were there: every file of no job untouched, and at each path only one job writes to,
      the text the package has. */
  lemma SuccessWritesThePackage(jobs: seq<Job>, before: map<string, string>, run: seq<State>)
    requires IsRun(jobs, before, run)
    requires Finished(run[|run| - 1]) && Outcome(run[|run| - 1].workers) == None
    ensures var files, expected := run[|run| - 1].files, before + Package(jobs);
            && files.Keys == expected.Keys
            && (forall path :: path in files && !IsPath(jobs, path) ==> files[path] == expected[path])
            && (forall job: nat :: Sole(jobs, job) ==> HasText(jobs[job], files) && HasText(jobs[job], expected))
  {
    var s, expected := run[|run| - 1], before + Package(jobs);
    SuccessIsEveryJobOnce(jobs, before, run);
    RunKeepsInvariant(jobs, before, run);
    RunFilesHold(jobs, before, run);
    forall path
      ensures path in s.files <==> path in expected
      ensures path in s.files && !IsPath(jobs, path) ==> s.files[path] == expected[path]
    {
      PackagePaths(jobs, path);
      assert SameFile(jobs, before, s.files, path);
      if IsPath(jobs, path) {
        var i :| 0 <= i < |jobs| && jobs[i].path == path;
        assert i in s.rendered && i in s.claimed;
        assert CreatedHolds(jobs, s.claimed, s.files, i);
      }
    }
    forall job: nat | Sole(jobs, job)
      ensures HasText(jobs[job], s.files) && HasText(jobs[job], expected)
    {
      assert job in s.rendered;
      assert RenderedHolds(jobs, s.rendered, s.files, job);
      PackageHasText(jobs, job);
    }
  }

  /** With distinct paths, as generated packages have, those are all the files. */
  lemma DistinctPathsWriteThePackage(jobs: seq<Job>, before: map<string, string>, run: seq<State>)
    requires DistinctPaths(jobs) && IsRun(jobs, before, run)
    requires Finished(run[|run| - 1]) && Outcome(run[|run| - 1].workers) == None
    ensures run[|run| - 1].files == before + Package(jobs)
  {
    var files, expected := run[|run| - 1].files, before + Package(jobs);
    SuccessWritesThePackage(jobs, before, run);
    forall path | path in files
      ensures files[path] == expected[path]
    {
      if IsPath(jobs, path) {
        var i :| 0 <= i < |jobs| && jobs[i].path == path;
        assert Sole(jobs, i);
        assert HasText(jobs[i], files) && HasText(jobs[i], expected);
      }
    }
  }

  // Every run ends.

  function Rank(worker: Worker): nat {
    match worker
    case Writing(_) => 4
    case Checking => 3
    case Claiming => 2
    case Failing(_, _) => 1
    case Done => 0
    case Failed(_, _) => 0
  }

  function Ranks(workers: seq<Worker>): nat {
    if workers == [] then 0 else Ranks(workers[..|workers| - 1]) + Rank(workers[|workers| - 1])
  }

  /** What is left to do. */
  function Unclaimed(jobs: seq<Job>, s: State): nat {
    if s.next < |jobs| then |jobs| - s.next else 0
  }

  function Left(jobs: seq<Job>, s: State): nat {
    4 * Unclaimed(jobs, s) + Ranks(s.workers)
  }

  lemma {:induction false} RanksUpdate(workers: seq<Worker>, w: nat, worker: Worker)
    requires w < |workers|
    ensures Ranks(workers[w := worker]) == Ranks(workers) - Rank(workers[w]) + Rank(worker)
    decreases |workers|
  {
    var last := |workers| - 1;
    if w < last {
      RanksUpdate(workers[..last], w, worker);
      assert workers[w := worker][..last] == workers[..last][w := worker];
    } else {
      assert workers[w := worker][..last] == workers[..last];
    }
  }

  lemma StepMovesOne(jobs: seq<Job>, s: State, t: State, w: nat)
    requires Step(jobs, s, t, w)
    ensures w < |t.workers| && t.workers == s.workers[w := t.workers[w]]
    ensures 4 * Unclaimed(jobs, t) + Rank(t.workers[w]) < 4 * Unclaimed(jobs, s) + Rank(s.workers[w])
  {
  }

  lemma StepLeavesLess(jobs: seq<Job>, s: State, t: State)
    requires Next(jobs, s, t)
    ensures Left(jobs, t) < Left(jobs, s)
  {
    var w: nat :| Step(jobs, s, t, w);
    StepMovesOne(jobs, s, t, w);
    RanksUpdate(s.workers, w, t.workers[w]);
  }

  lemma {:induction false} StartRanks(workers: seq<Worker>)
    requires forall w :: 0 <= w < |workers| ==> workers[w] == Checking
    ensures Ranks(workers) == 3 * |workers|
  {
    if workers != [] {
      StartRanks(workers[..|workers| - 1]);
    }
  }

  /** However the steps interleave and whatever reads are stale, there are boundedly many. */
  lemma {:induction false} RunsEnd(jobs: seq<Job>, files: map<string, string>, run: seq<State>)
    requires IsRun(jobs, files, run)
    ensures |run| - 1 + Left(jobs, run[|run| - 1]) <= 4 * |jobs| + 3 * |run[0].workers|
  {
    if |run| == 1 {
      StartRanks(run[0].workers);
    } else {
      RunSplits(jobs, files, run);
      RunsEnd(jobs, files, run[..|run| - 1]);
      StepLeavesLess(jobs, run[|run| - 2], run[|run| - 1]);
    }
  }

  /** A run can always go on until every worker has finished. */
  lemma NothingBlocks(jobs: seq<Job>, files: map<string, string>, run: seq<State>) returns (next: State)
    requires IsRun(jobs, files, run) && !Finished(run[|run| - 1])
    ensures Next(jobs, run[|run| - 1], next)
  {
    var s := run[|run| - 1];
    RunKeepsInvariant(jobs, files, run);
    var w: nat :| w < |s.workers| && !s.workers[w].Done? && !s.workers[w].Failed?;
    match s.workers[w] {
      case Checking =>
        next := s.(workers := s.workers[w := Claiming]);
      case Claiming =>
        if s.next < |jobs| {
          next := s.(next := s.next + 1, workers := s.workers[w := Writing(s.next)],
          files := s.files[jobs[s.next].path := ""], claimed := s.claimed + [s.next]);
        } else {
          next := s.(next := s.next + 1, workers := s.workers[w := Done]);
        }
      case Writing(job) =>
        HeldIsClaimed(jobs, s, w, job);
        next := s.(workers := s.workers[w := Checking], files := s.files[jobs[job].path := jobs[job].Text()],
        rendered := s.rendered + [job]);
      case Failing(job, error) =>
        next := s.(failed := true, workers := s.workers[w := Failed(job, error)]);
    }
    assert Checks(s, next, w) || Claims(jobs, s, next, w) || Renders(jobs, s, next, w) || Raises(s, next, w);
    assert Step(jobs, s, next, w);
  }
}
