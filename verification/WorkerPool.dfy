/** The workers that read the source files (`scripts/check-temp-path-guardrails.ts`,
    `readRuntimeSourceFiles`). They share one counter and one output array and run
    interleaved. A step is at most what one worker does between two `await`s: storing a
    file and claiming the next index are two steps here, so that every interleaving of
    the script, and more, is a schedule. */
module WorkerPool {
  import opened Options

  const FILE_READ_CONCURRENCY := 24

  datatype SourceFile = SourceFile(path: string, source: string)

  /** Where a worker stands: at the top of its loop, waiting for the file of an
      index it has claimed, or returned. */
  datatype Worker = AtTop | Reading(index: nat) | Returned

  /** `contents[i]` is what reading the i-th path gives, `None` when it fails. */
  function Slot(paths: seq<string>, contents: seq<Option<string>>, i: nat): Option<SourceFile>
    requires i < |paths| == |contents|
  {
    if paths[i] == "" || contents[i].None? then None else Some(SourceFile(paths[i], contents[i].value))
  }

  /** The plain loop the pool stands for: read in order, drop what cannot be read. */
  function ReadInOrder(paths: seq<string>, contents: seq<Option<string>>): seq<SourceFile>
    requires |paths| == |contents|
    decreases |paths|
  {
    if paths == [] then []
    else
      var last := |paths| - 1;
      ReadInOrder(paths[..last], contents[..last])
      + (match Slot(paths, contents, last) case Some(f) => [f] case None => [])
  }

  function Defined(output: seq<Option<SourceFile>>): seq<SourceFile> {
    if output == [] then []
    else
      Defined(output[..|output| - 1])
      + (match output[|output| - 1] case Some(f) => [f] case None => [])
  }

  predicate Increasing(picks: seq<nat>) {
    forall k, l :: 0 <= k < l < |picks| ==> picks[k] < picks[l]
  }

  /** File `k` is what reading path `picks[k]` gives. */
  predicate AreFilesOf(files: seq<SourceFile>, picks: seq<nat>, paths: seq<string>, contents: seq<Option<string>>)
    requires |paths| == |contents|
  {
    |files| == |picks| && forall k :: 0 <= k < |picks| ==>
      picks[k] < |paths| && contents[picks[k]] == Some(files[k].source) && paths[picks[k]] == files[k].path != ""
  }

  predicate PickEveryReadable(picks: seq<nat>, paths: seq<string>, contents: seq<Option<string>>)
    requires |paths| == |contents|
  {
    forall i :: 0 <= i < |paths| && paths[i] != "" && contents[i].Some? ==> i in picks
  }

  ghost predicate AreRead(files: seq<SourceFile>, picks: seq<nat>, paths: seq<string>, contents: seq<Option<string>>)
    requires |paths| == |contents|
  {
    Increasing(picks) && AreFilesOf(files, picks, paths, contents) && PickEveryReadable(picks, paths, contents)
  }

  lemma OnePathMore(files: seq<SourceFile>, picks: seq<nat>, paths: seq<string>, contents: seq<Option<string>>)
    requires |paths| == |contents| > 0 && AreRead(files, picks, paths[..|paths| - 1], contents[..|paths| - 1])
    ensures var last := |paths| - 1;
      match Slot(paths, contents, last)
      case Some(file) => AreRead(files + [file], picks + [last], paths, contents)
      case None => AreRead(files, picks, paths, contents)
  {
    var last := |paths| - 1;
    assert forall i :: 0 <= i < last ==> paths[..last][i] == paths[i] && contents[..last][i] == contents[i];
    assert AreFilesOf(files, picks, paths, contents);
  }

  /** Reading in order gives, in order, one file for each path that is not empty and can be
      read, with that path and its content. */
  lemma {:induction false} EveryFileIsRead(paths: seq<string>, contents: seq<Option<string>>) returns (picks: seq<nat>)
    requires |paths| == |contents|
    ensures AreRead(ReadInOrder(paths, contents), picks, paths, contents)
    decreases |paths|
  {
    picks := [];
    if paths != [] {
      var last := |paths| - 1;
      picks := EveryFileIsRead(paths[..last], contents[..last]);
      OnePathMore(ReadInOrder(paths[..last], contents[..last]), picks, paths, contents);
      picks := if Slot(paths, contents, last).Some? then picks + [last] else picks;
      ReadInOrderNext(paths, contents);
    }
  }

  lemma ReadInOrderNext(paths: seq<string>, contents: seq<Option<string>>)
    requires |paths| == |contents| > 0
    ensures var last := |paths| - 1;
      ReadInOrder(paths, contents) ==
        match Slot(paths, contents, last)
        case Some(file) => ReadInOrder(paths[..last], contents[..last]) + [file]
        case None => ReadInOrder(paths[..last], contents[..last])
  {
  }

  /** One claim of an index: which worker took which. */
  datatype Claim = Claim(worker: nat, index: nat)

  datatype State = State(
    nextIndex: nat, output: seq<Option<SourceFile>>, workers: seq<Worker>, claims: seq<Claim>)

  function Initial(n: nat, workerCount: nat): State {
    State(0, seq(n, _ => None), seq(workerCount, _ => AtTop), [])
  }

  /** One step of worker `w`, unless it has returned. */
  function Step(paths: seq<string>, contents: seq<Option<string>>, s: State, w: nat): State
    requires |paths| == |contents| == |s.output| && w < |s.workers| && s.workers[w] != Returned
    requires s.workers[w].Reading? ==> s.workers[w].index < |paths|
  {
    match s.workers[w]
    case AtTop =>
      var index := s.nextIndex;
      State(index + 1, s.output,
            s.workers[w := if index >= |paths| then Returned else if paths[index] == "" then AtTop else Reading(index)],
            s.claims + [Claim(w, index)])
    case Reading(index) =>
      State(s.nextIndex,
            if contents[index].None? then s.output else s.output[index := Some(SourceFile(paths[index], contents[index].value))],
            s.workers[w := AtTop], s.claims)
  }

  /** An index below the counter is being read by one worker, or its slot is final. */
  ghost predicate Inv(paths: seq<string>, contents: seq<Option<string>>, s: State) {
    && |paths| == |contents| == |s.output|
    && |s.claims| == s.nextIndex
    && (forall i :: 0 <= i < |s.claims| ==> s.claims[i].index == i && s.claims[i].worker < |s.workers|)
    && (forall w :: 0 <= w < |s.workers| && s.workers[w].Reading? ==>
          s.workers[w].index < s.nextIndex && s.workers[w].index < |paths| && paths[s.workers[w].index] != ""
          && s.claims[s.workers[w].index].worker == w && s.output[s.workers[w].index] == None)
    && (forall i :: 0 <= i < |paths| ==>
          s.output[i] == None || s.output[i] == Slot(paths, contents, i))
    && (forall i :: 0 <= i < |paths| && i < s.nextIndex && s.output[i] != Slot(paths, contents, i) ==>
          s.workers[s.claims[i].worker] == Reading(i))
    && (forall i :: s.nextIndex <= i < |paths| ==> s.output[i] == None)
    && (forall w :: 0 <= w < |s.workers| && s.workers[w] == Returned ==> s.nextIndex > |paths|)
  }

  lemma StepKeepsInv(paths: seq<string>, contents: seq<Option<string>>, s: State, w: nat)
    requires Inv(paths, contents, s) && w < |s.workers| && s.workers[w] != Returned
    ensures Inv(paths, contents, Step(paths, contents, s, w))
  {
  }

  // ----- Every schedule -----

  /** A schedule is the list of workers in the order in which they take their steps. */
  ghost predicate Possible(paths: seq<string>, contents: seq<Option<string>>, workerCount: nat, schedule: seq<nat>)
    requires |paths| == |contents|
    decreases |schedule|, 0
  {
    schedule == [] ||
    var earlier, w := schedule[..|schedule| - 1], schedule[|schedule| - 1];
    && Possible(paths, contents, workerCount, earlier)
    && w < workerCount && After(paths, contents, workerCount, earlier).workers[w] != Returned
  }

  ghost function After(paths: seq<string>, contents: seq<Option<string>>, workerCount: nat, schedule: seq<nat>): (s: State)
    requires |paths| == |contents| && Possible(paths, contents, workerCount, schedule)
    ensures Inv(paths, contents, s) && |s.workers| == workerCount
    decreases |schedule|, 1
  {
    if schedule == [] then Initial(|paths|, workerCount)
    else
      var earlier, w := schedule[..|schedule| - 1], schedule[|schedule| - 1];
      StepKeepsInv(paths, contents, After(paths, contents, workerCount, earlier), w);
      Step(paths, contents, After(paths, contents, workerCount, earlier), w)
  }

  ghost predicate AllReturned(s: State) {
    forall w :: 0 <= w < |s.workers| ==> s.workers[w] == Returned
  }

  /** What a worker still has to do beyond claiming indices. */
  function Owed(w: Worker): nat {
    match w
    case AtTop => 1
    case Reading(_) => 2
    case Returned => 0
  }

  function TotalOwed(workers: seq<Worker>): nat {
    if workers == [] then 0 else TotalOwed(workers[..|workers| - 1]) + Owed(workers[|workers| - 1])
  }

  lemma {:induction false} OwedAfterUpdate(workers: seq<Worker>, w: nat, next: Worker)
    requires w < |workers|
    ensures TotalOwed(workers[w := next]) == TotalOwed(workers) - Owed(workers[w]) + Owed(next)
  {
    var last := |workers| - 1;
    if w < last {
      assert workers[w := next][..last] == workers[..last][w := next];
      OwedAfterUpdate(workers[..last], w, next);
    } else {
      assert workers[w := next][..last] == workers[..last];
    }
  }

  /** An upper bound on the steps still to come. */
  function Remaining(n: nat, s: State): nat {
    2 * (if s.nextIndex < n then n - s.nextIndex else 0) + TotalOwed(s.workers)
  }

  lemma StepMakesProgress(paths: seq<string>, contents: seq<Option<string>>, s: State, w: nat)
    requires Inv(paths, contents, s) && w < |s.workers| && s.workers[w] != Returned
    ensures Remaining(|paths|, Step(paths, contents, s, w)) < Remaining(|paths|, s)
  {
    OwedAfterUpdate(s.workers, w, Step(paths, contents, s, w).workers[w]);
  }

  lemma {:induction false} InitiallyOwed(workerCount: nat)
    ensures TotalOwed(seq(workerCount, _ => AtTop)) == workerCount
  {
    if workerCount > 0 {
      assert seq(workerCount, _ => AtTop)[..workerCount - 1] == seq(workerCount - 1, _ => AtTop);
      InitiallyOwed(workerCount - 1);
    }
  }

  /** The pool terminates: no schedule is longer than two steps a path and one a worker. */
  lemma {:induction false} SchedulesAreBounded(
    paths: seq<string>, contents: seq<Option<string>>, workerCount: nat, schedule: seq<nat>)
    requires |paths| == |contents| && Possible(paths, contents, workerCount, schedule)
    ensures |schedule| + Remaining(|paths|, After(paths, contents, workerCount, schedule)) <= 2 * |paths| + workerCount
    decreases |schedule|
  {
    if schedule == [] {
      InitiallyOwed(workerCount);
    } else {
      var earlier, w := schedule[..|schedule| - 1], schedule[|schedule| - 1];
      SchedulesAreBounded(paths, contents, workerCount, earlier);
      StepMakesProgress(paths, contents, After(paths, contents, workerCount, earlier), w);
    }
  }

  lemma {:induction false} SlotsAreReadInOrder(paths: seq<string>, contents: seq<Option<string>>, output: seq<Option<SourceFile>>)
    requires |paths| == |contents| == |output|
    requires forall i :: 0 <= i < |paths| ==> output[i] == Slot(paths, contents, i)
    ensures Defined(output) == ReadInOrder(paths, contents)
  {
    if output != [] {
      var last := |paths| - 1;
      assert forall i :: 0 <= i < last ==> Slot(paths[..last], contents[..last], i) == Slot(paths, contents, i);
      SlotsAreReadInOrder(paths[..last], contents[..last], output[..last]);
    }
  }

  lemma ReturnedPoolIsDone(paths: seq<string>, contents: seq<Option<string>>, s: State)
    requires Inv(paths, contents, s) && AllReturned(s) && |s.workers| > 0
    ensures Defined(s.output) == ReadInOrder(paths, contents) && |s.claims| > |paths|
  {
    assert s.workers[0] == Returned;
    SlotsAreReadInOrder(paths, contents, s.output);
  }

  /** Once all workers have returned, every index has been claimed exactly once, by
      one worker, and the output is what one worker alone would have produced,
      whatever the schedule and however many workers there were. */
  lemma PoolReadsInOrder(paths: seq<string>, contents: seq<Option<string>>, workerCount: nat, schedule: seq<nat>)
    requires |paths| == |contents| && workerCount > 0
    requires Possible(paths, contents, workerCount, schedule)
    requires AllReturned(After(paths, contents, workerCount, schedule))
    ensures var s := After(paths, contents, workerCount, schedule);
      && Defined(s.output) == ReadInOrder(paths, contents)
      && |s.claims| > |paths|
      && (forall i :: 0 <= i < |s.claims| ==> s.claims[i].index == i && s.claims[i].worker < workerCount)
  {
    ReturnedPoolIsDone(paths, contents, After(paths, contents, workerCount, schedule));
  }

  /** No two workers ever read the same file. */
  lemma NoFileIsSharedByReaders(
    paths: seq<string>, contents: seq<Option<string>>, workerCount: nat, schedule: seq<nat>, v: nat, w: nat)
    requires |paths| == |contents| && Possible(paths, contents, workerCount, schedule) && v < w < workerCount
    requires var workers := After(paths, contents, workerCount, schedule).workers; workers[v].Reading? && workers[w].Reading?
    ensures var workers := After(paths, contents, workerCount, schedule).workers; workers[v].index != workers[w].index
  {
  }

  /** As long as some worker has not returned, the pool can go on. */
  lemma PoolNeverStalls(paths: seq<string>, contents: seq<Option<string>>, workerCount: nat, schedule: seq<nat>)
    requires |paths| == |contents| && Possible(paths, contents, workerCount, schedule)
    requires !AllReturned(After(paths, contents, workerCount, schedule))
    ensures exists w :: Possible(paths, contents, workerCount, schedule + [w])
  {
    var s := After(paths, contents, workerCount, schedule);
    var w :| 0 <= w < |s.workers| && s.workers[w] != Returned;
    assert (schedule + [w])[..|schedule|] == schedule;
    assert Possible(paths, contents, workerCount, schedule + [w]);
  }

  /** The schedule leads to this state. */
  ghost predicate LeadsTo(
    paths: seq<string>, contents: seq<Option<string>>, workerCount: nat, schedule: seq<nat>, s: State)
    requires |paths| == |contents|
  {
    Possible(paths, contents, workerCount, schedule) && s == After(paths, contents, workerCount, schedule)
  }

  lemma ScheduleNext(paths: seq<string>, contents: seq<Option<string>>, workerCount: nat, schedule: seq<nat>, s: State, w: nat)
    requires |paths| == |contents| && LeadsTo(paths, contents, workerCount, schedule, s)
    requires w < |s.workers| && s.workers[w] != Returned
    ensures LeadsTo(paths, contents, workerCount, schedule + [w], Step(paths, contents, s, w))
  {
    assert (schedule + [w])[..|schedule|] == schedule;
  }

  /** The program's variables are those of the state. */
  ghost predicate Shows(s: State, output: array<Option<SourceFile>>, workers: array<Worker>, nextIndex: nat)
    reads output, workers
  {
    s.output == output[..] && s.workers == workers[..] && s.nextIndex == nextIndex
  }

  /** What worker `w` does between two `await`s. */
  method TakeStep(
    paths: seq<string>, contents: seq<Option<string>>, output: array<Option<SourceFile>>, workers: array<Worker>,
    nextIndex: nat, w: nat, ghost s: State)
    returns (next: nat, ghost t: State)
    requires Inv(paths, contents, s) && w < |s.workers| && s.workers[w] != Returned
    requires Shows(s, output, workers, nextIndex)
    modifies output, workers
    ensures t == Step(paths, contents, s, w) && Shows(t, output, workers, next)
    ensures Inv(paths, contents, t) && Remaining(|paths|, t) < Remaining(|paths|, s)
  {
    StepMakesProgress(paths, contents, s, w);
    StepKeepsInv(paths, contents, s, w);
    t := Step(paths, contents, s, w);
    next := nextIndex;
    match workers[w] {
      case AtTop =>
        var index := nextIndex;
        next := nextIndex + 1;
        if index >= |paths| {
          workers[w] := Returned;
        } else if paths[index] != "" {
          workers[w] := Reading(index);
        }
      case Reading(index) =>
        if contents[index].Some? {
          output[index] := Some(SourceFile(paths[index], contents[index].value));
        }
        workers[w] := AtTop;
    }
    assert output[..] == t.output && workers[..] == t.workers;
  }

  /** The pool itself: `pick` chooses, step by step, which worker that has not
      returned goes on. At most 24 workers share the paths, at least one of them and
      never more than there are paths, if there are any. */
  method ReadRuntimeSourceFiles(paths: seq<string>, contents: seq<Option<string>>, pick: nat -> nat)
    returns (files: seq<SourceFile>, ghost workerCount: nat, ghost schedule: seq<nat>)
    requires |paths| == |contents|
    ensures files == ReadInOrder(paths, contents)
    ensures 1 <= workerCount <= 24 && (workerCount == |paths| || workerCount == 24 < |paths| || workerCount == 1 > |paths|)
    ensures Possible(paths, contents, workerCount, schedule) && AllReturned(After(paths, contents, workerCount, schedule))
  {
    var count := if |paths| < 1 then 1 else if |paths| < FILE_READ_CONCURRENCY then |paths| else FILE_READ_CONCURRENCY;
    workerCount, schedule := count, [];
    var output := new Option<SourceFile>[|paths|](_ => None);
    var workers := new Worker[count](_ => AtTop);
    var nextIndex, tick: nat := 0, 0;
    var live := CountLive(workers);
    ghost var s := Initial(|paths|, workerCount);
    while live > 0
      invariant LeadsTo(paths, contents, workerCount, schedule, s)
      invariant Shows(s, output, workers, nextIndex) && live == Live(workers[..])
      decreases Remaining(|paths|, s)
    {
      nextIndex, live, schedule, s := TakeTurn(paths, contents, output, workers, nextIndex, pick(tick), workerCount, schedule, s);
      tick := tick + 1;
    }
    NoneLive(workers[..]);
    ReturnedPoolIsDone(paths, contents, s);
    files := Keep(output[..]);
  }

  /** One worker that has not returned goes on. */
  method TakeTurn(
    paths: seq<string>, contents: seq<Option<string>>, output: array<Option<SourceFile>>, workers: array<Worker>,
    nextIndex: nat, wish: nat, ghost workerCount: nat, ghost schedule: seq<nat>, ghost s: State)
    returns (next: nat, live: nat, ghost more: seq<nat>, ghost t: State)
    requires |paths| == |contents| && LeadsTo(paths, contents, workerCount, schedule, s)
    requires Shows(s, output, workers, nextIndex) && Live(workers[..]) > 0
    modifies output, workers
    ensures LeadsTo(paths, contents, workerCount, more, t) && Remaining(|paths|, t) < Remaining(|paths|, s)
    ensures Shows(t, output, workers, next) && live == Live(workers[..])
  {
    var w := Choose(workers, wish);
    ScheduleNext(paths, contents, workerCount, schedule, s, w);
    more := schedule + [w];
    next, t := TakeStep(paths, contents, output, workers, nextIndex, w, s);
    live := CountLive(workers);
  }

  /** How many workers `Promise.all` still waits for. */
  method CountLive(workers: array<Worker>) returns (live: nat)
    ensures live == Live(workers[..])
  {
    live := 0;
    for i := 0 to workers.Length
      invariant live == Live(workers[..i])
    {
      assert workers[..i + 1][..i] == workers[..i];
      if workers[i] != Returned {
        live := live + 1;
      }
    }
    assert workers[..workers.Length] == workers[..];
  }

  function Live(workers: seq<Worker>): nat {
    if workers == [] then 0
    else Live(workers[..|workers| - 1]) + (if workers[|workers| - 1] == Returned then 0 else 1)
  }

  lemma {:induction false} NoneLive(workers: seq<Worker>)
    requires Live(workers) == 0
    ensures forall w :: 0 <= w < |workers| ==> workers[w] == Returned
  {
    if workers != [] {
      NoneLive(workers[..|workers| - 1]);
    }
  }

  /** Some worker that has not returned, looking first at the one asked for. */
  method Choose(workers: array<Worker>, wish: nat) returns (w: nat)
    requires Live(workers[..]) > 0
    ensures w < workers.Length && workers[w] != Returned
  {
    if wish < workers.Length && workers[wish] != Returned {
      return wish;
    }
    w := 0;
    while w < workers.Length && workers[w] == Returned
      invariant w <= workers.Length
      invariant forall i :: 0 <= i < w ==> workers[i] == Returned
    {
      w := w + 1;
    }
    if w == workers.Length {
      AllReturnedIsNotLive(workers[..]);
    }
  }

  lemma {:induction false} AllReturnedIsNotLive(workers: seq<Worker>)
    requires forall i :: 0 <= i < |workers| ==> workers[i] == Returned
    ensures Live(workers) == 0
  {
    if workers != [] {
      AllReturnedIsNotLive(workers[..|workers| - 1]);
    }
  }

  /** `output.filter((entry) => entry !== undefined)` */
  method Keep(output: seq<Option<SourceFile>>) returns (files: seq<SourceFile>)
    ensures files == Defined(output)
  {
    files := [];
    for i := 0 to |output|
      invariant files == Defined(output[..i])
    {
      assert output[..i + 1][..i] == output[..i];
      if output[i].Some? {
        files := files + [output[i].value];
      }
    }
    assert output[..|output|] == output;
  }
}
