/** Running every task that watches a table, each in its own goroutine, and what a change handled that way
    guarantees. */
module TaskRunner {
  import opened Wrappers
  import opened Events
  import opened TaskIndex
  import opened Messages
  import Runs

  type Failure = string

  // ---------------------------------------------------------------------------------------------------
  // runEach, as any interleaving of its goroutines

  /** What goroutine i is there to do: run its task for a row, or nothing at all. */
  type Jobs = seq<Option<Value>>

  datatype Goroutine = Ready | Running | Done

  /** A task that was run: the goroutine, the row, and what the task reported. */
  datatype Work = Work(goroutine: nat, row: Value, err: Option<Failure>)

  datatype State = State(
    goroutines: seq<Goroutine>,
    errs: seq<Option<Failure>>,      // the slot of each goroutine
    work: seq<Work>)                 // the tasks that were run, in the order they ended

  datatype Step = Start(i: nat) | End(i: nat, err: Option<Failure>)

  function Begin(jobs: Jobs): State {
    State(seq(|jobs|, i => Ready), seq(|jobs|, i => None), [])
  }

  function Next(jobs: Jobs, s: State, step: Step): Option<State> {
    match step
    case Start(i) =>
      if i >= |s.goroutines| || s.goroutines[i] != Ready then None
      else Some(s.(goroutines := s.goroutines[i := Running]))
    case End(i, err) =>
      if i >= |s.goroutines| || i >= |jobs| || i >= |s.errs| || s.goroutines[i] != Running then None
      else if jobs[i].None? then Some(s.(goroutines := s.goroutines[i := Done]))
      else Some(State(s.goroutines[i := Done], s.errs[i := err], s.work + [Work(i, jobs[i].value, err)]))
  }

  function System(jobs: Jobs): (State, Step) -> Option<State> {
    (s: State, step: Step) => Next(jobs, s, step)
  }

  /** A run of the goroutines after which all of them have ended. */
  ghost predicate Finished(jobs: Jobs, s: State) {
    && (exists steps :: Runs.After(System(jobs), Begin(jobs), steps) == Some(s))
    && (forall i :: 0 <= i < |s.goroutines| ==> s.goroutines[i] == Done)
  }

  /** The failures among some slots, in the order of the slots. */
  function Joined(errs: seq<Option<Failure>>): seq<Failure> {
    if errs == [] then []
    else Joined(errs[..|errs| - 1]) + if errs[|errs| - 1].Some? then [errs[|errs| - 1].value] else []
  }

  ghost predicate Inv(jobs: Jobs, s: State) {
    && |s.goroutines| == |s.errs| == |jobs|
    && (forall k :: 0 <= k < |s.work| ==>
          var w := s.work[k];
          && w.goroutine < |jobs| && s.goroutines[w.goroutine] == Done
          && jobs[w.goroutine] == Some(w.row) && s.errs[w.goroutine] == w.err)
    && (forall k, l :: 0 <= k < l < |s.work| ==> s.work[k].goroutine != s.work[l].goroutine)
    && (forall i :: 0 <= i < |jobs| && (jobs[i].None? || s.goroutines[i] != Done) ==> s.errs[i] == None)
    && (forall i :: 0 <= i < |jobs| && jobs[i].Some? && s.goroutines[i] == Done ==>
          Work(i, jobs[i].value, s.errs[i]) in s.work)
  }

  lemma NextKeeps(jobs: Jobs, s: State, step: Step)
    requires Inv(jobs, s) && Next(jobs, s, step).Some?
    ensures Inv(jobs, Next(jobs, s, step).value)
  {
    if step.End? && jobs[step.i].Some? {
      var s' := Next(jobs, s, step).value;
      assert s'.work[|s.work|] == Work(step.i, jobs[step.i].value, step.err);
      assert forall w :: w in s.work ==> w in s'.work;
    }
  }

  lemma FinishedInv(jobs: Jobs, s: State)
    requires Finished(jobs, s)
    ensures Inv(jobs, s)
  {
    var next, inv := System(jobs), (t: State) => Inv(jobs, t);
    var steps :| Runs.After(next, Begin(jobs), steps) == Some(s);
    forall t, step | inv(t) && next(t, step).Some?
      ensures inv(next(t, step).value)
    {
      NextKeeps(jobs, t, step);
    }
    Runs.RunKeeps(next, inv, Begin(jobs), steps);
  }

  /** Every job is done exactly once, whatever the schedule: the tasks that were run are those with a row, each
      for its row, and the slot of each holds what that task reported. */
  lemma EachJobOnce(jobs: Jobs, s: State)
    requires Finished(jobs, s)
    ensures |s.errs| == |jobs|
    ensures forall i :: 0 <= i < |jobs| && jobs[i].Some? ==> Work(i, jobs[i].value, s.errs[i]) in s.work
    ensures forall i :: 0 <= i < |jobs| && jobs[i].None? ==> s.errs[i].None?
    ensures forall w :: w in s.work ==> w.goroutine < |jobs| && jobs[w.goroutine] == Some(w.row)
    ensures forall k, l :: 0 <= k < l < |s.work| ==> s.work[k].goroutine != s.work[l].goroutine
  {
    FinishedInv(jobs, s);
  }

  lemma {:induction false} JoinedMeaning(errs: seq<Option<Failure>>)
    ensures Joined(errs) == [] <==> forall i :: 0 <= i < |errs| ==> errs[i].None?
    ensures |Joined(errs)| <= |errs|
  {
    if errs != [] {
      JoinedMeaning(errs[..|errs| - 1]);
      assert forall i :: 0 <= i < |errs| - 1 ==> errs[..|errs| - 1][i] == errs[i];
    }
  }

  /** How many of the first n slots hold a failure. */
  function FailuresBefore(errs: seq<Option<Failure>>, n: nat): nat
    requires n <= |errs|
  {
    if n == 0 then 0 else FailuresBefore(errs, n - 1) + if errs[n - 1].Some? then 1 else 0
  }

  lemma {:induction false} FailuresOfPrefix(errs: seq<Option<Failure>>, m: nat, n: nat)
    requires n <= m <= |errs|
    ensures FailuresBefore(errs[..m], n) == FailuresBefore(errs, n)
  {
    if n > 0 {
      FailuresOfPrefix(errs, m, n - 1);
    }
  }

  lemma {:induction false} JoinedLength(errs: seq<Option<Failure>>)
    ensures |Joined(errs)| == FailuresBefore(errs, |errs|)
  {
    if errs != [] {
      var last := |errs| - 1;
      JoinedLength(errs[..last]);
      FailuresOfPrefix(errs, last, last);
    }
  }

  /** All failures are joined, in the order of the slots: the one of slot k comes after those of the slots before. */
  lemma {:induction false} JoinedInOrder(errs: seq<Option<Failure>>, k: nat)
    requires k < |errs| && errs[k].Some?
    ensures FailuresBefore(errs, k) < |Joined(errs)| == FailuresBefore(errs, |errs|)
    ensures Joined(errs)[FailuresBefore(errs, k)] == errs[k].value
  {
    var last := |errs| - 1;
    JoinedLength(errs);
    JoinedLength(errs[..last]);
    FailuresOfPrefix(errs, last, last);
    if k < last {
      JoinedInOrder(errs[..last], k);
      FailuresOfPrefix(errs, last, k);
    }
  }

  /** Goroutines 0 to n - 1 run one after the other, and report what they like. */
  lemma {:induction false} CanRun(jobs: Jobs, report: nat -> Option<Failure>, n: nat)
    returns (steps: seq<Step>, s: State)
    requires n <= |jobs|
    ensures Runs.After(System(jobs), Begin(jobs), steps) == Some(s)
    ensures |s.goroutines| == |s.errs| == |jobs|
    ensures forall i :: 0 <= i < |jobs| ==> s.goroutines[i] == if i < n then Done else Ready
    ensures forall i :: 0 <= i < |jobs| ==> s.errs[i] == if i < n && jobs[i].Some? then report(i) else None
  {
    if n == 0 {
      steps, s := [], Begin(jobs);
    } else {
      steps, s := CanRun(jobs, report, n - 1);
      Runs.Extend(System(jobs), Begin(jobs), steps, Start(n - 1));
      steps, s := steps + [Start(n - 1)], Next(jobs, s, Start(n - 1)).value;
      Runs.Extend(System(jobs), Begin(jobs), steps, End(n - 1, report(n - 1)));
      steps, s := steps + [End(n - 1, report(n - 1))], Next(jobs, s, End(n - 1, report(n - 1))).value;
    }
  }

  /** Whatever the tasks report, the goroutines can all come to their end. */
  lemma AllCanFinish(jobs: Jobs, report: nat -> Option<Failure>) returns (s: State)
    ensures Finished(jobs, s) && Joined(s.errs) == Joined(Reports(jobs, report))
  {
    var steps;
    steps, s := CanRun(jobs, report, |jobs|);
    assert s.errs == Reports(jobs, report);
  }

  /** Schedule independence: two runs in which each task reports the same end with the same error, however
      differently their goroutines were interleaved. */
  lemma ScheduleIndependence(jobs: Jobs, s: State, t: State)
    requires Finished(jobs, s) && Finished(jobs, t)
    requires forall v, w :: v in s.work && w in t.work && v.goroutine == w.goroutine ==> v.err == w.err
    ensures Joined(s.errs) == Joined(t.errs)
    ensures Joined(s.errs) == [] <==> forall w :: w in s.work ==> w.err.None?
  {
    FinishedInv(jobs, s);
    FinishedInv(jobs, t);
    assert s.errs == t.errs by {
      forall i | 0 <= i < |jobs|
        ensures s.errs[i] == t.errs[i]
      {
        if jobs[i].Some? {
          assert Work(i, jobs[i].value, s.errs[i]) in s.work;
          assert Work(i, jobs[i].value, t.errs[i]) in t.work;
        }
      }
    }
    JoinedMeaning(s.errs);
    if Joined(s.errs) != [] {
      var i :| 0 <= i < |s.errs| && s.errs[i].Some?;
      assert Work(i, jobs[i].value, s.errs[i]) in s.work;
    }
  }

  function Below(n: nat): (s: set<nat>)
    ensures forall i :: i in s <==> 0 <= i < n
  {
    if n == 0 then {} else Below(n - 1) + {n - 1}
  }

  /** What the slots hold in the end. */
  function Reports(jobs: Jobs, report: nat -> Option<Failure>): seq<Option<Failure>> {
    seq(|jobs|, i requires 0 <= i < |jobs| => if jobs[i].None? then None else report(i))
  }

  /** The jobs with a row that are not pending any more have been run, each once. */
  ghost predicate HaveRun(jobs: Jobs, pending: set<nat>, runs: seq<nat>) {
    && (forall i, j :: 0 <= i < j < |runs| ==> runs[i] != runs[j])
    && (forall i :: i in runs <==> 0 <= i < |jobs| && jobs[i].Some? && i !in pending)
  }

  lemma HaveRunOne(jobs: Jobs, pending: set<nat>, runs: seq<nat>, i: nat)
    requires HaveRun(jobs, pending, runs) && i in pending && i < |jobs|
    ensures HaveRun(jobs, pending - {i}, if jobs[i].Some? then runs + [i] else runs)
  {
  }

  /** The loop that waits for all of them, with the goroutines ending in an order nothing is known about. Nothing
      is started under a context that has already ended. */
  method RunEach(jobs: Jobs, ended: bool, report: nat -> Option<Failure>)
    returns (errs: Option<seq<Failure>>, runs: seq<nat>)
    ensures ended <==> errs.None?
    ensures ended ==> runs == []
    ensures !ended ==> errs.value == Joined(Reports(jobs, report)) && HaveRun(jobs, {}, runs)
  {
    runs := [];
    if ended {
      return None, runs;
    }
    var slots := new Option<Failure>[|jobs|](_ => None);
    var pending := Below(|jobs|);
    while pending != {}
      invariant pending <= Below(|jobs|)
      invariant slots.Length == |jobs|
      invariant forall i :: 0 <= i < |jobs| ==>
        slots[i] == if i in pending || jobs[i].None? then None else report(i)
      invariant HaveRun(jobs, pending, runs)
      decreases |pending|
    {
      var i :| i in pending;
      HaveRunOne(jobs, pending, runs, i);
      pending := pending - {i};
      if jobs[i].Some? {
        runs := runs + [i];
        slots[i] := report(i);
      }
    }
    assert slots[..] == Reports(jobs, report);
    errs := Some(Joined(slots[..]));
  }

  // ---------------------------------------------------------------------------------------------------
  // A change, from its message to the tasks

  /** The row of the main table a change names, if it names one: an empty name is none. */
  function MainRow(w: Watcher, e: Event): Option<Value> {
    var column := KeyColumn(w);
    if column in e.data && e.data[column] != Nil && e.data[column] != Text("") then Some(e.data[column]) else None
  }

  /** What each watcher of a change has to do. */
  function JobsOf(ws: seq<Watcher>, e: Event): Jobs {
    seq(|ws|, i requires 0 <= i < |ws| => MainRow(ws[i], e))
  }

  /** A change that was handled: nobody watches it, or every goroutine it started has ended. Nothing is started
      when the context had already ended. */
  datatype Handling = Unwatched | Refused | Ran(s: State)

  ghost predicate HandledAs(index: Index, e: Event, h: Handling) {
    var ws := Of(index, KeyOf(e.database, e.table));
    match h
    case Unwatched => ws == []
    case Refused => ws != []
    case Ran(s) => ws != [] && Finished(JobsOf(ws, e), s)
  }

  /** Whether handling a change ended without an error. */
  predicate Accepted(h: Handling) {
    match h
    case Unwatched => true
    case Refused => false
    case Ran(s) => Joined(s.errs) == []
  }

  /** Piece k of the work was done for a watcher: its task was run for a row and succeeded, and nothing else that
      was done was done by the same task. */
  ghost predicate RunsOnly(ws: seq<Watcher>, work: seq<Work>, k: nat, w: Watcher, row: Value) {
    && k < |work| && work[k].goroutine < |ws|
    && ws[work[k].goroutine] == w && work[k].row == row && work[k].err == None
    && forall l :: 0 <= l < |work| && work[l].goroutine < |ws| && ws[work[l].goroutine].task == w.task ==> l == k
  }

  lemma TheRunOf(ws: seq<Watcher>, jobs: Jobs, s: State, i: nat) returns (k: nat)
    requires Finished(jobs, s) && Joined(s.errs) == [] && |jobs| == |ws|
    requires i < |jobs| && jobs[i].Some?
    requires forall i, j :: 0 <= i < j < |ws| ==> ws[i].task < ws[j].task
    ensures RunsOnly(ws, s.work, k, ws[i], jobs[i].value)
  {
    FinishedInv(jobs, s);
    JoinedMeaning(s.errs);
    assert Work(i, jobs[i].value, s.errs[i]) in s.work;
    k :| 0 <= k < |s.work| && s.work[k] == Work(i, jobs[i].value, s.errs[i]);
  }

  /** Acknowledged means worked: if a message is acknowledged and holds an event, then in that very delivery
      every task that declares the table of the event, and whose column carries a value there that is neither nil
      nor empty, was run for exactly that value, once, and succeeded. */
  lemma {:induction false} AckedMeansWorked(
    tasks: seq<Task>, index: Index, decode: Decoder, accepts: Event -> bool, payload: Payload, e: Event, h: Handling,
    task: nat, table: Table, main: bool)
    requires IsIndexOf(index, tasks)
    requires decode(payload) == Some(e) && ProcessMessage(decode, accepts, payload) == Ack
    requires HandledAs(index, e, h) && accepts(e) == Accepted(h)
    requires task < |tasks| && (if main then table == tasks[task].main else table in tasks[task].subs)
    requires table.database == e.database && table.name == e.table
    requires var column := if main then table.primaryKey else table.refColumn;
             column in e.data && e.data[column] !in {Nil, Text("")}
    ensures h.Ran?
    ensures
      var ws := Of(index, KeyOf(e.database, e.table));
      var value := e.data[if main then table.primaryKey else table.refColumn];
      exists k :: RunsOnly(ws, h.s.work, k, Watcher(task, table, main), value)
  {
    var w := Watcher(task, table, main);
    var ws := Of(index, KeyOf(e.database, e.table));
    RoutingIsExact(tasks, index, e.database, e.table, w);
    var i :| 0 <= i < |ws| && ws[i] == w;
    var jobs := JobsOf(ws, e);
    assert jobs[i] == MainRow(w, e);
    JoinedMeaning(h.s.errs);
    OncePerTask(tasks, index, KeyOf(e.database, e.table));
    var k := TheRunOf(ws, jobs, h.s, i);
  }

  /** Whatever was run for a change was declared for its table, and run for the value the change carries under the
      column of that declaration: never for nil, and never for an empty name. */
  lemma OnlyNamedRowsAreRun(tasks: seq<Task>, index: Index, e: Event, s: State, w: Work)
    requires IsIndexOf(index, tasks)
    requires HandledAs(index, e, Ran(s)) && w in s.work
    ensures
      var ws := Of(index, KeyOf(e.database, e.table));
      && w.goroutine < |ws|
      && var watcher := ws[w.goroutine];
         && watcher.task < |tasks|
         && (if watcher.main then watcher.table == tasks[watcher.task].main
             else watcher.table in tasks[watcher.task].subs)
         && watcher.table.database == e.database && watcher.table.name == e.table
         && var column := if watcher.main then watcher.table.primaryKey else watcher.table.refColumn;
            column in e.data && w.row == e.data[column] && w.row !in {Nil, Text("")}
  {
    var ws := Of(index, KeyOf(e.database, e.table));
    FinishedInv(JobsOf(ws, e), s);
    RoutingIsExact(tasks, index, e.database, e.table, ws[w.goroutine]);
  }

  /** A change is left for another delivery exactly when a task that ran for it failed, or nothing was started. */
  lemma RejectedMeansFailed(index: Index, e: Event, h: Handling)
    requires HandledAs(index, e, h)
    ensures !Accepted(h) <==> h.Refused? || (h.Ran? && exists w :: w in h.s.work && w.err.Some?)
  {
    if h.Ran? {
      var jobs := JobsOf(Of(index, KeyOf(e.database, e.table)), e);
      FinishedInv(jobs, h.s);
      ScheduleIndependence(jobs, h.s, h.s);
    }
  }

  // ---------------------------------------------------------------------------------------------------
  // One consumption at a time

  datatype RunError = AlreadyConsuming | NoConsumer

  /** The flag that keeps a second Run away from the consumer. Run enters, consumes without the lock, and leaves;
      any number of calls may do so in any order. */
  class Runner {
    const hasConsumer: bool
    var consuming: bool
    /** The calls of Run that are consuming. */
    ghost var active: set<nat>

    /** At most one call is consuming, and the flag says whether one is. */
    ghost predicate Valid()
      reads this
    {
      && (consuming <==> active != {})
      && (forall a, b :: a in active && b in active ==> a == b)
    }

    constructor (hasConsumer: bool)
      ensures Valid() && active == {} && this.hasConsumer == hasConsumer
    {
      this.hasConsumer := hasConsumer;
      consuming, active := false, {};
    }

    method Enter(ghost call: nat) returns (err: Option<RunError>)
      requires Valid() && call !in active
      modifies this
      ensures Valid()
      ensures err == if old(active) != {} then Some(AlreadyConsuming)
                     else if !hasConsumer then Some(NoConsumer) else None
      ensures active == if err.None? then {call} else old(active)
    {
      if consuming {
        return Some(AlreadyConsuming);
      }
      if !hasConsumer {
        return Some(NoConsumer);
      }
      consuming, active := true, active + {call};
      err := None;
    }

    method Leave(ghost call: nat)
      requires Valid() && call in active
      modifies this
      ensures Valid() && active == {}
    {
      consuming, active := false, active - {call};
    }
  }
}
