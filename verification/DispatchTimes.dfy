/** The clock readings of a dispatched run, step by step, and the records made of them. */
module DispatchTimes {
  import opened Domain
  import opened Dispatcher
  import opened StableSort
  import Tallies

  /** What the main thread read just before it submitted event i. */
  function StampedAt(c: Setup, trace: seq<Action>, i: nat): Option<real>
    requires c.speed != 0.0
  {
    if trace == [] then None
    else
      var init, a := trace[..|trace| - 1], trace[|trace| - 1];
      if a.Stamp? && Enabled(c, Run(c, init), a) && Run(c, init).next == i then Some(a.now)
      else StampedAt(c, init, i)
  }

  /** What the worker read on picking event i. */
  function PickedAt(c: Setup, trace: seq<Action>, i: nat): Option<real>
    requires c.speed != 0.0
  {
    if trace == [] then None
    else
      var init, a := trace[..|trace| - 1], trace[|trace| - 1];
      if a.Pick? && a.who == i && Enabled(c, Run(c, init), a) then Some(a.now) else PickedAt(c, init, i)
  }

  /** What the worker read when event i's call returned or raised, and what came of the call. */
  function ReturnedAt(c: Setup, trace: seq<Action>, i: nat): Option<(real, Option<Result>)>
    requires c.speed != 0.0
  {
    if trace == [] then None
    else
      var init, a := trace[..|trace| - 1], trace[|trace| - 1];
      if a.Return? && a.who == i && Enabled(c, Run(c, init), a) then Some((a.now, a.outcome))
      else ReturnedAt(c, init, i)
  }

  /** A job holds the readings of its own steps. */
  ghost predicate JobReads(j: Job, stamped: Option<real>, picked: Option<real>,
                           returned: Option<(real, Option<Result>)>) {
    && (Stage(j) >= 1 ==> stamped == Some(j.dispatched))
    && (Stage(j) >= 2 ==> picked == Some(j.started))
    && (Stage(j) >= 4 ==> returned == Some((j.ended, j.outcome)))
  }

  ghost predicate Reads(c: Setup, trace: seq<Action>, i: nat)
    requires c.speed != 0.0 && i < |c.events|
  {
    var s := Run(c, trace);
    && JobReads(s.jobs[i], StampedAt(c, trace, i), PickedAt(c, trace, i), ReturnedAt(c, trace, i))
    && (s.main.Stamped? && s.next == i ==> StampedAt(c, trace, i) == Some(s.main.dispatched))
  }

  /** The readings after one more step. */
  lemma ReadingsGrow(c: Setup, trace: seq<Action>, a: Action, i: nat)
    requires c.speed != 0.0
    ensures var s := Run(c, trace);
            && StampedAt(c, trace + [a], i) ==
               (if a.Stamp? && Enabled(c, s, a) && s.next == i then Some(a.now) else StampedAt(c, trace, i))
            && PickedAt(c, trace + [a], i) ==
               (if a.Pick? && a.who == i && Enabled(c, s, a) then Some(a.now) else PickedAt(c, trace, i))
            && ReturnedAt(c, trace + [a], i) ==
               (if a.Return? && a.who == i && Enabled(c, s, a) then Some((a.now, a.outcome))
                else ReturnedAt(c, trace, i))
            && Run(c, trace + [a]) == Next(c, s, a)
  {
    assert (trace + [a])[..|trace|] == trace;
  }

  /** Steps of the main thread other than a submission. */
  lemma PacingReads(c: Setup, trace: seq<Action>, a: Action, i: nat)
    requires c.speed != 0.0 && i < |c.events| && Reads(c, trace, i) && TimesOk(c, Run(c, trace)) && Pacing(a)
    ensures Reads(c, trace + [a], i)
  {
    ReadingsGrow(c, trace, a, i);
    PacingMovesNobody(c, Run(c, trace), a);
  }

  lemma WorkReads(c: Setup, trace: seq<Action>, a: Action, i: nat)
    requires c.speed != 0.0 && i < |c.events| && Reads(c, trace, i) && TimesOk(c, Run(c, trace)) && !Pacing(a)
    ensures Reads(c, trace + [a], i)
  {
    ReadingsGrow(c, trace, a, i);
    if Enabled(c, Run(c, trace), a) { MoverMoves(c, Run(c, trace), a); }
  }

  lemma ReadsStep(c: Setup, trace: seq<Action>, a: Action, i: nat)
    requires c.speed != 0.0 && i < |c.events| && Reads(c, trace, i) && TimesOk(c, Run(c, trace))
    ensures Reads(c, trace + [a], i)
  {
    if Pacing(a) { PacingReads(c, trace, a, i); } else { WorkReads(c, trace, a, i); }
  }

  lemma {:induction false} AlwaysReads(c: Setup, trace: seq<Action>, i: nat)
    requires c.speed != 0.0 && i < |c.events|
    ensures Reads(c, trace, i)
  {
    if trace != [] {
      var init := trace[..|trace| - 1];
      AlwaysReads(c, init, i);
      AlwaysOk(c, init);
      ReadsStep(c, init, trace[|trace| - 1], i);
      assert trace == init + [trace[|trace| - 1]];
    }
  }

  /** The record of an event, in terms of the steps of the run. */
  ghost predicate Times(c: Setup, trace: seq<Action>, e: Keyed<Entry>)
    requires c.speed != 0.0
  {
    var i := e.item.who;
    && i < |c.events|
    && StampedAt(c, trace, i).Some? && PickedAt(c, trace, i).Some? && ReturnedAt(c, trace, i).Some?
    && e.key == StampedAt(c, trace, i).value - c.origin
    && e.item.started == PickedAt(c, trace, i).value - c.origin
    && e.item.ended == ReturnedAt(c, trace, i).value.0 - c.origin
    && e.item.outcome == ReturnedAt(c, trace, i).value.1
    && e.key <= e.item.started <= e.item.ended
    && c.events[i].key / c.speed <= e.key
  }

  lemma RecordTimes(c: Setup, trace: seq<Action>, k: nat)
    requires c.speed != 0.0 && k < |Run(c, trace).records|
    ensures Times(c, trace, Run(c, trace).records[k])
  {
    AlwaysOk(c, trace);
    var s := Run(c, trace);
    var i := s.records[k].item.who;
    assert EntryOk(c, s.jobs, s.records[k]);
    assert JobOk(c, s.clock, i, s.jobs[i]);
    AlwaysReads(c, trace, i);
  }

  /** The clock never goes back behind the start of the run, so no reading is before it. */
  lemma {:induction false} StampsAfterStart(c: Setup, trace: seq<Action>, i: nat)
    requires c.speed != 0.0 && StampedAt(c, trace, i).Some?
    ensures c.origin <= StampedAt(c, trace, i).value
  {
    var init, a := trace[..|trace| - 1], trace[|trace| - 1];
    AlwaysOk(c, init);
    if !(a.Stamp? && Enabled(c, Run(c, init), a) && Run(c, init).next == i) { StampsAfterStart(c, init, i); }
  }

  /**
   * What comes back. When all jobs have finished, every event has its record among those returned, and every returned
   * record has the readings its event's own steps made, relative to the start of the run: submitted, started, ended,
   * in that order, none negative, and not submitted before the scaled time.
   */
  lemma {:induction false} ReturnedRecords(c: Setup, trace: seq<Action>)
    requires c.speed != 0.0 && AllFinished(Run(c, trace))
    ensures var back := Sort(Run(c, trace).records);
            && (forall k :: 0 <= k < |back| ==> Times(c, trace, back[k]) && 0.0 <= back[k].key)
            && (forall i :: 0 <= i < |c.events| ==> HasRecord(back, i))
  {
    var records := Run(c, trace).records;
    var back := Sort(records);
    CompletionRecords(c, trace);
    forall k | 0 <= k < |back| ensures Times(c, trace, back[k]) && 0.0 <= back[k].key {
      assert back[k] in multiset(records);
      var l :| 0 <= l < |records| && records[l] == back[k];
      RecordTimes(c, trace, l);
      StampsAfterStart(c, trace, back[k].item.who);
    }
    forall i | 0 <= i < |c.events| ensures HasRecord(back, i) {
      assert HasRecord(records, i);
      var l :| 0 <= l < |records| && records[l].item.who == i;
      assert records[l] in multiset(back);
      var k :| 0 <= k < |back| && back[k] == records[l];
    }
  }

  // ---- Who is served first -------------------------------------------------

  /** Workers take the events in the order they were submitted. */
  ghost predicate Fair(jobs: seq<Job>) {
    forall i, j :: 0 <= i < j < |jobs| && Stage(jobs[j]) >= 2 ==>
      Stage(jobs[i]) >= 2 && jobs[i].started <= jobs[j].started
  }

  lemma FairStep(c: Setup, s: System, a: Action)
    requires c.speed != 0.0 && TimesOk(c, s) && Fair(s.jobs)
    ensures Fair(Next(c, s, a).jobs)
  {
    if Enabled(c, s, a) && !Pacing(a) { MoverMoves(c, s, a); }
  }

  /** In every run an event picked by a worker follows all earlier events, and was picked no earlier than they were. */
  lemma {:induction false} PickedInOrder(c: Setup, trace: seq<Action>)
    requires c.speed != 0.0
    ensures var jobs := Run(c, trace).jobs;
            forall i, j :: 0 <= i < j < |jobs| && Stage(jobs[j]) >= 2 ==>
              Stage(jobs[i]) >= 2 && jobs[i].started <= jobs[j].started
  {
    if trace != [] {
      var init := trace[..|trace| - 1];
      PickedInOrder(c, init);
      AlwaysOk(c, init);
      FairStep(c, Run(c, init), trace[|trace| - 1]);
      assert Fair(Run(c, trace).jobs);
    }
  }

  /** The events of a phase, counted. */
  lemma {:induction false} PhaseNumbers(events: seq<Timed>, phase: string)
    ensures InPhase(events, phase) == |Tallies.Where(events, (e: Timed) => e.item.phase == phase)|
  {
    if events != [] {
      PhaseNumbers(events[..|events| - 1], phase);
      Tallies.OneMoreWhere(events, (e: Timed) => e.item.phase == phase);
    }
  }

  // ---- When a phase started ------------------------------------------------

  /** The start of the first call that was recorded as begun in a phase. */
  function FirstBegun(c: Setup, trace: seq<Action>, phase: string): Option<real>
    requires c.speed != 0.0
  {
    if trace == [] then None
    else
      var init, a := trace[..|trace| - 1], trace[|trace| - 1];
      var s := Run(c, init);
      if FirstBegun(c, init, phase).Some? then FirstBegun(c, init, phase)
      else if a.Begin? && Enabled(c, s, a) && c.events[a.who].item.phase == phase then Some(s.jobs[a.who].started)
      else None
  }

  lemma {:induction false} PhaseStart(c: Setup, trace: seq<Action>, phase: string)
    requires c.speed != 0.0
    ensures var first := Run(c, trace).counters.firstStart;
            && (phase in first <==> FirstBegun(c, trace, phase).Some?)
            && (phase in first ==> first[phase] == FirstBegun(c, trace, phase).value)
  {
    if trace != [] { PhaseStart(c, trace[..|trace| - 1], phase); }
  }
}
