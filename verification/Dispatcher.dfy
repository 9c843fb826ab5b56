/**
 * The paced, capped dispatcher: a main thread submitting events on schedule, a fixed pool of workers, shared
 * counters.
 */
module Dispatcher {
  import opened Domain
  import opened StableSort

  datatype Event = Event(phase: string, op: Op)

  /** An event keyed by the time it is scheduled for. */
  type Timed = Keyed<Event>

  /** The fields `_Progress` updates under its lock. */
  datatype Counters = Counters(done: nat, phaseDone: map<string, nat>, firstStart: map<string, real>,
                               inFlight: int, maxInFlight: int)

  const ZERO := Counters(0, map[], map[], 0, 0)

  function Max(a: int, b: int): int { if a < b then b else a }

  function CountOf(m: map<string, nat>, phase: string): nat { if phase in m then m[phase] else 0 }

  function Starting(c: Counters, phase: string, now: real): Counters {
    c.(inFlight := c.inFlight + 1, maxInFlight := Max(c.maxInFlight, c.inFlight + 1),
       firstStart := if phase in c.firstStart then c.firstStart else c.firstStart[phase := now])
  }

  function Finishing(c: Counters, phase: string): Counters {
    c.(inFlight := c.inFlight - 1, done := c.done + 1,
       phaseDone := c.phaseDone[phase := CountOf(c.phaseDone, phase) + 1])
  }

  class Progress {
    const total: nat
    const phaseTotals: map<string, nat>
    var done: nat
    var phaseDone: map<string, nat>
    var phaseFirstStart: map<string, real>
    var inFlight: int
    var maxInFlight: int

    function Value(): Counters
      reads this
    {
      Counters(done, phaseDone, phaseFirstStart, inFlight, maxInFlight)
    }

    constructor (total: nat, phaseTotals: map<string, nat>)
      ensures this.total == total && this.phaseTotals == phaseTotals && Value() == ZERO
    {
      this.total, this.phaseTotals := total, phaseTotals;
      done, phaseDone, phaseFirstStart := 0, map[], map[];
      inFlight, maxInFlight := 0, 0;
    }

    method RecordStart(phase: string, now: real)
      modifies this
      ensures Value() == Starting(old(Value()), phase, now)
    {
      inFlight := inFlight + 1;
      if maxInFlight < inFlight { maxInFlight := inFlight; }
      if phase !in phaseFirstStart { phaseFirstStart := phaseFirstStart[phase := now]; }
    }

    method RecordDone(phase: string)
      modifies this
      ensures Value() == Finishing(old(Value()), phase)
    {
      inFlight := inFlight - 1;
      done := done + 1;
      phaseDone := phaseDone[phase := (if phase in phaseDone then phaseDone[phase] else 0) + 1];
    }
  }

  // ---- Phase totals --------------------------------------------------------

  function InPhase(events: seq<Timed>, phase: string): nat {
    if events == [] then 0
    else InPhase(events[..|events| - 1], phase) + (if events[|events| - 1].item.phase == phase then 1 else 0)
  }

  /** A dictionary of counts: a phase is a key exactly when its count is not zero. */
  ghost predicate IsTally(m: map<string, nat>, count: string -> nat) {
    forall phase :: CountOf(m, phase) == count(phase) && (phase in m <==> count(phase) > 0)
  }

  method PhaseTotals(events: seq<Timed>) returns (totals: map<string, nat>)
    ensures IsTally(totals, phase => InPhase(events, phase))
  {
    totals := map[];
    for i := 0 to |events|
      invariant IsTally(totals, phase => InPhase(events[..i], phase))
    {
      assert events[..i + 1][..i] == events[..i];
      var phase := events[i].item.phase;
      totals := totals[phase := (if phase in totals then totals[phase] else 0) + 1];
    }
    assert events[..|events|] == events;
  }

  // ---- The run -------------------------------------------------------------

  /** The life of one event, with the clock readings taken on the way. */
  datatype Job =
    | Waiting
    | Queued(dispatched: real)
    | Picked(dispatched: real, started: real)
    | Running(dispatched: real, started: real)
    | Returned(dispatched: real, started: real, ended: real, outcome: Option<Result>)
    | Recorded(dispatched: real, started: real, ended: real, outcome: Option<Result>)
    | Finished(dispatched: real, started: real, ended: real, outcome: Option<Result>)

  /** `who` is the event's place in the timeline, standing for the phase, op and params copied into the record. */
  datatype Entry = Entry(who: nat, started: real, ended: real, outcome: Option<Result>)

  /** The parameters of `run_timeline`, with its clock reading at the start. */
  datatype Setup = Setup(events: seq<Timed>, poolSize: nat, speed: real, origin: real)

  /** Where the main thread is with the next event, and what it holds in local variables. */
  datatype Main =
    | Looping                                           // about to read the clock
    | Compared(seen: real)                              // about to compare that reading with the event's target
    | Asleep(begun: real, request: real)
    | Awake                                             // about to read the clock again
    | Stamped(dispatched: real)                         // about to submit

  datatype System = System(clock: real, next: nat, main: Main, jobs: seq<Job>, counters: Counters,
                           records: seq<Keyed<Entry>>)

  /**
   * Steps of the main thread and of the workers; a raising call has outcome None. A sleep lasts at least as long as
   * asked.
   */
  datatype Action =
    | ReadClock(now: real)
    | Compare(now: real)
    | Wake(now: real)
    | Stamp(now: real)
    | Submit
    | Pick(who: nat, now: real)
    | Begin(who: nat)
    | Return(who: nat, now: real, outcome: Option<Result>)
    | Record(who: nat)
    | Finish(who: nat)

  function Target(c: Setup, i: nat): real
    requires i < |c.events| && c.speed != 0.0
  {
    c.origin + c.events[i].key / c.speed
  }

  function Stage(j: Job): nat {
    match j
    case Waiting => 0
    case Queued(_) => 1
    case Picked(_, _) => 2
    case Running(_, _) => 3
    case Returned(_, _, _, _) => 4
    case Recorded(_, _, _, _) => 5
    case Finished(_, _, _, _) => 6
  }

  /** How many jobs are in a stage from lo to hi. */
  function Count(jobs: seq<Job>, lo: nat, hi: nat): nat {
    if jobs == [] then 0
    else Count(jobs[..|jobs| - 1], lo, hi) + (if lo <= Stage(jobs[|jobs| - 1]) <= hi then 1 else 0)
  }

  /** Workers currently holding a job. */
  function Busy(jobs: seq<Job>): nat { Count(jobs, 2, 5) }

  predicate Enabled(c: Setup, s: System, a: Action)
    requires c.speed != 0.0
  {
    |s.jobs| == |c.events| &&
    match a
    case ReadClock(now) => s.main.Looping? && s.next < |c.events| && now >= s.clock
    case Compare(now) => s.main.Compared? && s.next < |c.events| && now >= s.clock
    case Wake(now) => s.main.Asleep? && now >= s.clock && now >= s.main.begun + s.main.request
    case Stamp(now) => s.main.Awake? && now >= s.clock
    case Submit => s.main.Stamped? && s.next < |c.events|
    case Pick(i, now) =>
      && i < |s.jobs| && s.jobs[i].Queued? && now >= s.clock && Busy(s.jobs) < c.poolSize
      && forall j :: 0 <= j < i ==> !s.jobs[j].Queued?
    case Begin(i) => i < |s.jobs| && s.jobs[i].Picked?
    case Return(i, now, _) => i < |s.jobs| && s.jobs[i].Running? && now >= s.clock
    case Record(i) => i < |s.jobs| && s.jobs[i].Returned?
    case Finish(i) => i < |s.jobs| && s.jobs[i].Recorded?
  }

  /** A step that is not enabled changes nothing, so every sequence of actions is a run. */
  function Next(c: Setup, s: System, a: Action): System
    requires c.speed != 0.0 && s.next <= |s.jobs|
  {
    if !Enabled(c, s, a) then s
    else
      match a
      case ReadClock(now) => s.(clock := now, main := Compared(now))
      case Compare(now) =>
        var target := Target(c, s.next);
        s.(clock := now, main := if target > s.main.seen then Asleep(now, target - s.main.seen) else Awake)
      case Wake(now) => s.(clock := now, main := Awake)
      case Stamp(now) => s.(clock := now, main := Stamped(now))
      case Submit =>
        s.(main := Looping, next := s.next + 1, jobs := s.jobs[s.next := Queued(s.main.dispatched)])
      case Pick(i, now) => s.(clock := now, jobs := s.jobs[i := Picked(s.jobs[i].dispatched, now)])
      case Begin(i) =>
        var j := s.jobs[i];
        s.(jobs := s.jobs[i := Running(j.dispatched, j.started)],
           counters := Starting(s.counters, c.events[i].item.phase, j.started))
      case Return(i, now, outcome) =>
        var j := s.jobs[i];
        s.(clock := now, jobs := s.jobs[i := Returned(j.dispatched, j.started, now, outcome)])
      case Record(i) =>
        var j := s.jobs[i];
        s.(jobs := s.jobs[i := Recorded(j.dispatched, j.started, j.ended, j.outcome)],
           records := s.records + [EntryOf(c, i, j)])
      case Finish(i) =>
        var j := s.jobs[i];
        s.(jobs := s.jobs[i := Finished(j.dispatched, j.started, j.ended, j.outcome)],
           counters := Finishing(s.counters, c.events[i].item.phase))
  }

  /** The record of a returned call: times relative to the start of the run. */
  function EntryOf(c: Setup, i: nat, j: Job): Keyed<Entry>
    requires Stage(j) >= 4
  {
    Keyed(j.dispatched - c.origin, Entry(i, j.started - c.origin, j.ended - c.origin, j.outcome))
  }

  function Start(c: Setup): System {
    System(c.origin, 0, Looping, seq(|c.events|, _ => Waiting), ZERO, [])
  }

  function Run(c: Setup, trace: seq<Action>): (s: System)
    requires c.speed != 0.0
    ensures |s.jobs| == |c.events| && s.next <= |s.jobs|
  {
    if trace == [] then Start(c) else Next(c, Run(c, trace[..|trace| - 1]), trace[|trace| - 1])
  }

  // ---- Counting ------------------------------------------------------------

  lemma {:induction false} CountUpdate(jobs: seq<Job>, i: nat, j: Job, lo: nat, hi: nat)
    requires i < |jobs|
    ensures Count(jobs[i := j], lo, hi) ==
            Count(jobs, lo, hi) - (if lo <= Stage(jobs[i]) <= hi then 1 else 0)
            + (if lo <= Stage(j) <= hi then 1 else 0)
  {
    var n := |jobs| - 1;
    if i < n {
      CountUpdate(jobs[..n], i, j, lo, hi);
      assert jobs[i := j][..n] == jobs[..n][i := j];
    } else {
      assert jobs[i := j][..n] == jobs[..n];
    }
  }

  lemma {:induction false} CountWithin(jobs: seq<Job>, lo: nat, hi: nat, lo': nat, hi': nat)
    requires lo' <= lo && hi <= hi'
    ensures Count(jobs, lo, hi) <= Count(jobs, lo', hi') <= |jobs|
  {
    if jobs != [] { CountWithin(jobs[..|jobs| - 1], lo, hi, lo', hi'); }
  }

  lemma {:induction false} CountNone(n: nat, jobs: seq<Job>, lo: nat, hi: nat)
    requires |jobs| == n && lo > 0 && forall i :: 0 <= i < n ==> jobs[i].Waiting?
    ensures Count(jobs, lo, hi) == 0
  {
    if n > 0 { CountNone(n - 1, jobs[..n - 1], lo, hi); }
  }

  lemma {:induction false} CountAll(jobs: seq<Job>, lo: nat, hi: nat)
    ensures Count(jobs, lo, hi) == |jobs| <==> forall i :: 0 <= i < |jobs| ==> lo <= Stage(jobs[i]) <= hi
  {
    if jobs != [] {
      CountAll(jobs[..|jobs| - 1], lo, hi);
      CountWithin(jobs[..|jobs| - 1], lo, hi, lo, hi);
    }
  }

  /** How many events of a phase have finished. */
  function FinishedIn(events: seq<Timed>, jobs: seq<Job>, phase: string): nat
    requires |events| == |jobs|
  {
    if events == [] then 0
    else
      var n := |events| - 1;
      FinishedIn(events[..n], jobs[..n], phase) + (if jobs[n].Finished? && events[n].item.phase == phase then 1 else 0)
  }

  lemma {:induction false} FinishedUpdate(events: seq<Timed>, jobs: seq<Job>, i: nat, j: Job, phase: string)
    requires |events| == |jobs| && i < |jobs| && !jobs[i].Finished?
    ensures FinishedIn(events, jobs[i := j], phase) ==
            FinishedIn(events, jobs, phase) + (if j.Finished? && events[i].item.phase == phase then 1 else 0)
  {
    var n := |jobs| - 1;
    if i < n {
      FinishedUpdate(events[..n], jobs[..n], i, j, phase);
      assert jobs[i := j][..n] == jobs[..n][i := j];
    } else {
      assert jobs[i := j][..n] == jobs[..n];
    }
  }

  lemma {:induction false} FinishedAll(events: seq<Timed>, jobs: seq<Job>, phase: string)
    requires |events| == |jobs| && forall i :: 0 <= i < |jobs| ==> jobs[i].Finished?
    ensures FinishedIn(events, jobs, phase) == InPhase(events, phase)
  {
    if events != [] { FinishedAll(events[..|events| - 1], jobs[..|jobs| - 1], phase); }
  }

  lemma {:induction false} FinishedNone(events: seq<Timed>, jobs: seq<Job>, phase: string)
    requires |events| == |jobs| && forall i :: 0 <= i < |jobs| ==> !jobs[i].Finished?
    ensures FinishedIn(events, jobs, phase) == 0
  {
    if events != [] { FinishedNone(events[..|events| - 1], jobs[..|jobs| - 1], phase); }
  }

  // ---- What every schedule keeps -------------------------------------------

  ghost predicate CountsOk(c: Setup, s: System) {
    && s.counters.inFlight == Count(s.jobs, 3, 5)
    && s.counters.done == Count(s.jobs, 6, 6)
    && Busy(s.jobs) <= c.poolSize
    && 0 <= s.counters.inFlight <= s.counters.maxInFlight
  }

  ghost predicate PhasesOk(c: Setup, s: System) {
    && |s.jobs| == |c.events|
    && IsTally(s.counters.phaseDone, phase => FinishedIn(c.events, s.jobs, phase))
  }

  ghost predicate TimesOk(c: Setup, s: System)
    requires c.speed != 0.0
  {
    && |s.jobs| == |c.events| && s.next <= |s.jobs| && c.origin <= s.clock
    && (forall i :: 0 <= i < |s.jobs| ==> (s.jobs[i].Waiting? <==> i >= s.next))
    && (forall i :: 0 <= i < |s.jobs| ==> JobOk(c, s.clock, i, s.jobs[i]))
    && InOrder(s.jobs) && MainOk(c, s)
  }

  /** Events are dispatched in timeline order. */
  ghost predicate InOrder(jobs: seq<Job>) {
    forall i, j :: 0 <= i < j < |jobs| && !jobs[i].Waiting? && !jobs[j].Waiting? ==>
      jobs[i].dispatched <= jobs[j].dispatched
  }

  /** A main thread that got past its sleep, or needed none, is past the next event's scaled time. */
  ghost predicate MainOk(c: Setup, s: System)
    requires c.speed != 0.0 && |s.jobs| == |c.events|
  {
    s.main.Looping? ||
    (&& s.next < |c.events|
     && var target := Target(c, s.next);
        match s.main
        case Looping => true
        case Compared(seen) => seen <= s.clock
        case Asleep(begun, request) => begun <= s.clock && target <= begun + request
        case Awake => target <= s.clock
        case Stamped(at) =>
          target <= at <= s.clock && forall i :: 0 <= i < s.next && !s.jobs[i].Waiting? ==> s.jobs[i].dispatched <= at)
  }

  /** No event goes out before its scaled time, and an event's clock readings are in order. */
  ghost predicate JobOk(c: Setup, clock: real, i: nat, j: Job)
    requires i < |c.events| && c.speed != 0.0
  {
    && (Stage(j) >= 1 ==> Target(c, i) <= j.dispatched <= clock)
    && (Stage(j) >= 2 ==> j.dispatched <= j.started <= clock)
    && (Stage(j) >= 4 ==> j.started <= j.ended <= clock)
  }

  ghost predicate EntryOk(c: Setup, jobs: seq<Job>, e: Keyed<Entry>) {
    var i := e.item.who;
    i < |jobs| && Stage(jobs[i]) >= 5 && e == EntryOf(c, i, jobs[i])
  }

  ghost predicate RecordsOk(c: Setup, s: System) {
    && (forall k :: 0 <= k < |s.records| ==> EntryOk(c, s.jobs, s.records[k]))
    && (forall j, k :: 0 <= j < k < |s.records| ==> s.records[j].item.who != s.records[k].item.who)
    && (forall i :: 0 <= i < |s.jobs| && Stage(s.jobs[i]) >= 5 ==> HasRecord(s.records, i))
  }

  ghost predicate HasRecord(records: seq<Keyed<Entry>>, i: nat) {
    exists k :: 0 <= k < |records| && records[k].item.who == i
  }

  /** Whose job a step moves on; the other steps of the main thread move nobody's. */
  function Mover(s: System, a: Action): nat {
    match a
    case Submit => s.next
    case Pick(i, _) => i
    case Begin(i) => i
    case Return(i, _, _) => i
    case Record(i) => i
    case Finish(i) => i
    case _ => 0
  }

  predicate Pacing(a: Action) { a.ReadClock? || a.Compare? || a.Wake? || a.Stamp? }

  lemma PacingMovesNobody(c: Setup, s: System, a: Action)
    requires c.speed != 0.0 && s.next <= |s.jobs| && Pacing(a)
    ensures var s' := Next(c, s, a); s' == s.(clock := s'.clock, main := s'.main)
  {
  }

  lemma MoverMoves(c: Setup, s: System, a: Action)
    requires c.speed != 0.0 && s.next <= |s.jobs| && TimesOk(c, s) && Enabled(c, s, a) && !Pacing(a)
    ensures var i, s' := Mover(s, a), Next(c, s, a);
            && i < |s.jobs| == |s'.jobs| && s'.jobs == s.jobs[i := s'.jobs[i]]
            && Stage(s'.jobs[i]) == Stage(s.jobs[i]) + 1
  {
  }

  lemma CountsKept(c: Setup, s: System, a: Action)
    requires c.speed != 0.0 && s.next <= |s.jobs| && CountsOk(c, s) && TimesOk(c, s) && Enabled(c, s, a)
    ensures CountsOk(c, Next(c, s, a))
  {
    var i, s' := Mover(s, a), Next(c, s, a);
    if Pacing(a) {
      PacingMovesNobody(c, s, a);
    } else {
      MoverMoves(c, s, a);
      CountUpdate(s.jobs, i, s'.jobs[i], 3, 5);
      CountUpdate(s.jobs, i, s'.jobs[i], 6, 6);
      CountUpdate(s.jobs, i, s'.jobs[i], 2, 5);
    }
  }

  lemma PhasesKept(c: Setup, s: System, a: Action)
    requires c.speed != 0.0 && s.next <= |s.jobs| && PhasesOk(c, s) && TimesOk(c, s) && Enabled(c, s, a)
    ensures PhasesOk(c, Next(c, s, a))
  {
    var i, s' := Mover(s, a), Next(c, s, a);
    if Pacing(a) {
      PacingMovesNobody(c, s, a);
    } else {
      MoverMoves(c, s, a);
      forall phase
        ensures CountOf(s'.counters.phaseDone, phase) == FinishedIn(c.events, s'.jobs, phase)
        ensures phase in s'.counters.phaseDone <==> FinishedIn(c.events, s'.jobs, phase) > 0
      {
        FinishedUpdate(c.events, s.jobs, i, s'.jobs[i], phase);
        assert CountOf(s.counters.phaseDone, phase) == FinishedIn(c.events, s.jobs, phase);
      }
    }
  }

  lemma JobsKept(c: Setup, s: System, a: Action)
    requires c.speed != 0.0 && s.next <= |s.jobs| && TimesOk(c, s) && Enabled(c, s, a)
    ensures var s' := Next(c, s, a);
            && s.clock <= s'.clock && |s'.jobs| == |c.events|
            && forall j :: 0 <= j < |s'.jobs| ==> JobOk(c, s'.clock, j, s'.jobs[j])
  {
    var s' := Next(c, s, a);
    forall j | 0 <= j < |s'.jobs| ensures JobOk(c, s'.clock, j, s'.jobs[j]) {
      assert JobOk(c, s.clock, j, s.jobs[j]);
    }
  }

  lemma OrderKept(c: Setup, s: System, a: Action)
    requires c.speed != 0.0 && s.next <= |s.jobs| && TimesOk(c, s) && Enabled(c, s, a)
    ensures InOrder(Next(c, s, a).jobs)
  {
    if Pacing(a) { PacingMovesNobody(c, s, a); } else { MoverMoves(c, s, a); }
  }

  lemma MainKept(c: Setup, s: System, a: Action)
    requires c.speed != 0.0 && s.next <= |s.jobs| && TimesOk(c, s) && Enabled(c, s, a)
    ensures var s' := Next(c, s, a); |s'.jobs| == |c.events| && MainOk(c, s')
  {
    if a.Stamp? {
      forall i | 0 <= i < s.next && !s.jobs[i].Waiting? ensures s.jobs[i].dispatched <= a.now {
        assert JobOk(c, s.clock, i, s.jobs[i]);
      }
    }
  }

  lemma TimesKept(c: Setup, s: System, a: Action)
    requires c.speed != 0.0 && s.next <= |s.jobs| && TimesOk(c, s) && Enabled(c, s, a)
    ensures TimesOk(c, Next(c, s, a))
  {
    JobsKept(c, s, a);
    OrderKept(c, s, a);
    MainKept(c, s, a);
  }

  lemma EntriesKept(c: Setup, s: System, a: Action)
    requires c.speed != 0.0 && s.next <= |s.jobs| && RecordsOk(c, s) && TimesOk(c, s) && Enabled(c, s, a)
    ensures forall k :: 0 <= k < |s.records| ==> EntryOk(c, Next(c, s, a).jobs, s.records[k])
  {
    var s' := Next(c, s, a);
    if Pacing(a) { PacingMovesNobody(c, s, a); } else { MoverMoves(c, s, a); }
    forall k | 0 <= k < |s.records| ensures EntryOk(c, s'.jobs, s.records[k]) {
      assert EntryOk(c, s.jobs, s.records[k]);
    }
  }

  lemma WitnessesKept(c: Setup, s: System, a: Action)
    requires c.speed != 0.0 && s.next <= |s.jobs| && RecordsOk(c, s) && TimesOk(c, s) && Enabled(c, s, a)
    ensures forall j :: 0 <= j < |s.jobs| && Stage(Next(c, s, a).jobs[j]) >= 5 ==> HasRecord(Next(c, s, a).records, j)
  {
    var i, s' := Mover(s, a), Next(c, s, a);
    forall j | 0 <= j < |s.jobs| && Stage(s'.jobs[j]) >= 5 ensures HasRecord(s'.records, j) {
      if a.Record? && j == i {
        assert s'.records[|s.records|].item.who == i;
      } else {
        assert HasRecord(s.records, j);
        var k :| 0 <= k < |s.records| && s.records[k].item.who == j;
        assert s'.records[k].item.who == j;
      }
    }
  }

  lemma RecordsKept(c: Setup, s: System, a: Action)
    requires c.speed != 0.0 && s.next <= |s.jobs| && RecordsOk(c, s) && TimesOk(c, s) && Enabled(c, s, a)
    ensures RecordsOk(c, Next(c, s, a))
  {
    EntriesKept(c, s, a);
    WitnessesKept(c, s, a);
    if a.Record? { NotRecordedYet(c, s, a.who); }
  }

  lemma NotRecordedYet(c: Setup, s: System, i: nat)
    requires RecordsOk(c, s) && i < |s.jobs| && Stage(s.jobs[i]) < 5
    ensures forall k :: 0 <= k < |s.records| ==> s.records[k].item.who != i
  {
    forall k | 0 <= k < |s.records| ensures s.records[k].item.who != i {
      assert EntryOk(c, s.jobs, s.records[k]);
    }
  }

  lemma {:induction false} AlwaysOk(c: Setup, trace: seq<Action>)
    requires c.speed != 0.0
    ensures var s := Run(c, trace); CountsOk(c, s) && PhasesOk(c, s) && TimesOk(c, s) && RecordsOk(c, s)
  {
    if trace == [] {
      CountNone(|c.events|, Start(c).jobs, 3, 5);
      CountNone(|c.events|, Start(c).jobs, 6, 6);
      CountNone(|c.events|, Start(c).jobs, 2, 5);
      forall phase ensures FinishedIn(c.events, Start(c).jobs, phase) == 0 {
        FinishedNone(c.events, Start(c).jobs, phase);
      }
    } else {
      var init, a := trace[..|trace| - 1], trace[|trace| - 1];
      AlwaysOk(c, init);
      var s := Run(c, init);
      if Enabled(c, s, a) {
        CountsKept(c, s, a);
        PhasesKept(c, s, a);
        TimesKept(c, s, a);
        RecordsKept(c, s, a);
      }
    }
  }

  /**
   * Safety. In every schedule the in-flight counter is the number of calls started and not yet done, it never exceeds
   * the pool size, the done counter and the per-phase counters count finished events, and no event is dispatched
   * before its scaled time or before an earlier one.
   */
  lemma {:induction false} DispatcherSafety(c: Setup, trace: seq<Action>)
    requires c.speed != 0.0
    ensures var s := Run(c, trace);
            && s.counters.inFlight == Count(s.jobs, 3, 6) - Count(s.jobs, 6, 6)
            && 0 <= s.counters.inFlight <= c.poolSize
            && s.counters.done == Count(s.jobs, 6, 6)
            && IsTally(s.counters.phaseDone, phase => FinishedIn(c.events, s.jobs, phase))
            && TimesOk(c, s)
  {
    AlwaysOk(c, trace);
    CountWithin(Run(c, trace).jobs, 3, 5, 2, 5);
    CountSplits(Run(c, trace).jobs, 3, 5, 6);
  }

  lemma {:induction false} CountSplits(jobs: seq<Job>, lo: nat, mid: nat, hi: nat)
    requires lo <= mid < hi
    ensures Count(jobs, lo, hi) == Count(jobs, lo, mid) + Count(jobs, mid + 1, hi)
  {
    if jobs != [] { CountSplits(jobs[..|jobs| - 1], lo, mid, hi); }
  }

  /** The reported maximum is the true high-water mark: reached at some point of the run and never exceeded. */
  lemma {:induction false} HighWaterMark(c: Setup, trace: seq<Action>) returns (peak: nat)
    requires c.speed != 0.0
    ensures peak <= |trace| && Run(c, trace[..peak]).counters.inFlight == Run(c, trace).counters.maxInFlight
    ensures forall n :: 0 <= n <= |trace| ==>
              Run(c, trace[..n]).counters.inFlight <= Run(c, trace).counters.maxInFlight
  {
    peak := PeakReached(c, trace);
    forall n | 0 <= n <= |trace|
      ensures Run(c, trace[..n]).counters.inFlight <= Run(c, trace).counters.maxInFlight
    {
      NeverAbove(c, trace, n);
    }
  }

  lemma {:induction false} PeakReached(c: Setup, trace: seq<Action>) returns (peak: nat)
    requires c.speed != 0.0
    ensures peak <= |trace| && Run(c, trace[..peak]).counters.inFlight == Run(c, trace).counters.maxInFlight
  {
    if trace == [] {
      peak := 0;
    } else {
      var init := trace[..|trace| - 1];
      PeakStep(c, Run(c, init), trace[|trace| - 1]);
      if Run(c, init).counters.maxInFlight < Run(c, trace).counters.maxInFlight {
        peak := |trace|;
        assert trace[..peak] == trace;
      } else {
        peak := PeakReached(c, init);
        assert trace[..peak] == init[..peak];
      }
    }
  }

  lemma {:induction false} NeverAbove(c: Setup, trace: seq<Action>, n: nat)
    requires c.speed != 0.0 && n <= |trace|
    ensures Run(c, trace[..n]).counters.inFlight <= Run(c, trace).counters.maxInFlight
  {
    if n == |trace| {
      AlwaysOk(c, trace);
      assert trace[..n] == trace;
    } else {
      var init := trace[..|trace| - 1];
      NeverAbove(c, init, n);
      assert trace[..n] == init[..n];
      PeakStep(c, Run(c, init), trace[|trace| - 1]);
    }
  }

  lemma PeakStep(c: Setup, s: System, a: Action)
    requires c.speed != 0.0 && s.next <= |s.jobs|
    ensures var before, after := s.counters, Next(c, s, a).counters;
            && before.maxInFlight <= after.maxInFlight
            && (before.maxInFlight < after.maxInFlight ==> after.inFlight == after.maxInFlight)
  {
  }

  // ---- Completion ----------------------------------------------------------

  ghost predicate AllFinished(s: System) {
    forall i :: 0 <= i < |s.jobs| ==> s.jobs[i].Finished?
  }

  /** Completion. Once every job has finished, every event is done and every phase has reached its total. */
  lemma {:induction false} CompletionCounts(c: Setup, trace: seq<Action>, totals: map<string, nat>)
    requires c.speed != 0.0 && AllFinished(Run(c, trace))
    requires IsTally(totals, phase => InPhase(c.events, phase))
    ensures var counters := Run(c, trace).counters;
            counters.done == |c.events| && counters.inFlight == 0 && counters.phaseDone == totals
  {
    AlwaysOk(c, trace);
    var s := Run(c, trace);
    CountAll(s.jobs, 6, 6);
    CountSplits(s.jobs, 3, 5, 6);
    CountWithin(s.jobs, 3, 6, 3, 6);
    EveryPhaseDone(c, s, totals);
  }

  /**
   * And the returned records are the run's, sorted by dispatch time: exactly one per event, holding that event's own
   * clock readings and outcome.
   */
  lemma {:induction false} CompletionRecords(c: Setup, trace: seq<Action>)
    requires c.speed != 0.0 && AllFinished(Run(c, trace))
    ensures var s := Run(c, trace);
            && SortedByKey(Sort(s.records)) && multiset(Sort(s.records)) == multiset(s.records)
            && (forall i :: 0 <= i < |c.events| ==> HasRecord(s.records, i))
            && (forall j, k :: 0 <= j < k < |s.records| ==> s.records[j].item.who != s.records[k].item.who)
            && (forall k :: 0 <= k < |s.records| ==> EntryOk(c, s.jobs, s.records[k]))
  {
    AlwaysOk(c, trace);
    FinishedHaveRecords(c, Run(c, trace));
    SortSorts(Run(c, trace).records);
  }

  lemma FinishedHaveRecords(c: Setup, s: System)
    requires RecordsOk(c, s) && AllFinished(s) && |s.jobs| == |c.events|
    ensures forall i :: 0 <= i < |c.events| ==> HasRecord(s.records, i)
  {
    forall i | 0 <= i < |c.events| ensures HasRecord(s.records, i) {
      assert Stage(s.jobs[i]) == 6;
    }
  }

  lemma EveryPhaseDone(c: Setup, s: System, totals: map<string, nat>)
    requires PhasesOk(c, s) && AllFinished(s)
    requires IsTally(totals, phase => InPhase(c.events, phase))
    ensures s.counters.phaseDone == totals
  {
    forall phase ensures CountOf(s.counters.phaseDone, phase) == CountOf(totals, phase)
                 ensures phase in s.counters.phaseDone <==> phase in totals
    {
      FinishedAll(c.events, s.jobs, phase);
      assert CountOf(totals, phase) == InPhase(c.events, phase);
      assert CountOf(s.counters.phaseDone, phase) == FinishedIn(c.events, s.jobs, phase);
    }
    forall phase | phase in totals ensures s.counters.phaseDone[phase] == totals[phase] {
      assert CountOf(s.counters.phaseDone, phase) == CountOf(totals, phase);
    }
  }

  function SumOver(m: map<string, nat>, phases: seq<string>): nat {
    if phases == [] then 0 else SumOver(m, phases[..|phases| - 1]) + CountOf(m, phases[|phases| - 1])
  }

  lemma {:induction false} SumsGrow(m: map<string, nat>, m': map<string, nat>, phases: seq<string>, phase: string)
    requires Distinct(phases)
    requires forall p :: CountOf(m', p) == CountOf(m, p) + (if p == phase then 1 else 0)
    ensures SumOver(m', phases) == SumOver(m, phases) + (if phase in phases then 1 else 0)
  {
    if phases != [] {
      var n := |phases| - 1;
      SumsGrow(m, m', phases[..n], phase);
      assert phases == phases[..n] + [phases[n]];
    }
  }

  lemma {:induction false} NothingYet(phases: seq<string>)
    ensures SumOver(map[], phases) == 0
  {
    if phases != [] { NothingYet(phases[..|phases| - 1]); }
  }

  /** At every point of every schedule the per-phase counters add up to the done counter. */
  lemma {:induction false} PhaseCountsSumToDone(c: Setup, trace: seq<Action>, phases: seq<string>)
    requires c.speed != 0.0 && Distinct(phases)
    requires forall i :: 0 <= i < |c.events| ==> c.events[i].item.phase in phases
    ensures SumOver(Run(c, trace).counters.phaseDone, phases) == Run(c, trace).counters.done
  {
    if trace == [] {
      NothingYet(phases);
    } else {
      var init, a := trace[..|trace| - 1], trace[|trace| - 1];
      PhaseCountsSumToDone(c, init, phases);
      var s := Run(c, init);
      if a.Finish? && Enabled(c, s, a) {
        SumsGrow(s.counters.phaseDone, Run(c, trace).counters.phaseDone, phases, c.events[a.who].item.phase);
      }
    }
  }

  function StageSum(jobs: seq<Job>): nat {
    if jobs == [] then 0 else StageSum(jobs[..|jobs| - 1]) + Stage(jobs[|jobs| - 1])
  }

  lemma {:induction false} StageSumUpdate(jobs: seq<Job>, i: nat, j: Job)
    requires i < |jobs|
    ensures StageSum(jobs[i := j]) == StageSum(jobs) - Stage(jobs[i]) + Stage(j)
  {
    var n := |jobs| - 1;
    if i < n {
      StageSumUpdate(jobs[..n], i, j);
      assert jobs[i := j][..n] == jobs[..n][i := j];
    } else {
      assert jobs[i := j][..n] == jobs[..n];
    }
  }

  lemma {:induction false} StageSumBound(jobs: seq<Job>)
    ensures StageSum(jobs) <= 6 * |jobs|
    ensures StageSum(jobs) == 6 * |jobs| <==> forall i :: 0 <= i < |jobs| ==> jobs[i].Finished?
  {
    if jobs != [] { StageSumBound(jobs[..|jobs| - 1]); }
  }

  function MainStage(m: Main): nat {
    match m
    case Looping => 0
    case Compared(_) => 1
    case Asleep(_, _) => 2
    case Awake => 3
    case Stamped(_) => 4
  }

  /** Steps taken by the jobs and by the main thread, a sleep it did not need counted with the comparison. */
  function Work(s: System): nat { StageSum(s.jobs) + 4 * s.next + MainStage(s.main) }

  lemma WorkGrows(c: Setup, s: System, a: Action)
    requires c.speed != 0.0 && s.next <= |s.jobs| && TimesOk(c, s) && Enabled(c, s, a)
    ensures Work(s) < Work(Next(c, s, a)) <= Work(s) + (if a.Compare? then 2 else 1)
  {
    if Pacing(a) {
      PacingMovesNobody(c, s, a);
    } else {
      MoverMoves(c, s, a);
      StageSumUpdate(s.jobs, Mover(s, a), Next(c, s, a).jobs[Mover(s, a)]);
    }
  }

  /** Every enabled step is progress: the work grows, and at ten per event the run is over. */
  lemma {:induction false} StepsRemaining(c: Setup, trace: seq<Action>, a: Action)
    requires c.speed != 0.0 && Enabled(c, Run(c, trace), a)
    ensures Work(Run(c, trace)) < Work(Next(c, Run(c, trace), a)) <= 10 * |c.events|
  {
    AlwaysOk(c, trace);
    var s := Run(c, trace);
    WorkGrows(c, s, a);
    TimesKept(c, s, a);
    StageSumBound(Next(c, s, a).jobs);
  }

  lemma {:induction false} FirstQueued(jobs: seq<Job>, i: nat) returns (q: nat)
    requires i < |jobs| && jobs[i].Queued?
    ensures q <= i && jobs[q].Queued? && forall j :: 0 <= j < q ==> !jobs[j].Queued?
    decreases i
  {
    if j :| 0 <= j < i && jobs[j].Queued? { q := FirstQueued(jobs, j); } else { q := i; }
  }

  lemma {:induction false} SomeoneBusy(jobs: seq<Job>) returns (i: nat)
    requires Busy(jobs) > 0
    ensures i < |jobs| && 2 <= Stage(jobs[i]) <= 5
  {
    var n := |jobs| - 1;
    if 2 <= Stage(jobs[n]) <= 5 { i := n; } else { i := SomeoneBusy(jobs[..n]); }
  }

  /** No deadlock: until every job has finished, with a pool of at least one, some step can be taken. */
  lemma {:induction false} NeverStuck(c: Setup, trace: seq<Action>) returns (a: Action)
    requires c.speed != 0.0 && c.poolSize > 0 && !AllFinished(Run(c, trace))
    ensures Enabled(c, Run(c, trace), a)
  {
    AlwaysOk(c, trace);
    var s := Run(c, trace);
    if Busy(s.jobs) > 0 {
      var i := SomeoneBusy(s.jobs);
      a := match s.jobs[i]
           case Picked(_, _) => Begin(i)
           case Running(_, _) => Return(i, s.clock, None)
           case Returned(_, _, _, _) => Record(i)
           case _ => Finish(i);
    } else if i :| 0 <= i < |s.jobs| && s.jobs[i].Queued? {
      var q := FirstQueued(s.jobs, i);
      a := Pick(q, s.clock);
    } else {
      var i :| 0 <= i < |s.jobs| && !s.jobs[i].Finished?;
      if s.next == |s.jobs| { BusyMember(s.jobs, i); }
      a := match s.main
           case Looping => ReadClock(s.clock)
           case Compared(_) => Compare(s.clock)
           case Asleep(begun, request) => Wake(if s.clock < begun + request then begun + request else s.clock)
           case Awake => Stamp(s.clock)
           case Stamped(_) => Submit;
    }
  }

  lemma {:induction false} BusyMember(jobs: seq<Job>, i: nat)
    requires i < |jobs| && 2 <= Stage(jobs[i]) <= 5
    ensures Busy(jobs) > 0
  {
    if i < |jobs| - 1 { BusyMember(jobs[..|jobs| - 1], i); }
  }
}
