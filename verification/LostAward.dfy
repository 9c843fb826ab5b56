/** Two threads awarding one country the same medal without the lock: both points are counted, one medal is not. */
module LostAward {
  import opened Domain
  import opened MonolithThreads
  import opened ThreadedServer
  import SeatOwners
  import Semantics

  lemma NeverDies(ref: Roster, op: Op, c: Config)
    requires op.UpdateCountryScore? && !c.pc.Die?
    ensures !Micro(ref, op, c).pc.Die?
  {
  }

  /** The first, or the second, of two awards runs on its own for a while. */
  lemma {:induction false} FirstRuns(ref: Roster, op: Op, other: Op, before: seq<Action>, c: Config, second: Thread,
                                     n: nat) returns (trace: seq<Action>)
    requires op.UpdateCountryScore? && !c.pc.Die?
    requires Run(ref, false, [op, other], before) == SeatOwners.Pair(c.mem, Running(c.pc), second)
    ensures var d := Steps(ProgramOf(ref, op), n, c);
            Run(ref, false, [op, other], trace) == SeatOwners.Pair(d.mem, Running(d.pc), second)
    decreases n
  {
    trace := before;
    if n > 0 {
      var d := Micro(ref, op, c);
      NeverDies(ref, op, c);
      if !Terminal(c.pc) {
        trace := before + [Step(0)];
        RunStep(ref, false, [op, other], before, Step(0));
      }
      trace := FirstRuns(ref, op, other, trace, d, second, n - 1);
    }
  }

  lemma {:induction false} SecondRuns(ref: Roster, op: Op, other: Op, before: seq<Action>, c: Config, first: Thread,
                                      n: nat) returns (trace: seq<Action>)
    requires other.UpdateCountryScore? && !c.pc.Die?
    requires Run(ref, false, [op, other], before) == SeatOwners.Pair(c.mem, first, Running(c.pc))
    ensures var d := Steps(ProgramOf(ref, other), n, c);
            Run(ref, false, [op, other], trace) == SeatOwners.Pair(d.mem, first, Running(d.pc))
    decreases n
  {
    trace := before;
    if n > 0 {
      var d := Micro(ref, other, c);
      NeverDies(ref, other, c);
      if !Terminal(c.pc) {
        trace := before + [Step(1)];
        RunStep(ref, false, [op, other], before, Step(1));
      }
      trace := SecondRuns(ref, op, other, trace, d, first, n - 1);
    }
  }

  /** And so as far as it can get alone. */
  lemma FirstGets(ref: Roster, op: Op, other: Op, before: seq<Action>, c: Config, d: Config, second: Thread)
    returns (trace: seq<Action>)
    requires op.UpdateCountryScore? && !c.pc.Die? && Reaches(ProgramOf(ref, op), c, d)
    requires Run(ref, false, [op, other], before) == SeatOwners.Pair(c.mem, Running(c.pc), second)
    ensures Run(ref, false, [op, other], trace) == SeatOwners.Pair(d.mem, Running(d.pc), second)
  {
    var n: nat :| Steps(ProgramOf(ref, op), n, c) == d;
    trace := FirstRuns(ref, op, other, before, c, second, n);
  }

  lemma SecondGets(ref: Roster, op: Op, other: Op, before: seq<Action>, c: Config, d: Config, first: Thread)
    returns (trace: seq<Action>)
    requires other.UpdateCountryScore? && !c.pc.Die? && Reaches(ProgramOf(ref, other), c, d)
    requires Run(ref, false, [op, other], before) == SeatOwners.Pair(c.mem, first, Running(c.pc))
    ensures Run(ref, false, [op, other], trace) == SeatOwners.Pair(d.mem, first, Running(d.pc))
  {
    var n: nat :| Steps(ProgramOf(ref, other), n, c) == d;
    trace := SecondRuns(ref, op, other, before, c, first, n);
  }

  /** The globals when one country is all there is. */
  function Holding(c: string, score: Score, log: seq<LogEntry>): Memory {
    Memory(State(EMPTY_BUCKETS.(countryScores := OrderedScores(map[c := score], [c])), log), "system")
  }

  lemma Rescored(c: string, score: Score, next: Score, log: seq<LogEntry>)
    ensures PutScore(Holding(c, score, log), c, next) == Holding(c, next, log)
  {
    assert map[c := score][c := next] == map[c := next];
  }

  lemma FirstScored(c: string)
    ensures PutScore(Memory(INITIAL, "system"), c, Semantics.NO_SCORE) == Holding(c, Semantics.NO_SCORE, [])
  {
  }

  /** One step of an award. */
  lemma AwardStep(ref: Roster, c: string, medal: string, pc: Pc, mem: Memory)
    requires Live(pc)
    ensures ProgramOf(ref, Op.UpdateCountryScore(c, medal))(At(pc, mem)) ==
            MonolithThreads.UpdateCountryScore(ref, c, medal, pc, mem)
  {
  }

  /** From its first step to having read how many medals there are. */
  lemma ReadsCount(ref: Roster, c: string, medal: string, mem: Memory)
    requires c in ref.countries && Semantics.IsMedal(medal)
    requires mem == Memory(INITIAL, "system") || mem == Holding(c, Semantics.NO_SCORE, [])
    ensures Reaches(ProgramOf(ref, Op.UpdateCountryScore(c, medal)), At(Begin, mem),
                    At(WriteMedal(0), Holding(c, Semantics.NO_SCORE, [])))
  {
    var p, entry := ProgramOf(ref, Op.UpdateCountryScore(c, medal)), Holding(c, Semantics.NO_SCORE, []);
    FirstScored(c);
    Rescored(c, Semantics.NO_SCORE, Semantics.NO_SCORE, []);
    AwardStep(ref, c, medal, Begin, mem);
    AwardStep(ref, c, medal, ReadMedal, entry);
    Here(p, At(WriteMedal(0), entry));
    Hop(p, At(ReadMedal, entry), At(WriteMedal(0), entry), At(WriteMedal(0), entry));
    Hop(p, At(Begin, mem), At(ReadMedal, entry), At(WriteMedal(0), entry));
  }

  /** The score after an award that had read `n` medals: that many and one more, and the points on top of all points. */
  function Late(score: Score, medal: string, n: int): Score
    requires Semantics.IsMedal(medal)
  {
    SetCount(score, medal, n + 1).(points := score.points + Semantics.MedalPoints(medal))
  }

  lemma CountsMedal(ref: Roster, c: string, medal: string, n: int, score: Score, log: seq<LogEntry>)
    ensures ProgramOf(ref, Op.UpdateCountryScore(c, medal))(At(WriteMedal(n), Holding(c, score, log))) ==
            At(ReadPoints, Holding(c, SetCount(score, medal, n + 1), log))
  {
    Rescored(c, score, SetCount(score, medal, n + 1), log);
    AwardStep(ref, c, medal, WriteMedal(n), Holding(c, score, log));
  }

  lemma SeesPoints(ref: Roster, c: string, medal: string, score: Score, log: seq<LogEntry>)
    ensures ProgramOf(ref, Op.UpdateCountryScore(c, medal))(At(ReadPoints, Holding(c, score, log))) ==
            At(WritePoints(score.points), Holding(c, score, log))
  {
    AwardStep(ref, c, medal, ReadPoints, Holding(c, score, log));
  }

  lemma CountsPoints(ref: Roster, c: string, medal: string, score: Score, log: seq<LogEntry>)
    requires c in ref.countries && Semantics.IsMedal(medal)
    ensures ProgramOf(ref, Op.UpdateCountryScore(c, medal))(At(WritePoints(score.points), Holding(c, score, log))) ==
            At(Record(0, true),
               Holding(c, score.(points := score.points + Semantics.MedalPoints(medal)), log))
  {
    Rescored(c, score, score.(points := score.points + Semantics.MedalPoints(medal)), log);
    AwardStep(ref, c, medal, WritePoints(score.points), Holding(c, score, log));
  }

  lemma Notes(ref: Roster, c: string, medal: string, score: Score, log: seq<LogEntry>)
    ensures ProgramOf(ref, Op.UpdateCountryScore(c, medal))(At(Record(0, true), Holding(c, score, log))) ==
            At(ReadBack(true), Holding(c, score, log + [ScoreUpdated(c, medal)]))
  {
    AwardStep(ref, c, medal, Record(0, true), Holding(c, score, log));
  }

  lemma Reports(ref: Roster, c: string, medal: string, score: Score, log: seq<LogEntry>)
    ensures ProgramOf(ref, Op.UpdateCountryScore(c, medal))(At(ReadBack(true), Holding(c, score, log))) ==
            At(Return(Scored(true, PlusOne(c, medal), score.points)), Holding(c, score, log))
  {
    AwardStep(ref, c, medal, ReadBack(true), Holding(c, score, log));
  }

  lemma Ends(ref: Roster, c: string, medal: string, score: Score, log: seq<LogEntry>, end: Config)
    requires end == At(Return(Scored(true, PlusOne(c, medal), score.points)),
                       Holding(c, score, log + [ScoreUpdated(c, medal)]))
    ensures Reaches(ProgramOf(ref, Op.UpdateCountryScore(c, medal)), At(Record(0, true), Holding(c, score, log)), end)
  {
    var p, more := ProgramOf(ref, Op.UpdateCountryScore(c, medal)), log + [ScoreUpdated(c, medal)];
    Notes(ref, c, medal, score, log);
    Reports(ref, c, medal, score, more);
    Here(p, end);
    Hop(p, At(ReadBack(true), Holding(c, score, more)), end, end);
    Hop(p, At(Record(0, true), Holding(c, score, log)), At(ReadBack(true), Holding(c, score, more)), end);
  }

  lemma Pays(ref: Roster, c: string, medal: string, score: Score, log: seq<LogEntry>, end: Config)
    requires c in ref.countries && Semantics.IsMedal(medal)
    requires var paid := score.(points := score.points + Semantics.MedalPoints(medal));
             end == At(Return(Scored(true, PlusOne(c, medal), paid.points)),
                       Holding(c, paid, log + [ScoreUpdated(c, medal)]))
    ensures Reaches(ProgramOf(ref, Op.UpdateCountryScore(c, medal)),
                    At(WritePoints(score.points), Holding(c, score, log)), end)
  {
    var p, paid := ProgramOf(ref, Op.UpdateCountryScore(c, medal)),
                   score.(points := score.points + Semantics.MedalPoints(medal));
    CountsPoints(ref, c, medal, score, log);
    Ends(ref, c, medal, paid, log, end);
    Hop(p, At(WritePoints(score.points), Holding(c, score, log)), At(Record(0, true), Holding(c, paid, log)), end);
  }

  /** From having read the number of medals to its end. */
  lemma Finishes(ref: Roster, c: string, medal: string, n: int, score: Score, log: seq<LogEntry>, end: Config)
    requires c in ref.countries && Semantics.IsMedal(medal)
    requires var late := Late(score, medal, n);
             end == At(Return(Scored(true, PlusOne(c, medal), late.points)),
                       Holding(c, late, log + [ScoreUpdated(c, medal)]))
    ensures Reaches(ProgramOf(ref, Op.UpdateCountryScore(c, medal)), At(WriteMedal(n), Holding(c, score, log)), end)
  {
    var p, marked := ProgramOf(ref, Op.UpdateCountryScore(c, medal)), SetCount(score, medal, n + 1);
    CountsMedal(ref, c, medal, n, score, log);
    SeesPoints(ref, c, medal, marked, log);
    Pays(ref, c, medal, marked, log, end);
    TwoHops(p, At(WriteMedal(n), Holding(c, score, log)), At(ReadPoints, Holding(c, marked, log)),
            At(WritePoints(marked.points), Holding(c, marked, log)), end);
  }

  lemma FirstReads(ref: Roster, c: string, medal: string) returns (trace: seq<Action>)
    requires c in ref.countries && Semantics.IsMedal(medal)
    ensures var op := Op.UpdateCountryScore(c, medal);
            Run(ref, false, [op, op], trace) ==
            SeatOwners.Pair(Holding(c, Semantics.NO_SCORE, []), Running(WriteMedal(0)), Waiting)
  {
    var op, start := Op.UpdateCountryScore(c, medal), Memory(INITIAL, "system");
    trace := [] + [Arrive(0)] + [Step(0)];
    assert Start([op, op]) == SeatOwners.Pair(start, Waiting, Waiting);
    RunStep(ref, false, [op, op], [], Arrive(0));
    RunStep(ref, false, [op, op], [] + [Arrive(0)], Step(0));
    ReadsCount(ref, c, medal, start);
    trace := FirstGets(ref, op, op, trace, At(Begin, start), At(WriteMedal(0), Holding(c, Semantics.NO_SCORE, [])),
                       Waiting);
  }

  lemma BothRead(ref: Roster, c: string, medal: string) returns (trace: seq<Action>)
    requires c in ref.countries && Semantics.IsMedal(medal)
    ensures var op := Op.UpdateCountryScore(c, medal);
            Run(ref, false, [op, op], trace) ==
            SeatOwners.Pair(Holding(c, Semantics.NO_SCORE, []), Running(WriteMedal(0)), Running(WriteMedal(0)))
  {
    var op, entry := Op.UpdateCountryScore(c, medal), Holding(c, Semantics.NO_SCORE, []);
    trace := FirstReads(ref, c, medal);
    trace := SeatOwners.OtherEnters(ref, op, op, trace, entry, Running(WriteMedal(0)));
    ReadsCount(ref, c, medal, entry);
    trace := SecondGets(ref, op, op, trace, At(Begin, entry), At(WriteMedal(0), entry), Running(WriteMedal(0)));
  }

  lemma BothFinish(ref: Roster, c: string, medal: string) returns (trace: seq<Action>)
    requires c in ref.countries && Semantics.IsMedal(medal)
    ensures var op, once := Op.UpdateCountryScore(c, medal), Late(Semantics.NO_SCORE, medal, 0);
            var twice, noted := Late(once, medal, 0), [ScoreUpdated(c, medal)];
            Run(ref, false, [op, op], trace) ==
            SeatOwners.Pair(Holding(c, twice, noted + noted),
                            Running(Return(Scored(true, PlusOne(c, medal), twice.points))),
                            Running(Return(Scored(true, PlusOne(c, medal), once.points))))
  {
    var op, none := Op.UpdateCountryScore(c, medal), Semantics.NO_SCORE;
    var once, noted := Late(none, medal, 0), [ScoreUpdated(c, medal)];
    var twice := Late(once, medal, 0);
    var also := At(Return(Scored(true, PlusOne(c, medal), once.points)), Holding(c, once, [] + noted));
    var yes := At(Return(Scored(true, PlusOne(c, medal), twice.points)), Holding(c, twice, noted + noted));
    trace := BothRead(ref, c, medal);
    Finishes(ref, c, medal, 0, none, [], also);
    trace := SecondGets(ref, op, op, trace, At(WriteMedal(0), Holding(c, none, [])), also, Running(WriteMedal(0)));
    assert [] + noted == noted;
    Finishes(ref, c, medal, 0, once, noted, yes);
    trace := FirstGets(ref, op, op, trace, At(WriteMedal(0), Holding(c, once, noted)), yes, Running(also.pc));
  }

  /**
   * Two awards of one medal to a country without a score can both be accepted without the lock, the points of both
   * counted and only one of the medals.
   */
  lemma {:induction false} OneAwardLost(ref: Roster, c: string, medal: string) returns (trace: seq<Action>)
    requires c in ref.countries && (medal == "gold" || medal == "silver" || medal == "bronze")
    ensures var points := if medal == "gold" then 3 else if medal == "silver" then 2 else 1;
            var op := Op.UpdateCountryScore(c, medal);
            var p := Run(ref, false, [op, op], trace);
            && p.threads == [Left(Return(Scored(true, PlusOne(c, medal), 2 * points))),
                             Left(Return(Scored(true, PlusOne(c, medal), points)))]
            && c in p.mem.state.buckets.countryScores.entries
            && p.mem.state.buckets.countryScores.entries[c] ==
               (if medal == "gold" then Score(1, 0, 0, 6) else if medal == "silver" then Score(0, 1, 0, 4)
                else Score(0, 0, 1, 2))
  {
    var op, once := Op.UpdateCountryScore(c, medal), Late(Semantics.NO_SCORE, medal, 0);
    var twice, noted := Late(once, medal, 0), [ScoreUpdated(c, medal)];
    trace := BothFinish(ref, c, medal);
    trace := SeatOwners.BothLeave(ref, op, op, trace, Holding(c, twice, noted + noted),
                                  Scored(true, PlusOne(c, medal), twice.points),
                                  Scored(true, PlusOne(c, medal), once.points));
  }
}
