/**
 * Stateless invocations sharing one stored blob: the naive load/compute/save path, the
 * BEGIN IMMEDIATE path, any mixture of the two, every interleaving and every crash.
 */
module FaasProtocol {
  import opened Domain
  import opened Subsequences
  import Semantics

  datatype Mode = Naive | Transactional
  datatype Call = Call(op: Op, mode: Mode)

  /** How far one invocation's process has got. The copy is private to it; the reply is what it will print. */
  datatype Process =
    | Ready
    | Locked
    | Loaded(copy: State)
    | Computed(copy: State, reply: Option<Result>)
    | Staged(copy: State, reply: Option<Result>)
    | Durable(reply: Option<Result>)
    | Answered(reply: Option<Result>)
    | Dead

  datatype System = System(blob: Option<State>, lock: Option<nat>, procs: seq<Process>)

  /**
   * One step of one process. Crash covers a killed process, an aborted operation and a lock wait that timed out;
   * a step that is not enabled changes nothing, so every sequence of actions is a run.
   */
  datatype Action =
    | Begin(who: nat)
    | Load(who: nat)
    | Compute(who: nat)
    | Stage(who: nat)
    | Persist(who: nat)
    | Answer(who: nat)
    | Standalone(who: nat)
    | Crash(who: nat)

  /** `json.loads(row[0]) if row else initial_state()`. */
  function Current(s: System): State { GetOr(s.blob, INITIAL) }

  /** `project_medals` is deployed without the storage runtime: it neither loads nor saves. */
  predicate Stateless(op: Op) { op.ProjectMedals? }

  predicate Enabled(calls: seq<Call>, s: System, a: Action) {
    && a.who < |calls| == |s.procs|
    && var call, p := calls[a.who], s.procs[a.who];
       match a
       case Begin(_) => p.Ready? && call.mode == Transactional && !Stateless(call.op) && s.lock == None
       case Load(_) => p.Locked? || (p.Ready? && call.mode == Naive && !Stateless(call.op))
       case Compute(_) => p.Loaded? && !Semantics.Aborts(call.op)
       case Stage(_) => p.Computed? && call.mode == Transactional
       case Persist(_) => p.Staged? || (p.Computed? && call.mode == Naive && s.lock == None)
       case Answer(_) => p.Durable?
       case Standalone(_) => p.Ready? && Stateless(call.op)
       case Crash(_) => !p.Answered? && !p.Dead?
  }

  function Unlock(s: System, i: nat): System {
    if s.lock == Some(i) then s.(lock := None) else s
  }

  function Next(ref: Roster, calls: seq<Call>, s: System, a: Action): System {
    if !Enabled(calls, s, a) then s
    else
      var i := a.who;
      var op, p := calls[i].op, s.procs[i];
      match a
      case Begin(_) => s.(lock := Some(i), procs := s.procs[i := Locked])
      case Load(_) => s.(procs := s.procs[i := Loaded(Current(s))])
      case Compute(_) =>
        s.(procs := s.procs[i := Computed(Semantics.After(ref, op, p.copy),
                                          Semantics.Apply(ref, op, p.copy.buckets).reply)])
      case Stage(_) => s.(procs := s.procs[i := Staged(p.copy, p.reply)])
      case Persist(_) => Unlock(s.(blob := Some(p.copy), procs := s.procs[i := Durable(p.reply)]), i)
      case Answer(_) => s.(procs := s.procs[i := Answered(p.reply)])
      case Standalone(_) => s.(procs := s.procs[i := Answered(Semantics.Apply(ref, op, EMPTY_BUCKETS).reply)])
      case Crash(_) => Unlock(s.(procs := s.procs[i := Dead]), i)
  }

  function Start(calls: seq<Call>): System {
    System(None, None, seq(|calls|, _ => Ready))
  }

  function Run(ref: Roster, calls: seq<Call>, trace: seq<Action>): (s: System)
    ensures |s.procs| == |calls|
  {
    if trace == [] then Start(calls)
    else Next(ref, calls, Run(ref, calls, trace[..|trace| - 1]), trace[|trace| - 1])
  }

  function NextSaves(calls: seq<Call>, s: System, saves: seq<nat>, a: Action): seq<nat> {
    if a.Persist? && Enabled(calls, s, a) then saves + [a.who] else saves
  }

  /** The invocations that saved or committed, in the order they did. */
  function SaveOrder(ref: Roster, calls: seq<Call>, trace: seq<Action>): seq<nat> {
    if trace == [] then []
    else
      var init := trace[..|trace| - 1];
      NextSaves(calls, Run(ref, calls, init), SaveOrder(ref, calls, init), trace[|trace| - 1])
  }

  /** Whose effects a blob contains: `blob` for the stored one, `bases[i]` for the one invocation i loaded. */
  datatype Ancestry = Ancestry(blob: seq<nat>, bases: seq<seq<nat>>)

  function NextAncestry(calls: seq<Call>, s: System, h: Ancestry, a: Action): (h': Ancestry)
    requires |h.bases| == |calls|
    ensures |h'.bases| == |calls|
  {
    if !Enabled(calls, s, a) then h
    else if a.Load? then h.(bases := h.bases[a.who := h.blob])
    else if a.Persist? then h.(blob := h.bases[a.who] + [a.who])
    else h
  }

  function AncestryOf(ref: Roster, calls: seq<Call>, trace: seq<Action>): (h: Ancestry)
    ensures |h.bases| == |calls|
  {
    if trace == [] then Ancestry([], seq(|calls|, _ => []))
    else
      var init := trace[..|trace| - 1];
      NextAncestry(calls, Run(ref, calls, init), AncestryOf(ref, calls, init), trace[|trace| - 1])
  }

  ghost predicate InRange(calls: seq<Call>, ids: seq<nat>) {
    forall k :: 0 <= k < |ids| ==> ids[k] < |calls|
  }

  ghost function OpsOf(calls: seq<Call>, ids: seq<nat>): seq<Op>
    requires InRange(calls, ids)
  {
    seq(|ids|, k requires 0 <= k < |ids| => calls[ids[k]].op)
  }

  /** Those invocations' operations run one at a time from the initial state. */
  ghost function Sequential(ref: Roster, calls: seq<Call>, ids: seq<nat>): State
    requires InRange(calls, ids)
  {
    Semantics.Replay(ref, OpsOf(calls, ids))
  }

  /** The reply invocation i gets when run right after the invocations in `before`. */
  ghost function ReplyAfter(ref: Roster, calls: seq<Call>, before: seq<nat>, i: nat): Option<Result>
    requires InRange(calls, before) && i < |calls|
  {
    Semantics.Apply(ref, calls[i].op, Sequential(ref, calls, before).buckets).reply
  }

  lemma SequentialExtends(ref: Roster, calls: seq<Call>, ids: seq<nat>, i: nat)
    requires InRange(calls, ids) && i < |calls|
    ensures Sequential(ref, calls, ids + [i]) == Semantics.After(ref, calls[i].op, Sequential(ref, calls, ids))
  {
    assert OpsOf(calls, ids + [i]) == OpsOf(calls, ids) + [calls[i].op];
    Semantics.ReplayExtends(ref, OpsOf(calls, ids), calls[i].op);
  }

  // ---- The invariant -------------------------------------------------------

  /** The reply is decided, if not yet printed. */
  predicate Completed(p: Process) { p.Durable? || p.Answered? }
  predicate Saved(p: Process) { Completed(p) || p.Dead? }
  predicate InFlight(p: Process) { p.Locked? || p.Loaded? || p.Computed? || p.Staged? }

  /** A process's private data is exactly what its own load leads to. */
  ghost predicate ProcessOk(ref: Roster, calls: seq<Call>, i: nat, p: Process, base: seq<nat>) {
    && i < |calls|
    && InRange(calls, base)
    && match p
       case Loaded(copy) => copy == Sequential(ref, calls, base)
       case Computed(copy, reply) =>
         copy == Sequential(ref, calls, base + [i]) && reply == ReplyAfter(ref, calls, base, i)
       case Staged(copy, reply) =>
         copy == Sequential(ref, calls, base + [i]) && reply == ReplyAfter(ref, calls, base, i)
       case Durable(reply) => reply == ReplyAfter(ref, calls, base, i)
       case Answered(reply) => reply == ReplyAfter(ref, calls, base, i)
       case _ => true
  }

  ghost predicate ProcessesOk(ref: Roster, calls: seq<Call>, s: System, h: Ancestry) {
    && |s.procs| == |h.bases| == |calls|
    && forall i :: 0 <= i < |calls| ==> ProcessOk(ref, calls, i, s.procs[i], h.bases[i])
  }

  ghost predicate BlobOk(ref: Roster, calls: seq<Call>, s: System, h: Ancestry) {
    InRange(calls, h.blob) && Current(s) == Sequential(ref, calls, h.blob)
  }

  /** Who saved. */
  ghost predicate SaversOk(calls: seq<Call>, s: System, saves: seq<nat>) {
    && |s.procs| == |calls| && Distinct(saves)
    && (forall i :: i in saves ==> i < |calls| && Saved(s.procs[i]))
    && (forall i :: 0 <= i < |calls| && !Stateless(calls[i].op) && Completed(s.procs[i]) ==> i in saves)
  }

  /** Every stored or loaded blob descends from savers, in save order. */
  ghost predicate BasesOk(h: Ancestry, saves: seq<nat>) {
    Subsequence(h.blob, saves) && forall i :: 0 <= i < |h.bases| ==> Subsequence(h.bases[i], saves)
  }

  /** The stored blob is what the last saver made of the one it had loaded. */
  ghost predicate LatestOk(h: Ancestry, saves: seq<nat>) {
    if saves == [] then h.blob == []
    else
      var last := saves[|saves| - 1];
      last < |h.bases| && h.blob == h.bases[last] + [last]
  }

  ghost predicate SavesOk(calls: seq<Call>, s: System, h: Ancestry, saves: seq<nat>) {
    && |s.procs| == |h.bases| == |calls|
    && SaversOk(calls, s, saves) && BasesOk(h, saves) && LatestOk(h, saves)
  }

  /** Each member of a lineage had loaded exactly the members before it. */
  ghost predicate Chain(ids: seq<nat>, bases: seq<seq<nat>>) {
    forall k :: 0 <= k < |ids| ==> ids[k] < |bases| && bases[ids[k]] == ids[..k]
  }

  ghost predicate ChainsOk(h: Ancestry) {
    && Chain(h.blob, h.bases)
    && forall i :: 0 <= i < |h.bases| ==> Chain(h.bases[i], h.bases)
  }

  ghost predicate LockOk(calls: seq<Call>, s: System, h: Ancestry) {
    && |s.procs| == |h.bases| == |calls|
    && (forall i :: 0 <= i < |calls| && s.procs[i].Staged? ==> calls[i].mode == Transactional)
    && (forall i :: 0 <= i < |calls| && calls[i].mode == Transactional && InFlight(s.procs[i]) ==>
          s.lock == Some(i) && (!s.procs[i].Locked? ==> h.bases[i] == h.blob))
    && (s.lock.Some? ==> s.lock.value < |calls| && InFlight(s.procs[s.lock.value])
                         && calls[s.lock.value].mode == Transactional)
  }

  lemma ProcessesKept(ref: Roster, calls: seq<Call>, s: System, h: Ancestry, a: Action)
    requires ProcessesOk(ref, calls, s, h) && BlobOk(ref, calls, s, h)
    requires Enabled(calls, s, a)
    ensures ProcessesOk(ref, calls, Next(ref, calls, s, a), NextAncestry(calls, s, h, a))
  {
    var i := a.who;
    assert ProcessOk(ref, calls, i, s.procs[i], h.bases[i]);
    if a.Compute? { SequentialExtends(ref, calls, h.bases[i], i); }
    var s', h' := Next(ref, calls, s, a), NextAncestry(calls, s, h, a);
    assert s'.procs[i] == s'.procs[i];
    forall j | 0 <= j < |calls| ensures ProcessOk(ref, calls, j, s'.procs[j], h'.bases[j]) {
      assert ProcessOk(ref, calls, j, s.procs[j], h.bases[j]);
    }
  }

  lemma BlobKept(ref: Roster, calls: seq<Call>, s: System, h: Ancestry, a: Action)
    requires ProcessesOk(ref, calls, s, h) && BlobOk(ref, calls, s, h)
    requires Enabled(calls, s, a)
    ensures BlobOk(ref, calls, Next(ref, calls, s, a), NextAncestry(calls, s, h, a))
  {
    assert ProcessOk(ref, calls, a.who, s.procs[a.who], h.bases[a.who]);
  }

  lemma SaversKept(ref: Roster, calls: seq<Call>, s: System, saves: seq<nat>, a: Action)
    requires SaversOk(calls, s, saves) && Enabled(calls, s, a)
    ensures SaversOk(calls, Next(ref, calls, s, a), NextSaves(calls, s, saves, a))
  {
  }

  lemma BasesKept(calls: seq<Call>, s: System, h: Ancestry, saves: seq<nat>, a: Action)
    requires |h.bases| == |calls| && BasesOk(h, saves) && Enabled(calls, s, a)
    ensures BasesOk(NextAncestry(calls, s, h, a), NextSaves(calls, s, saves, a))
  {
    if a.Persist? {
      var i := a.who;
      SubsequenceKeeps(h.bases[i], saves, i);
      forall j | 0 <= j < |calls| ensures Subsequence(h.bases[j], saves + [i]) {
        SubsequenceSkips(h.bases[j], saves, i);
      }
    }
  }

  lemma LatestKept(calls: seq<Call>, s: System, h: Ancestry, saves: seq<nat>, a: Action)
    requires |h.bases| == |calls| && SaversOk(calls, s, saves) && LatestOk(h, saves) && Enabled(calls, s, a)
    ensures LatestOk(NextAncestry(calls, s, h, a), NextSaves(calls, s, saves, a))
  {
    if a.Load? && saves != [] { assert saves[|saves| - 1] in saves; }
  }

  lemma LoadKeepsChains(h: Ancestry, saves: seq<nat>, i: nat)
    requires BasesOk(h, saves) && ChainsOk(h) && i < |h.bases| && i !in saves
    ensures ChainsOk(h.(bases := h.bases[i := h.blob]))
  {
    var bases := h.bases[i := h.blob];
    SubsequenceElements(h.blob, saves);
    ChainElsewhere(h.blob, h.bases, i, h.blob);
    forall j | 0 <= j < |bases| ensures Chain(bases[j], bases) {
      if j != i {
        SubsequenceElements(h.bases[j], saves);
        ChainElsewhere(h.bases[j], h.bases, i, h.blob);
      }
    }
  }

  lemma ChainsKept(calls: seq<Call>, s: System, h: Ancestry, saves: seq<nat>, a: Action)
    requires SavesOk(calls, s, h, saves) && ChainsOk(h) && Enabled(calls, s, a)
    ensures ChainsOk(NextAncestry(calls, s, h, a))
  {
    if a.Load? {
      LoadKeepsChains(h, saves, a.who);
    } else if a.Persist? {
      ChainGrows(h.bases, a.who);
    }
  }

  lemma ChainElsewhere(ids: seq<nat>, bases: seq<seq<nat>>, i: nat, base: seq<nat>)
    requires Chain(ids, bases) && i !in ids && i < |bases|
    ensures Chain(ids, bases[i := base])
  {
    forall k | 0 <= k < |ids| ensures bases[i := base][ids[k]] == ids[..k] { assert ids[k] in ids; }
  }

  lemma ChainGrows(bases: seq<seq<nat>>, i: nat)
    requires i < |bases| && Chain(bases[i], bases)
    ensures Chain(bases[i] + [i], bases)
  {
    var ids := bases[i] + [i];
    forall k | 0 <= k < |ids| ensures ids[k] < |bases| && bases[ids[k]] == ids[..k] {
      assert ids[..k] == bases[i][..k];
    }
  }

  lemma LockKept(ref: Roster, calls: seq<Call>, s: System, h: Ancestry, a: Action)
    requires LockOk(calls, s, h) && Enabled(calls, s, a)
    ensures LockOk(calls, Next(ref, calls, s, a), NextAncestry(calls, s, h, a))
  {
  }

  ghost predicate Good(ref: Roster, calls: seq<Call>, s: System, h: Ancestry, saves: seq<nat>) {
    && ProcessesOk(ref, calls, s, h)
    && BlobOk(ref, calls, s, h)
    && SavesOk(calls, s, h, saves)
    && ChainsOk(h)
    && LockOk(calls, s, h)
  }

  lemma {:induction false} AlwaysGood(ref: Roster, calls: seq<Call>, trace: seq<Action>)
    ensures Good(ref, calls, Run(ref, calls, trace), AncestryOf(ref, calls, trace), SaveOrder(ref, calls, trace))
  {
    if trace == [] {
      assert OpsOf(calls, []) == [];
    } else {
      var init, a := trace[..|trace| - 1], trace[|trace| - 1];
      AlwaysGood(ref, calls, init);
      var s, h, saves := Run(ref, calls, init), AncestryOf(ref, calls, init), SaveOrder(ref, calls, init);
      if Enabled(calls, s, a) {
        ProcessesKept(ref, calls, s, h, a);
        BlobKept(ref, calls, s, h, a);
        SaversKept(ref, calls, s, saves, a);
        BasesKept(calls, s, h, saves, a);
        LatestKept(calls, s, h, saves, a);
        ChainsKept(calls, s, h, saves, a);
        LockKept(ref, calls, s, h, a);
      }
    }
  }

  // ---- One invocation with nobody in its way -------------------------------

  /** Run without interruption, the naive steps are one atomic call: the blob becomes the operation's state. */
  lemma {:induction false} NaiveAlone(ref: Roster, calls: seq<Call>, s: System, i: nat)
    requires i < |calls| == |s.procs| && s.procs[i].Ready? && s.lock == None
    requires calls[i].mode == Naive && !Stateless(calls[i].op) && !Semantics.Aborts(calls[i].op)
    ensures var computed := Next(ref, calls, Next(ref, calls, s, Load(i)), Compute(i));
            var s' := Next(ref, calls, Next(ref, calls, computed, Persist(i)), Answer(i));
            && s'.blob == Some(Semantics.After(ref, calls[i].op, Current(s))) && s'.lock == None
            && s'.procs == s.procs[i := Answered(Semantics.Apply(ref, calls[i].op, Current(s).buckets).reply)]
  {
    assert Next(ref, calls, s, Load(i)).procs[i] == Loaded(Current(s));
  }

  /** And so are the transactional ones. */
  lemma {:induction false} TransactionAlone(ref: Roster, calls: seq<Call>, s: System, i: nat)
    requires i < |calls| == |s.procs| && s.procs[i].Ready? && s.lock == None
    requires calls[i].mode == Transactional && !Stateless(calls[i].op) && !Semantics.Aborts(calls[i].op)
    ensures var loaded := Next(ref, calls, Next(ref, calls, s, Begin(i)), Load(i));
            var staged := Next(ref, calls, Next(ref, calls, loaded, Compute(i)), Stage(i));
            var s' := Next(ref, calls, Next(ref, calls, staged, Persist(i)), Answer(i));
            && s'.blob == Some(Semantics.After(ref, calls[i].op, Current(s))) && s'.lock == None
            && s'.procs == s.procs[i := Answered(Semantics.Apply(ref, calls[i].op, Current(s).buckets).reply)]
  {
    var loaded := Next(ref, calls, Next(ref, calls, s, Begin(i)), Load(i));
    assert loaded.procs[i] == Loaded(Current(s)) && loaded.lock == Some(i);
  }

  // ---- What every run keeps ------------------------------------------------

  /** Every invocation in `ids` died or holds the reply it gets at its place in that sequential order. */
  ghost predicate RepliesMatch(ref: Roster, calls: seq<Call>, s: System, ids: seq<nat>)
    requires InRange(calls, ids) && |s.procs| == |calls|
  {
    forall k :: 0 <= k < |ids| ==>
      var p := s.procs[ids[k]];
      p.Dead? || (Completed(p) && p.reply == ReplyAfter(ref, calls, ids[..k], ids[k]))
  }

  /**
   * Lineage. Whatever the mixture of paths, the interleaving and the crashes, the stored blob is the sequential
   * replay of a duplicate-free subsequence of the invocations in save order, and each of those invocations
   * replied what it replies at its place in that replay.
   */
  lemma {:induction false} Lineage(ref: Roster, calls: seq<Call>, trace: seq<Action>) returns (lineage: seq<nat>)
    ensures lineage == AncestryOf(ref, calls, trace).blob
    ensures Subsequence(lineage, SaveOrder(ref, calls, trace)) && Distinct(lineage) && InRange(calls, lineage)
    ensures Current(Run(ref, calls, trace)) == Sequential(ref, calls, lineage)
    ensures RepliesMatch(ref, calls, Run(ref, calls, trace), lineage)
  {
    AlwaysGood(ref, calls, trace);
    var s, h, saves := Run(ref, calls, trace), AncestryOf(ref, calls, trace), SaveOrder(ref, calls, trace);
    lineage := h.blob;
    SubsequenceElements(lineage, saves);
    SubsequenceDistinct(lineage, saves);
    forall k | 0 <= k < |lineage|
      ensures var p := s.procs[lineage[k]];
              p.Dead? || (Completed(p) && p.reply == ReplyAfter(ref, calls, lineage[..k], lineage[k]))
    {
      var i := lineage[k];
      assert i in saves;
      assert ProcessOk(ref, calls, i, s.procs[i], h.bases[i]);
    }
  }

  /** In save order: the members of the lineage stand at ever later places among the saves. */
  lemma {:induction false} LineageInSaveOrder(ref: Roster, calls: seq<Call>, trace: seq<Action>) returns (at: seq<nat>)
    ensures var lineage, saves := AncestryOf(ref, calls, trace).blob, SaveOrder(ref, calls, trace);
            && |at| == |lineage|
            && (forall k :: 0 <= k < |lineage| ==> at[k] < |saves| && saves[at[k]] == lineage[k])
            && (forall j, k :: 0 <= j < k < |lineage| ==> at[j] < at[k])
  {
    var lineage := Lineage(ref, calls, trace);
    at := SubsequencePlaces(lineage, SaveOrder(ref, calls, trace));
  }

  ghost predicate Closed(ref: Roster, inv: State -> bool) {
    inv(INITIAL) && forall op, s :: inv(s) ==> inv(Semantics.After(ref, op, s))
  }

  lemma {:induction false} ReplayKeeps(ref: Roster, ops: seq<Op>, inv: State -> bool)
    requires Closed(ref, inv)
    ensures inv(Semantics.Replay(ref, ops))
  {
    if ops != [] { ReplayKeeps(ref, ops[..|ops| - 1], inv); }
  }

  predicate HasCopy(p: Process) { p.Loaded? || p.Computed? || p.Staged? }

  lemma CopyKeeps(ref: Roster, calls: seq<Call>, i: nat, p: Process, base: seq<nat>, inv: State -> bool)
    requires Closed(ref, inv) && ProcessOk(ref, calls, i, p, base) && HasCopy(p)
    ensures inv(p.copy)
  {
    if p.Loaded? {
      ReplayKeeps(ref, OpsOf(calls, base), inv);
    } else {
      ReplayKeeps(ref, OpsOf(calls, base + [i]), inv);
    }
  }

  /** Lost updates never break an invariant: what the operations preserve holds of every stored blob and loaded copy. */
  lemma {:induction false} InvariantsSurvive(ref: Roster, calls: seq<Call>, trace: seq<Action>, inv: State -> bool)
    requires Closed(ref, inv)
    ensures inv(Current(Run(ref, calls, trace)))
    ensures forall p :: p in Run(ref, calls, trace).procs && HasCopy(p) ==> inv(p.copy)
  {
    AlwaysGood(ref, calls, trace);
    var s, h := Run(ref, calls, trace), AncestryOf(ref, calls, trace);
    forall p | p in s.procs && HasCopy(p) ensures inv(p.copy) {
      var i :| 0 <= i < |s.procs| && s.procs[i] == p;
      CopyKeeps(ref, calls, i, p, h.bases[i], inv);
    }
    ReplayKeeps(ref, OpsOf(calls, h.blob), inv);
  }

  /** A commit never discards a save, even among naive invocations: it extends the lineage it finds. */
  lemma {:induction false} CommitLosesNothing(ref: Roster, calls: seq<Call>, trace: seq<Action>, i: nat)
    requires i < |calls| && calls[i].mode == Transactional
    requires Enabled(calls, Run(ref, calls, trace), Persist(i))
    ensures AncestryOf(ref, calls, trace + [Persist(i)]).blob == AncestryOf(ref, calls, trace).blob + [i]
  {
    AlwaysGood(ref, calls, trace);
    assert (trace + [Persist(i)])[..|trace|] == trace;
  }

  /**
   * When updates are lost. The stored blob contains every save exactly when each saver had loaded all the saves
   * before its own; one stale load among them and some save is gone.
   */
  lemma {:induction false} NothingLostIff(ref: Roster, calls: seq<Call>, trace: seq<Action>)
    ensures var h, saves := AncestryOf(ref, calls, trace), SaveOrder(ref, calls, trace);
            && InRange(calls, saves)
            && (h.blob == saves <==> forall k :: 0 <= k < |saves| ==> h.bases[saves[k]] == saves[..k])
  {
    AlwaysGood(ref, calls, trace);
    var h, saves := AncestryOf(ref, calls, trace), SaveOrder(ref, calls, trace);
    forall k | 0 <= k < |saves| ensures saves[k] < |calls| { assert saves[k] in saves; }
    KeptIff(h, saves);
  }

  lemma KeptIff(h: Ancestry, saves: seq<nat>)
    requires LatestOk(h, saves) && Chain(h.blob, h.bases) && forall k :: 0 <= k < |saves| ==> saves[k] < |h.bases|
    ensures h.blob == saves <==> forall k :: 0 <= k < |saves| ==> h.bases[saves[k]] == saves[..k]
  {
    if saves != [] {
      var n := |saves| - 1;
      if h.bases[saves[n]] == saves[..n] { assert saves == saves[..n] + [saves[n]]; }
    }
  }

  ghost predicate AllTransactional(calls: seq<Call>) {
    forall i :: 0 <= i < |calls| ==> calls[i].mode == Transactional
  }

  lemma {:induction false} CommitsAccumulate(ref: Roster, calls: seq<Call>, trace: seq<Action>)
    requires AllTransactional(calls)
    ensures AncestryOf(ref, calls, trace).blob == SaveOrder(ref, calls, trace)
  {
    if trace != [] {
      var init, a := trace[..|trace| - 1], trace[|trace| - 1];
      CommitsAccumulate(ref, calls, init);
      if a.Persist? && Enabled(calls, Run(ref, calls, init), a) {
        CommitLosesNothing(ref, calls, init, a.who);
        assert init + [Persist(a.who)] == trace;
      }
    }
  }

  /**
   * Serializability. With every invocation transactional, the blob is the fold of the operations in commit order
   * and every reply is the one at the committer's place in that fold.
   */
  lemma {:induction false} Serializable(ref: Roster, calls: seq<Call>, trace: seq<Action>)
    requires AllTransactional(calls)
    ensures var s, order := Run(ref, calls, trace), SaveOrder(ref, calls, trace);
            && Distinct(order) && InRange(calls, order)
            && Current(s) == Sequential(ref, calls, order)
            && RepliesMatch(ref, calls, s, order)
            && (forall i :: 0 <= i < |calls| && Completed(s.procs[i]) && !Stateless(calls[i].op) ==> i in order)
  {
    CommitsAccumulate(ref, calls, trace);
    AlwaysGood(ref, calls, trace);
    var lineage := Lineage(ref, calls, trace);
  }

  lemma StoredIsCommitted(ref: Roster, calls: seq<Call>, trace: seq<Action>)
    requires AllTransactional(calls)
    ensures InRange(calls, SaveOrder(ref, calls, trace))
    ensures Current(Run(ref, calls, trace)) == Sequential(ref, calls, SaveOrder(ref, calls, trace))
  {
    Serializable(ref, calls, trace);
  }

  lemma {:induction false} SaveOrderGrows(ref: Roster, calls: seq<Call>, trace: seq<Action>, more: seq<Action>)
    ensures SaveOrder(ref, calls, trace) <= SaveOrder(ref, calls, trace + more)
  {
    if more == [] {
      assert trace + more == trace;
    } else {
      SaveOrderGrows(ref, calls, trace, more[..|more| - 1]);
      assert (trace + more)[..|trace + more| - 1] == trace + more[..|more| - 1];
    }
  }

  /** Savers have decided their replies or died since, and whoever has decided a reply saved. */
  lemma SaversSaved(ref: Roster, calls: seq<Call>, trace: seq<Action>)
    ensures SaversOk(calls, Run(ref, calls, trace), SaveOrder(ref, calls, trace))
  {
    AlwaysGood(ref, calls, trace);
  }

  /** A decided reply is what the operation gives on the state that was loaded. */
  lemma RepliesAreTheirs(ref: Roster, calls: seq<Call>, trace: seq<Action>, i: nat)
    requires i < |calls| && Completed(Run(ref, calls, trace).procs[i])
    ensures Run(ref, calls, trace).procs[i].reply.None? <==> Semantics.Aborts(calls[i].op)
  {
    var h := AncestryOf(ref, calls, trace);
    assert ProcessOk(ref, calls, i, Run(ref, calls, trace).procs[i], h.bases[i]) by { AlwaysGood(ref, calls, trace); }
    Semantics.OnlyAbortsAreSilent(ref, calls[i].op, Sequential(ref, calls, h.bases[i]).buckets);
  }

  /** Save order respects real time: an invocation answered before another one starts precedes it. */
  lemma {:induction false} RealTimeOrder(ref: Roster, calls: seq<Call>, trace: seq<Action>, more: seq<Action>, i: nat,
                                         j: nat)
    requires i < |calls| && j < |calls| && !Stateless(calls[i].op)
    requires Run(ref, calls, trace).procs[i].Answered? && Run(ref, calls, trace).procs[j].Ready?
    ensures var done, all := SaveOrder(ref, calls, trace), SaveOrder(ref, calls, trace + more);
            done <= all && i in done && j !in done
  {
    SaversSaved(ref, calls, trace);
    SaveOrderGrows(ref, calls, trace, more);
  }

  /** A poisoned invocation dies alone: it never saves, never answers, and is in nobody's lineage. */
  lemma {:induction false} PoisonIsContained(ref: Roster, calls: seq<Call>, trace: seq<Action>, i: nat)
    requires i < |calls| && Semantics.Aborts(calls[i].op)
    ensures var s := Run(ref, calls, trace);
            (s.procs[i].Ready? || s.procs[i].Locked? || s.procs[i].Loaded? || s.procs[i].Dead?)
    ensures i !in SaveOrder(ref, calls, trace)
  {
    if trace != [] { PoisonIsContained(ref, calls, trace[..|trace| - 1], i); }
  }
}
