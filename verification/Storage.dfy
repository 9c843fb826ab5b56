/** The external store, one invocation after another: both persistence paths, the gateway and the go-live chain. */
module Storage {
  import opened Domain
  import Semantics
  import Operations
  import Cascade

  class Store {
    var row: Option<State>

    /** The state the next invocation loads. */
    function Current(): State
      reads this
    {
      GetOr(row, INITIAL)
    }

    constructor ()
      ensures row == None
    {
      row := None;
    }

    method LoadState() returns (d: Operations.StateDict)
      ensures fresh(d) && d.Contents() == Current()
    {
      d := new Operations.StateDict.FromBlob(if row.Some? then row.value else INITIAL);
    }

    method SaveState(d: Operations.StateDict)
      modifies this`row
      ensures row == Some(d.Contents())
    {
      row := Some(State(d.Buckets(), d.log));
    }

    method ResetState()
      modifies this`row
      ensures row == None && Current() == INITIAL
    {
      row := None;
    }

    /** BEGIN IMMEDIATE, read, operate, write, COMMIT; a process that aborts in between never commits. */
    method TransactionalApply(ref: Roster, op: Op) returns (r: Option<Result>)
      modifies this
      ensures r == Semantics.Apply(ref, op, old(Current()).buckets).reply
      ensures r.None? ==> row == old(row)
      ensures r.Some? ==> row == Some(Semantics.After(ref, op, old(Current())))
    {
      var d := LoadState();
      r := d.Invoke(ref, op);
      if r.None? { return; }
      row := Some(State(d.Buckets(), d.log));
    }

    /** Load, call, save, respond, or all of that in one transaction. */
    method Run(ref: Roster, op: Op, txn: bool) returns (r: Option<Result>)
      modifies this
      ensures r == Semantics.Apply(ref, op, old(Current()).buckets).reply
      ensures r.None? ==> row == old(row)
      ensures r.Some? ==> row == Some(Semantics.After(ref, op, old(Current())))
    {
      if txn {
        r := TransactionalApply(ref, op);
      } else {
        var d := LoadState();
        r := d.Invoke(ref, op);
        if r.Some? { SaveState(d); }
      }
    }

    /** One gateway call. The medal projection runs on an empty state and never goes near the store. */
    method Invoke(ref: Roster, op: Op, txn: bool, ghost past: seq<Op>) returns (r: Option<Result>)
      requires Current() == Semantics.Replay(ref, past)
      modifies this
      ensures r == Semantics.Apply(ref, op, Semantics.Replay(ref, past).buckets).reply
      ensures r.None? <==> Semantics.Aborts(op)
      ensures r.None? ==> row == old(row)
      ensures r.Some? ==>
                && Current() == Semantics.Replay(ref, past + [op])
                && Semantics.Replies(ref, past + [op]) == Semantics.Replies(ref, past) + [r]
    {
      Semantics.OnlyAbortsAreSilent(ref, op, Current().buckets);
      Semantics.ReplayExtends(ref, past, op);
      Semantics.RepliesExtend(ref, past, op);
      if op.ProjectMedals? {
        var d := new Operations.StateDict.FromBlob(INITIAL);
        r := d.Invoke(ref, op);
        Stateless(ref, op, Current());
      } else {
        r := Run(ref, op, txn);
      }
    }

    /**
     * Replays a workload through the store. A corrupt highlight stops the replay with an error but, unlike in the
     * monolith, everything served before it is still there.
     */
    method RunWorkload(ref: Roster, events: seq<Op>, txn: bool, ghost past: seq<Op>)
      returns (served: nat, ghost replies: seq<Option<Result>>)
      requires Current() == Semantics.Replay(ref, past)
      modifies this
      ensures served <= |events|
      ensures forall e :: e in events[..served] ==> !Semantics.Aborts(e)
      ensures served < |events| ==> Semantics.Aborts(events[served])
      ensures Current() == Semantics.Replay(ref, past + events[..served])
      ensures Semantics.Replies(ref, past + events[..served]) == Semantics.Replies(ref, past) + replies
    {
      served, replies := 0, [];
      assert past + events[..0] == past;
      while served < |events|
        invariant served <= |events|
        invariant forall e :: e in events[..served] ==> !Semantics.Aborts(e)
        invariant Current() == Semantics.Replay(ref, past + events[..served])
        invariant Semantics.Replies(ref, past + events[..served]) == Semantics.Replies(ref, past) + replies
      {
        var r := Invoke(ref, events[served], txn, past + events[..served]);
        if r.None? { return; }
        replies := replies + [r];
        PrefixGrows(past, events, served);
        served := served + 1;
      }
    }

    /** The go-live chain, crashing after `reach` of its three calls; `steps` are the calls it has made. */
    method GoLiveChain(ref: Roster, m: string, stream: string, reach: Cascade.Progress, txn: bool, ghost past: seq<Op>)
      returns (steps: seq<Op>, ok: bool)
      requires Current() == Semantics.Replay(ref, past)
      modifies this
      ensures steps == Cascade.Chain(m, stream)[..reach] && ok
      ensures Current() == Semantics.Replay(ref, past + Cascade.Chain(m, stream)[..reach])
    {
      var calls := Cascade.Chain(m, stream);
      steps, ok := [], true;
      assert past + calls[..0] == past;
      for i := 0 to reach
        invariant steps == calls[..i] && ok
        invariant Current() == Semantics.Replay(ref, past + calls[..i])
      {
        var r := Invoke(ref, calls[i], txn, past + calls[..i]);
        CallsAreOk(ref, m, stream, i, past + calls[..i]);
        ok := ok && r.value.ok;
        steps := steps + [calls[i]];
        Cascade.ChainPrefix(past, m, stream, i + 1);
      }
    }
  }

  lemma PrefixGrows<T>(past: seq<T>, events: seq<T>, k: nat)
    requires k < |events|
    ensures past + events[..k + 1] == (past + events[..k]) + [events[k]]
    ensures forall e :: e in events[..k + 1] <==> e in events[..k] || e == events[k]
  {
    assert events[..k + 1] == events[..k] + [events[k]];
  }

  lemma CallsAreOk(ref: Roster, m: string, stream: string, i: nat, ops: seq<Op>)
    requires i < 3
    ensures !Semantics.Aborts(Cascade.Chain(m, stream)[i])
    ensures IsOk(Semantics.Apply(ref, Cascade.Chain(m, stream)[i], Semantics.Replay(ref, ops).buckets).reply)
  {
  }

  lemma Stateless(ref: Roster, op: Op, s: State)
    requires op.ProjectMedals?
    ensures Semantics.After(ref, op, s) == s
    ensures Semantics.Apply(ref, op, EMPTY_BUCKETS).reply == Semantics.Apply(ref, op, s.buckets).reply
  {
    assert s.log + [] == s.log;
  }
}
