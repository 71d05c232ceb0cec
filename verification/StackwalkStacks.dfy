/** Which stack walk belongs to which event, what waits and what passes, in terms of the events themselves. */
module StackwalkStacks {
  import opened Options
  import opened StackwalkModel
  import opened StackwalkRuns

  /** Nothing waits for a stack walk. */
  ghost predicate Idle(s: State) {
    forall id :: Bucket(s, id) == []
  }

  /** The types whose events wait for a stack walk. */
  lemma WaitsExactly(c: Config, s: State, e: Event)
    ensures CanEnrichStack(e.typ) <==>
              e.typ in {CreateProcess, CreateThread, TerminateThread, LoadImage, RegCreateKey, RegDeleteKey,
                        RegSetValue, RegDeleteValue, DeleteFile, RenameFile, VirtualAlloc, SubmitThreadpoolWork,
                        SubmitThreadpoolCallback, SetThreadpoolTimer}
    ensures e.typ != StackWalk ==>
              Give(c, s, e).handed == if c.stackEnrichment && CanEnrichStack(e.typ) then s.handed
                                      else s.handed + [Seen(e, None)]
    ensures e.typ == StackWalk && !c.stackEnrichment ==> Give(c, s, e) == s
  {
  }

  /**
   A stack walk belongs to an event when process and thread id add up to the same 32-bit number; for the creation of a
   process the process is the parent. It then hands the event out with its call stack; any other walk leaves it waiting.
   */
  lemma WalkDecoratesExactly(c: Config, s: State, e: Event, w: Event)
    requires c.stackEnrichment && Idle(s) && CanEnrichStack(e.typ) && w.typ == StackWalk
    ensures var t := Give(c, Give(c, s, e), w);
            var process := if e.typ == CreateProcess then e.ppid else e.pid;
            if (process + e.tid) % 0x1_0000_0000 == (w.pid + w.tid) % 0x1_0000_0000
            then t.handed == s.handed + [Seen(e, Some(w.callstack))]
            else t.handed == s.handed && exists id :: Bucket(t, id) == [e]
  {
    hide Fails, Wanted, Discards, ThreadId;
    var s1 := Give(c, s, e);
    assert Bucket(s, StackId(e)) == [] && [] + [e] == [e];
    assert Bucket(s1, StackId(e)) == [e];
    if StackId(w) != StackId(e) {
      assert Bucket(s1, StackId(w)) == Bucket(s, StackId(w)) == [];
    }
  }

  /** The walk of the creating thread decorates the creation of a process, not a walk of the new process. */
  lemma CreatorDecorates(c: Config, s: State, e: Event, w: Event)
    requires c.stackEnrichment && Idle(s) && e.typ == CreateProcess && w.typ == StackWalk
    requires w.pid == e.ppid && w.tid == e.tid
    ensures Give(c, Give(c, s, e), w).handed == s.handed + [Seen(e, Some(w.callstack))]
  {
    WalkDecoratesExactly(c, s, e, w);
    hide Give;
  }

  /** Every other event is decorated by a walk of its own thread. */
  lemma OwnThreadDecorates(c: Config, s: State, e: Event, w: Event)
    requires c.stackEnrichment && Idle(s) && CanEnrichStack(e.typ) && e.typ != CreateProcess && w.typ == StackWalk
    requires w.pid == e.pid && w.tid == e.tid
    ensures Give(c, Give(c, s, e), w).handed == s.handed + [Seen(e, Some(w.callstack))]
  {
    WalkDecoratesExactly(c, s, e, w);
    hide Give;
  }

  // ---- handing out ----

  predicate Answers(c: Config, s: State, x: Seen, i: nat, v: Verdict) {
    i < |c.listeners| && c.listeners[i].process(s.handed, x) == v
  }

  /**
   Every event handed out is logged. Unless a listener fails it goes to the channel exactly when the queue always
   enqueues, there are no listeners, or one that may decide says so.
   */
  lemma ChannelExactly(c: Config, s: State, x: Seen)
    ensures var t := Hand(c, s, x);
            && t.handed == s.handed + [x]
            && t.channel == if && (forall i :: !Answers(c, s, x, i, Error))
                               && (c.enqueueAlways || |c.listeners| == 0
                                   || exists i: nat :: Answers(c, s, x, i, Keep(true)) && c.listeners[i].canEnqueue)
                            then s.channel + [x] else s.channel
  {
    hide ThreadId, Bucket;
    assert Fails(c, s, x) <==> exists i :: Answers(c, s, x, i, Error) by {
      if Fails(c, s, x) {
        var i: nat :| i < |c.listeners| && c.listeners[i].process(s.handed, x).Error?;
        assert Answers(c, s, x, i, Error);
      }
    }
    assert Wanted(c, s, x) <==> c.enqueueAlways || |c.listeners| == 0
                                || exists i: nat :: Answers(c, s, x, i, Keep(true)) && c.listeners[i].canEnqueue by {
      if i: nat :| i < |c.listeners| && c.listeners[i].canEnqueue && c.listeners[i].process(s.handed, x) == Keep(true) {
        assert Answers(c, s, x, i, Keep(true));
      }
    }
  }

  /** The end of a thread discards what waits for a walk of that thread, and nothing else. */
  lemma DiscardsExactly(c: Config, s: State, x: Seen, id: nat)
    ensures var t := Hand(c, s, x);
            var ends := c.stackEnrichment && x.event.typ == TerminateThread && forall i :: !Answers(c, s, x, i, Error);
            Bucket(t, id) == if ends && id == (x.event.paramPid + x.event.paramTid) % 0x1_0000_0000 then []
                             else Bucket(s, id)
  {
    hide Wanted;
    assert Fails(c, s, x) <==> exists i :: Answers(c, s, x, i, Error) by {
      if Fails(c, s, x) {
        var i: nat :| i < |c.listeners| && c.listeners[i].process(s.handed, x).Error?;
        assert Answers(c, s, x, i, Error);
      }
    }
  }

  // ---- flushing ----

  lemma {:induction false} YoungerCount(q: seq<Event>, now: int, e: Event)
    ensures Count(Younger(q, now), e) == if now - e.timestamp < 10_000_000_000 then Count(q, e) else 0
  {
    if q != [] {
      var n := |q| - 1;
      YoungerCount(q[..n], now, e);
      assert q == q[..n] + [q[n]];
    }
  }

  /**
   After a flush that returns, exactly the events of the last ten seconds still wait, and the others were handed out.
   */
  lemma FlushExactly(c: Config, s: State, ids: seq<nat>, now: int, given: seq<Event>, e: Event)
    requires Inv(s, given) && Enumerates(s, ids) && !FlushHangs(c, s, ids, now)
    ensures var t := Flush(c, s, ids, now);
            var expired := now - e.timestamp >= 10_000_000_000;
            var waiting := Count(Bucket(s, StackId(e)), e);
            && Count(Bucket(t, StackId(e)), e) == (if expired then 0 else waiting)
            && Count(Events(t.handed), e) == Count(Events(s.handed), e) + if expired then waiting else 0
  {
    var id, t := StackId(e), Flush(c, s, ids, now);
    FlushKeeps(c, s, ids, now, given);
    FlushDrops(c, s, ids, now, given);
    FlushedAt(c, s, ids, now, given, id);
    YoungerCount(Bucket(s, id), now, e);
    hide Flush, FlushHangs, StackId, Subsequence, Keyed, NoWalks, InOrder, Younger;
    assert Total(t, e) == Total(s, e) == Count(given, e);
  }

  /** A flush leaves every bucket with its young events. */
  lemma {:induction false} FlushedAt(c: Config, s: State, ids: seq<nat>, now: int, given: seq<Event>, id: nat)
    requires Inv(s, given) && Distinct(ids) && !FlushHangs(c, s, ids, now)
    ensures Bucket(Flush(c, s, ids, now), id) == if id in ids then Younger(Bucket(s, id), now) else Bucket(s, id)
  {
    if ids != [] {
      hide HandHangs, FlushBucket, Inv, Keyed, Conserved, Bucket, Distinct, Younger;
      var n := |ids| - 1;
      var t := Flush(c, s, ids[..n], now);
      DistinctInit(ids, id);
      FlushedAt(c, s, ids[..n], now, given, id);
      FlushKeeps(c, s, ids[..n], now, given);
      InvParts(t, given);
      FlushedBucket(c, t, ids[n], now, id);
    }
  }
}
