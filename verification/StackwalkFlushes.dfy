/**
 When a flush of the decorator hangs, and when it disturbs the order: exact conditions and the runs that show them.
 */
module StackwalkFlushes {
  import opened Options
  import opened StackwalkModel
  import opened StackwalkRuns

  // ---- hanging ----

  /** A bucket hangs exactly where one of its expired events ends a thread and no listener fails on it. */
  lemma {:induction false} HandHangsExactly(c: Config, s: State, q: seq<Event>, now: int)
    ensures HandHangs(c, s, q, now) <==>
              exists i :: 0 <= i < |q| && !Young(q[i], now) && Hangs(c, HandOld(c, s, q[..i], now), Seen(q[i], None))
  {
    if q != [] {
      hide Young, Hangs, HandOld;
      var n := |q| - 1;
      var r := q[..n];
      HandHangsExactly(c, s, r, now);
      assert forall i :: 0 <= i < n ==> r[i] == q[i] && r[..i] == q[..i];
    }
  }

  ghost predicate NeverFails(c: Config) {
    forall i, h, x :: 0 <= i < |c.listeners| ==> !c.listeners[i].process(h, x).Error?
  }

  predicate ExpiredEnd(e: Event, now: int) {
    e.typ == TerminateThread && !Young(e, now)
  }

  lemma {:induction false} HandHangsMeans(c: Config, s: State, q: seq<Event>, now: int)
    requires HandHangs(c, s, q, now)
    ensures c.stackEnrichment && exists e :: e in q && ExpiredEnd(e, now)
  {
    HandHangsExactly(c, s, q, now);
    hide HandHangs, HandOld, Fails;
    var i :| 0 <= i < |q| && !Young(q[i], now) && Hangs(c, HandOld(c, s, q[..i], now), Seen(q[i], None));
    assert q[i] in q && ExpiredEnd(q[i], now);
  }

  lemma HandHangsSurely(c: Config, s: State, q: seq<Event>, now: int, e: Event)
    requires NeverFails(c) && c.stackEnrichment && e in q && ExpiredEnd(e, now)
    ensures HandHangs(c, s, q, now)
  {
    HandHangsExactly(c, s, q, now);
    hide HandHangs, HandOld;
    var i :| 0 <= i < |q| && q[i] == e;
    assert Hangs(c, HandOld(c, s, q[..i], now), Seen(q[i], None));
  }

  /** A flush of some of the buckets only reaches their own events. */
  lemma {:induction false} FlushHangsMeans(c: Config, s: State, ids: seq<nat>, now: int, given: seq<Event>)
    requires Inv(s, given) && Distinct(ids) && FlushHangs(c, s, ids, now)
    ensures c.stackEnrichment && exists id, e :: id in ids && e in Bucket(s, id) && ExpiredEnd(e, now)
  {
    hide Inv, HandHangs, Flush, ExpiredEnd, Bucket, Distinct;
    var n := |ids| - 1;
    var t := Flush(c, s, ids[..n], now);
    DistinctInit(ids, ids[n]);
    if FlushHangs(c, s, ids[..n], now) {
      FlushHangsMeans(c, s, ids[..n], now, given);
      var id, e :| id in ids[..n] && e in Bucket(s, id) && ExpiredEnd(e, now);
      assert id in ids;
    } else {
      FlushOthers(c, s, ids[..n], now, given, ids[n]);
      HandHangsMeans(c, t, Bucket(t, ids[n]), now);
      assert ids[n] in ids;
    }
  }

  lemma {:induction false} FlushHangsSurely(
    c: Config, s: State, ids: seq<nat>, now: int, given: seq<Event>, id: nat, e: Event)
    requires NeverFails(c) && c.stackEnrichment && Inv(s, given) && Distinct(ids)
    requires id in ids && e in Bucket(s, id) && ExpiredEnd(e, now)
    ensures FlushHangs(c, s, ids, now)
  {
    hide NeverFails, Inv, HandHangs, Flush, ExpiredEnd, Bucket, Distinct;
    var n := |ids| - 1;
    var t := Flush(c, s, ids[..n], now);
    DistinctInit(ids, id);
    if id == ids[n] {
      if !FlushHangs(c, s, ids[..n], now) {
        FlushOthers(c, s, ids[..n], now, given, id);
        HandHangsSurely(c, t, Bucket(t, id), now, e);
      }
    } else {
      FlushHangsSurely(c, s, ids[..n], now, given, id, e);
    }
  }

  lemma EndPending(s: State, now: int)
    ensures NoThreadEnd(s, now) <==> forall id, e :: id in s.buckets && e in Bucket(s, id) ==> !ExpiredEnd(e, now)
  {
    hide Young;
    if NoThreadEnd(s, now) {
      forall id, e | id in s.buckets && e in Bucket(s, id)
        ensures !ExpiredEnd(e, now)
      {
        assert e in s.buckets[id];
      }
    }
    if forall id, e :: id in s.buckets && e in Bucket(s, id) ==> !ExpiredEnd(e, now) {
      forall id, e | id in s.buckets && e in s.buckets[id] && e.typ == TerminateThread
        ensures Young(e, now)
      {
        assert e in Bucket(s, id) && !ExpiredEnd(e, now);
      }
    }
  }

  /**
   With listeners that never fail, a flush hangs exactly when stacks are enriched and a pending end of a thread has
   expired.
   */
  lemma FlushHangsExactly(c: Config, s: State, ids: seq<nat>, now: int, given: seq<Event>)
    requires NeverFails(c) && Inv(s, given) && Enumerates(s, ids)
    ensures FlushHangs(c, s, ids, now) <==> c.stackEnrichment && !NoThreadEnd(s, now)
  {
    hide NeverFails, Inv, FlushHangs, Bucket, ExpiredEnd, NoThreadEnd, Distinct;
    EndPending(s, now);
    if FlushHangs(c, s, ids, now) {
      FlushHangsMeans(c, s, ids, now, given);
    }
    if c.stackEnrichment && !NoThreadEnd(s, now) {
      var id, e :| id in s.buckets && e in Bucket(s, id) && ExpiredEnd(e, now);
      FlushHangsSurely(c, s, ids, now, given, id, e);
    }
  }

  /** Whatever the listeners do, without a pending end of a thread that has expired no flush hangs. */
  lemma NoEndNoHang(c: Config, s: State, ids: seq<nat>, now: int, given: seq<Event>)
    requires Inv(s, given) && Enumerates(s, ids) && NoThreadEnd(s, now)
    ensures !FlushHangs(c, s, ids, now)
  {
    hide Inv, FlushHangs, Bucket, ExpiredEnd, NoThreadEnd, Distinct;
    EndPending(s, now);
    if FlushHangs(c, s, ids, now) {
      FlushHangsMeans(c, s, ids, now, given);
    }
  }

  /** The end of a thread arrives and its stack walk does not: the first flush after the time to live hangs. */
  lemma ThreadEndHangs(c: Config, e: Event, now: int)
    requires NeverFails(c) && c.stackEnrichment && e.typ == TerminateThread && now - e.timestamp >= MAX_QUEUE_TTL
    ensures LegalRun(c, [Arrive(e)]) && Enumerates(After(c, [Arrive(e)]), [StackId(e)])
    ensures FlushHangs(c, After(c, [Arrive(e)]), [StackId(e)], now)
  {
    var steps := [Arrive(e)];
    OneArrives(c, e);
    InvAlways(c, steps);
    hide After, LegalRun, Inv, StackId, FlushHangs, Given;
    var s := After(c, steps);
    assert e in Bucket(s, StackId(e)) && ExpiredEnd(e, now);
    FlushHangsSurely(c, s, [StackId(e)], now, Given(steps), StackId(e), e);
  }

  lemma OneArrives(c: Config, e: Event)
    requires c.stackEnrichment && CanEnrichStack(e.typ) && !Surrogate(e)
    ensures LegalRun(c, [Arrive(e)]) && After(c, [Arrive(e)]) == INITIAL.(buckets := map[StackId(e) := [e]])
  {
    var steps := [Arrive(e)];
    assert steps[..0] == [];
    assert LegalRun(c, steps[..0]);
    assert [] + [e] == [e];
  }

  // ---- reordering ----

  lemma TwoArrive(c: Config, a: Event, b: Event)
    requires c.stackEnrichment && CanEnrichStack(a.typ) && !Surrogate(a)
    requires CanEnrichStack(b.typ) && !Surrogate(b) && StackId(a) == StackId(b)
    ensures LegalRun(c, [Arrive(a), Arrive(b)])
    ensures After(c, [Arrive(a), Arrive(b)]) == INITIAL.(buckets := map[StackId(a) := [a, b]])
  {
    OneArrives(c, a);
    hide StackId, CanEnrichStack, Surrogate, Flush;
    var steps := [Arrive(a), Arrive(b)];
    assert steps[..1] == [Arrive(a)];
    assert [a] + [b] == [a, b];
  }

  /** An event that is given late, and has expired while an earlier one of its stack has not, overtakes that one. */
  lemma FlushReorders(c: Config, a: Event, b: Event, now: int)
    requires c.stackEnrichment && CanEnrichStack(a.typ) && !Surrogate(a) && a.typ != TerminateThread
    requires CanEnrichStack(b.typ) && !Surrogate(b) && b.typ != TerminateThread && StackId(a) == StackId(b)
    requires Young(a, now) && !Young(b, now)
    ensures var steps := [Arrive(a), Arrive(b), Tick([StackId(a)], now)];
            LegalRun(c, steps) && !Fifo(After(c, steps), Given(steps))
  {
    var before, steps := [Arrive(a), Arrive(b)], [Arrive(a), Arrive(b), Tick([StackId(a)], now)];
    TwoArrive(c, a, b);
    InvAlways(c, before);
    OnlyArrivals(c, before);
    FirstInFirstOut(c, before);
    assert steps[..2] == before;
    hide LegalRun, Inv, StackId, FlushHangs, Flush, Young, Fifo, CanEnrichStack;
    var s := After(c, before);
    assert Given(steps) == Given(before) by {
      assert Given(steps) == Given(before) + [];
    }
    NoEndNoHang(c, s, [StackId(a)], now, Given(before));
    LegalNext(c, before, Tick([StackId(a)], now), steps);
    FlushKeepsOrderExactly(c, s, [StackId(a)], now, Given(before));
    NotOldFirst(a, b, now);
  }

  lemma NotOldFirst(a: Event, b: Event, now: int)
    requires Young(a, now) && !Young(b, now)
    ensures !OldFirst([a, b], now)
  {
    assert [a, b][0] == a && [a, b][1] == b;
  }

  lemma OnlyArrivals(c: Config, steps: seq<Step>)
    requires forall i :: 0 <= i < |steps| ==> steps[i].Arrive?
    ensures Orderly(c, steps)
  {
  }

  lemma LegalNext(c: Config, before: seq<Step>, step: Step, steps: seq<Step>)
    requires LegalRun(c, before) && Legal(c, After(c, before), step) && steps == before + [step]
    ensures LegalRun(c, steps) && After(c, steps) == Apply(c, After(c, before), step)
  {
    assert steps[..|before|] == before;
  }
}
