/** The event queue together with its stack walk decorator, as the code updates them. */
module StackwalkQueue {
  import opened Options
  import opened StackwalkModel
  import opened StackwalkRuns
  import opened StackwalkFlushes

  /** The queue owns its decorator, so the decorator's buckets are kept here. */
  class Queue {
    const config: Config
    var buckets: map<nat, seq<Event>>
    var handed: seq<Seen>
    var channel: seq<Seen>
    var dropped: seq<Event>

    function Contents(): State
      reads this
    {
      State(buckets, handed, channel, dropped)
    }

    constructor (config: Config)
      ensures Contents() == INITIAL && this.config == config
    {
      this.config := config;
      buckets, handed, channel, dropped := map[], [], [], [];
    }

    /** Stores an event until its stack walk arrives. */
    method Store(e: Event)
      requires !Surrogate(e)
      modifies this
      ensures Contents() == Enqueue(old(Contents()), e)
    {
      var id := StackId(e);
      assert [] + [e] == [e];
      if id !in buckets {
        buckets := buckets[id := [e]];
      } else {
        buckets := buckets[id := buckets[id] + [e]];
      }
    }

    /** The decorated event, or the stack walk itself when nothing waits for it. */
    method Pop(w: Event) returns (x: Seen)
      modifies this
      ensures var s := old(Contents()); var q := Bucket(s, StackId(w));
              if q == [] then Contents() == s && x == Seen(w, None)
              else Contents() == Unqueue(s, StackId(w)) && x == Seen(q[0], Some(w.callstack))
    {
      var id := StackId(w);
      if id !in buckets {
        return Seen(w, None);
      }
      var q := buckets[id];
      if |q| == 0 {
        return Seen(w, None);
      }
      buckets := buckets[id := q[1..]];
      x := Seen(q[0], Some(w.callstack));
    }

    method DropBucket(id: nat)
      modifies this
      ensures Contents() == RemoveBucket(old(Contents()), id)
    {
      dropped := dropped + Bucket(Contents(), id);
      buckets := buckets - {id};
    }

    /** Asks the listeners in turn until one fails. */
    method Ask(x: Seen) returns (failed: bool, enqueue: bool)
      ensures failed == Fails(config, Contents(), x)
      ensures !failed ==> (enqueue || config.listeners == [] <==> Wanted(config, Contents(), x))
    {
      enqueue := config.enqueueAlways;
      for i := 0 to |config.listeners|
        invariant forall j :: 0 <= j < i ==> !config.listeners[j].process(handed, x).Error?
        invariant enqueue <==> config.enqueueAlways ||
                               exists j :: 0 <= j < i && config.listeners[j].canEnqueue
                                           && config.listeners[j].process(handed, x) == Keep(true)
      {
        var verdict := config.listeners[i].process(handed, x);
        if verdict.Error? {
          return true, enqueue;
        }
        if config.listeners[i].canEnqueue && verdict.enqueue {
          enqueue := true;
        }
      }
      failed := false;
    }

    /** Runs the listeners on an event and sends it on when one of them wants it. */
    method Release(x: Seen) returns (failed: bool)
      modifies this
      ensures Contents() == Hand(config, old(Contents()), x)
      ensures failed == Fails(config, old(Contents()), x)
    {
      hide Fails, Wanted;
      var enqueue;
      failed, enqueue := Ask(x);
      handed := handed + [x];
      if failed {
        return;
      }
      if config.stackEnrichment && x.event.typ == TerminateThread {
        DropBucket((x.event.paramPid + x.event.paramTid) % UINT32);
      }
      if enqueue || |config.listeners| == 0 {
        channel := channel + [x];
      }
    }

    /** Only events that can be enriched wait, each in the bucket of its stack. */
    ghost predicate Valid()
      reads this
    {
      Keyed(Contents())
    }

    method Push(e: Event)
      requires Valid() && !Surrogate(e)
      modifies this
      ensures Contents() == Give(config, old(Contents()), e) && Valid()
    {
      hide StackId, Hand;
      GiveKeyed(config, Contents(), e);
      var x := Seen(e, None);
      if config.stackEnrichment {
        if CanEnrichStack(e.typ) {
          Store(e);
          return;
        }
        if e.typ == StackWalk {
          x := Pop(e);
        }
      }
      if x.event.typ == StackWalk {
        return;
      }
      var _ := Release(x);
    }

    /** As `Release`, with the decorator's lock held: discarding a bucket would take the lock again and never return. */
    method ReleaseLocked(x: Seen) returns (failed: bool, hung: bool)
      modifies this
      ensures hung <==> Hangs(config, old(Contents()), x)
      ensures !hung ==> Contents() == Hand(config, old(Contents()), x)
      ensures failed == Fails(config, old(Contents()), x)
    {
      hide Fails, Wanted;
      hung := false;
      var enqueue;
      failed, enqueue := Ask(x);
      handed := handed + [x];
      if failed {
        return;
      }
      if config.stackEnrichment && x.event.typ == TerminateThread {
        return failed, true;
      }
      if enqueue || |config.listeners| == 0 {
        channel := channel + [x];
      }
    }

    /** One bucket of the flush: expired events are released, the others stay in order. */
    method FlushOne(id: nat, now: int) returns (errors: nat, hung: bool)
      requires Valid() && id in buckets
      modifies this
      ensures hung <==> HandHangs(config, old(Contents()), old(buckets)[id], now)
      ensures !hung ==> Contents() == FlushBucket(config, old(Contents()), id, now) && Valid()
      ensures !hung ==> var n := Younger(old(buckets)[id], now);
                        buckets == if n == [] then old(buckets) - {id} else old(buckets)[id := n]
    {
      hide Young, Hand, Hangs, StackId, CanEnrichStack, Fails;
      errors, hung := 0, false;
      ghost var s := Contents();
      var q := buckets[id];
      var n: seq<Event> := [];
      for i := 0 to |q|
        invariant Contents() == HandOld(config, s, q[..i], now) && n == Younger(q[..i], now)
        invariant !HandHangs(config, s, q[..i], now)
      {
        assert q[..i + 1][..i] == q[..i];
        var evt := q[i];
        YoungAt(evt, now);
        if now - evt.timestamp < MAX_QUEUE_TTL {
          n := n + [evt];
        } else {
          var failed;
          failed, hung := ReleaseLocked(Seen(evt, None));
          if hung {
            HangsFrom(config, s, q, i + 1, now);
            return;
          }
          errors := if failed then errors + 1 else errors;
        }
      }
      assert q[..|q|] == q;
      HandOldTotal(config, s, q, now, NO_EVENT);
      FlushBucketTotal(config, s, id, now, NO_EVENT);
      if |n| == 0 {
        buckets := buckets - {id};
      } else {
        buckets := buckets[id := n];
      }
    }

    /** Visits the buckets in the iteration order of the map, and hangs exactly as `FlushHangs` says. */
    method FlushAll(ids: seq<nat>, now: int) returns (errors: nat, hung: bool)
      requires Valid() && Enumerates(Contents(), ids)
      modifies this
      ensures hung <==> FlushHangs(config, old(Contents()), ids, now)
      ensures !hung ==> Contents() == Flush(config, old(Contents()), ids, now) && Valid()
    {
      errors, hung := 0, false;
      ghost var s := Contents();
      for i := 0 to |ids|
        invariant Contents() == Flush(config, s, ids[..i], now) && Valid()
        invariant !hung && !FlushHangs(config, s, ids[..i], now)
        invariant forall j :: i <= j < |ids| ==> ids[j] in buckets
      {
        hide FlushBucket, Keyed, Younger, HandHangs;
        assert ids[..i + 1][..i] == ids[..i];
        var more;
        more, hung := FlushOne(ids[i], now);
        if hung {
          FlushHangsFrom(config, s, ids, i + 1, now);
          return;
        }
        errors := errors + more;
      }
      assert ids[..|ids|] == ids;
    }
  }

  lemma {:induction false} HangsFrom(c: Config, s: State, q: seq<Event>, i: nat, now: int)
    requires i <= |q| && HandHangs(c, s, q[..i], now)
    ensures HandHangs(c, s, q, now)
    decreases |q|
  {
    if i < |q| {
      hide Young, Hangs, HandOld;
      assert q[..|q| - 1][..i] == q[..i];
      HangsFrom(c, s, q[..|q| - 1], i, now);
    } else {
      assert q[..i] == q;
    }
  }

  lemma {:induction false} FlushHangsFrom(c: Config, s: State, ids: seq<nat>, i: nat, now: int)
    requires i <= |ids| && FlushHangs(c, s, ids[..i], now)
    ensures FlushHangs(c, s, ids, now)
    decreases |ids|
  {
    if i < |ids| {
      hide HandHangs, Flush;
      assert ids[..|ids| - 1][..i] == ids[..i];
      FlushHangsFrom(c, s, ids[..|ids| - 1], i, now);
    } else {
      assert ids[..i] == ids;
    }
  }

  /** A queue in which a thread ends and no stack walk follows hangs in the first flush after the time to live. */
  method HangingQueue(c: Config, e: Event, now: int) returns (hung: bool)
    requires NeverFails(c) && c.stackEnrichment && e.typ == TerminateThread && now - e.timestamp >= MAX_QUEUE_TTL
    ensures hung
  {
    ThreadEndHangs(c, e, now);
    OneArrives(c, e);
    var q := new Queue(c);
    q.Push(e);
    var errors;
    errors, hung := q.FlushAll([StackId(e)], now);
  }

  lemma YoungAt(e: Event, now: int)
    ensures Young(e, now) <==> now - e.timestamp < MAX_QUEUE_TTL
  {
  }

  lemma GiveKeyed(c: Config, s: State, e: Event)
    requires Keyed(s)
    ensures Keyed(Give(c, s, e))
    ensures e.typ == StackWalk && Bucket(s, StackId(e)) != [] ==> Bucket(s, StackId(e))[0].typ != StackWalk
  {
    hide Hand, StackId, Total;
    if c.stackEnrichment && CanEnrichStack(e.typ) {
      EnqueueTotal(s, e, e);
    } else if e.typ != StackWalk {
      HandTotal(c, s, Seen(e, None), e);
    } else if Bucket(s, StackId(e)) != [] {
      UnqueueTotal(s, StackId(e), e);
      HandTotal(c, Unqueue(s, StackId(e)), Seen(Bucket(s, StackId(e))[0], Some(e.callstack)), e);
    }
  }
}
