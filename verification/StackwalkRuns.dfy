/** What every run of the queue and its decorator keeps: conservation, order, and no stack walk let through. */
module StackwalkRuns {
  import opened Options
  import opened StackwalkModel

  // ---- subsequences ----

  predicate Subsequence<T(==)>(a: seq<T>, b: seq<T>) {
    a == [] || (b != [] && ((a[0] == b[0] && Subsequence(a[1..], b[1..])) || Subsequence(a, b[1..])))
  }

  lemma {:induction false} SubsequenceSnoc<T>(a: seq<T>, b: seq<T>, x: T)
    requires Subsequence(a, b)
    ensures Subsequence(a + [x], b + [x]) && Subsequence(a, b + [x])
  {
    if b == [] {
      assert a + [x] == [x] && b + [x] == [x];
    } else {
      assert (b + [x])[1..] == b[1..] + [x];
      if a == [] {
        SubsequenceSnoc(a, b[1..], x);
      } else if a[0] == b[0] && Subsequence(a[1..], b[1..]) {
        assert (a + [x])[1..] == a[1..] + [x];
        SubsequenceSnoc(a[1..], b[1..], x);
      } else {
        SubsequenceSnoc(a, b[1..], x);
      }
    }
  }

  lemma {:induction false} SubsequenceRest<T>(a: seq<T>, b: seq<T>)
    requires Subsequence(a, b) && a != []
    ensures Subsequence(a[1..], b)
  {
    if a[0] == b[0] && Subsequence(a[1..], b[1..]) {
    } else {
      SubsequenceRest(a, b[1..]);
    }
  }

  lemma {:induction false} SubsequenceTrans<T>(a: seq<T>, b: seq<T>, c: seq<T>)
    requires Subsequence(a, b) && Subsequence(b, c)
    ensures Subsequence(a, c)
    decreases |b| + |c|
  {
    if a != [] {
      if b[0] == c[0] && Subsequence(b[1..], c[1..]) {
        if a[0] == b[0] && Subsequence(a[1..], b[1..]) {
          SubsequenceTrans(a[1..], b[1..], c[1..]);
        } else {
          SubsequenceTrans(a, b[1..], c[1..]);
        }
      } else {
        SubsequenceTrans(a, b, c[1..]);
      }
    }
  }

  lemma {:induction false} YoungerSubsequence(q: seq<Event>, now: int)
    ensures Subsequence(Younger(q, now), q)
  {
    if q != [] {
      var n := |q| - 1;
      YoungerSubsequence(q[..n], now);
      SubsequenceSnoc(Younger(q[..n], now), q[..n], q[n]);
      assert q == q[..n] + [q[n]];
      assert !Young(q[n], now) ==> Younger(q, now) == Younger(q[..n], now);
    }
  }

  // ---- where an event is ----

  const NO_EVENT := Event(0, StackWalk, 0, 0, 0, 0, 0, 0, 0, [])

  function Events(xs: seq<Seen>): seq<Event> {
    seq(|xs|, i requires 0 <= i < |xs| => xs[i].event)
  }

  function Count<T(==)>(xs: seq<T>, x: T): nat {
    multiset(xs)[x]
  }

  lemma CountSnoc<T>(xs: seq<T>, y: T, x: T)
    ensures Count(xs + [y], x) == Count(xs, x) + if y == x then 1 else 0
  {
  }

  lemma EventsSnoc(xs: seq<Seen>, x: Seen)
    ensures Events(xs + [x]) == Events(xs) + [x.event]
  {
  }

  /** How often an event is pending, was handed out and was discarded. */
  function Total(s: State, e: Event): nat {
    Count(Bucket(s, StackId(e)), e) + Count(Events(s.handed), e) + Count(s.dropped, e)
  }

  ghost predicate Keyed(s: State) {
    forall id, e :: id in s.buckets && e in s.buckets[id] ==> StackId(e) == id && CanEnrichStack(e.typ)
  }

  lemma RemoveBucketTotal(s: State, id: nat, e: Event)
    requires Keyed(s)
    ensures Total(RemoveBucket(s, id), e) == Total(s, e)
  {
    hide StackId;
    if StackId(e) != id {
      assert e !in Bucket(s, id);
    }
  }

  lemma LogTotal(s: State, x: Seen, e: Event)
    ensures Total(s.(handed := s.handed + [x]), e) == Total(s, e) + if x.event == e then 1 else 0
  {
    hide StackId;
    EventsSnoc(s.handed, x);
    CountSnoc(Events(s.handed), x.event, e);
  }

  lemma ChannelTotal(s: State, channel: seq<Seen>, e: Event)
    ensures Total(s.(channel := channel), e) == Total(s, e)
  {
  }

  lemma HandTotal(c: Config, s: State, x: Seen, e: Event)
    requires Keyed(s)
    ensures Total(Hand(c, s, x), e) == Total(s, e) + if x.event == e then 1 else 0
    ensures Keyed(Hand(c, s, x))
  {
    hide StackId, CanEnrichStack, Fails, Wanted, Discards, Total, ThreadId;
    LogTotal(s, x, e);
    var t := s.(handed := s.handed + [x]);
    var u := if Discards(c, x) then RemoveBucket(t, ThreadId(x.event)) else t;
    RemoveBucketTotal(t, ThreadId(x.event), e);
    ChannelTotal(u, u.channel + [x], e);
  }

  /** Unless a bucket is discarded, handing out leaves the buckets alone. */
  lemma HandKeepsBuckets(c: Config, s: State, x: Seen)
    requires !Hangs(c, s, x)
    ensures Hand(c, s, x).buckets == s.buckets && Hand(c, s, x).dropped == s.dropped
  {
  }

  lemma EnqueueTotal(s: State, x: Event, e: Event)
    requires Keyed(s) && CanEnrichStack(x.typ)
    ensures Total(Enqueue(s, x), e) == Total(s, e) + if x == e then 1 else 0
    ensures Keyed(Enqueue(s, x))
  {
    hide StackId;
    CountSnoc(Bucket(s, StackId(x)), x, e);
  }

  lemma UnqueueTotal(s: State, id: nat, e: Event)
    requires Keyed(s) && Bucket(s, id) != []
    ensures Total(s, e) == Total(Unqueue(s, id), e) + if Bucket(s, id)[0] == e then 1 else 0
    ensures Keyed(Unqueue(s, id))
  {
    hide StackId, CanEnrichStack;
    var q := Bucket(s, id);
    assert q == [q[0]] + q[1..];
    assert StackId(q[0]) == id;
  }

  /** Handing out the expired events of a bucket accounts for exactly those the bucket does not keep. */
  lemma {:induction false} HandOldTotal(c: Config, s: State, q: seq<Event>, now: int, e: Event)
    requires Keyed(s) && !HandHangs(c, s, q, now)
    ensures Total(HandOld(c, s, q, now), e) + Count(Younger(q, now), e) == Total(s, e) + Count(q, e)
    ensures HandOld(c, s, q, now).buckets == s.buckets && HandOld(c, s, q, now).dropped == s.dropped
    ensures Keyed(HandOld(c, s, q, now))
  {
    hide Total, Count, Hand, Hangs, Young, CanEnrichStack, StackId;
    if q == [] {
    } else {
      var n := |q| - 1;
      var t := HandOld(c, s, q[..n], now);
      HandOldTotal(c, s, q[..n], now, e);
      assert q == q[..n] + [q[n]];
      CountSnoc(q[..n], q[n], e);
      CountSnoc(Younger(q[..n], now), q[n], e);
      if !Young(q[n], now) {
        HandTotal(c, t, Seen(q[n], None), e);
        HandKeepsBuckets(c, t, Seen(q[n], None));
        assert Younger(q, now) == Younger(q[..n], now);
      }
    }
  }

  lemma YoungerIn(q: seq<Event>, now: int)
    ensures forall e :: e in Younger(q, now) ==> e in q
  {
  }

  lemma FlushBucketTotal(c: Config, s: State, id: nat, now: int, e: Event)
    requires Keyed(s) && !HandHangs(c, s, Bucket(s, id), now)
    ensures Total(FlushBucket(c, s, id, now), e) == Total(s, e)
    ensures Keyed(FlushBucket(c, s, id, now))
  {
    hide StackId, CanEnrichStack, HandOld, HandHangs, Younger, Young;
    var q := Bucket(s, id);
    HandOldTotal(c, s, q, now, e);
    YoungerIn(q, now);
    if StackId(e) != id {
      assert e !in q && e !in Younger(q, now);
    }
  }

  // ---- what every run keeps ----

  ghost predicate NoWalks(s: State) {
    forall i :: 0 <= i < |s.handed| ==> s.handed[i].event.typ != StackWalk
  }

  /** Every event that was given is accounted for, as often as it was given. */
  ghost predicate Conserved(s: State, given: seq<Event>) {
    forall e :: Count(given, e) == Total(s, e)
  }

  ghost predicate InOrder(s: State, given: seq<Event>) {
    forall id :: Subsequence(Bucket(s, id), given)
  }

  ghost predicate Inv(s: State, given: seq<Event>) {
    Keyed(s) && NoWalks(s) && Conserved(s, given) && InOrder(s, given) && Subsequence(s.channel, s.handed)
  }

  /** The parts of the invariant that handing out cannot break. */
  lemma HandKeeps(c: Config, s: State, x: Seen, given: seq<Event>)
    requires NoWalks(s) && x.event.typ != StackWalk && InOrder(s, given) && Subsequence(s.channel, s.handed)
    ensures var t := Hand(c, s, x); NoWalks(t) && InOrder(t, given) && Subsequence(t.channel, t.handed)
  {
    hide Fails, Wanted, Discards, ThreadId, Subsequence;
    SubsequenceSnoc(s.channel, s.handed, x);
    var t := Hand(c, s, x);
    forall id
      ensures Subsequence(Bucket(t, id), given)
    {
      NoneIsSubsequence(given);
      assert Bucket(t, id) == Bucket(s, id) || Bucket(t, id) == [];
    }
  }

  lemma NoneIsSubsequence(b: seq<Event>)
    ensures Subsequence([], b)
  {
  }

  lemma EnqueueKeeps(s: State, x: Event, given: seq<Event>)
    requires Inv(s, given) && CanEnrichStack(x.typ)
    ensures Inv(Enqueue(s, x), given + [x])
  {
    hide Subsequence, Total, Count, StackId;
    var t := Enqueue(s, x);
    forall e
      ensures Count(given + [x], e) == Total(t, e)
    {
      EnqueueTotal(s, x, e);
      CountSnoc(given, x, e);
    }
    EnqueueTotal(s, x, x);
    forall id
      ensures Subsequence(Bucket(t, id), given + [x])
    {
      SubsequenceSnoc(Bucket(s, id), given, x);
    }
  }

  lemma PassKeeps(c: Config, s: State, x: Event, given: seq<Event>)
    requires Inv(s, given) && x.typ != StackWalk
    ensures Inv(Hand(c, s, Seen(x, None)), given + [x])
  {
    hide Subsequence, Total, Count, Hand, StackId;
    var t := Hand(c, s, Seen(x, None));
    forall e
      ensures Count(given + [x], e) == Total(t, e)
    {
      HandTotal(c, s, Seen(x, None), e);
      CountSnoc(given, x, e);
    }
    HandTotal(c, s, Seen(x, None), x);
    HandKeeps(c, s, Seen(x, None), given);
    forall id
      ensures Subsequence(Bucket(t, id), given + [x])
    {
      SubsequenceSnoc(Bucket(t, id), given, x);
    }
  }

  lemma WalkKeeps(c: Config, s: State, id: nat, callstack: seq<nat>, given: seq<Event>)
    requires Inv(s, given) && Bucket(s, id) != []
    ensures Inv(Hand(c, Unqueue(s, id), Seen(Bucket(s, id)[0], Some(callstack))), given)
  {
    hide Subsequence, Total, Count, Hand, StackId;
    var q := Bucket(s, id);
    var x := Seen(q[0], Some(callstack));
    var u := Unqueue(s, id);
    forall e
      ensures Count(given, e) == Total(Hand(c, u, x), e)
    {
      UnqueueTotal(s, id, e);
      HandTotal(c, u, x, e);
    }
    UnqueueTotal(s, id, q[0]);
    HandTotal(c, u, x, q[0]);
    SubsequenceRest(q, given);
    assert forall i :: Bucket(u, i) == if i == id then q[1..] else Bucket(s, i);
    HandKeeps(c, u, x, given);
  }

  lemma {:induction false} HandOldKeeps(c: Config, s: State, q: seq<Event>, now: int, given: seq<Event>)
    requires NoWalks(s) && InOrder(s, given) && Subsequence(s.channel, s.handed)
    requires forall e :: e in q ==> e.typ != StackWalk
    ensures var t := HandOld(c, s, q, now); NoWalks(t) && InOrder(t, given) && Subsequence(t.channel, t.handed)
  {
    hide Subsequence, Hand, Young, NoWalks, InOrder;
    if q != [] {
      HandOldKeeps(c, s, q[..|q| - 1], now, given);
      HandKeeps(c, HandOld(c, s, q[..|q| - 1], now), Seen(q[|q| - 1], None), given);
    }
  }

  lemma FlushBucketKeeps(c: Config, s: State, id: nat, now: int, given: seq<Event>)
    requires Inv(s, given) && !HandHangs(c, s, Bucket(s, id), now)
    ensures Inv(FlushBucket(c, s, id, now), given)
  {
    hide Subsequence, Total, Count, HandOld, HandHangs, Younger, Young, StackId;
    var q := Bucket(s, id);
    var t := FlushBucket(c, s, id, now);
    forall e
      ensures Count(given, e) == Total(t, e)
    {
      FlushBucketTotal(c, s, id, now, e);
    }
    FlushBucketTotal(c, s, id, now, NO_EVENT);
    HandOldKeeps(c, s, q, now, given);
    YoungerSubsequence(q, now);
    SubsequenceTrans(Younger(q, now), q, given);
    var h := HandOld(c, s, q, now);
    assert forall i :: Bucket(t, i) == if i == id then Younger(q, now) else Bucket(h, i);
  }

  lemma {:induction false} FlushKeeps(c: Config, s: State, ids: seq<nat>, now: int, given: seq<Event>)
    requires Inv(s, given) && !FlushHangs(c, s, ids, now)
    ensures Inv(Flush(c, s, ids, now), given)
  {
    hide Inv, HandHangs, FlushBucket;
    if ids != [] {
      FlushKeeps(c, s, ids[..|ids| - 1], now, given);
      FlushBucketKeeps(c, Flush(c, s, ids[..|ids| - 1], now), ids[|ids| - 1], now, given);
    }
  }

  /** In every run, whatever the listeners answer, the invariant holds after every step. */
  lemma {:induction false} InvAlways(c: Config, steps: seq<Step>)
    requires LegalRun(c, steps)
    ensures Inv(After(c, steps), Given(steps))
  {
    if steps != [] {
      hide Inv, Hand, Enqueue, Flush, FlushHangs, StackId;
      var before, last := steps[..|steps| - 1], steps[|steps| - 1];
      InvAlways(c, before);
      var s, given := After(c, before), Given(before);
      assert given + [] == given;
      match last {
        case Arrive(e) =>
          if c.stackEnrichment && CanEnrichStack(e.typ) {
            EnqueueKeeps(s, e, given);
          } else if e.typ != StackWalk {
            PassKeeps(c, s, e, given);
          } else if c.stackEnrichment && Bucket(s, StackId(e)) != [] {
            WalkKeeps(c, s, StackId(e), e.callstack, given);
          }
        case Tick(ids, now) => FlushKeeps(c, s, ids, now, given);
      }
    } else {
      InitialInv();
    }
  }

  lemma InitialInv()
    ensures Inv(INITIAL, [])
  {
  }

  // ---- main results ----

  lemma {:induction false} SubsequenceIn<T>(a: seq<T>, b: seq<T>, x: T)
    requires Subsequence(a, b) && x in a
    ensures x in b
  {
    if a[0] == b[0] && Subsequence(a[1..], b[1..]) {
      if x != a[0] {
        SubsequenceIn(a[1..], b[1..], x);
      }
    } else {
      SubsequenceIn(a, b[1..], x);
    }
  }

  /** No stack walk ever reaches a listener or the channel. */
  lemma NoWalkEscapes(c: Config, steps: seq<Step>)
    requires LegalRun(c, steps)
    ensures forall x :: x in After(c, steps).handed ==> x.event.typ != StackWalk
    ensures forall x :: x in After(c, steps).channel ==> x.event.typ != StackWalk
  {
    InvAlways(c, steps);
    hide After, Given, Keyed, Conserved, InOrder;
    var s := After(c, steps);
    forall x | x in s.channel
      ensures x in s.handed
    {
      SubsequenceIn(s.channel, s.handed, x);
    }
  }

  lemma HandDrops(c: Config, s: State, x: Seen)
    requires x.event.typ != TerminateThread
    ensures Hand(c, s, x).dropped == s.dropped
  {
  }

  lemma {:induction false} FlushDrops(c: Config, s: State, ids: seq<nat>, now: int, given: seq<Event>)
    requires Inv(s, given) && !FlushHangs(c, s, ids, now)
    ensures Flush(c, s, ids, now).dropped == s.dropped
  {
    if ids != [] {
      hide HandHangs, Conserved, NoWalks, InOrder, HandOld, Younger;
      var t := Flush(c, s, ids[..|ids| - 1], now);
      FlushDrops(c, s, ids[..|ids| - 1], now, given);
      FlushKeeps(c, s, ids[..|ids| - 1], now, given);
      HandOldTotal(c, t, Bucket(t, ids[|ids| - 1]), now, NO_EVENT);
    }
  }

  lemma PendingGiven(s: State, given: seq<Event>, id: nat, e: Event)
    requires Keyed(s) && Conserved(s, given) && e in Bucket(s, id)
    ensures e in given
  {
    hide StackId, CanEnrichStack;
    assert StackId(e) == id;
    assert Count(given, e) == Total(s, e) > 0;
  }

  /** Events are discarded only because a thread ended. */
  lemma {:induction false} NothingDropped(c: Config, steps: seq<Step>)
    requires LegalRun(c, steps) && forall e :: e in Given(steps) ==> e.typ != TerminateThread
    ensures After(c, steps).dropped == []
  {
    if steps != [] {
      hide Hand, Flush, FlushHangs, StackId, CanEnrichStack, Inv;
      var before, last := steps[..|steps| - 1], steps[|steps| - 1];
      assert forall e :: e in Given(before) ==> e in Given(steps);
      NothingDropped(c, before);
      InvAlways(c, before);
      var s, given := After(c, before), Given(before);
      match last {
        case Arrive(e) =>
          if e.typ == StackWalk {
            if Bucket(s, StackId(e)) != [] {
              InvParts(s, given);
              PendingGiven(s, given, StackId(e), Bucket(s, StackId(e))[0]);
              HandDrops(c, Unqueue(s, StackId(e)), Seen(Bucket(s, StackId(e))[0], Some(e.callstack)));
            }
          } else {
            assert e in Given(steps);
            HandDrops(c, s, Seen(e, None));
          }
        case Tick(ids, now) => FlushDrops(c, s, ids, now, given);
      }
    }
  }

  lemma InvParts(s: State, given: seq<Event>)
    requires Inv(s, given)
    ensures Keyed(s) && Conserved(s, given)
  {
  }

  /**
   Without ends of threads, an event that was given once is either waiting in its own bucket or was handed out,
   once and never both.
   */
  lemma PendingOrHandedOnce(c: Config, steps: seq<Step>, e: Event)
    requires LegalRun(c, steps) && forall x :: x in Given(steps) ==> x.typ != TerminateThread
    ensures var s := After(c, steps);
            Count(Given(steps), e) == Count(Bucket(s, StackId(e)), e) + Count(Events(s.handed), e)
    ensures var s := After(c, steps);
            forall id :: e in Bucket(s, id) ==> id == StackId(e)
  {
    InvAlways(c, steps);
    NothingDropped(c, steps);
    hide After, Given, StackId, InOrder, Subsequence;
    var s := After(c, steps);
    assert Count(Given(steps), e) == Total(s, e);
  }

  lemma {:induction false} FirstPosition<T>(a: seq<T>, b: seq<T>) returns (i: nat)
    requires Subsequence(a, b) && a != []
    ensures i < |b| && b[i] == a[0] && Subsequence(a[1..], b[i + 1..])
  {
    if a[0] == b[0] && Subsequence(a[1..], b[1..]) {
      i := 0;
    } else {
      i := FirstPosition(a, b[1..]);
      assert b[1..][i + 1..] == b[i + 2..];
      i := i + 1;
    }
  }

  /** A stack walk decorates the pending event of its stack that was given first, and hands it out. */
  lemma WalkDecoratesOldest(c: Config, steps: seq<Step>, w: Event) returns (i: nat)
    requires LegalRun(c, steps) && c.stackEnrichment && w.typ == StackWalk
    requires Bucket(After(c, steps), StackId(w)) != []
    ensures var s, given := After(c, steps), Given(steps);
            && i < |given| && StackId(given[i]) == StackId(w)
            && Bucket(s, StackId(w))[0] == given[i]
            && Subsequence(Bucket(s, StackId(w))[1..], given[i + 1..])
            && Give(c, s, w).handed == s.handed + [Seen(given[i], Some(w.callstack))]
  {
    InvAlways(c, steps);
    hide After, Given, StackId, Subsequence, Conserved;
    i := FirstPosition(Bucket(After(c, steps), StackId(w)), Given(steps));
  }

  // ---- first in, first out ----

  /** The events that wait for a stack walk with this stack id. */
  function OfStack(es: seq<Event>, id: nat): seq<Event> {
    if es == [] then []
    else
      var last := es[|es| - 1];
      OfStack(es[..|es| - 1], id) + if CanEnrichStack(last.typ) && StackId(last) == id then [last] else []
  }

  lemma OfStackSnoc(es: seq<Event>, e: Event, id: nat)
    ensures OfStack(es + [e], id)
            == if CanEnrichStack(e.typ) && StackId(e) == id then OfStack(es, id) + [e] else OfStack(es, id)
  {
    assert (es + [e])[..|es|] == es;
  }

  ghost predicate Fifo(s: State, given: seq<Event>) {
    forall id :: OfStack(Events(s.handed), id) + Bucket(s, id) == OfStack(given, id)
  }

  lemma FifoEnqueue(s: State, x: Event, given: seq<Event>)
    requires Fifo(s, given) && CanEnrichStack(x.typ)
    ensures Fifo(Enqueue(s, x), given + [x])
  {
    hide StackId, OfStack, CanEnrichStack;
    forall id
      ensures OfStack(Events(s.handed), id) + Bucket(Enqueue(s, x), id) == OfStack(given + [x], id)
    {
      OfStackSnoc(given, x, id);
      assert OfStack(Events(s.handed), id) + Bucket(s, id) == OfStack(given, id);
      assert OfStack(Events(s.handed), id) + (Bucket(s, id) + [x]) == OfStack(given, id) + [x];
    }
  }

  lemma FifoWalk(c: Config, s: State, w: nat, x: Seen, given: seq<Event>)
    requires Fifo(s, given) && Keyed(s) && Bucket(s, w) != []
    requires x.event == Bucket(s, w)[0] && x.event.typ != TerminateThread
    ensures Fifo(Hand(c, Unqueue(s, w), x), given)
  {
    hide StackId, OfStack, CanEnrichStack, Fails, Wanted;
    var u := Hand(c, Unqueue(s, w), x);
    EventsSnoc(s.handed, x);
    var q := Bucket(s, w);
    assert StackId(x.event) == w && CanEnrichStack(x.event.typ);
    assert q == [q[0]] + q[1..];
    forall id
      ensures OfStack(Events(u.handed), id) + Bucket(u, id) == OfStack(given, id)
    {
      OfStackSnoc(Events(s.handed), x.event, id);
      assert OfStack(Events(s.handed), id) + Bucket(s, id) == OfStack(given, id);
    }
  }

  lemma FifoPass(c: Config, s: State, x: Event, given: seq<Event>)
    requires Fifo(s, given) && !CanEnrichStack(x.typ)
    ensures Fifo(Hand(c, s, Seen(x, None)), given + [x])
  {
    hide StackId, OfStack, Fails, Wanted;
    EventsSnoc(s.handed, Seen(x, None));
    forall id
      ensures OfStack(Events(s.handed + [Seen(x, None)]), id) + Bucket(s, id) == OfStack(given + [x], id)
    {
      OfStackSnoc(given, x, id);
      OfStackSnoc(Events(s.handed), x, id);
      assert OfStack(Events(s.handed), id) + Bucket(s, id) == OfStack(given, id);
    }
  }

  // A flush hands out the expired events of a bucket, which keeps the order when they are the oldest ones.

  function Older(q: seq<Event>, now: int): seq<Event> {
    if q == [] then []
    else Older(q[..|q| - 1], now) + if Young(q[|q| - 1], now) then [] else [q[|q| - 1]]
  }

  lemma {:induction false} HandOldHands(c: Config, s: State, q: seq<Event>, now: int)
    ensures Events(HandOld(c, s, q, now).handed) == Events(s.handed) + Older(q, now)
  {
    if q != [] {
      hide Young, Fails, Wanted, Discards, Events;
      var n := |q| - 1;
      var t := HandOld(c, s, q[..n], now);
      HandOldHands(c, s, q[..n], now);
      EventsSnoc(t.handed, Seen(q[n], None));
    }
  }

  ghost predicate ByTime(q: seq<Event>) {
    forall i, j :: 0 <= i < j < |q| ==> q[i].timestamp <= q[j].timestamp
  }

  lemma {:induction false} AllOld(q: seq<Event>, now: int)
    requires forall i :: 0 <= i < |q| ==> !Young(q[i], now)
    ensures Younger(q, now) == [] && Older(q, now) == q
  {
    if q != [] {
      AllOld(q[..|q| - 1], now);
      assert q == q[..|q| - 1] + [q[|q| - 1]];
    }
  }

  /** What has expired comes before what has not. */
  ghost predicate OldFirst(q: seq<Event>, now: int) {
    forall i, j :: 0 <= i < j < |q| && !Young(q[j], now) ==> !Young(q[i], now)
  }

  lemma ByTimeOldFirst(q: seq<Event>, now: int)
    requires ByTime(q)
    ensures OldFirst(q, now)
  {
  }

  lemma {:induction false} OlderThenYounger(q: seq<Event>, now: int)
    requires OldFirst(q, now)
    ensures Older(q, now) + Younger(q, now) == q
  {
    if q != [] {
      var n := |q| - 1;
      assert q == q[..n] + [q[n]];
      if Young(q[n], now) {
        OlderThenYounger(q[..n], now);
      } else {
        AllOld(q, now);
      }
    }
  }

  lemma {:induction false} Sorts(q: seq<Event>, now: int)
    ensures forall e :: e in Older(q, now) ==> !Young(e, now)
    ensures forall e :: e in Younger(q, now) ==> Young(e, now)
  {
    if q != [] {
      hide Young;
      Sorts(q[..|q| - 1], now);
    }
  }

  /** Taking out the expired events and leaving the others is cutting the bucket in two exactly when they come first. */
  lemma OldFirstExactly(q: seq<Event>, now: int)
    ensures Older(q, now) + Younger(q, now) == q <==> OldFirst(q, now)
  {
    hide Young, Older, Younger;
    var a, b := Older(q, now), Younger(q, now);
    if OldFirst(q, now) {
      OlderThenYounger(q, now);
    }
    if a + b == q {
      Sorts(q, now);
      forall i | 0 <= i < |a|
        ensures !Young(q[i], now)
      {
        assert q[i] == a[i];
      }
      forall j | |a| <= j < |q|
        ensures Young(q[j], now)
      {
        assert q[j] == b[j - |a|];
      }
    }
  }

  lemma {:induction false} OfStackAll(es: seq<Event>, q: seq<Event>, id: nat)
    requires forall e :: e in q ==> CanEnrichStack(e.typ) && StackId(e) == id
    ensures OfStack(es + q, id) == OfStack(es, id) + q
  {
    if q == [] {
      assert es + q == es;
    } else {
      hide StackId, CanEnrichStack, OfStack;
      var n := |q| - 1;
      assert q == q[..n] + [q[n]];
      OfStackAll(es, q[..n], id);
      assert es + q == (es + q[..n]) + [q[n]];
      OfStackSnoc(es + q[..n], q[n], id);
    }
  }

  lemma {:induction false} OfStackNone(es: seq<Event>, q: seq<Event>, id: nat)
    requires forall e :: e in q ==> StackId(e) != id
    ensures OfStack(es + q, id) == OfStack(es, id)
  {
    if q == [] {
      assert es + q == es;
    } else {
      hide StackId, CanEnrichStack, OfStack;
      var n := |q| - 1;
      assert q == q[..n] + [q[n]];
      OfStackNone(es, q[..n], id);
      assert es + q == (es + q[..n]) + [q[n]];
      OfStackSnoc(es + q[..n], q[n], id);
    }
  }

  lemma OlderIn(q: seq<Event>, now: int)
    ensures forall e :: e in Older(q, now) ==> e in q
  {
  }

  /** A stack is an exact queue: what was handed out, then what waits, is what was given, in that order. */
  ghost predicate FifoAt(s: State, given: seq<Event>, id: nat) {
    OfStack(Events(s.handed), id) + Bucket(s, id) == OfStack(given, id)
  }

  lemma FlushedBucket(c: Config, s: State, w: nat, now: int, id: nat)
    requires Keyed(s) && !HandHangs(c, s, Bucket(s, w), now)
    ensures Bucket(FlushBucket(c, s, w, now), id) == if id == w then Younger(Bucket(s, w), now) else Bucket(s, id)
    ensures FlushBucket(c, s, w, now).handed == HandOld(c, s, Bucket(s, w), now).handed
  {
    hide HandOld, HandHangs, Younger, Young, StackId, CanEnrichStack;
    HandOldTotal(c, s, Bucket(s, w), now, NO_EVENT);
  }

  lemma FlushedStack(c: Config, s: State, w: nat, now: int, id: nat)
    requires Keyed(s) && !HandHangs(c, s, Bucket(s, w), now)
    ensures var t := FlushBucket(c, s, w, now);
            OfStack(Events(t.handed), id)
            == OfStack(Events(s.handed), id) + if id == w then Older(Bucket(s, w), now) else []
  {
    hide OfStack, HandOld, HandHangs, FlushBucket, Older, Young, Events, StackId, CanEnrichStack;
    var q := Bucket(s, w);
    FlushedBucket(c, s, w, now, id);
    HandOldHands(c, s, q, now);
    OlderIn(q, now);
    if id == w {
      OfStackAll(Events(s.handed), Older(q, now), id);
    } else {
      OfStackNone(Events(s.handed), Older(q, now), id);
    }
  }

  /** Flushing one bucket keeps the order of its own stack exactly when what has expired comes first in it. */
  lemma FifoFlush(c: Config, s: State, w: nat, now: int, given: seq<Event>, id: nat)
    requires FifoAt(s, given, id) && Keyed(s) && !HandHangs(c, s, Bucket(s, w), now)
    ensures FifoAt(FlushBucket(c, s, w, now), given, id) <==> id != w || OldFirst(Bucket(s, w), now)
  {
    hide OfStack, HandHangs, FlushBucket, Younger, Older, Young, OldFirst, Events;
    var q, h := Bucket(s, w), OfStack(Events(s.handed), id);
    FlushedBucket(c, s, w, now, id);
    FlushedStack(c, s, w, now, id);
    OldFirstExactly(q, now);
    if id == w {
      var a, b := Older(q, now), Younger(q, now);
      assert h + a + b == h + (a + b);
      assert h + (a + b) == h + q <==> a + b == q by {
        if h + (a + b) == h + q {
          assert (h + (a + b))[|h|..] == a + b && (h + q)[|h|..] == q;
        }
      }
    }
  }

  /** The flush has come to the buckets in `ids`; the others are as they were. */
  lemma {:induction false} FlushOthers(c: Config, s: State, ids: seq<nat>, now: int, given: seq<Event>, id: nat)
    requires Inv(s, given) && !FlushHangs(c, s, ids, now) && id !in ids
    ensures Bucket(Flush(c, s, ids, now), id) == Bucket(s, id)
  {
    if ids != [] {
      hide HandHangs, FlushBucket, Inv;
      var n := |ids| - 1;
      FlushOthers(c, s, ids[..n], now, given, id);
      FlushKeeps(c, s, ids[..n], now, given);
      var t := Flush(c, s, ids[..n], now);
      InvParts(t, given);
      FlushedBucket(c, t, ids[n], now, id);
    }
  }

  lemma {:induction false} FifoFlushAt(c: Config, s: State, ids: seq<nat>, now: int, given: seq<Event>, id: nat)
    requires FifoAt(s, given, id) && Inv(s, given) && !FlushHangs(c, s, ids, now) && Distinct(ids)
    ensures FifoAt(Flush(c, s, ids, now), given, id) <==> id !in ids || OldFirst(Bucket(s, id), now)
  {
    if ids != [] {
      hide HandHangs, FlushBucket, Inv, FifoAt, OldFirst, Keyed, Conserved, Bucket, Distinct;
      var n := |ids| - 1;
      var t := Flush(c, s, ids[..n], now);
      DistinctInit(ids, id);
      FifoFlushAt(c, s, ids[..n], now, given, id);
      FlushKeeps(c, s, ids[..n], now, given);
      InvParts(t, given);
      if id == ids[n] {
        FlushOthers(c, s, ids[..n], now, given, id);
        FifoFlush(c, t, ids[n], now, given, id);
      } else {
        OtherStack(c, t, ids[n], now, given, id);
      }
    }
  }

  lemma DistinctInit(ids: seq<nat>, id: nat)
    requires ids != [] && Distinct(ids)
    ensures var n := |ids| - 1;
            Distinct(ids[..n]) && ids[n] !in ids[..n] && (id in ids <==> id in ids[..n] || id == ids[n])
  {
    assert ids == ids[..|ids| - 1] + [ids[|ids| - 1]];
  }

  lemma OtherStack(c: Config, s: State, w: nat, now: int, given: seq<Event>, id: nat)
    requires Keyed(s) && !HandHangs(c, s, Bucket(s, w), now) && id != w
    ensures FifoAt(FlushBucket(c, s, w, now), given, id) <==> FifoAt(s, given, id)
  {
    hide OfStack, HandHangs, FlushBucket, Younger, Older, Events, Keyed;
    FlushedBucket(c, s, w, now, id);
    FlushedStack(c, s, w, now, id);
  }

  /** A flush keeps every stack an exact queue exactly when in every bucket what has expired comes first. */
  lemma FlushKeepsOrderExactly(c: Config, s: State, ids: seq<nat>, now: int, given: seq<Event>)
    requires Fifo(s, given) && Inv(s, given) && Enumerates(s, ids) && !FlushHangs(c, s, ids, now)
    ensures Fifo(Flush(c, s, ids, now), given) <==> forall id :: id in s.buckets ==> OldFirst(s.buckets[id], now)
  {
    hide Inv, FlushHangs, Flush, OldFirst, FifoAt;
    var t := Flush(c, s, ids, now);
    FifoEverywhere(s, given);
    FifoEverywhere(t, given);
    forall id
      ensures FifoAt(t, given, id) <==> id !in s.buckets || OldFirst(s.buckets[id], now)
    {
      FifoFlushAt(c, s, ids, now, given, id);
    }
    if Fifo(t, given) {
      forall id | id in s.buckets
        ensures OldFirst(s.buckets[id], now)
      {
        assert FifoAt(t, given, id);
      }
    }
  }

  lemma FifoEverywhere(s: State, given: seq<Event>)
    ensures Fifo(s, given) <==> forall id :: FifoAt(s, given, id)
  {
    hide OfStack, Events, Bucket;
    if Fifo(s, given) {
      forall id
        ensures FifoAt(s, given, id)
      {
        assert OfStack(Events(s.handed), id) + Bucket(s, id) == OfStack(given, id);
      }
    }
    if forall id :: FifoAt(s, given, id) {
      forall id
        ensures OfStack(Events(s.handed), id) + Bucket(s, id) == OfStack(given, id)
      {
        assert FifoAt(s, given, id);
      }
    }
  }

  /** Events of the same stack come in order of time. */
  ghost predicate Timely(given: seq<Event>) {
    forall i, j :: 0 <= i < j < |given| && StackId(given[i]) == StackId(given[j])
                   ==> given[i].timestamp <= given[j].timestamp
  }

  lemma {:induction false} StackByTime(given: seq<Event>, id: nat)
    requires Timely(given)
    ensures ByTime(OfStack(given, id)) && forall e :: e in OfStack(given, id) ==> e in given && StackId(e) == id
  {
    if given != [] {
      hide StackId, CanEnrichStack;
      var n := |given| - 1;
      StackByTime(given[..n], id);
      assert given == given[..n] + [given[n]];
      var before := OfStack(given[..n], id);
      if StackId(given[n]) == id {
        forall i | 0 <= i < |before|
          ensures before[i].timestamp <= given[n].timestamp
        {
          assert before[i] in given[..n];
          var k :| 0 <= k < n && given[k] == before[i];
        }
      }
    }
  }

  lemma BucketByTime(s: State, given: seq<Event>, id: nat)
    requires Fifo(s, given) && Timely(given)
    ensures ByTime(Bucket(s, id))
  {
    hide OfStack, StackId;
    StackByTime(given, id);
    var h := OfStack(Events(s.handed), id);
    assert OfStack(given, id)[|h|..] == Bucket(s, id) by {
      assert OfStack(given, id) == h + Bucket(s, id);
    }
  }

  lemma FifoGive(c: Config, s: State, e: Event, given: seq<Event>)
    requires Fifo(s, given) && Keyed(s) && c.stackEnrichment && e.typ != TerminateThread
    requires e.typ == StackWalk && Bucket(s, StackId(e)) != [] ==> Bucket(s, StackId(e))[0].typ != TerminateThread
    ensures Fifo(Give(c, s, e), given + if e.typ != StackWalk then [e] else [])
  {
    hide Hand, StackId, Fifo, Keyed;
    assert given + [] == given;
    if CanEnrichStack(e.typ) {
      FifoEnqueue(s, e, given);
    } else if e.typ != StackWalk {
      FifoPass(c, s, e, given);
    } else if Bucket(s, StackId(e)) != [] {
      FifoWalk(c, s, StackId(e), Seen(Bucket(s, StackId(e))[0], Some(e.callstack)), given);
    }
  }

  /** In every flush of the run what has expired comes first in its bucket. */
  ghost predicate Orderly(c: Config, steps: seq<Step>) {
    forall i :: 0 <= i < |steps| && steps[i].Tick? ==> OrderlyTick(After(c, steps[..i]), steps[i].now)
  }

  ghost predicate OrderlyTick(s: State, now: int) {
    forall id :: id in s.buckets ==> OldFirst(s.buckets[id], now)
  }

  /**
   While no thread ends, each stack is an exact queue: what was handed out, then what waits, is what was given, in
   that order, as long as every flush finds what has expired at the front.
   */
  lemma {:induction false} FirstInFirstOut(c: Config, steps: seq<Step>)
    requires LegalRun(c, steps) && c.stackEnrichment && Orderly(c, steps)
    requires forall i :: 0 <= i < |steps| && steps[i].Arrive? ==> steps[i].e.typ != TerminateThread
    ensures Fifo(After(c, steps), Given(steps))
  {
    if steps != [] {
      hide Give, Flush, FlushHangs, StackId, Inv, Fifo, Bucket, OldFirst, OrderlyTick;
      var before, last := steps[..|steps| - 1], steps[|steps| - 1];
      var s, given := After(c, before), Given(before);
      OrderlyBefore(c, steps);
      FirstInFirstOut(c, before);
      InvAlways(c, before);
      hide Orderly;
      match last {
        case Arrive(e) =>
          InvParts(s, given);
          OldestIsNoEnd(before, s, given, StackId(e));
          FifoGive(c, s, e, given);
        case Tick(ids, now) =>
          assert Given(steps) == given;
          FifoTick(c, s, ids, now, given);
      }
    }
  }

  lemma FifoTick(c: Config, s: State, ids: seq<nat>, now: int, given: seq<Event>)
    requires Fifo(s, given) && Inv(s, given) && Enumerates(s, ids) && !FlushHangs(c, s, ids, now) && OrderlyTick(s, now)
    ensures Fifo(Flush(c, s, ids, now), given)
  {
    hide Fifo, Inv, FlushHangs, Flush, OldFirst;
    FlushKeepsOrderExactly(c, s, ids, now, given);
  }

  lemma OrderlyBefore(c: Config, steps: seq<Step>)
    requires steps != [] && Orderly(c, steps)
    ensures Orderly(c, steps[..|steps| - 1])
    ensures steps[|steps| - 1].Tick? ==> OrderlyTick(After(c, steps[..|steps| - 1]), steps[|steps| - 1].now)
  {
    hide After, OrderlyTick;
    var before := steps[..|steps| - 1];
    forall i | 0 <= i < |before| && before[i].Tick?
      ensures OrderlyTick(After(c, before[..i]), before[i].now)
    {
      assert before[..i] == steps[..i];
      assert OrderlyTick(After(c, steps[..i]), steps[i].now);
    }
  }

  /** Where the events of a stack are given in order of time, flushes do not disturb the queues. */
  lemma {:induction false} TimelyIsOrderly(c: Config, steps: seq<Step>)
    requires LegalRun(c, steps) && c.stackEnrichment && Timely(Given(steps))
    requires forall i :: 0 <= i < |steps| && steps[i].Arrive? ==> steps[i].e.typ != TerminateThread
    ensures Orderly(c, steps) && Fifo(After(c, steps), Given(steps))
  {
    if steps != [] {
      hide Flush, Give, Fifo, Legal, OldFirst;
      var before, last := steps[..|steps| - 1], steps[|steps| - 1];
      assert Timely(Given(before)) by {
        assert Given(before) == Given(steps)[..|Given(before)|];
      }
      TimelyIsOrderly(c, before);
      var s := After(c, before);
      if last.Tick? {
        forall id | id in s.buckets
          ensures OldFirst(s.buckets[id], last.now)
        {
          BucketByTime(s, Given(before), id);
          ByTimeOldFirst(s.buckets[id], last.now);
        }
      }
      OrderlyNext(c, steps);
      FirstInFirstOut(c, steps);
    } else {
      FirstInFirstOut(c, steps);
    }
  }

  lemma OrderlyNext(c: Config, steps: seq<Step>)
    requires steps != [] && Orderly(c, steps[..|steps| - 1])
    requires steps[|steps| - 1].Tick? ==> OrderlyTick(After(c, steps[..|steps| - 1]), steps[|steps| - 1].now)
    ensures Orderly(c, steps)
  {
    hide After, OrderlyTick;
    var before := steps[..|steps| - 1];
    forall i | 0 <= i < |steps| && steps[i].Tick?
      ensures OrderlyTick(After(c, steps[..i]), steps[i].now)
    {
      if i < |before| {
        assert before[..i] == steps[..i];
        assert OrderlyTick(After(c, before[..i]), before[i].now);
      }
    }
  }

  lemma OldestIsNoEnd(steps: seq<Step>, s: State, given: seq<Event>, id: nat)
    requires Keyed(s) && Conserved(s, given) && given == Given(steps)
    requires forall i :: 0 <= i < |steps| && steps[i].Arrive? ==> steps[i].e.typ != TerminateThread
    ensures Bucket(s, id) != [] ==> Bucket(s, id)[0].typ != TerminateThread
  {
    hide Keyed, Conserved, Bucket;
    if Bucket(s, id) != [] {
      PendingGiven(s, given, id, Bucket(s, id)[0]);
      GivenArrived(steps, Bucket(s, id)[0]);
    }
  }

  lemma {:induction false} GivenArrived(steps: seq<Step>, e: Event)
    requires e in Given(steps)
    ensures exists i :: 0 <= i < |steps| && steps[i] == Arrive(e)
  {
    var n := |steps| - 1;
    if steps[n] != Arrive(e) {
      GivenArrived(steps[..n], e);
      var i :| 0 <= i < n && steps[..n][i] == Arrive(e);
      assert steps[i] == Arrive(e);
    }
  }
}
