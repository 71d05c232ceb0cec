/** The sequence state as an object: every callback updates its fields in place and is proved against the model. */
module SequenceRules {
  import opened Links
  import opened Options
  import opened SequenceModel
  import opened SequenceInvariants

  class SequenceState {
    const cfg: Config
    var fsm: Fsm
    var states: set<nat>
    var partials: map<nat, seq<Event>>
    var matches: map<nat, Event>
    var lastMatch: nat
    var inDeadline: bool
    var inExpired: bool
    var breached: bool
    var timers: set<nat>
    var meta: Meta
    var errors: nat

    ghost function Abs(): State
      reads this
    {
      State(fsm, states, partials, matches, lastMatch, inDeadline, inExpired, breached, timers, meta, errors)
    }

    /** The rule is well formed and the object is between two callbacks. */
    ghost predicate Valid()
      reads this
    {
      ValidConfig(cfg) && Inv(cfg, Abs())
    }

    constructor (cfg: Config, meta: Meta)
      requires ValidConfig(cfg)
      ensures this.cfg == cfg && Abs() == Initial(meta) && Valid()
    {
      this.cfg := cfg;
      this.meta := meta;
      fsm, states, partials, matches := At(0), {}, map[], map[];
      lastMatch, inDeadline, inExpired, breached, timers, errors := 0, false, false, false, {}, 0;
    }

    method ClearState()
      modifies this
      ensures Abs() == Clear(old(Abs()))
    {
      partials := map[];
      matches := map[];
      states := {};
      timers := {};
      breached := false;
      lastMatch := 0;
    }

    /** The flags of a deadline or an expiry end with the next first match. */
    method LowerFlags(source: Fsm)
      modifies `inDeadline, `inExpired
      ensures inDeadline == (old(inDeadline) && source != At(0)) && inExpired == (old(inExpired) && source != At(0))
    {
      if source == At(0) && inDeadline {
        inDeadline := false;
      }
      if source == At(0) && inExpired {
        inExpired := false;
      }
    }

    /** The transition callback. */
    method Transitioned(source: Fsm, trigger: Trigger)
      modifies this
      ensures Abs() == OnTransitioned(cfg, old(Abs()), source, trigger)
    {
      if cfg.maxSpan != 0 && Schedulable(fsm) {
        timers := timers + {fsm.slot};
      }
      LowerFlags(source);
      if trigger == ExpireTrigger || trigger == CancelTrigger {
        ClearState();
      }
      if trigger == MatchTrigger && source.At? {
        timers := timers - {source.slot};
        states := states + {source.slot};
      }
    }

    method FireTrigger(trigger: Trigger) returns (ok: bool)
      modifies this
      ensures Abs() == Fire(cfg, old(Abs()), trigger)
      ensures ok == Permit(cfg, old(fsm), trigger).Some?
    {
      var permitted := Permit(cfg, fsm, trigger);
      ok := permitted.Some?;
      if ok {
        var source := fsm;
        fsm := permitted.value;
        Transitioned(source, trigger);
      } else {
        errors := errors + 1;
      }
    }

    method FireMatch(k: nat)
      modifies this
      ensures Abs() == MatchTransition(cfg, old(Abs()), k)
    {
      if k !in states {
        var _ := FireTrigger(MatchTrigger);
      }
    }

    method AddToSlot(k: nat, e: Event, isOoo: bool)
      modifies `partials, `breached, `meta
      ensures Abs() == AddPartial(cfg, old(Abs()), k, e, isOoo)
    {
      var q := Slot(partials, k);
      if |q| > MAX_OUTSTANDING_PARTIALS {
        breached := true;
        return;
      }
      if e.key != 0 {
        for i := 0 to |q|
          invariant forall j :: 0 <= j < i ==> q[j].key != e.key
        {
          if q[i].key == e.key {
            return;
          }
        }
      }
      if isOoo {
        meta := meta.(ooo := meta.ooo + {e});
      }
      partials := partials[k := cfg.sort(q + [e])];
    }

    // ---- garbage collection ----

    /** Walks the slot from its end and takes out what has outlived the rule. */
    method SweepSlot(k: nat, now: int)
      modifies `partials
      ensures partials == if k in old(partials)
                          then old(partials)[k := Retain(old(partials)[k], Stale(cfg, now), k)]
                          else old(partials)
    {
      if k !in partials {
        return;
      }
      ghost var before := partials;
      var q := partials[k];
      var i := |q|;
      ghost var tail: seq<Event> := [];
      assert q[..|q|] == q && q[..|q|] + tail == q && before[k := q] == before;
      while i > 0
        invariant 0 <= i <= |q| && partials == before[k := q[..i] + tail]
        invariant Retain(q, Stale(cfg, now), k) == Retain(q[..i], Stale(cfg, now), k) + tail
      {
        i := i - 1;
        RetainLast(q, Stale(cfg, now), k, i, tail);
        hide Retain;
        if |partials[k]| > 0 && now - partials[k][i].timestamp > Lifetime(cfg) {
          partials := partials[k := partials[k][..i] + partials[k][i + 1..]];
        } else {
          tail := [q[i]] + tail;
        }
      }
    }

    /** The slots may be visited in any order. */
    method CollectGarbage(now: int, order: seq<nat>)
      requires Valid() && AllSlots(cfg, order)
      modifies `partials
      ensures Abs() == Gc(cfg, old(Abs()), now) && Valid()
    {
      GcKeeps(cfg, Abs(), now);
      ghost var before := partials;
      for i := 0 to |order|
        invariant Partly(before, partials, Stale(cfg, now), order, i)
      {
        PartlyStep(cfg, before, partials, Stale(cfg, now), order, i);
        SweepSlot(order[i], now);
      }
      assert partials == RetainAll(before, Stale(cfg, now)) by {
        PartlyAll(cfg, before, partials, Stale(cfg, now), order);
      }
    }

    // ---- expiry and deadlines ----

    /** Takes the expirable partials out of one slot; `drained` when that leaves a slot that held some empty. */
    method ExpireSlot(k: nat, t: Event) returns (drained: bool)
      modifies `partials
      ensures drained == (k in old(partials) && old(partials)[k] != [] && AllExpire(cfg, old(partials)[k], t, k))
      ensures !drained ==>
                partials == if k in old(partials)
                            then old(partials)[k := Retain(old(partials)[k], Expirable(cfg, t), k)]
                            else old(partials)
    {
      if k !in partials {
        return false;
      }
      ghost var before := partials;
      var q := partials[k];
      var i := |q|;
      ghost var tail: seq<Event> := [];
      assert q[..|q|] == q && q[..|q|] + tail == q && before[k := q] == before;
      RetainNothing(q, Expirable(cfg, t), k);
      while i > 0
        invariant 0 <= i <= |q| && partials == before[k := q[..i] + tail]
        invariant Retain(q, Expirable(cfg, t), k) == Retain(q[..i], Expirable(cfg, t), k) + tail
        invariant q == [] || q[..i] + tail != []
      {
        i := i - 1;
        RetainLast(q, Expirable(cfg, t), k, i, tail);
        if |partials[k]| > 0 && !CanExpire(partials[k][i], t, k + 1 == cfg.slots) {
          tail := [q[i]] + tail;
          continue;
        }
        partials := partials[k := partials[k][..i] + partials[k][i + 1..]];
        if |partials[k]| == 0 {
          return true;
        }
      }
      drained := false;
    }

    method ExpireSequence()
      modifies this
      ensures Abs() == ExpireWhole(cfg, old(Abs()))
    {
      inExpired := true;
      var ok := FireTrigger(ExpireTrigger);
      inExpired := ok && inExpired;
      ok := FireTrigger(ResetTrigger);
    }

    /** The outcome is the same for every order in which the slots are visited. */
    method ExpirePartials(t: Event, order: seq<nat>) returns (expired: bool)
      requires Valid() && AllSlots(cfg, order)
      modifies this
      ensures Abs() == Expire(cfg, old(Abs()), t) && Valid()
      ensures expired == (t.etype == TerminateProcess && Drained(cfg, old(Abs()), t))
    {
      ExpireKeeps(cfg, Abs(), t);
      if t.etype != TerminateProcess {
        return false;
      }
      ghost var s := Abs();
      hide FsmInv, SlotsOk, Retain, RetainAll, AllExpire, ExpireWhole, SortsByTime, Drained, NoneDrained, Partly;
      PartlyNone(s.partials, Expirable(cfg, t), order);
      NoneDrainedYet(cfg, s, t, order);
      for i := 0 to |order|
        invariant Abs() == s.(partials := partials)
        invariant Partly(s.partials, partials, Expirable(cfg, t), order, i)
        invariant NoneDrained(cfg, s, t, order, i)
      {
        PartlyStep(cfg, s.partials, partials, Expirable(cfg, t), order, i);
        DrainStep(cfg, s, partials, t, order, i);
        var drained := ExpireSlot(order[i], t);
        if drained {
          ExpireWholeForgets(cfg, s, partials);
          ExpireSequence();
          return true;
        }
      }
      NotDrained(cfg, s, t, order);
      PartlyAll(cfg, s.partials, partials, Expirable(cfg, t), order);
      return false;
    }

    /** The max-span timer of a slot goes off. */
    method DeadlineReached(k: nat)
      requires Valid() && k > 0
      modifies this
      ensures Abs() == Cancel(cfg, old(Abs()), k) && Valid()
    {
      CancelKeeps(cfg, Abs(), k);
      if fsm == At(k) {
        inDeadline := true;
        var ok := FireTrigger(CancelTrigger);
        inDeadline := ok && inDeadline;
        ok := FireTrigger(ResetTrigger);
      }
    }

    // ---- evaluation ----

    method NextSlot(k: nat) returns (next: bool)
      ensures next == Next(Abs(), k)
    {
      if k == 0 {
        return true;
      }
      next := false;
      for n := 0 to k
        invariant n > 0 ==> next
        invariant forall j :: 0 <= j < n ==> j in states
      {
        next := n in states;
        if !next {
          return false;
        }
      }
      next := next && !inDeadline && !inExpired;
    }

    /** Looks for a partial with an equal link in every slot upstream of `k`. */
    method JoinUpstream(linkId: Link, k: nat) returns (all: bool)
      ensures all == forall j :: 0 <= j < k ==> SlotJoins(cfg, meta, Slot(partials, j), linkId)
    {
      var joins := new bool[k](_ => false);
      for i := 0 to k
        invariant forall j :: 0 <= j < i ==> joins[j] == SlotJoins(cfg, meta, Slot(partials, j), linkId)
        invariant forall j :: i <= j < k ==> !joins[j]
      {
        var q := Slot(partials, i);
        for p := 0 to |q|
          invariant !joins[i]
          invariant forall j :: 0 <= j < p ==> !LinksTo(cfg.text, linkId, LinksOf(meta, q[j]))
          invariant forall j :: 0 <= j < i ==> joins[j] == SlotJoins(cfg, meta, Slot(partials, j), linkId)
          invariant forall j :: i < j < k ==> !joins[j]
        {
          var hit := CompareSeqLink(cfg.text, linkId, LinksOf(meta, q[p]));
          if hit {
            joins[i] := true;
            break;
          }
        }
      }
      all := JoinsEqual(joins);
      forall j | 0 <= j < k
        ensures all ==> SlotJoins(cfg, meta, Slot(partials, j), linkId)
      {
        assert all ==> joins[j];
      }
    }

    method EvalSequence(e: Event, k: nat) returns (holds: bool)
      modifies `meta
      ensures holds == Holds(cfg, old(Abs()), k, e)
      ensures Abs() == Evaluated(cfg, old(Abs()), k, e)
    {
      if k >= 1 && HasBy(cfg) {
        holds := JoinUpstream(LinkOf(cfg, k, e), k);
        holds := holds && cfg.eval(k, e);
      } else {
        holds := cfg.eval(k, e);
      }
      if holds && HasBy(cfg) {
        meta := AddLink(meta, e, LinkOf(cfg, k, e));
      }
    }

    // ---- out-of-order partials ----

    method RetryEvents(k: nat, q: seq<Event>)
      requires ValidConfig(cfg) && MidInv(cfg, Abs()) && k < cfg.slots
      modifies this
      ensures Abs() == RetrySlot(cfg, old(Abs()), k, q)
    {
      ghost var s := Abs();
      assert q[..0] == [];
      for j := 0 to |q|
        invariant Abs() == RetrySlot(cfg, s, k, q[..j])
      {
        assert q[..j + 1][..j] == q[..j];
        hide MidInv, MatchTransition, Evaluated, Holds, ValidConfig;
        if q[j] in meta.ooo {
          var holds := EvalSequence(q[j], k);
          if holds {
            FireMatch(k);
            meta := meta.(ooo := meta.ooo - {q[j]});
          }
        }
      }
      assert q[..|q|] == q;
    }

    method RetryPending(order: seq<nat>)
      requires Valid() && forall i :: 0 <= i < |order| ==> order[i] < cfg.slots
      modifies this
      ensures Abs() == Retry(cfg, old(Abs()), order)
    {
      ghost var s := Abs();
      assert order[..0] == [];
      for i := 0 to |order|
        invariant Abs() == Retry(cfg, s, order[..i])
      {
        assert order[..i + 1][..i] == order[..i];
        RetryKeeps(cfg, s, order[..i]);
        RetryEvents(order[i], Slot(partials, order[i]));
      }
      assert order[..|order|] == order;
    }

    // ---- collecting a match ----

    method SetFirst(k: nat, e: Event)
      modifies `matches
      ensures matches == SetMatch(old(matches), k, e)
    {
      if k !in matches {
        matches := matches[k := e];
      }
    }

    /** Offers the pairs of one event with those of the next slot. */
    method CollectInner(k: nat, outer: Event)
      modifies `matches
      ensures matches == Offered(old(matches), k,
                                 OrPair(None, outer, FirstInner(cfg, meta, outer, Slot(partials, k + 1))))
    {
      ghost var m := matches;
      var r := Slot(partials, k + 1);
      for j := 0 to |r|
        invariant matches == Offered(m, k, OrPair(None, outer, FirstInner(cfg, meta, outer, r[..j])))
      {
        assert r[..j + 1][..j] == r[..j];
        var linked := CompareSeqLinks(cfg.text, LinksOf(meta, outer), LinksOf(meta, r[j]));
        if linked || (!HasBy(cfg) && outer !in meta.links && r[j] !in meta.links) {
          SetFirst(k, outer);
          SetFirst(k + 1, r[j]);
        }
      }
      assert r[..|r|] == r;
    }

    /** Every pair of the two slots is offered, and the first one is kept. */
    method CollectPass(k: nat)
      modifies `matches
      ensures matches == Offered(old(matches), k, FirstPair(cfg, meta, Slot(partials, k), Slot(partials, k + 1)))
    {
      ghost var m := matches;
      var q, r := Slot(partials, k), Slot(partials, k + 1);
      for i := 0 to |q|
        invariant matches == Offered(m, k, FirstPair(cfg, meta, q[..i], r))
      {
        assert q[..i + 1][..i] == q[..i];
        OfferedTwice(m, k, FirstPair(cfg, meta, q[..i], r), q[i], FirstInner(cfg, meta, q[i], r));
        CollectInner(k, q[i]);
      }
      assert q[..|q|] == q;
    }

    method Collect()
      modifies `matches
      ensures Abs() == CollectMatches(cfg, old(Abs()))
    {
      ghost var s := Abs();
      for k := 0 to |partials|
        invariant Abs() == s.(matches := CollectTo(cfg, s, k))
      {
        CollectPass(k);
      }
    }

    // ---- running the sequence ----

    /** An event that slot `k` matched in time goes into the slot and moves the machine. */
    method AcceptEvent(e: Event, k: nat, order: MapOrder)
      requires Valid() && k < cfg.slots && VisitsKeys(order)
      modifies this
      ensures Abs() == AcceptEvaluated(cfg, old(Abs()), k, e, order)
    {
      hide Extend, Refuses, SlotOk, Sorted, SortsByTime, MatchTransition, Retry;
      ExtendKeeps(cfg, partials, k, e);
      AddToSlot(k, e, false);
      MatchTransitionKeeps(cfg, Abs(), k);
      FireMatch(k);
      if !cfg.unordered {
        lastMatch := e.timestamp;
      }
      if cfg.unordered && fsm != Terminal {
        RetryPending(order(k, partials.Keys));
      }
    }

    /** One round of the loop over the expressions. */
    method TrySlot(e: Event, k: nat, order: MapOrder) returns (accepted: bool)
      requires Valid() && k < cfg.slots && VisitsKeys(order)
      modifies this
      ensures accepted == Accepts(cfg, old(Abs()), k, e)
      ensures Abs() == if accepted then Accept(cfg, old(Abs()), k, e, order) else Decline(cfg, old(Abs()), k, e)
    {
      hide AcceptEvaluated, AddPartial, FsmInv, SlotsOk, VisitsKeys, SortsByTime, Holds, Next;
      var next := NextSlot(k);
      if !next {
        if cfg.unordered && cfg.evaluable(k, e) && cfg.eval(k, e) {
          AddToSlot(k, e, true);
        }
        return false;
      }
      if !cfg.evaluable(k, e) {
        return false;
      }
      EvaluatedKeeps(cfg, Abs(), k, e);
      var holds := EvalSequence(e, k);
      if !holds {
        return false;
      }
      if !cfg.unordered && lastMatch != 0 && e.timestamp <= lastMatch {
        return false;
      }
      AcceptEvent(e, k, order);
      return true;
    }

    method RunSequence(e: Event, order: MapOrder) returns (fired: bool)
      requires Valid() && VisitsKeys(order)
      modifies this
      ensures var o := Run(cfg, old(Abs()), e, order); Abs() == o.state && fired == o.fired
    {
      ghost var o := Run(cfg, Abs(), e, order);
      RunEnds(cfg, e, order);
      for k := 0 to cfg.slots
        invariant Valid()
        invariant var r := RunFrom(cfg, Abs(), e, k, order); r.state == o.state && r.fired == o.fired
      {
        RunStep(cfg, Abs(), e, k, order);
        TryKeeps(cfg, Abs(), e, k, order);
        hide RunFrom, Accept, Accepts, Decline, MidInv, CollectMatches, Fire, VisitsKeys, ValidConfig;
        var accepted := TrySlot(e, k, order);
        if accepted && fsm == Terminal {
          var _ := FireTrigger(ResetTrigger);
          Collect();
          return true;
        }
      }
      return false;
    }

    /** The events of the match, ordered by time. */
    method Events(order: seq<nat>) returns (events: seq<Event>)
      ensures events == EventsOf(cfg, matches, order)
    {
      events := [];
      assert order[..0] == [];
      for i := 0 to |order|
        invariant events == Values(matches, order[..i])
      {
        assert order[..i + 1][..i] == order[..i];
        if order[i] in matches {
          events := events + [matches[order[i]]];
        }
      }
      assert order[..|order|] == order;
      events := cfg.sort(events);
    }

    /** The engine's use of the rule: run it, and when it fires take its events and clear it. */
    method Process(e: Event, order: MapOrder, visit: seq<nat>) returns (fired: bool, events: seq<Event>)
      requires Valid() && VisitsKeys(order)
      modifies this
      ensures var r := ProcessEvent(cfg, old(Abs()), e, order);
              && Abs() == r.state && fired == r.fired
              && events == if fired then EventsOf(cfg, r.matches, visit) else []
      ensures Valid()
    {
      ProcessEventKeeps(cfg, Abs(), e, order);
      fired := RunSequence(e, order);
      events := [];
      if fired {
        events := Events(visit);
        ClearState();
      }
    }
  }

  /** A range over the expressions visits every slot once. */
  ghost predicate AllSlots(cfg: Config, order: seq<nat>) {
    && (forall k: nat :: k < cfg.slots <==> k in order)
    && (forall i, j :: 0 <= i < j < |order| ==> order[i] != order[j])
  }

  /** The first `i` slots of `order` are filtered, the others are as before. */
  ghost predicate Partly(before: map<nat, seq<Event>>, now: map<nat, seq<Event>>,
                         drop: (nat, Event) -> bool, order: seq<nat>, i: nat)
  {
    && i <= |order| && now.Keys == before.Keys
    && (forall j :: 0 <= j < i && order[j] in before ==> now[order[j]] == Retain(before[order[j]], drop, order[j]))
    && (forall k :: k in before && k !in order[..i] ==> now[k] == before[k])
  }

  lemma PartlyStep(cfg: Config, before: map<nat, seq<Event>>, now: map<nat, seq<Event>>,
                   drop: (nat, Event) -> bool, order: seq<nat>, i: nat)
    requires AllSlots(cfg, order) && i < |order| && Partly(before, now, drop, order, i)
    ensures var k := order[i];
            Partly(before, if k in now then now[k := Retain(now[k], drop, k)] else now, drop, order, i + 1)
  {
    assert order[..i + 1] == order[..i] + [order[i]];
    assert order[i] !in order[..i];
  }

  lemma PartlyAll(cfg: Config, before: map<nat, seq<Event>>, now: map<nat, seq<Event>>,
                  drop: (nat, Event) -> bool, order: seq<nat>)
    requires SlotsOk(cfg, before) && AllSlots(cfg, order) && Partly(before, now, drop, order, |order|)
    ensures now == RetainAll(before, drop)
  {
    forall k | k in before
      ensures now[k] == Retain(before[k], drop, k)
    {
      assert k in order;
      var j :| 0 <= j < |order| && order[j] == k;
      assert now[order[j]] == Retain(before[order[j]], drop, order[j]);
    }
  }

  /** None of the first `i` slots of `order` is drained. */
  ghost predicate NoneDrained(cfg: Config, s: State, t: Event, order: seq<nat>, i: nat) {
    i <= |order| && forall j :: 0 <= j < i ==>
      Slot(s.partials, order[j]) == [] || !AllExpire(cfg, Slot(s.partials, order[j]), t, order[j])
  }

  lemma NoneDrainedYet(cfg: Config, s: State, t: Event, order: seq<nat>)
    ensures NoneDrained(cfg, s, t, order, 0)
  {
  }

  lemma PartlyNone(before: map<nat, seq<Event>>, drop: (nat, Event) -> bool, order: seq<nat>)
    ensures Partly(before, before, drop, order, 0)
  {
  }

  /** The next slot is as it was before, and what it holds decides whether the sequence expires here. */
  lemma DrainStep(cfg: Config, s: State, now: map<nat, seq<Event>>, t: Event, order: seq<nat>, i: nat)
    requires AllSlots(cfg, order) && i < |order| && NoneDrained(cfg, s, t, order, i)
    requires Partly(s.partials, now, Expirable(cfg, t), order, i)
    ensures var k := order[i];
            var drained := k in now && now[k] != [] && AllExpire(cfg, now[k], t, k);
            (drained ==> Drained(cfg, s, t)) && (!drained ==> NoneDrained(cfg, s, t, order, i + 1))
  {
    var k := order[i];
    assert k in order;
    assert k !in order[..i];
    assert Slot(now, k) == Slot(s.partials, k);
  }

  lemma NotDrained(cfg: Config, s: State, t: Event, order: seq<nat>)
    requires AllSlots(cfg, order) && NoneDrained(cfg, s, t, order, |order|)
    ensures !Drained(cfg, s, t)
  {
    forall k: nat | k < cfg.slots
      ensures Slot(s.partials, k) == [] || !AllExpire(cfg, Slot(s.partials, k), t, k)
    {
      assert k in order;
      var j :| 0 <= j < |order| && order[j] == k;
      assert Slot(s.partials, order[j]) == [] || !AllExpire(cfg, Slot(s.partials, order[j]), t, order[j]);
    }
  }

  /** Expiring the whole sequence forgets the partials, also those already taken out. */
  lemma ExpireWholeForgets(cfg: Config, s: State, p: map<nat, seq<Event>>)
    requires Inv(cfg, s)
    ensures ExpireWhole(cfg, s.(partials := p)) == ExpireWhole(cfg, s)
  {
  }

  method JoinsEqual(joins: array<bool>) returns (all: bool)
    ensures all <==> forall i :: 0 <= i < joins.Length ==> joins[i]
  {
    for i := 0 to joins.Length
      invariant forall j :: 0 <= j < i ==> joins[j]
    {
      if !joins[i] {
        return false;
      }
    }
    return true;
  }

  /** What the match list becomes when the pair found for slots `k` and `k + 1` is offered. */
  function Offered(m: map<nat, Event>, k: nat, p: Option<(Event, Event)>): map<nat, Event> {
    match p
    case None => m
    case Some((outer, inner)) => SetMatch(SetMatch(m, k, outer), k + 1, inner)
  }

  function OrPair(p: Option<(Event, Event)>, outer: Event, inner: Option<Event>): Option<(Event, Event)> {
    if p.Some? then p else if inner.Some? then Some((outer, inner.value)) else None
  }

  /** Once a pair has been kept, later ones change nothing. */
  lemma OfferedTwice(m: map<nat, Event>, k: nat, p: Option<(Event, Event)>, outer: Event, inner: Option<Event>)
    ensures Offered(Offered(m, k, p), k, OrPair(None, outer, inner)) == Offered(m, k, OrPair(p, outer, inner))
  {
  }

  lemma {:induction false} RetainNothing(q: seq<Event>, drop: (nat, Event) -> bool, k: nat)
    ensures Retain(q, drop, k) == [] <==> forall i :: 0 <= i < |q| ==> drop(k, q[i])
  {
    RetainMembers(q, drop, k);
    if Retain(q, drop, k) != [] {
      assert Retain(q, drop, k)[0] in q;
    }
  }

  /** One round of a backward walk: the last event of the part not yet walked. */
  lemma RetainLast(q: seq<Event>, drop: (nat, Event) -> bool, k: nat, i: nat, tail: seq<Event>)
    requires i < |q|
    ensures var now := q[..i + 1] + tail;
            now[i] == q[i] && now[..i] + now[i + 1..] == q[..i] + tail && now == q[..i] + ([q[i]] + tail)
    ensures Retain(q[..i + 1], drop, k) + tail
            == Retain(q[..i], drop, k) + if drop(k, q[i]) then tail else [q[i]] + tail
  {
    assert q[..i + 1][..i] == q[..i];
  }

  lemma EvaluatedKeeps(cfg: Config, s: State, k: nat, e: Event)
    requires Inv(cfg, s)
    ensures Inv(cfg, Evaluated(cfg, s, k, e))
  {
  }

  lemma RunStep(cfg: Config, s: State, e: Event, k: nat, order: MapOrder)
    requires k < cfg.slots
    ensures var o := RunFrom(cfg, s, e, k, order);
            if !Accepts(cfg, s, k, e) then o == RunFrom(cfg, Decline(cfg, s, k, e), e, k + 1, order)
            else
              var s1 := Accept(cfg, s, k, e, order);
              if s1.fsm == Terminal then o.fired && o.state == CollectMatches(cfg, Fire(cfg, s1, ResetTrigger))
              else
                var rest := RunFrom(cfg, s1, e, k + 1, order);
                o.state == rest.state && o.fired == rest.fired
  {
  }

  lemma RunEnds(cfg: Config, e: Event, order: MapOrder)
    ensures forall s :: RunFrom(cfg, s, e, cfg.slots, order) == Outcome(s, [], false)
  {
  }

  lemma TryKeeps(cfg: Config, s: State, e: Event, k: nat, order: MapOrder)
    requires ValidConfig(cfg) && Inv(cfg, s) && k < cfg.slots && VisitsKeys(order)
    ensures MidInv(cfg, if Accepts(cfg, s, k, e) then Accept(cfg, s, k, e, order) else Decline(cfg, s, k, e))
    ensures !Accepts(cfg, s, k, e) ==> Decline(cfg, s, k, e).fsm == s.fsm
    ensures var s1 := Accept(cfg, s, k, e, order); Accepts(cfg, s, k, e) ==> s1.fsm == Terminal || s1.fsm.At?
  {
    if Accepts(cfg, s, k, e) {
      AcceptKeeps(cfg, s, k, e, order);
    } else {
      DeclineKeeps(cfg, s, k, e);
    }
  }
}
