/** Ordered sequences: one run, and what a firing reports. */
module SequenceOrdered {
  import opened SequenceModel
  import opened SequenceInvariants

  /** Slots fill up one after the other and nothing in them is newer than the last match. */
  ghost predicate OrderedInv(cfg: Config, s: State) {
    && Inv(cfg, s) && !cfg.unordered
    && s.partials.Keys == Below(s.fsm.slot)
    && (s.lastMatch == 0 <==> s.fsm == At(0))
    && NoneNewer(s)
  }

  ghost predicate NoneNewer(s: State) {
    forall k, e :: k in s.partials && e in s.partials[k] ==> e.timestamp <= s.lastMatch
  }

  ghost predicate SlotsFilled(s: State) {
    forall k :: k in s.partials ==> s.partials[k] != []
  }

  /** An event that comes too late changes nothing but links. */
  lemma {:induction false} LateRun(cfg: Config, s: State, e: Event, k: nat, order: MapOrder)
    requires !cfg.unordered && !InTime(s, e)
    ensures var o := RunFrom(cfg, s, e, k, order);
            o.accepted == [] && !o.fired && o.state == s.(meta := o.state.meta)
    decreases cfg.slots - k
  {
    if k < cfg.slots {
      LateRun(cfg, Decline(cfg, s, k, e), e, k + 1, order);
    }
  }

  lemma SortedPartial(cfg: Config, q: seq<Event>, e: Event)
    requires SortsByTime(cfg.sort)
    ensures var r := cfg.sort(q + [e]);
            && r != [] && (q == [] ==> r == [e])
            && (forall x :: x in r <==> x == e || x in q)
  {
    var r := cfg.sort(q + [e]);
    assert multiset(r) == multiset(q + [e]) == multiset(q) + multiset{e};
    assert |r| == |multiset(r)| == |q| + 1;
    forall x
      ensures x in r <==> x == e || x in q
    {
      assert x in r <==> x in multiset(r);
    }
    if q == [] {
      assert r[0] in multiset(r);
    }
  }

  /** Adding to an empty slot always succeeds; a slot that refuses the event was not empty. */
  lemma ExtendSlots(cfg: Config, partials: map<nat, seq<Event>>, k: nat, e: Event)
    requires SortsByTime(cfg.sort)
    ensures var p := Extend(cfg, partials, k, e);
            && p.Keys == partials.Keys + {k}
            && (forall j :: j in partials && j != k ==> p[j] == partials[j])
            && p[k] != []
            && (forall x :: x in p[k] ==> x == e || x in Slot(partials, k))
            && (Slot(partials, k) == [] ==> p[k] == [e])
  {
    SortedPartial(cfg, Slot(partials, k), e);
  }

  lemma NextBound(cfg: Config, s: State, k: nat)
    requires FsmInv(cfg, s) && s.fsm.At?
    ensures Next(s, k) <==> k <= s.fsm.slot
  {
    if k > s.fsm.slot {
      assert s.fsm.slot !in s.states;
    }
  }

  /** The machine after an acceptance: it moves exactly when the slot is the one it waits for. */
  lemma SlotInside(cfg: Config, s: State)
    requires FsmInv(cfg, s) && s.fsm.At?
    ensures s.fsm.slot < cfg.slots
  {
  }

  lemma AcceptMoves(cfg: Config, s: State, k: nat, e: Event, order: MapOrder)
    requires FsmInv(cfg, s) && s.fsm.At? && !cfg.unordered && k <= s.fsm.slot
    ensures var s1 := Accept(cfg, s, k, e, order);
            && s1.fsm == (if k < s.fsm.slot then s.fsm
                          else if k + 1 == cfg.slots then Terminal else At(k + 1))
            && s1.lastMatch == e.timestamp
            && s1.meta == Evaluated(cfg, s, k, e).meta
            && s1.partials == Extend(cfg, s.partials, k, e)
  {
    SlotInside(cfg, s);
    hide Extend, Refuses, Holds, MatchTransition, Retry, FsmInv;
    var s1 := AddPartial(cfg, Evaluated(cfg, s, k, e), k, e, false);
    SameFsm(cfg, s, s1);
    MatchTransitionKeeps(cfg, s1, k);
  }

  lemma ExtendNoneNewer(cfg: Config, partials: map<nat, seq<Event>>, k: nat, e: Event)
    requires SortsByTime(cfg.sort)
    requires forall j, x :: j in partials && x in partials[j] ==> x.timestamp <= e.timestamp
    ensures var p := Extend(cfg, partials, k, e);
            forall j, x :: j in p && x in p[j] ==> x.timestamp <= e.timestamp
  {
    ExtendSlots(cfg, partials, k, e);
    var p := Extend(cfg, partials, k, e);
    forall j: nat, x: Event | j in p && x in p[j]
      ensures x.timestamp <= e.timestamp
    {
      if j == k && x != e {
        assert k in partials && x in partials[k];
      }
    }
  }

  lemma AcceptNoneNewer(cfg: Config, s: State, k: nat, e: Event, order: MapOrder)
    requires SortsByTime(cfg.sort) && OrderedInv(cfg, s) && k <= s.fsm.slot && InTime(s, e)
    ensures NoneNewer(Accept(cfg, s, k, e, order))
  {
    hide SlotsOk, SortsByTime, Extend, Accept;
    AcceptMoves(cfg, s, k, e, order);
    assert s.lastMatch == 0 ==> s.partials.Keys == {};
    ExtendNoneNewer(cfg, s.partials, k, e);
  }

  lemma AcceptKeys(cfg: Config, s: State, k: nat, e: Event, order: MapOrder)
    requires SortsByTime(cfg.sort) && OrderedInv(cfg, s) && k <= s.fsm.slot
    ensures var s1 := Accept(cfg, s, k, e, order);
            && s1.partials.Keys == Below(Level(cfg, s1.fsm))
            && (SlotsFilled(s) ==> SlotsFilled(s1))
  {
    hide SlotsOk, SortsByTime, Extend, Accept;
    AcceptMoves(cfg, s, k, e, order);
    ExtendSlots(cfg, s.partials, k, e);
    assert Below(s.fsm.slot + 1) == Below(s.fsm.slot) + {s.fsm.slot};
  }

  lemma AcceptOrdered(cfg: Config, s: State, k: nat, e: Event, order: MapOrder)
    requires ValidConfig(cfg) && OrderedInv(cfg, s) && k <= s.fsm.slot && InTime(s, e) && VisitsKeys(order)
    ensures var s1 := Accept(cfg, s, k, e, order);
            && (SlotsFilled(s) ==> SlotsFilled(s1))
            && (s1.fsm != Terminal ==> OrderedInv(cfg, s1))
  {
    hide Accept, SlotsOk, SortsByTime, NoneNewer, SlotsFilled;
    AcceptMoves(cfg, s, k, e, order);
    AcceptKeeps(cfg, s, k, e, order);
    AcceptKeys(cfg, s, k, e, order);
    AcceptNoneNewer(cfg, s, k, e, order);
  }

  ghost predicate Rejected(cfg: Config, s: State, e: Event, k: nat, o: Outcome) {
    && !o.fired && o.state == s.(meta := o.state.meta)
    && (InTime(s, e) ==> o.state == s && forall j: nat :: k <= j < cfg.slots ==> !Matched(cfg, s, j, e))
  }

  ghost predicate AcceptedAt(cfg: Config, s: State, e: Event, k: nat, order: MapOrder, o: Outcome)
    requires |o.accepted| == 1 && s.fsm.At?
  {
    var a := o.accepted[0];
    && k <= a <= s.fsm.slot && a < cfg.slots && Accepts(cfg, s, a, e)
    && (forall j: nat :: k <= j < a ==> !Matched(cfg, s, j, e))
    && var s1 := Accept(cfg, s, a, e, order);
    && o.fired == (s1.fsm == Terminal)
    && o.state == (if o.fired then CollectMatches(cfg, Fire(cfg, s1, ResetTrigger)) else s1.(meta := o.state.meta))
  }

  lemma DeclineInTime(cfg: Config, s: State, k: nat, e: Event)
    requires !cfg.unordered && InTime(s, e) && !Accepts(cfg, s, k, e)
    ensures Decline(cfg, s, k, e) == s && !Matched(cfg, s, k, e)
  {
  }

  /** A run accepts the event in the first slot that matches it in time, and in no other. */
  lemma {:induction false} OrderedRun(cfg: Config, s: State, e: Event, k: nat, order: MapOrder)
    requires FsmInv(cfg, s) && s.fsm.At? && !cfg.unordered
    ensures var o := RunFrom(cfg, s, e, k, order);
            && |o.accepted| <= 1
            && (o.accepted == [] ==> Rejected(cfg, s, e, k, o))
            && (o.accepted != [] ==> AcceptedAt(cfg, s, e, k, order, o))
    decreases cfg.slots - k
  {
    hide Evaluated, AcceptEvaluated, Accept;
    if k < cfg.slots {
      NextBound(cfg, s, k);
      if !InTime(s, e) {
        LateRun(cfg, s, e, k, order);
      } else if !Accepts(cfg, s, k, e) {
        DeclineInTime(cfg, s, k, e);
        hide Decline, Accept, AcceptEvaluated, Matched, CollectMatches, Fire;
        OrderedRun(cfg, s, e, k + 1, order);
      } else {
        AcceptMoves(cfg, s, k, e, order);
        hide Decline, Accept, AcceptEvaluated, CollectMatches, Fire, FsmInv, Holds, Next;
        LateRun(cfg, Accept(cfg, s, k, e, order), e, k + 1, order);
      }
    }
  }

  lemma ProcessEventOrdered(cfg: Config, s: State, e: Event, order: MapOrder)
    requires ValidConfig(cfg) && OrderedInv(cfg, s) && VisitsKeys(order)
    ensures var r := ProcessEvent(cfg, s, e, order);
            && OrderedInv(cfg, r.state)
            && (SlotsFilled(s) ==> SlotsFilled(r.state))
  {
    var o := Run(cfg, s, e, order);
    OrderedRun(cfg, s, e, 0, order);
    ProcessEventKeeps(cfg, s, e, order);
    if o.accepted != [] {
      AcceptMoves(cfg, s, o.accepted[0], e, order);
      AcceptOrdered(cfg, s, o.accepted[0], e, order);
    }
  }

  /** A rule that is indexed twice under one event type sees the event twice; the second time does nothing. */
  lemma ReplayChangesNothing(cfg: Config, s: State, e: Event, order: MapOrder, order': MapOrder)
    requires ValidConfig(cfg) && OrderedInv(cfg, s) && VisitsKeys(order) && VisitsKeys(order')
    requires !ProcessEvent(cfg, s, e, order).fired
    ensures var once := ProcessEvent(cfg, s, e, order).state;
            var twice := ProcessEvent(cfg, once, e, order');
            !twice.fired && twice.accepted == [] && twice.state == once.(meta := twice.state.meta)
  {
    var r := ProcessEvent(cfg, s, e, order);
    OrderedRun(cfg, s, e, 0, order);
    ProcessEventOrdered(cfg, s, e, order);
    if !InTime(r.state, e) {
      LateRun(cfg, r.state, e, 0, order');
    } else {
      OrderedRun(cfg, r.state, e, 0, order');
    }
  }

}
