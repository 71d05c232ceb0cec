/** When an unordered rule of two slots fires: as soon as both have been met, in whatever order the events arrive. */
module SequenceAnyOrder {
  import opened SequenceModel
  import opened SequenceInvariants
  import opened SequenceOrdered
  import opened SequenceRuns
  import opened SequenceExact
  import opened SequenceUnordered
  import SequencePartials
  import SequenceRivals

  /** A range over a map visits all of its keys. */
  ghost predicate Thorough(order: MapOrder) {
    VisitsKeys(order) && forall site, keys, k :: k in keys ==> k in order(site, keys)
  }

  /** A rule over two slots without joins and order. */
  ghost predicate TwoUnordered(cfg: Config) {
    ValidConfig(cfg) && cfg.slots == 2 && cfg.unordered && cfg.join.NoBy?
  }

  ghost predicate BothMet(cfg: Config, w: seq<Event>) {
    MetBy(cfg, w, 0) && MetBy(cfg, w, 1)
  }

  /** The events since both slots were last met, on a stream of events. */
  ghost function Since(cfg: Config, es: seq<Event>): seq<Event> {
    if es == [] then []
    else
      var w := Since(cfg, es[..|es| - 1]) + [es[|es| - 1]];
      if BothMet(cfg, w) then [] else w
  }

  // ---- the automaton against the window ----

  /** The machine waits for whatever the window lacks; what met the second slot too early waits there. */
  ghost predicate Follows(cfg: Config, s: State, w: seq<Event>) {
    && Inv(cfg, s) && !BothMet(cfg, w)
    && s.fsm == (if MetBy(cfg, w, 0) then At(1) else At(0))
    && (Slot(s.partials, 1) != [] <==> MetBy(cfg, w, 1))
    && (forall x :: x in Slot(s.partials, 1) ==> x in s.meta.ooo && Condition(cfg, 1, x) && x in w)
    && (forall x :: x in Slot(s.partials, 0) ==> Condition(cfg, 0, x) && x in w)
  }

  lemma MetMore(cfg: Config, w: seq<Event>, e: Event, k: nat)
    ensures MetBy(cfg, w + [e], k) <==> MetBy(cfg, w, k) || Condition(cfg, k, e)
  {
    hide Condition;
    if MetBy(cfg, w, k) {
      var x :| x in w && Condition(cfg, k, x);
      assert x in w + [e];
    }
    if Condition(cfg, k, e) {
      assert e in w + [e];
    }
  }

  /** A slot whose condition the event does not meet is passed over. */
  lemma Skips(cfg: Config, s: State, e: Event, k: nat, order: MapOrder)
    requires cfg.join.NoBy? && k < cfg.slots && !Condition(cfg, k, e)
    ensures RunFrom(cfg, s, e, k, order) == RunFrom(cfg, s, e, k + 1, order)
  {
    hide Accept;
    assert Decline(cfg, s, k, e) == s;
  }

  lemma Done(cfg: Config, s: State, e: Event, order: MapOrder)
    ensures RunFrom(cfg, s, e, cfg.slots, order) == Outcome(s, [], false)
  {
  }

  // ---- retrying ----

  /** On its way through the slots the retry is either still waiting, with every early event marked, or done. */
  ghost predicate Retrying(cfg: Config, s: State, partials: map<nat, seq<Event>>) {
    && FsmInv(cfg, s) && s.partials == partials && (s.fsm == At(1) || s.fsm == Terminal)
    && (s.fsm == At(1) ==> forall x :: x in Slot(partials, 1) ==> x in s.meta.ooo)
  }

  lemma RetryOne(cfg: Config, s: State, k: nat, x: Event, partials: map<nat, seq<Event>>)
    requires TwoUnordered(cfg) && Retrying(cfg, s, partials) && k < 2 && Condition(cfg, k, x)
    requires k == 0 ==> x !in Slot(partials, 1)
    ensures var t := RetryEvent(cfg, s, k, x);
            && Retrying(cfg, t, partials) && (s.fsm == Terminal || (k == 1 && x in s.meta.ooo) ==> t.fsm == Terminal)
  {
    assert Holds(cfg, s, k, x) && Evaluated(cfg, s, k, x) == s;
    hide Condition, Holds, Slot, ValidConfig, MatchTransition;
    MatchTransitionKeeps(cfg, s, k);
  }

  lemma {:induction false} RetryAll(cfg: Config, s: State, k: nat, q: seq<Event>, partials: map<nat, seq<Event>>)
    requires TwoUnordered(cfg) && Retrying(cfg, s, partials) && k < 2
    requires forall x :: x in q ==> Condition(cfg, k, x) && (k == 0 ==> x !in Slot(partials, 1))
    requires k == 1 && q != [] ==> q[0] in s.meta.ooo || s.fsm == Terminal
    ensures var t := RetrySlot(cfg, s, k, q);
            Retrying(cfg, t, partials) && (s.fsm == Terminal || (k == 1 && q != []) ==> t.fsm == Terminal)
  {
    if q != [] {
      hide Condition, Retrying, TwoUnordered, Slot, RetryEvent;
      var n := |q| - 1;
      RetryAll(cfg, s, k, q[..n], partials);
      assert q[n] in q;
      if n == 0 {
        assert q[..0] == [];
      } else {
        assert q[..n][0] == q[0];
      }
      RetryOne(cfg, RetrySlot(cfg, s, k, q[..n]), k, q[n], partials);
    }
  }

  /** Going through all slots completes the sequence exactly when something waits in the second. */
  lemma {:induction false} RetryThrough(cfg: Config, s: State, order: seq<nat>)
    requires TwoUnordered(cfg) && Retrying(cfg, s, s.partials) && s.fsm == At(1)
    requires forall i :: 0 <= i < |order| ==> order[i] < 2
    requires forall x :: x in Slot(s.partials, 1) ==> Condition(cfg, 1, x)
    requires forall x :: x in Slot(s.partials, 0) ==> Condition(cfg, 0, x) && x !in Slot(s.partials, 1)
    ensures var t := Retry(cfg, s, order);
            && Retrying(cfg, t, s.partials)
            && t.fsm == if 1 in order && Slot(s.partials, 1) != [] then Terminal else At(1)
  {
    if order != [] {
      hide Condition, RetrySlot, TwoUnordered, Slot;
      var n := |order| - 1;
      RetryThrough(cfg, s, order[..n]);
      var t := Retry(cfg, s, order[..n]);
      assert order == order[..n] + [order[n]];
      var q := Slot(s.partials, order[n]);
      if q != [] {
        assert q[0] in q;
      }
      RetryAll(cfg, t, order[n], q, s.partials);
      if order[n] == 0 || q == [] {
        RetryStays(cfg, t, order[n], q, s.partials);
      }
    }
  }

  /** The first slot, and nothing, move nothing. */
  lemma {:induction false} RetryStays(cfg: Config, s: State, k: nat, q: seq<Event>, partials: map<nat, seq<Event>>)
    requires TwoUnordered(cfg) && Retrying(cfg, s, partials) && (k == 0 || q == [])
    ensures RetrySlot(cfg, s, k, q).fsm == s.fsm && RetrySlot(cfg, s, k, q).states == s.states
  {
    if q != [] {
      hide Condition, Holds, Slot;
      assert 0 in s.states;
      RetryStays(cfg, s, k, q[..|q| - 1], partials);
    }
  }

  // ---- one event ----

  lemma WindowApart(cfg: Config, w: seq<Event>, x: Event)
    requires !BothMet(cfg, w) && x in w && Condition(cfg, 1, x)
    ensures !Condition(cfg, 0, x)
  {
    hide Condition, MetBy;
    Meets(cfg, w, x, 0);
    Meets(cfg, w, x, 1);
  }

  lemma Meets(cfg: Config, w: seq<Event>, x: Event, k: nat)
    ensures x in w && Condition(cfg, k, x) ==> MetBy(cfg, w, k)
  {
  }

  /** No event of the window can be in both slots. */
  lemma SlotsApart(cfg: Config, s: State, w: seq<Event>, e: Event, x: Event)
    requires Follows(cfg, s, w) && Condition(cfg, 0, e) && x in Slot(s.partials, 1)
    ensures x != e && x !in Slot(s.partials, 0)
  {
    hide Condition, Inv, Slot, BothMet;
    WindowApart(cfg, w, x);
  }

  /** The slots once `e` has entered the first. */
  lemma EntersFirst(cfg: Config, s: State, w: seq<Event>, e: Event)
    requires TwoUnordered(cfg) && Follows(cfg, s, w) && Condition(cfg, 0, e)
    ensures var t := AddPartial(cfg, s, 0, e, false);
            && Slot(t.partials, 1) == Slot(s.partials, 1) && t.meta == s.meta && SlotsOk(cfg, t.partials)
            && FsmInv(cfg, t) && t.fsm == s.fsm
            && forall x :: x in Slot(t.partials, 0) ==>
                 Condition(cfg, 0, x) && x in w + [e] && x !in Slot(s.partials, 1)
  {
    ExtendSlots(cfg, s.partials, 0, e);
    ExtendKeeps(cfg, s.partials, 0, e);
    hide Condition, Extend, Refuses, SortsByTime, SlotOk;
    var t := AddPartial(cfg, s, 0, e, false);
    SameFsm(cfg, s, t);
    forall x | x in Slot(t.partials, 0)
      ensures Condition(cfg, 0, x) && x in w + [e] && x !in Slot(s.partials, 1)
    {
      assert x == e || x in Slot(s.partials, 0);
      if x in Slot(s.partials, 1) {
        SlotsApart(cfg, s, w, e, x);
      }
    }
  }

  lemma OrderInside(cfg: Config, partials: map<nat, seq<Event>>, order: MapOrder, site: nat)
    requires TwoUnordered(cfg) && SlotsOk(cfg, partials) && Thorough(order)
    ensures forall i :: 0 <= i < |order(site, partials.Keys)| ==> order(site, partials.Keys)[i] < 2
    ensures Slot(partials, 1) != [] ==> 1 in order(site, partials.Keys)
  {
    hide SlotOk, ValidConfig;
    var keys := partials.Keys;
    forall i | 0 <= i < |order(site, keys)|
      ensures order(site, keys)[i] < 2
    {
      assert order(site, keys)[i] in keys;
    }
    if Slot(partials, 1) != [] {
      assert 1 in keys;
    }
  }

  /** An event for the first slot completes the sequence when something waits in the second. */
  lemma FirstSlotTakes(cfg: Config, s: State, w: seq<Event>, e: Event, order: MapOrder)
    requires TwoUnordered(cfg) && Follows(cfg, s, w) && Condition(cfg, 0, e) && Thorough(order)
    ensures Accepts(cfg, s, 0, e)
    ensures var t := Accept(cfg, s, 0, e, order);
            && t.fsm == (if Slot(s.partials, 1) != [] then Terminal else At(1))
            && FsmInv(cfg, t) && SlotsOk(cfg, t.partials) && Slot(t.partials, 1) == Slot(s.partials, 1)
            && forall x :: x in Slot(t.partials, 0) ==> Condition(cfg, 0, x) && x in w + [e]
  {
    MeetsHolds(cfg, s, 0, e);
    EntersFirst(cfg, s, w, e);
    hide AddPartial, Condition, Holds, Accepts, SlotOk, ValidConfig, MatchTransition, Slot, Retry;
    var s1 := AddPartial(cfg, s, 0, e, false);
    MatchTransitionKeeps(cfg, s1, 0);
    var s2 := MatchTransition(cfg, s1, 0);
    OrderInside(cfg, s2.partials, order, 0);
    RetryThrough(cfg, s2, order(0, s2.partials.Keys));
  }

  /** What meets the second slot completes the sequence when the first has been met. */
  lemma SecondSlotTakes(cfg: Config, s: State, e: Event, order: MapOrder)
    requires TwoUnordered(cfg) && FsmInv(cfg, s) && s.fsm == At(1) && Condition(cfg, 1, e)
    ensures RunFrom(cfg, s, e, 1, order).fired
  {
    MeetsHolds(cfg, s, 1, e);
    hide AddPartial, Condition, Holds, Accepts, ValidConfig, MatchTransition, CollectMatches;
    SameFsmAdded(cfg, s, 1, e);
    MatchTransitionKeeps(cfg, AddPartial(cfg, s, 1, e, false), 1);
  }

  lemma SameFsmAdded(cfg: Config, s: State, k: nat, e: Event)
    requires FsmInv(cfg, s)
    ensures var t := AddPartial(cfg, s, k, e, false); FsmInv(cfg, t) && t.fsm == s.fsm
  {
    hide Extend, Refuses;
  }

  lemma RunsPast(cfg: Config, s: State, e: Event, order: MapOrder)
    requires TwoUnordered(cfg) && FsmInv(cfg, s) && s.fsm == At(0) && Condition(cfg, 1, e)
    ensures RunFrom(cfg, s, e, 1, order) == Outcome(AddPartial(cfg, s, 1, e, true), [], false)
  {
    NextBound(cfg, s, 1);
    hide FsmInv, Accept, Holds, Next, Extend, Refuses, ValidConfig;
    var t := AddPartial(cfg, s, 1, e, true);
    assert Decline(cfg, s, 1, e) == t;
    Done(cfg, t, e, order);
  }

  lemma WaitsMarked(cfg: Config, s: State, e: Event)
    requires SortsByTime(cfg.sort) && forall x :: x in Slot(s.partials, 1) ==> x in s.meta.ooo
    ensures var t := AddPartial(cfg, s, 1, e, true);
            && Slot(t.partials, 0) == Slot(s.partials, 0) && Slot(t.partials, 1) != []
            && forall x :: x in Slot(t.partials, 1) ==> x in t.meta.ooo && (x == e || x in Slot(s.partials, 1))
  {
    ExtendSlots(cfg, s.partials, 1, e);
    hide Extend, SortsByTime;
    if Refuses(Slot(s.partials, 1), e) {
      Refused(cfg, s.partials, 1, e);
    }
  }

  lemma AddedInv(cfg: Config, s: State, e: Event)
    requires ValidConfig(cfg) && Inv(cfg, s) && cfg.slots == 2
    ensures Inv(cfg, AddPartial(cfg, s, 1, e, true)) && AddPartial(cfg, s, 1, e, true).fsm == s.fsm
  {
    ExtendKeeps(cfg, s.partials, 1, e);
    hide Extend, SortsByTime, SlotOk, Refuses;
  }

  /** The slots once `e` waits in the second. */
  lemma EntersSecond(cfg: Config, s: State, w: seq<Event>, e: Event)
    requires TwoUnordered(cfg) && Follows(cfg, s, w) && Condition(cfg, 1, e)
    ensures var t := AddPartial(cfg, s, 1, e, true);
            && Inv(cfg, t) && t.fsm == s.fsm && Slot(t.partials, 0) == Slot(s.partials, 0) && Slot(t.partials, 1) != []
            && forall x :: x in Slot(t.partials, 1) ==> x in t.meta.ooo && Condition(cfg, 1, x) && x in w + [e]
  {
    hide Condition, AddPartial, Inv, BothMet, MetBy, Slot, SortsByTime;
    AddedInv(cfg, s, e);
    WaitsMarked(cfg, s, e);
  }

  /** What meets the second slot too early waits there, marked. */
  lemma SecondSlotWaits(cfg: Config, s: State, w: seq<Event>, e: Event, order: MapOrder)
    requires TwoUnordered(cfg) && Follows(cfg, s, w) && !Condition(cfg, 0, e) && Condition(cfg, 1, e)
    requires s.fsm == At(0)
    ensures var o := RunFrom(cfg, s, e, 1, order); !o.fired && Follows(cfg, o.state, w + [e])
  {
    RunsPast(cfg, s, e, order);
    EntersSecond(cfg, s, w, e);
    MetMore(cfg, w, e, 0);
    MetMore(cfg, w, e, 1);
    hide RunFrom, Condition, AddPartial, Inv, MetBy;
    assert forall x :: x in w ==> x in w + [e];
  }

  lemma Refused(cfg: Config, partials: map<nat, seq<Event>>, k: nat, e: Event)
    ensures Refuses(Slot(partials, k), e) ==> Extend(cfg, partials, k, e) == partials
  {
  }

  lemma FollowStep(cfg: Config, s: State, w: seq<Event>, e: Event, order: MapOrder)
    requires TwoUnordered(cfg) && Follows(cfg, s, w) && Thorough(order)
    ensures var r := ProcessEvent(cfg, s, e, order);
            && (r.fired <==> BothMet(cfg, w + [e]))
            && Follows(cfg, r.state, if r.fired then [] else w + [e])
  {
    MetMore(cfg, w, e, 0);
    MetMore(cfg, w, e, 1);
    hide Condition, MetBy, RunFrom, ValidConfig, FsmInv, SlotsOk, Accept, Accepts, Clear;
    if Condition(cfg, 0, e) {
      FirstSlotTakes(cfg, s, w, e, order);
      FollowFirst(cfg, s, w, e, order);
    } else {
      Skips(cfg, s, e, 0, order);
      FollowSecond(cfg, s, w, e, order);
    }
    if ProcessEvent(cfg, s, e, order).fired {
      FollowsClear(cfg, s, e, order);
    }
  }

  lemma FollowsClear(cfg: Config, s: State, e: Event, order: MapOrder)
    requires TwoUnordered(cfg) && Inv(cfg, s) && Thorough(order) && ProcessEvent(cfg, s, e, order).fired
    ensures Follows(cfg, ProcessEvent(cfg, s, e, order).state, [])
  {
    ProcessEventKeeps(cfg, s, e, order);
    ClearedAt(cfg, s, e, order);
    hide ProcessEvent, Condition, FsmInv, SlotsOk, ValidConfig;
  }

  lemma AcceptsFirst(cfg: Config, s: State, e: Event, order: MapOrder)
    requires cfg.slots >= 1 && Accepts(cfg, s, 0, e)
    ensures var t := Accept(cfg, s, 0, e, order);
            && (t.fsm == Terminal ==> Run(cfg, s, e, order).fired)
            && (t.fsm != Terminal ==>
                  && Run(cfg, s, e, order).fired == RunFrom(cfg, t, e, 1, order).fired
                  && Run(cfg, s, e, order).state == RunFrom(cfg, t, e, 1, order).state)
  {
    hide Accept, Accepts;
  }

  lemma FollowFirst(cfg: Config, s: State, w: seq<Event>, e: Event, order: MapOrder)
    requires TwoUnordered(cfg) && Follows(cfg, s, w) && Condition(cfg, 0, e) && Thorough(order)
    ensures var o := Run(cfg, s, e, order);
            (o.fired <==> BothMet(cfg, w + [e])) && (!o.fired ==> Follows(cfg, o.state, w + [e]))
  {
    MetMore(cfg, w, e, 0);
    MetMore(cfg, w, e, 1);
    FirstSlotTakes(cfg, s, w, e, order);
    AcceptsFirst(cfg, s, e, order);
    hide Condition, MetBy, RunFrom, Run, ValidConfig, FsmInv, SlotsOk, Accept, Accepts;
    var t := Accept(cfg, s, 0, e, order);
    if Slot(s.partials, 1) == [] {
      if Condition(cfg, 1, e) {
        SecondSlotTakes(cfg, t, e, order);
      } else {
        Skips(cfg, t, e, 1, order);
        Done(cfg, t, e, order);
      }
    }
  }

  lemma FollowSecond(cfg: Config, s: State, w: seq<Event>, e: Event, order: MapOrder)
    requires TwoUnordered(cfg) && Follows(cfg, s, w) && !Condition(cfg, 0, e) && Thorough(order)
    ensures var o := RunFrom(cfg, s, e, 1, order);
            (o.fired <==> BothMet(cfg, w + [e])) && (!o.fired ==> Follows(cfg, o.state, w + [e]))
  {
    MetMore(cfg, w, e, 0);
    MetMore(cfg, w, e, 1);
    hide Condition, MetBy, RunFrom, ValidConfig, FsmInv, SlotsOk;
    if !Condition(cfg, 1, e) {
      Skips(cfg, s, e, 1, order);
      Done(cfg, s, e, order);
    } else if s.fsm == At(0) {
      SecondSlotWaits(cfg, s, w, e, order);
    } else {
      SecondSlotTakes(cfg, s, e, order);
    }
  }

  // ---- any number of slots, with or without joins ----

  /**
   What meets a slot too early waits there, marked, whether it joins what is there or not; nothing else changes, unless
   the slot is full.
   */
  lemma EarlyWaits(cfg: Config, s: State, e: Event, k: nat, order: MapOrder)
    requires ValidConfig(cfg) && cfg.unordered && k < cfg.slots && SequenceRivals.Only(cfg, k, e) && !Next(s, k)
    requires |Slot(s.partials, k)| <= 1000
    ensures var r := ProcessEvent(cfg, s, e, order);
            && !r.fired && r.state == s.(partials := r.state.partials, meta := s.meta.(ooo := s.meta.ooo + {e}))
            && forall j, x :: SequencePartials.Count(Slot(r.state.partials, j), x)
                 == SequencePartials.Count(Slot(s.partials, j), x) + if j == k && x == e then 1 else 0
  {
    var t := AddPartial(cfg, s, k, e, true);
    SequencePartials.StoredExactly(cfg, s, k, e, true);
    assert Condition(cfg, k, e) && e.key == 0;
    EarlyDeclines(cfg, s, e, k);
    hide AddPartial, Condition, Accepts, Decline, Accept, ValidConfig, Slot, SequencePartials.Count, Next;
    SequenceRivals.PassedOver(cfg, s, e, 0, k, order);
    SequenceRivals.PassedOver(cfg, t, e, k + 1, cfg.slots, order);
    Done(cfg, t, e, order);
  }

  lemma EarlyDeclines(cfg: Config, s: State, e: Event, k: nat)
    requires cfg.unordered && Condition(cfg, k, e) && !Next(s, k)
    ensures !Accepts(cfg, s, k, e) && Decline(cfg, s, k, e) == AddPartial(cfg, s, k, e, true)
    ensures |Slot(s.partials, k)| <= 1000 ==>
              AddPartial(cfg, s, k, e, true) == s.(partials := AddPartial(cfg, s, k, e, true).partials,
                                                   meta := AddPartial(cfg, s, k, e, true).meta)
    ensures AddPartial(cfg, s, k, e, true).meta.links == s.meta.links
  {
    hide Next, Extend;
  }

  // ---- whole runs ----

  /** Events only, each visiting all slots when it looks for early ones. */
  ghost predicate ThoroughRun(steps: seq<Step>) {
    forall i :: 0 <= i < |steps| ==> steps[i].Process? && Thorough(steps[i].order)
  }

  lemma {:induction false} FollowsAlways(cfg: Config, meta: Meta, steps: seq<Step>)
    requires TwoUnordered(cfg) && ThoroughRun(steps)
    ensures Follows(cfg, After(cfg, meta, steps), Since(cfg, Stream(steps)))
  {
    if steps == [] {
      FollowsStart(cfg, meta);
    } else {
      hide Follows, Thorough, ProcessEvent, BothMet, TwoUnordered;
      var init, last := steps[..|steps| - 1], steps[|steps| - 1];
      FollowsAlways(cfg, meta, init);
      FollowStep(cfg, After(cfg, meta, init), Since(cfg, Stream(init)), last.e, last.order);
      assert Stream(steps) == Stream(init) + [last.e];
      assert Stream(steps)[..|Stream(init)|] == Stream(init);
    }
  }

  lemma FollowsStart(cfg: Config, meta: Meta)
    requires TwoUnordered(cfg)
    ensures Follows(cfg, Initial(meta), [])
  {
  }

  /**
   A rule over two slots without joins and order fires on exactly those events with which both of its conditions have
   been met since it last fired, in either order of arrival, even by one event.
   */
  lemma FiresOnceBothMet(cfg: Config, meta: Meta, steps: seq<Step>, e: Event, order: MapOrder)
    requires TwoUnordered(cfg) && ThoroughRun(steps) && Thorough(order)
    ensures ProcessEvent(cfg, After(cfg, meta, steps), e, order).fired
            <==> BothMet(cfg, Since(cfg, Stream(steps)) + [e])
  {
    hide TwoUnordered, Thorough, ProcessEvent, BothMet, After, Stream, Since, Follows;
    FollowsAlways(cfg, meta, steps);
    FollowStep(cfg, After(cfg, meta, steps), Since(cfg, Stream(steps)), e, order);
  }

  /** In particular the event for the first slot may come last. */
  lemma LateFirstFires(cfg: Config, meta: Meta, x: Event, y: Event, order: MapOrder)
    requires TwoUnordered(cfg) && Thorough(order)
    requires Condition(cfg, 1, x) && !Condition(cfg, 0, x) && Condition(cfg, 0, y) && !Condition(cfg, 1, y)
    ensures ProcessEvent(cfg, After(cfg, meta, [Process(x, order)]), y, order).fired
  {
    var steps := [Process(x, order)];
    FiresOnceBothMet(cfg, meta, steps, y, order);
    hide TwoUnordered, Thorough, ProcessEvent, After, Condition;
    assert steps[..0] == [] && Stream(steps) == [x] && [x][..0] == [];
    assert Since(cfg, [x][..0]) + [x] == [x];
    assert !MetBy(cfg, [x], 0);
    assert Since(cfg, [x]) == [x];
    assert x in [x] + [y] && y in [x] + [y];
    assert MetBy(cfg, [x] + [y], 0) && MetBy(cfg, [x] + [y], 1);
  }
}
