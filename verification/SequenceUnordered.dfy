/**
 What a firing guarantees without an order: which slots are certain to have met an event, and which may be passed by.
 */
module SequenceUnordered {
  import opened SequenceModel
  import opened SequenceInvariants
  import opened SequenceOrdered
  import opened SequenceRuns

  // ---- the events behind a firing ----

  /** The events processed since the automaton was last clear. */
  function Recent(cfg: Config, meta: Meta, steps: seq<Step>): seq<Event> {
    if steps == [] then []
    else
      var init, last := steps[..|steps| - 1], steps[|steps| - 1];
      if Clears(cfg, After(cfg, meta, init), last) then []
      else Recent(cfg, meta, init) + if last.Process? then [last.e] else []
  }

  /** Some event meets the condition of slot `k`. */
  ghost predicate MetBy(cfg: Config, es: seq<Event>, k: nat) {
    exists x :: x in es && Condition(cfg, k, x)
  }

  /** Every partial is one of the events and meets the condition of its slot. */
  ghost predicate PartialsMet(cfg: Config, partials: map<nat, seq<Event>>, es: seq<Event>) {
    forall k, x :: k in partials && x in partials[k] ==> Condition(cfg, k, x) && x in es
  }

  /** The machine leaves its initial state with the first slot and comes to its end with the last. */
  ghost predicate EndsMet(cfg: Config, fsm: Fsm, es: seq<Event>) {
    cfg.slots >= 1 && (fsm != At(0) ==> MetBy(cfg, es, 0)) && (fsm == Terminal ==> MetBy(cfg, es, cfg.slots - 1))
  }

  ghost predicate Grounded(cfg: Config, s: State, es: seq<Event>) {
    PartialsMet(cfg, s.partials, es) && EndsMet(cfg, s.fsm, es)
  }

  lemma ExtendMet(cfg: Config, partials: map<nat, seq<Event>>, k: nat, e: Event, es: seq<Event>)
    requires ValidConfig(cfg) && PartialsMet(cfg, partials, es) && Condition(cfg, k, e) && e in es
    ensures PartialsMet(cfg, Extend(cfg, partials, k, e), es)
  {
    ExtendSlots(cfg, partials, k, e);
    hide Extend, Condition, SortsByTime;
    var p := Extend(cfg, partials, k, e);
    forall j, x | j in p && x in p[j]
      ensures Condition(cfg, j, x) && x in es
    {
      if j == k && x != e {
        assert x in Slot(partials, k);
        assert x in partials[k];
      }
    }
  }

  /** A transition on behalf of an event that meets its slot; the first one is on behalf of slot 0. */
  lemma MatchMet(cfg: Config, s: State, k: nat, x: Event, es: seq<Event>)
    requires FsmInv(cfg, s) && k < cfg.slots && EndsMet(cfg, s.fsm, es) && Condition(cfg, k, x) && x in es
    requires s.fsm == At(0) ==> k == 0
    ensures var t := MatchTransition(cfg, s, k);
            FsmInv(cfg, t) && EndsMet(cfg, t.fsm, es) && t.fsm != At(0) && t.partials == s.partials
  {
    MatchTransitionKeeps(cfg, s, k);
    hide Condition, MatchTransition, FsmInv;
    assert MetBy(cfg, es, k);
  }

  ghost predicate Underway(cfg: Config, s: State, es: seq<Event>) {
    FsmInv(cfg, s) && s.fsm != At(0) && EndsMet(cfg, s.fsm, es)
  }

  lemma {:induction false} RetrySlotMet(cfg: Config, s: State, k: nat, q: seq<Event>, es: seq<Event>)
    requires Underway(cfg, s, es) && k < cfg.slots && forall x :: x in q ==> Condition(cfg, k, x) && x in es
    ensures Underway(cfg, RetrySlot(cfg, s, k, q), es) && RetrySlot(cfg, s, k, q).partials == s.partials
  {
    if q != [] {
      hide Condition, Holds, MatchTransition, EndsMet;
      var n := |q| - 1;
      RetrySlotMet(cfg, s, k, q[..n], es);
      var t := RetrySlot(cfg, s, k, q[..n]);
      assert q[n] in q;
      MatchMet(cfg, Evaluated(cfg, t, k, q[n]), k, q[n], es);
    }
  }

  lemma {:induction false} RetryMet(cfg: Config, s: State, order: seq<nat>, es: seq<Event>)
    requires Underway(cfg, s, es) && PartialsMet(cfg, s.partials, es)
    requires forall i :: 0 <= i < |order| ==> order[i] < cfg.slots
    ensures Underway(cfg, Retry(cfg, s, order), es) && Retry(cfg, s, order).partials == s.partials
  {
    if order != [] {
      hide Condition, RetrySlot, Underway;
      var n := |order| - 1;
      RetryMet(cfg, s, order[..n], es);
      SlotMet(cfg, s.partials, order[n], es);
      RetrySlotMet(cfg, Retry(cfg, s, order[..n]), order[n], Slot(s.partials, order[n]), es);
    }
  }

  lemma SlotMet(cfg: Config, partials: map<nat, seq<Event>>, k: nat, es: seq<Event>)
    requires PartialsMet(cfg, partials, es)
    ensures forall x :: x in Slot(partials, k) ==> Condition(cfg, k, x) && x in es
  {
    hide Condition;
  }

  lemma AcceptsMeans(cfg: Config, s: State, k: nat, e: Event)
    requires FsmInv(cfg, s) && s.fsm.At? && Accepts(cfg, s, k, e)
    ensures Condition(cfg, k, e) && k <= s.fsm.slot
  {
    NextBound(cfg, s, k);
  }

  lemma AcceptMet(cfg: Config, s: State, k: nat, e: Event, order: MapOrder, es: seq<Event>)
    requires ValidConfig(cfg) && Inv(cfg, s) && k < cfg.slots && VisitsKeys(order)
    requires Grounded(cfg, s, es) && Accepts(cfg, s, k, e) && e in es
    ensures Grounded(cfg, Accept(cfg, s, k, e, order), es)
  {
    AcceptsMeans(cfg, s, k, e);
    ExtendMet(cfg, s.partials, k, e, es);
    ExtendKeeps(cfg, s.partials, k, e);
    hide Condition, Extend, Refuses, Holds, Accepts, SlotOk, SortsByTime, MatchTransition, Retry, EndsMet, PartialsMet;
    var s1 := AddPartial(cfg, Evaluated(cfg, s, k, e), k, e, false);
    MatchMet(cfg, s1, k, e, es);
    var s2 := MatchTransition(cfg, s1, k);
    if cfg.unordered && s2.fsm != Terminal {
      RetryMet(cfg, s2, order(k, s2.partials.Keys), es);
    }
  }

  lemma DeclineMet(cfg: Config, s: State, k: nat, e: Event, es: seq<Event>)
    requires ValidConfig(cfg) && Grounded(cfg, s, es) && e in es
    ensures Grounded(cfg, Decline(cfg, s, k, e), es)
  {
    hide EndsMet, PartialsMet, Extend, Refuses, Holds, SortsByTime;
    if Condition(cfg, k, e) {
      ExtendMet(cfg, s.partials, k, e, es);
    }
  }

  /** A firing has met the first and the last slot. */
  lemma {:induction false} RunMet(cfg: Config, s: State, e: Event, k: nat, order: MapOrder, es: seq<Event>)
    requires ValidConfig(cfg) && Inv(cfg, s) && VisitsKeys(order) && Grounded(cfg, s, es) && e in es
    ensures var o := RunFrom(cfg, s, e, k, order);
            if o.fired then MetBy(cfg, es, 0) && MetBy(cfg, es, cfg.slots - 1) else Grounded(cfg, o.state, es)
    decreases cfg.slots - k
  {
    hide Accept, Decline, Accepts, CollectMatches, Fire, PartialsMet, MetBy, VisitsKeys, SortsByTime, MidInv;
    if k < cfg.slots {
      if !Accepts(cfg, s, k, e) {
        DeclineKeeps(cfg, s, k, e);
        DeclineMet(cfg, s, k, e, es);
        RunMet(cfg, Decline(cfg, s, k, e), e, k + 1, order, es);
      } else {
        AcceptKeeps(cfg, s, k, e, order);
        AcceptMet(cfg, s, k, e, order, es);
        var t := Accept(cfg, s, k, e, order);
        if t.fsm != Terminal {
          MidAt(cfg, t);
          RunMet(cfg, t, e, k + 1, order, es);
        }
      }
    }
  }

  lemma MidAt(cfg: Config, t: State)
    requires MidInv(cfg, t) && t.fsm != Terminal
    ensures Inv(cfg, t)
  {
  }

  lemma GroundedMore(cfg: Config, s: State, es: seq<Event>, e: Event)
    requires Grounded(cfg, s, es)
    ensures Grounded(cfg, s, es + [e])
  {
    hide Condition;
    forall k | MetBy(cfg, es, k)
      ensures MetBy(cfg, es + [e], k)
    {
      var x :| x in es && Condition(cfg, k, x);
      assert x in es + [e];
    }
  }

  lemma InitialGrounded(cfg: Config, s: State)
    requires cfg.slots >= 1 && s.partials == map[] && s.fsm == At(0)
    ensures Grounded(cfg, s, [])
  {
  }

  lemma RetainGrounded(cfg: Config, s: State, drop: (nat, Event) -> bool, es: seq<Event>)
    requires Grounded(cfg, s, es)
    ensures Grounded(cfg, s.(partials := RetainAll(s.partials, drop)), es)
  {
    hide Condition, EndsMet;
    var p := RetainAll(s.partials, drop);
    forall k, x | k in p && x in p[k]
      ensures Condition(cfg, k, x) && x in es
    {
      RetainAllMembers(s.partials, drop, k);
    }
  }

  lemma QuietGrounded(cfg: Config, s: State, step: Step, es: seq<Event>)
    requires ValidConfig(cfg) && Inv(cfg, s) && Legal(cfg, s, step) && Grounded(cfg, s, es) && !step.Process?
    ensures Grounded(cfg, Apply(cfg, s, step), if Clears(cfg, s, step) then [] else es)
  {
    hide Inv, ValidConfig, Grounded, Drained, RetainAll, VisitsKeys, LinksGrow;
    match step
    case Timer(k) =>
      HasSlot(cfg);
      CancelKeeps(cfg, s, k);
      if s.fsm == At(k) {
        InitialGrounded(cfg, Cancel(cfg, s, k));
      }
    case Terminate(t) =>
      HasSlot(cfg);
      ExpireWholeResets(cfg, s);
      if t.etype == TerminateProcess && Drained(cfg, s, t) {
        InitialGrounded(cfg, ExpireWhole(cfg, s));
      } else if t.etype == TerminateProcess {
        RetainGrounded(cfg, s, Expirable(cfg, t), es);
      }
    case Sweep(now) => RetainGrounded(cfg, s, Stale(cfg, now), es);
    case Foreign(meta) => ForeignGrounded(cfg, s, meta, es);
  }

  lemma HasSlot(cfg: Config)
    requires ValidConfig(cfg)
    ensures cfg.slots >= 1
  {
  }

  lemma ForeignGrounded(cfg: Config, s: State, meta: Meta, es: seq<Event>)
    requires Grounded(cfg, s, es)
    ensures Grounded(cfg, s.(meta := meta), es)
  {
  }

  lemma ProcessMet(cfg: Config, s: State, e: Event, order: MapOrder, es: seq<Event>)
    requires ValidConfig(cfg) && Inv(cfg, s) && VisitsKeys(order) && Grounded(cfg, s, es)
    ensures var r := ProcessEvent(cfg, s, e, order);
            if r.fired then MetBy(cfg, es + [e], 0) && MetBy(cfg, es + [e], cfg.slots - 1) && Grounded(cfg, r.state, [])
            else Grounded(cfg, r.state, es + [e])
  {
    GroundedMore(cfg, s, es, e);
    HasSlot(cfg);
    ProcessEventKeeps(cfg, s, e, order);
    hide Inv, ValidConfig, Grounded, RunFrom, MetBy, VisitsKeys;
    RunMet(cfg, s, e, 0, order, es + [e]);
    var r := ProcessEvent(cfg, s, e, order);
    if r.fired {
      ClearedAt(cfg, s, e, order);
      InitialGrounded(cfg, r.state);
    }
  }

  lemma ClearedAt(cfg: Config, s: State, e: Event, order: MapOrder)
    requires ValidConfig(cfg) && Inv(cfg, s) && VisitsKeys(order) && ProcessEvent(cfg, s, e, order).fired
    ensures var t := ProcessEvent(cfg, s, e, order).state; t.partials == map[] && t.fsm == At(0)
  {
    ProcessEventKeeps(cfg, s, e, order);
    hide RunFrom, VisitsKeys, SlotsOk;
    var t := ProcessEvent(cfg, s, e, order).state;
    assert t.states == {};
    BelowEmpty(t.fsm.slot);
  }

  lemma BelowEmpty(n: nat)
    ensures Below(n) == {} <==> n == 0
  {
    assert n > 0 ==> n - 1 in Below(n);
  }

  lemma {:induction false} GroundedAlways(cfg: Config, meta: Meta, steps: seq<Step>)
    requires ValidConfig(cfg) && LegalRun(cfg, meta, steps)
    ensures Grounded(cfg, After(cfg, meta, steps), Recent(cfg, meta, steps))
  {
    if steps == [] {
      InitialGrounded(cfg, Initial(meta));
    } else {
      hide ValidConfig, Inv, Grounded, ProcessEvent, MetBy, VisitsKeys, Cancel, Expire, Gc;
      var init, last := steps[..|steps| - 1], steps[|steps| - 1];
      GroundedAlways(cfg, meta, init);
      InvAlways(cfg, meta, init);
      var s, es := After(cfg, meta, init), Recent(cfg, meta, init);
      if last.Process? {
        ProcessMet(cfg, s, last.e, last.order, es);
      } else {
        QuietGrounded(cfg, s, last, es);
        assert es + [] == es;
      }
    }
  }

  /** In every run, ordered or not, a firing has met its first and its last slot since the automaton was last clear. */
  lemma FiringEndsMet(cfg: Config, meta: Meta, steps: seq<Step>, e: Event, order: MapOrder)
    requires ValidConfig(cfg) && LegalRun(cfg, meta, steps) && VisitsKeys(order)
    requires ProcessEvent(cfg, After(cfg, meta, steps), e, order).fired
    ensures var es := Recent(cfg, meta, steps) + [e]; MetBy(cfg, es, 0) && MetBy(cfg, es, cfg.slots - 1)
  {
    hide Grounded, Inv, ProcessEvent, VisitsKeys, Recent, After, LegalRun;
    GroundedAlways(cfg, meta, steps);
    InvAlways(cfg, meta, steps);
    ProcessMet(cfg, After(cfg, meta, steps), e, order, Recent(cfg, meta, steps));
  }

  // ---- the slots in between ----

  /** Every firing of every run has met all slots. */
  ghost predicate MeetsAll(cfg: Config) {
    forall meta: Meta, steps: seq<Step>, e: Event, order: MapOrder ::
      LegalRun(cfg, meta, steps) && VisitsKeys(order) && ProcessEvent(cfg, After(cfg, meta, steps), e, order).fired
      ==> AllMet(cfg, Recent(cfg, meta, steps) + [e])
  }

  ghost predicate AllMet(cfg: Config, es: seq<Event>) {
    forall k :: 0 <= k < cfg.slots ==> MetBy(cfg, es, k)
  }

  /** With up to two slots there is nothing in between. */
  lemma TwoSlotsMeetAll(cfg: Config)
    requires ValidConfig(cfg) && cfg.slots <= 2
    ensures MeetsAll(cfg)
  {
    hide ProcessEvent, VisitsKeys, Recent, After, LegalRun, MetBy, SortsByTime;
    forall meta: Meta, steps: seq<Step>, e: Event, order: MapOrder |
      LegalRun(cfg, meta, steps) && VisitsKeys(order) && ProcessEvent(cfg, After(cfg, meta, steps), e, order).fired
      ensures AllMet(cfg, Recent(cfg, meta, steps) + [e])
    {
      FiringEndsMet(cfg, meta, steps, e, order);
    }
  }

  /**
   The middle one of three slots can be gone round: by an event for the first and one for the last that do not fit it.
   */
  predicate Around(cfg: Config, y: Event, z: Event) {
    Condition(cfg, 0, y) && !Condition(cfg, 1, y) && Condition(cfg, 2, z) && !Condition(cfg, 1, z)
  }

  /** A rule without joins and order over three slots. */
  ghost predicate ThreeUnordered(cfg: Config) {
    ValidConfig(cfg) && cfg.slots == 3 && cfg.unordered && cfg.join.NoBy?
  }

  /** Visits the last slot, when it holds something. */
  function LastOnly(site: nat, keys: set<nat>): seq<nat> {
    if 2 in keys then [2] else []
  }

  lemma LastOnlyVisits()
    ensures VisitsKeys(LastOnly)
  {
  }

  lemma SkipSlot(cfg: Config, s: State, e: Event, k: nat)
    requires cfg.join.NoBy? && k < cfg.slots && !Condition(cfg, k, e)
    ensures RunFrom(cfg, s, e, k, LastOnly) == RunFrom(cfg, s, e, k + 1, LastOnly)
  {
    hide Accept;
    assert Decline(cfg, s, k, e) == s;
  }

  /** `z` waits, out of order, in the last slot. */
  ghost predicate Waits(cfg: Config, s: State, z: Event, level: nat) {
    Inv(cfg, s) && s.fsm == At(level) && Slot(s.partials, 2) == [z] && z in s.meta.ooo
  }

  lemma MeetsHolds(cfg: Config, s: State, k: nat, e: Event)
    requires cfg.join.NoBy? && Condition(cfg, k, e) && FsmInv(cfg, s) && s.fsm.At? && cfg.unordered
    ensures Holds(cfg, s, k, e) && Evaluated(cfg, s, k, e) == s && (Accepts(cfg, s, k, e) <==> k <= s.fsm.slot)
  {
    NextBound(cfg, s, k);
  }

  /** What reaches the last slot too early waits there. */
  lemma Stash(cfg: Config, s: State, z: Event, level: nat)
    requires ThreeUnordered(cfg) && Inv(cfg, s) && s.fsm == At(level) && level <= 1 && 2 !in s.partials
    requires Condition(cfg, 2, z) && !Condition(cfg, 1, z)
    ensures var o := RunFrom(cfg, s, z, 1, LastOnly); !o.fired && Waits(cfg, o.state, z, level)
  {
    SkipSlot(cfg, s, z, 1);
    NextBound(cfg, s, 2);
    DeclineKeeps(cfg, s, 2, z);
    hide Inv, Accept, Holds, SortsByTime, Extend;
    assert RunFrom(cfg, s, z, 2, LastOnly) == RunFrom(cfg, Decline(cfg, s, 2, z), z, 3, LastOnly);
    StashedSlot(cfg, s, z);
  }

  lemma StashedSlot(cfg: Config, s: State, z: Event)
    requires SortsByTime(cfg.sort) && 2 !in s.partials
    ensures var t := AddPartial(cfg, s, 2, z, true);
            Slot(t.partials, 2) == [z] && z in t.meta.ooo && t.fsm == s.fsm
  {
    SortedPartial(cfg, [], z);
    assert [] + [z] == [z];
  }

  /** An event for the first slot moves the machine past the middle one on behalf of what waits in the last. */
  lemma WaitingMoves(cfg: Config, s: State, z: Event, y: Event, level: nat)
    requires ThreeUnordered(cfg) && Waits(cfg, s, z, level) && level <= 1 && Condition(cfg, 2, z)
    requires Condition(cfg, 0, y)
    ensures Accepts(cfg, s, 0, y)
    ensures var t := Accept(cfg, s, 0, y, LastOnly); Inv(cfg, t) && t.fsm == At(2)
  {
    LastOnlyVisits();
    MeetsHolds(cfg, s, 0, y);
    AcceptKeeps(cfg, s, 0, y, LastOnly);
    ExtendKeeps(cfg, s.partials, 0, y);
    var s1 := AddPartial(cfg, s, 0, y, false);
    SlotUntouched(cfg, s, y);
    hide Extend, SortsByTime, SlotsOk, Accepts, VisitsKeys, MatchTransition, Condition, Holds, Refuses;
    MatchTransitionKeeps(cfg, s1, 0);
    var s2 := MatchTransition(cfg, s1, 0);
    RetriedLast(cfg, s2, z);
  }

  lemma SlotUntouched(cfg: Config, s: State, y: Event)
    requires SortsByTime(cfg.sort)
    ensures var t := AddPartial(cfg, s, 0, y, false); Slot(t.partials, 2) == Slot(s.partials, 2) && t.meta == s.meta
  {
    ExtendSlots(cfg, s.partials, 0, y);
  }

  lemma RetriedLast(cfg: Config, s: State, z: Event)
    requires ThreeUnordered(cfg) && FsmInv(cfg, s) && s.fsm == At(1)
    requires Slot(s.partials, 2) == [z] && z in s.meta.ooo && Condition(cfg, 2, z)
    ensures Retry(cfg, s, LastOnly(0, s.partials.Keys)).fsm == At(2)
  {
    MeetsHolds(cfg, s, 2, z);
    MatchTransitionKeeps(cfg, s, 2);
    hide MatchTransition, Holds, Condition;
    assert 2 in s.partials.Keys;
    var order := [2];
    assert order[..0] == [] && [z][..0] == [];
    assert LastOnly(0, s.partials.Keys) == order;
    assert Retry(cfg, s, order[..0]) == s && RetrySlot(cfg, s, 2, [z][..0]) == s;
    assert Retry(cfg, s, order) == RetrySlot(cfg, s, 2, [z]);
    assert RetrySlot(cfg, s, 2, [z]) == RetryEvent(cfg, s, 2, z);
  }

  /** Only the last slot is missing. */
  lemma LastFires(cfg: Config, s: State, e: Event)
    requires ThreeUnordered(cfg) && Inv(cfg, s) && s.fsm == At(2) && Condition(cfg, 2, e) && !Condition(cfg, 1, e)
    ensures RunFrom(cfg, s, e, 1, LastOnly).fired
  {
    SkipSlot(cfg, s, e, 1);
    MeetsHolds(cfg, s, 2, e);
    ExtendKeeps(cfg, s.partials, 2, e);
    hide Extend, SortsByTime, Accepts, MatchTransition, Condition, Refuses, CollectMatches;
    MatchTransitionKeeps(cfg, AddPartial(cfg, s, 2, e, false), 2);
  }

  /** `z` arrives first and waits. */
  lemma FirstWaits(cfg: Config, meta: Meta, z: Event)
    requires ThreeUnordered(cfg) && Condition(cfg, 2, z) && !Condition(cfg, 1, z)
    ensures var r := ProcessEvent(cfg, Initial(meta), z, LastOnly);
            !r.fired && Waits(cfg, r.state, z, if Condition(cfg, 0, z) then 1 else 0)
  {
    var s := Initial(meta);
    LastOnlyVisits();
    InitialInv(cfg, meta);
    if Condition(cfg, 0, z) {
      FirstAccepts(cfg, meta, z);
      hide Inv, Accept, RunFrom, Condition, Accepts;
      Stash(cfg, Accept(cfg, s, 0, z, LastOnly), z, 1);
      RunAccepts(cfg, s, z);
    } else {
      SkipSlot(cfg, s, z, 0);
      hide Inv, RunFrom, Condition;
      Stash(cfg, s, z, 0);
    }
  }

  lemma InitialInv(cfg: Config, meta: Meta)
    requires ValidConfig(cfg)
    ensures Inv(cfg, Initial(meta))
  {
  }

  lemma FirstAccepts(cfg: Config, meta: Meta, z: Event)
    requires ThreeUnordered(cfg) && Condition(cfg, 0, z)
    ensures var s := Initial(meta); var t := Accept(cfg, s, 0, z, LastOnly);
            Accepts(cfg, s, 0, z) && Inv(cfg, t) && t.fsm == At(1) && 2 !in t.partials
  {
    var s := Initial(meta);
    LastOnlyVisits();
    InitialInv(cfg, meta);
    MeetsHolds(cfg, s, 0, z);
    AcceptKeeps(cfg, s, 0, z, LastOnly);
    ExtendKeeps(cfg, s.partials, 0, z);
    ExtendSlots(cfg, s.partials, 0, z);
    var s1 := AddPartial(cfg, s, 0, z, false);
    hide Extend, SortsByTime, SlotsOk, Accepts, VisitsKeys, MatchTransition, Condition, Holds, Refuses;
    MatchTransitionKeeps(cfg, s1, 0);
    assert LastOnly(0, s1.partials.Keys) == [];
  }

  lemma RunAccepts(cfg: Config, s: State, e: Event)
    requires cfg.slots >= 1 && Accepts(cfg, s, 0, e) && Accept(cfg, s, 0, e, LastOnly).fsm != Terminal
    ensures var o, rest := Run(cfg, s, e, LastOnly), RunFrom(cfg, Accept(cfg, s, 0, e, LastOnly), e, 1, LastOnly);
            o.fired == rest.fired && o.state == rest.state
  {
    hide Accept, Accepts;
  }

  /** After the waiting `z` an event for slot 0 either fires at once or leaves only the last slot missing. */
  lemma ThenMoves(cfg: Config, s: State, z: Event, y: Event, level: nat)
    requires ThreeUnordered(cfg) && Waits(cfg, s, z, level) && level <= 1 && Around(cfg, y, z)
    ensures var r := ProcessEvent(cfg, s, y, LastOnly);
            if Condition(cfg, 2, y) then r.fired else !r.fired && Inv(cfg, r.state) && r.state.fsm == At(2)
  {
    hide Inv, Waits, RunFrom, Accept, Accepts, Condition, ValidConfig;
    WaitingMoves(cfg, s, z, y, level);
    var t := Accept(cfg, s, 0, y, LastOnly);
    RunAccepts(cfg, s, y);
    if Condition(cfg, 2, y) {
      LastFires(cfg, t, y);
    } else {
      SkipSlot(cfg, t, y, 1);
      SkipSlot(cfg, t, y, 2);
      RunDone(cfg, t, y);
    }
  }

  lemma RunDone(cfg: Config, s: State, e: Event)
    ensures RunFrom(cfg, s, e, cfg.slots, LastOnly) == Outcome(s, [], false)
  {
  }

  lemma ThenFires(cfg: Config, s: State, z: Event)
    requires ThreeUnordered(cfg) && Inv(cfg, s) && s.fsm == At(2)
    requires Condition(cfg, 2, z) && !Condition(cfg, 1, z) && !Condition(cfg, 0, z)
    ensures ProcessEvent(cfg, s, z, LastOnly).fired
  {
    SkipSlot(cfg, s, z, 0);
    hide Inv, RunFrom, Condition;
    LastFires(cfg, s, z);
  }

  /** What is played is recent until something fires. */
  lemma RecentNext(cfg: Config, meta: Meta, es: seq<Event>, e: Event)
    requires !ProcessEvent(cfg, After(cfg, meta, Play(es, LastOnly)), e, LastOnly).fired
    ensures Recent(cfg, meta, Play(es + [e], LastOnly)) == Recent(cfg, meta, Play(es, LastOnly)) + [e]
  {
    hide ProcessEvent, After;
    PlayPrefix(es + [e], LastOnly);
    assert (es + [e])[..|es|] == es;
  }

  lemma NothingPlayed(cfg: Config, meta: Meta)
    ensures Play([], LastOnly) == [] && After(cfg, meta, []) == Initial(meta) && Recent(cfg, meta, []) == []
  {
  }

  lemma {:induction false} PlayLegal(cfg: Config, meta: Meta, es: seq<Event>)
    ensures LegalRun(cfg, meta, Play(es, LastOnly))
  {
    LastOnlyVisits();
    if es != [] {
      hide VisitsKeys, After;
      PlayLegal(cfg, meta, es[..|es| - 1]);
      PlayPrefix(es, LastOnly);
    }
  }

  /** A run that fires, and all of it since the automaton was clear. */
  ghost predicate RunFires(cfg: Config, meta: Meta, es: seq<Event>, e: Event) {
    && ProcessEvent(cfg, After(cfg, meta, Play(es, LastOnly)), e, LastOnly).fired
    && Recent(cfg, meta, Play(es, LastOnly)) == es
  }

  lemma PlayedWaits(cfg: Config, meta: Meta, z: Event)
    requires ThreeUnordered(cfg) && Condition(cfg, 2, z) && !Condition(cfg, 1, z)
    ensures Recent(cfg, meta, Play([z], LastOnly)) == [z]
    ensures Waits(cfg, After(cfg, meta, Play([z], LastOnly)), z, if Condition(cfg, 0, z) then 1 else 0)
  {
    NothingPlayed(cfg, meta);
    FirstWaits(cfg, meta, z);
    hide Waits, ProcessEvent, After, Recent, Play, ThreeUnordered, Condition;
    RecentNext(cfg, meta, [], z);
    PlayNext(cfg, meta, [], z, LastOnly);
    assert [] + [z] == [z];
  }

  lemma ThirdFires(cfg: Config, meta: Meta, y: Event, z: Event)
    requires ThreeUnordered(cfg) && Around(cfg, y, z) && !Condition(cfg, 0, z) && !Condition(cfg, 2, y)
    requires Waits(cfg, After(cfg, meta, Play([z], LastOnly)), z, 0) && Recent(cfg, meta, Play([z], LastOnly)) == [z]
    ensures RunFires(cfg, meta, [z, y], z)
  {
    hide Waits, ProcessEvent, After, Recent, Play, ThreeUnordered, Condition, Inv;
    ThenMoves(cfg, After(cfg, meta, Play([z], LastOnly)), z, y, 0);
    RecentNext(cfg, meta, [z], y);
    PlayNext(cfg, meta, [z], y, LastOnly);
    assert [z] + [y] == [z, y];
    ThenFires(cfg, After(cfg, meta, Play([z, y], LastOnly)), z);
  }

  /** The run that goes round the middle slot: `z` waits, `y` moves past it, and `z` again completes the sequence. */
  lemma GoesAround(cfg: Config, meta: Meta, y: Event, z: Event) returns (es: seq<Event>, e: Event)
    requires ThreeUnordered(cfg) && Around(cfg, y, z)
    ensures (forall x :: x in es + [e] ==> x == y || x == z) && RunFires(cfg, meta, es, e)
  {
    hide Waits, ProcessEvent, After, Recent, Play, ThreeUnordered, Condition;
    PlayedWaits(cfg, meta, z);
    var s1 := After(cfg, meta, Play([z], LastOnly));
    if Condition(cfg, 0, z) {
      ThenMoves(cfg, s1, z, z, 1);
      es, e := [z], z;
    } else if Condition(cfg, 2, y) {
      ThenMoves(cfg, s1, z, y, 0);
      es, e := [z], y;
    } else {
      ThirdFires(cfg, meta, y, z);
      es, e := [z, y], z;
    }
  }

  lemma AroundMisses(cfg: Config, y: Event, z: Event)
    requires ThreeUnordered(cfg) && Around(cfg, y, z)
    ensures !MeetsAll(cfg)
  {
    var meta := Meta(map[], {});
    var es, e := GoesAround(cfg, meta, y, z);
    PlayLegal(cfg, meta, es);
    LastOnlyVisits();
    hide ProcessEvent, VisitsKeys, Recent, After, LegalRun, Play;
    assert !MetBy(cfg, es + [e], 1);
    assert !AllMet(cfg, es + [e]);
  }

  /**
   A rule over three slots without joins and order meets all of them whenever it fires exactly when the middle one
   cannot be gone round.
   */
  lemma MeetsAllExactly(cfg: Config)
    requires ThreeUnordered(cfg)
    ensures MeetsAll(cfg) <==> forall y, z :: !Around(cfg, y, z)
  {
    hide ProcessEvent, VisitsKeys, Recent, After, LegalRun, SortsByTime;
    if forall y, z :: !Around(cfg, y, z) {
      forall meta: Meta, steps: seq<Step>, e: Event, order: MapOrder |
        LegalRun(cfg, meta, steps) && VisitsKeys(order) && ProcessEvent(cfg, After(cfg, meta, steps), e, order).fired
        ensures AllMet(cfg, Recent(cfg, meta, steps) + [e])
      {
        FiringEndsMet(cfg, meta, steps, e, order);
        MiddleMet(cfg, Recent(cfg, meta, steps) + [e]);
      }
    } else {
      var y, z :| Around(cfg, y, z);
      AroundMisses(cfg, y, z);
    }
  }

  lemma MiddleMet(cfg: Config, es: seq<Event>)
    requires cfg.slots == 3 && MetBy(cfg, es, 0) && MetBy(cfg, es, 2) && forall y, z :: !Around(cfg, y, z)
    ensures AllMet(cfg, es)
  {
    hide Condition;
    var y :| y in es && Condition(cfg, 0, y);
    var z :| z in es && Condition(cfg, 2, z);
    assert !Around(cfg, y, z);
    assert MetBy(cfg, es, 1);
  }
}
