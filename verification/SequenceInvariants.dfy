/** What every step of the automaton keeps, in ordered and unordered mode alike. */
module SequenceInvariants {
  import opened SequenceModel

  // ---- one slot ----

  /** No two events share a partial key, unless they have none. */
  ghost predicate KeysApart(m: multiset<Event>) {
    forall x, y :: x in m && y in m && x.key != 0 && x.key == y.key ==> x == y && m[x] == 1
  }

  ghost predicate SlotOk(q: seq<Event>) {
    Sorted(q) && |q| <= MAX_OUTSTANDING_PARTIALS + 1 && KeysApart(multiset(q))
  }

  lemma KeysApartAt(q: seq<Event>, i: nat, j: nat)
    requires KeysApart(multiset(q)) && i < j < |q| && q[i].key != 0
    ensures q[i].key != q[j].key
  {
    assert q == q[..j] + q[j..];
    assert q[i] in q[..j] && q[j] in q[j..];
    assert multiset(q) == multiset(q[..j]) + multiset(q[j..]);
    assert q[i] in multiset(q[..j]) && q[j] in multiset(q[j..]);
  }

  lemma SortedSlotOk(cfg: Config, q: seq<Event>, e: Event)
    requires ValidConfig(cfg) && SlotOk(q) && |q| <= MAX_OUTSTANDING_PARTIALS
    requires e.key == 0 || !HasKey(q, e.key)
    ensures SlotOk(cfg.sort(q + [e]))
    ensures multiset(cfg.sort(q + [e])) == multiset(q) + multiset{e}
  {
    var r := cfg.sort(q + [e]);
    assert Sorted(r) && multiset(r) == multiset(q + [e]);
    assert multiset(q + [e]) == multiset(q) + multiset{e};
    assert |r| == |multiset(r)| == |q| + 1;
    forall x: Event, y: Event | x in multiset(r) && y in multiset(r) && x.key != 0 && x.key == y.key
      ensures x == y && multiset(r)[x] == 1
    {
      assert x in multiset(q) ==> x in q;
      assert y in multiset(q) ==> y in q;
    }
  }

  lemma {:induction false} RetainMembers(q: seq<Event>, drop: (nat, Event) -> bool, k: nat)
    ensures |Retain(q, drop, k)| <= |q|
    ensures forall e :: e in Retain(q, drop, k) <==> e in q && !drop(k, e)
  {
    if q != [] {
      RetainMembers(q[..|q| - 1], drop, k);
      assert q == q[..|q| - 1] + [q[|q| - 1]];
    }
  }

  lemma {:induction false} RetainMultiset(q: seq<Event>, drop: (nat, Event) -> bool, k: nat)
    ensures multiset(Retain(q, drop, k)) <= multiset(q)
  {
    if q != [] {
      RetainMultiset(q[..|q| - 1], drop, k);
      assert q == q[..|q| - 1] + [q[|q| - 1]];
    }
  }

  lemma {:induction false} RetainSorted(q: seq<Event>, drop: (nat, Event) -> bool, k: nat)
    requires Sorted(q)
    ensures Sorted(Retain(q, drop, k))
  {
    if q != [] {
      var init, last := q[..|q| - 1], q[|q| - 1];
      RetainSorted(init, drop, k);
      RetainMembers(init, drop, k);
      var r := Retain(init, drop, k);
      forall i | 0 <= i < |r|
        ensures r[i].timestamp <= last.timestamp
      {
        assert r[i] in init;
      }
    }
  }

  lemma RetainSlotOk(q: seq<Event>, drop: (nat, Event) -> bool, k: nat)
    requires SlotOk(q)
    ensures SlotOk(Retain(q, drop, k))
  {
    RetainMembers(q, drop, k);
    RetainMultiset(q, drop, k);
    RetainSorted(q, drop, k);
    var r := Retain(q, drop, k);
    forall x: Event, y: Event | x in multiset(r) && y in multiset(r) && x.key != 0 && x.key == y.key
      ensures x == y && multiset(r)[x] == 1
    {
      assert x in multiset(q) && y in multiset(q);
      assert multiset(r)[x] <= multiset(q)[x];
    }
  }

  ghost predicate SlotsOk(cfg: Config, partials: map<nat, seq<Event>>) {
    forall k :: k in partials ==> k < cfg.slots && SlotOk(partials[k])
  }

  lemma RetainAllOk(cfg: Config, partials: map<nat, seq<Event>>, drop: (nat, Event) -> bool)
    requires SlotsOk(cfg, partials)
    ensures SlotsOk(cfg, RetainAll(partials, drop))
    ensures RetainAll(partials, drop).Keys == partials.Keys
  {
    forall k | k in partials
      ensures SlotOk(RetainAll(partials, drop)[k])
    {
      RetainSlotOk(partials[k], drop, k);
    }
  }

  lemma RetainAllMembers(partials: map<nat, seq<Event>>, drop: (nat, Event) -> bool, k: nat)
    requires k in partials
    ensures forall e :: e in RetainAll(partials, drop)[k] <==> e in partials[k] && !drop(k, e)
  {
    RetainMembers(partials[k], drop, k);
  }

  // ---- the machine ----

  /** The slots before `n`. */
  function Below(n: nat): (r: set<nat>)
    ensures forall k: nat :: k in r <==> k < n
  {
    if n == 0 then {} else Below(n - 1) + {n - 1}
  }

  /** How many expressions have matched so far. */
  function Level(cfg: Config, fsm: Fsm): nat {
    if fsm.At? then fsm.slot else cfg.slots
  }

  /** The machine, its bitmap, its flags and its timers agree. */
  ghost predicate FsmInv(cfg: Config, s: State) {
    && (s.fsm == Terminal || (s.fsm.At? && s.fsm.slot < cfg.slots))
    && s.states == Below(Level(cfg, s.fsm))
    && (s.inDeadline || s.inExpired ==> s.fsm == At(0))
    && s.timers == (if cfg.maxSpan != 0 && Schedulable(s.fsm) then {s.fsm.slot} else {})
    && s.matches == map[]
    && s.errors == 0
  }

  /** Holds at every point of a run, also while the machine passes through the terminal state. */
  ghost predicate MidInv(cfg: Config, s: State) {
    FsmInv(cfg, s) && SlotsOk(cfg, s.partials)
  }

  /** Holds between steps. */
  ghost predicate Inv(cfg: Config, s: State) {
    MidInv(cfg, s) && s.fsm.At?
  }

  /** A match trigger is always permitted, and moves the machine when the slot has not matched yet. */
  lemma MatchTransitionKeeps(cfg: Config, s: State, k: nat)
    requires FsmInv(cfg, s) && k < cfg.slots
    ensures var s1 := MatchTransition(cfg, s, k);
            && FsmInv(cfg, s1)
            && s1 == s.(fsm := s1.fsm, states := s1.states, timers := s1.timers,
                        inDeadline := s1.inDeadline, inExpired := s1.inExpired)
            && s1.fsm == (if k < Level(cfg, s.fsm) then s.fsm
                          else if s.fsm.slot + 1 == cfg.slots then Terminal else At(s.fsm.slot + 1))
  {
    if k !in s.states {
      assert Below(s.fsm.slot + 1) == Below(s.fsm.slot) + {s.fsm.slot};
    }
  }

  lemma SameFsm(cfg: Config, s: State, t: State)
    requires FsmInv(cfg, s) && t == s.(partials := t.partials, meta := t.meta, breached := t.breached)
    ensures FsmInv(cfg, t)
  {
  }

  lemma ExtendKeeps(cfg: Config, partials: map<nat, seq<Event>>, k: nat, e: Event)
    requires ValidConfig(cfg) && SlotsOk(cfg, partials) && k < cfg.slots
    ensures SlotsOk(cfg, Extend(cfg, partials, k, e))
  {
    var q := Slot(partials, k);
    if !Refuses(q, e) {
      SortedSlotOk(cfg, q, e);
    }
  }

  lemma {:induction false} RetrySlotKeeps(cfg: Config, s: State, k: nat, q: seq<Event>)
    requires ValidConfig(cfg) && MidInv(cfg, s) && k < cfg.slots
    ensures MidInv(cfg, RetrySlot(cfg, s, k, q))
    ensures RetrySlot(cfg, s, k, q).partials == s.partials
  {
    if q != [] {
      var s1 := RetrySlot(cfg, s, k, q[..|q| - 1]);
      RetrySlotKeeps(cfg, s, k, q[..|q| - 1]);
      MatchTransitionKeeps(cfg, Evaluated(cfg, s1, k, q[|q| - 1]), k);
    }
  }

  lemma {:induction false} RetryKeeps(cfg: Config, s: State, order: seq<nat>)
    requires ValidConfig(cfg) && MidInv(cfg, s)
    requires forall i :: 0 <= i < |order| ==> order[i] < cfg.slots
    ensures MidInv(cfg, Retry(cfg, s, order))
    ensures Retry(cfg, s, order).partials == s.partials
  {
    if order != [] {
      RetryKeeps(cfg, s, order[..|order| - 1]);
      RetrySlotKeeps(cfg, Retry(cfg, s, order[..|order| - 1]), order[|order| - 1],
                     Slot(s.partials, order[|order| - 1]));
    }
  }

  /** A range over a map visits keys of the map. */
  ghost predicate VisitsKeys(order: MapOrder) {
    forall site, keys, i :: 0 <= i < |order(site, keys)| ==> order(site, keys)[i] in keys
  }

  lemma AcceptKeeps(cfg: Config, s: State, k: nat, e: Event, order: MapOrder)
    requires ValidConfig(cfg) && Inv(cfg, s) && k < cfg.slots && VisitsKeys(order)
    ensures MidInv(cfg, Accept(cfg, s, k, e, order))
  {
    hide Extend, Refuses, Holds, SlotOk, Sorted, SortsByTime, MatchTransition, Retry;
    var s0 := Evaluated(cfg, s, k, e);
    var s1 := AddPartial(cfg, s0, k, e, false);
    ExtendKeeps(cfg, s.partials, k, e);
    MatchTransitionKeeps(cfg, s1, k);
    var s2 := MatchTransition(cfg, s1, k);
    if cfg.unordered && s2.fsm != Terminal {
      RetryKeeps(cfg, s2, order(k, s2.partials.Keys));
    }
  }

  lemma DeclineKeeps(cfg: Config, s: State, k: nat, e: Event)
    requires ValidConfig(cfg) && Inv(cfg, s) && k < cfg.slots
    ensures Inv(cfg, Decline(cfg, s, k, e))
  {
    hide Extend, Refuses, Holds, SlotOk, Sorted, SortsByTime;
    ExtendKeeps(cfg, s.partials, k, e);
  }

  lemma FiredKeeps(cfg: Config, s: State)
    requires ValidConfig(cfg) && MidInv(cfg, s) && s.fsm == Terminal
    ensures Inv(cfg, Clear(CollectMatches(cfg, Fire(cfg, s, ResetTrigger))))
  {
  }

  lemma {:induction false} RunFromKeeps(cfg: Config, s: State, e: Event, k: nat, order: MapOrder)
    requires ValidConfig(cfg) && Inv(cfg, s) && VisitsKeys(order)
    ensures var o := RunFrom(cfg, s, e, k, order);
            Inv(cfg, if o.fired then Clear(o.state) else o.state)
    decreases cfg.slots - k
  {
    hide Accept, Decline, Accepts, CollectMatches, Fire, Clear;
    if k < cfg.slots {
      if !Accepts(cfg, s, k, e) {
        DeclineKeeps(cfg, s, k, e);
        RunFromKeeps(cfg, Decline(cfg, s, k, e), e, k + 1, order);
      } else {
        AcceptKeeps(cfg, s, k, e, order);
        var s1 := Accept(cfg, s, k, e, order);
        if s1.fsm == Terminal {
          FiredKeeps(cfg, s1);
        } else {
          RunFromKeeps(cfg, s1, e, k + 1, order);
        }
      }
    }
  }

  lemma ProcessEventKeeps(cfg: Config, s: State, e: Event, order: MapOrder)
    requires ValidConfig(cfg) && Inv(cfg, s) && VisitsKeys(order)
    ensures Inv(cfg, ProcessEvent(cfg, s, e, order).state)
  {
    RunFromKeeps(cfg, s, e, 0, order);
  }

  lemma GcKeeps(cfg: Config, s: State, now: int)
    requires Inv(cfg, s)
    ensures Inv(cfg, Gc(cfg, s, now))
  {
    RetainAllOk(cfg, s.partials, Stale(cfg, now));
  }

  lemma CancelKeeps(cfg: Config, s: State, k: nat)
    requires ValidConfig(cfg) && Inv(cfg, s) && k > 0
    ensures Inv(cfg, Cancel(cfg, s, k))
    ensures s.fsm == At(k) ==> Cancel(cfg, s, k) == Initial(s.meta).(inDeadline := true)
  {
  }

  /** Expiring the whole sequence raises the expired flag unless the machine had not left its initial state. */
  lemma ExpireWholeResets(cfg: Config, s: State)
    requires ValidConfig(cfg) && Inv(cfg, s)
    ensures ExpireWhole(cfg, s) == Initial(s.meta).(inExpired := s.fsm != At(0))
  {
  }

  lemma ExpireKeeps(cfg: Config, s: State, t: Event)
    requires ValidConfig(cfg) && Inv(cfg, s)
    ensures Inv(cfg, Expire(cfg, s, t))
  {
    RetainAllOk(cfg, s.partials, Expirable(cfg, t));
    ExpireWholeResets(cfg, s);
  }
}
