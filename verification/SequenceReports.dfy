/** What a firing rule reports: the events collected when the last slot of a joined sequence matches. */
module SequenceReports {
  import opened Links
  import opened SequenceModel
  import opened SequenceInvariants
  import opened SequenceOrdered

  lemma {:induction false} FirstInnerFinds(cfg: Config, meta: Meta, outer: Event, q: seq<Event>)
    ensures var r := FirstInner(cfg, meta, outer, q);
            && (r.Some? ==> r.value in q && Pairs(cfg, meta, outer, r.value))
            && (r.None? ==> forall e :: e in q ==> !Pairs(cfg, meta, outer, e))
  {
    if q != [] {
      FirstInnerFinds(cfg, meta, outer, q[..|q| - 1]);
      assert q == q[..|q| - 1] + [q[|q| - 1]];
    }
  }

  lemma {:induction false} FirstPairFinds(cfg: Config, meta: Meta, q: seq<Event>, r: seq<Event>)
    ensures var p := FirstPair(cfg, meta, q, r);
            && (p.Some? ==> p.value.0 in q && p.value.1 in r && Pairs(cfg, meta, p.value.0, p.value.1))
            && (p.None? ==> forall a, b :: a in q && b in r ==> !Pairs(cfg, meta, a, b))
  {
    if q != [] {
      FirstPairFinds(cfg, meta, q[..|q| - 1], r);
      FirstInnerFinds(cfg, meta, q[|q| - 1], r);
      assert q == q[..|q| - 1] + [q[|q| - 1]];
    }
  }

  /** Slots `k - 1` and `k` hold a pair. */
  ghost predicate HasPair(cfg: Config, s: State, k: nat)
    requires k > 0
  {
    FirstPair(cfg, s.meta, Slot(s.partials, k - 1), Slot(s.partials, k)).Some?
  }

  ghost predicate FromSlots(s: State, m: map<nat, Event>) {
    forall k :: k in m ==> m[k] in Slot(s.partials, k)
  }

  /** When every two neighbouring slots hold a pair, collecting reaches every slot. */
  lemma {:induction false} CollectReaches(cfg: Config, s: State, k: nat)
    requires s.matches == map[] && forall j :: 0 < j <= k ==> HasPair(cfg, s, j)
    ensures CollectTo(cfg, s, k).Keys == if k == 0 then {} else Below(k + 1)
    ensures FromSlots(s, CollectTo(cfg, s, k))
  {
    if k > 0 {
      CollectReaches(cfg, s, k - 1);
      FirstPairFinds(cfg, s.meta, Slot(s.partials, k - 1), Slot(s.partials, k));
      assert HasPair(cfg, s, k);
      assert Below(k + 1) == Below(k - 1) + {k - 1, k};
    }
  }

  lemma {:induction false} BelowSize(n: nat)
    ensures |Below(n)| == n
  {
    if n > 0 {
      BelowSize(n - 1);
      var smaller := Below(n - 1);
      assert n - 1 !in smaller;
      assert |smaller + {n - 1}| == |smaller| + 1;
    }
  }

  /** A slot with an event linked to `l` on each side: the two events join. */
  lemma NeighboursPair(cfg: Config, s: State, k: nat, l: Link)
    requires k > 0
    requires SlotJoins(cfg, s.meta, Slot(s.partials, k - 1), l) && SlotJoins(cfg, s.meta, Slot(s.partials, k), l)
    ensures HasPair(cfg, s, k)
  {
    var q, r := Slot(s.partials, k - 1), Slot(s.partials, k);
    var i :| 0 <= i < |q| && LinksTo(cfg.text, l, LinksOf(s.meta, q[i]));
    var j :| 0 <= j < |r| && LinksTo(cfg.text, l, LinksOf(s.meta, r[j]));
    JoinThrough(cfg.text, l, LinksOf(s.meta, q[i]), LinksOf(s.meta, r[j]));
    FirstPairFinds(cfg, s.meta, q, r);
    assert Pairs(cfg, s.meta, q[i], r[j]);
  }

  lemma JoinsSurvive(cfg: Config, meta: Meta, q: seq<Event>, l: Link, e: Event, l': Link)
    requires SlotJoins(cfg, meta, q, l)
    ensures SlotJoins(cfg, AddLink(meta, e, l'), q, l)
  {
    var i :| 0 <= i < |q| && LinksTo(cfg.text, l, LinksOf(meta, q[i]));
    var v :| v in LinksOf(meta, q[i]) && CompareLink(cfg.text, l, v);
    assert v in LinksOf(AddLink(meta, e, l'), q[i]);
  }

  /** A link that equals some link equals itself. */
  lemma LinkedToItself(cfg: Config, meta: Meta, q: seq<Event>, e: Event, l: Link)
    requires SlotJoins(cfg, meta, q, l)
    ensures SlotJoins(cfg, AddLink(meta, e, l), [e], l)
  {
    var i :| 0 <= i < |q| && LinksTo(cfg.text, l, LinksOf(meta, q[i]));
    var v :| v in LinksOf(meta, q[i]) && CompareLink(cfg.text, l, v);
    CompareSymmetric(cfg.text, l, v);
    CompareTransitive(cfg.text, l, v, l);
    assert l in LinksOf(AddLink(meta, e, l), [e][0]);
  }

  /** The machine just after the last slot of a joined sequence accepted `e`. */
  lemma LastSlotJoins(cfg: Config, s: State, e: Event, order: MapOrder)
    requires SortsByTime(cfg.sort) && OrderedInv(cfg, s) && HasBy(cfg) && cfg.slots >= 2
    requires s.fsm == At(cfg.slots - 1) && Holds(cfg, s, cfg.slots - 1, e)
    ensures var s1 := Accept(cfg, s, cfg.slots - 1, e, order);
            && s1.partials == s.partials[cfg.slots - 1 := [e]]
            && forall j: nat :: j < cfg.slots ==>
                 SlotJoins(cfg, s1.meta, Slot(s1.partials, j), LinkOf(cfg, cfg.slots - 1, e))
  {
    var n := cfg.slots;
    var l := LinkOf(cfg, n - 1, e);
    AcceptMoves(cfg, s, n - 1, e, order);
    ExtendSlots(cfg, s.partials, n - 1, e);
    var s1 := Accept(cfg, s, n - 1, e, order);
    assert n - 1 !in s.partials;
    assert s1.partials == s.partials[n - 1 := [e]];
    forall j: nat | j < n - 1
      ensures SlotJoins(cfg, s1.meta, Slot(s1.partials, j), l)
    {
      assert SlotJoins(cfg, s.meta, Slot(s.partials, j), l);
      JoinsSurvive(cfg, s.meta, Slot(s.partials, j), l, e, l);
    }
    assert SlotJoins(cfg, s.meta, Slot(s.partials, 0), l);
    LinkedToItself(cfg, s.meta, Slot(s.partials, 0), e, l);
  }

  /** The state from which the events of a firing are collected. */
  function Fired(cfg: Config, s: State, e: Event, order: MapOrder): State
    requires cfg.slots >= 1
  {
    Fire(cfg, Accept(cfg, s, cfg.slots - 1, e, order), ResetTrigger)
  }

  /** A sequence fires only from its last state, on an event its last slot accepts. */
  lemma FiresFromLast(cfg: Config, s: State, e: Event, order: MapOrder)
    requires ValidConfig(cfg) && OrderedInv(cfg, s) && ProcessEvent(cfg, s, e, order).fired
    ensures s.fsm == At(cfg.slots - 1) && Accepts(cfg, s, cfg.slots - 1, e)
    ensures ProcessEvent(cfg, s, e, order).accepted == [cfg.slots - 1]
    ensures Accept(cfg, s, cfg.slots - 1, e, order).fsm == Terminal
    ensures ProcessEvent(cfg, s, e, order).matches == CollectMatches(cfg, Fired(cfg, s, e, order)).matches
  {
    hide RunFrom, Accept, CollectMatches, Fire, Accepts, Matched, SlotsOk, NoneNewer, Below, SortsByTime;
    var o := Run(cfg, s, e, order);
    OrderedRun(cfg, s, e, 0, order);
    AcceptMoves(cfg, s, o.accepted[0], e, order);
  }

  lemma FiredShape(cfg: Config, s: State, e: Event, order: MapOrder)
    requires ValidConfig(cfg) && OrderedInv(cfg, s) && VisitsKeys(order)
    requires ProcessEvent(cfg, s, e, order).fired
    ensures s.fsm == At(cfg.slots - 1) && Accepts(cfg, s, cfg.slots - 1, e)
    ensures var s1 := Accept(cfg, s, cfg.slots - 1, e, order);
            var s2 := Fired(cfg, s, e, order);
            && s2.partials == s1.partials && s2.meta == s1.meta && s2.matches == map[]
            && s2.partials.Keys == Below(cfg.slots)
            && ProcessEvent(cfg, s, e, order).matches == CollectTo(cfg, s2, cfg.slots)
  {
    hide RunFrom, Accept, AcceptEvaluated, ProcessEvent, Accepts, SlotsOk, NoneNewer, SlotsFilled, CollectTo, Below;
    FiresFromLast(cfg, s, e, order);
    AcceptKeeps(cfg, s, cfg.slots - 1, e, order);
    AcceptKeys(cfg, s, cfg.slots - 1, e, order);
    BelowSize(cfg.slots);
    hide OrderedInv, ValidConfig, VisitsKeys;
    assert |Fired(cfg, s, e, order).partials| == cfg.slots;
  }

  lemma FiredPairs(cfg: Config, s: State, e: Event, order: MapOrder)
    requires ValidConfig(cfg) && OrderedInv(cfg, s) && HasBy(cfg) && VisitsKeys(order) && cfg.slots >= 2
    requires ProcessEvent(cfg, s, e, order).fired
    ensures var s2 := Fired(cfg, s, e, order);
            && s2.partials == s.partials[cfg.slots - 1 := [e]]
            && forall j :: 0 < j <= cfg.slots - 1 ==> HasPair(cfg, s2, j)
  {
    FiredShape(cfg, s, e, order);
    LastSlotJoins(cfg, s, e, order);
    var s2 := Fired(cfg, s, e, order);
    hide Fired, ProcessEvent, OrderedInv, ValidConfig, HasPair, SlotJoins, Accept;
    forall j | 0 < j <= cfg.slots - 1
      ensures HasPair(cfg, s2, j)
    {
      NeighboursPair(cfg, s2, j, LinkOf(cfg, cfg.slots - 1, e));
    }
  }

  /** One event for every slot: from the slot itself, and for the last one the event that fires. */
  ghost predicate ReportsEverySlot(cfg: Config, s: State, e: Event, m: map<nat, Event>) {
    && cfg.slots >= 1 && m.Keys == Below(cfg.slots) && m[cfg.slots - 1] == e
    && forall k: nat :: k < cfg.slots - 1 ==> m[k] in Slot(s.partials, k)
  }

  /**
   A joined ordered sequence of two or more slots reports one event from every slot when it fires, whatever
   was collected or expired before. A sequence of one slot, which the parser lets through, reports none.
   */
  lemma FiringReportsEverySlot(cfg: Config, s: State, e: Event, order: MapOrder)
    requires ValidConfig(cfg) && OrderedInv(cfg, s) && HasBy(cfg) && VisitsKeys(order)
    requires ProcessEvent(cfg, s, e, order).fired
    ensures var m := ProcessEvent(cfg, s, e, order).matches;
            && (ReportsEverySlot(cfg, s, e, m) <==> cfg.slots >= 2)
            && (cfg.slots == 1 ==> m == map[])
  {
    hide *;
    HasSlots(cfg);
    var n := cfg.slots;
    var s2 := Fired(cfg, s, e, order);
    FiredShape(cfg, s, e, order);
    CollectLast(cfg, s2);
    if n >= 2 {
      FiredPairs(cfg, s, e, order);
      CollectReaches(cfg, s2, n - 1);
      SlotsReported(cfg, s, s2, CollectTo(cfg, s2, n - 1), e);
    } else {
      CollectNone(cfg, s, s2, e);
    }
  }

  lemma HasSlots(cfg: Config)
    requires ValidConfig(cfg)
    ensures cfg.slots >= 1
  {
  }

  lemma CollectNone(cfg: Config, s: State, s2: State, e: Event)
    requires s2.matches == map[] && cfg.slots == 1
    ensures CollectTo(cfg, s2, 0) == map[] && !ReportsEverySlot(cfg, s, e, CollectTo(cfg, s2, 0))
  {
    assert 0 in Below(1);
  }

  /** There is nothing beyond the last slot to pair with. */
  lemma CollectLast(cfg: Config, s2: State)
    requires cfg.slots >= 1 && s2.partials.Keys == Below(cfg.slots)
    ensures CollectTo(cfg, s2, cfg.slots) == CollectTo(cfg, s2, cfg.slots - 1)
  {
    FirstPairFinds(cfg, s2.meta, Slot(s2.partials, cfg.slots - 1), Slot(s2.partials, cfg.slots));
  }

  lemma SlotsReported(cfg: Config, s: State, s2: State, m: map<nat, Event>, e: Event)
    requires cfg.slots >= 2 && s2.partials == s.partials[cfg.slots - 1 := [e]]
    requires m.Keys == Below(cfg.slots) && FromSlots(s2, m)
    ensures ReportsEverySlot(cfg, s, e, m)
  {
    assert cfg.slots - 1 in m;
  }

  // ---- the list of events ----

  ghost predicate Enumerates(order: seq<nat>, keys: set<nat>) {
    && (forall i, j :: 0 <= i < j < |order| ==> order[i] != order[j])
    && (forall k :: k in keys <==> k in order)
  }

  /** The slots that report `e`. */
  function SlotsOf(m: map<nat, Event>, order: seq<nat>, e: Event): set<nat> {
    set k | k in order && k in m && m[k] == e
  }

  lemma {:induction false} ValuesCount(m: map<nat, Event>, order: seq<nat>, e: Event)
    requires forall i, j :: 0 <= i < j < |order| ==> order[i] != order[j]
    ensures multiset(Values(m, order))[e] == |SlotsOf(m, order, e)|
  {
    if order != [] {
      var init, k := order[..|order| - 1], order[|order| - 1];
      ValuesCount(m, init, e);
      SlotsOfSnoc(m, init, k, e);
      assert order == init + [k];
    }
  }

  lemma SlotsOfSnoc(m: map<nat, Event>, init: seq<nat>, k: nat, e: Event)
    requires k !in init
    ensures SlotsOf(m, init + [k], e) == SlotsOf(m, init, e) + if k in m && m[k] == e then {k} else {}
    ensures k !in SlotsOf(m, init, e)
  {
  }

  /** The list is sorted and counts every event once for each slot that reports it. */
  lemma EventsCount(cfg: Config, m: map<nat, Event>, order: seq<nat>, e: Event)
    requires SortsByTime(cfg.sort) && Enumerates(order, m.Keys)
    ensures Sorted(EventsOf(cfg, m, order))
    ensures multiset(EventsOf(cfg, m, order))[e] == |set k | k in m && m[k] == e|
  {
    ValuesCount(m, order, e);
    assert SlotsOf(m, order, e) == set k | k in m && m[k] == e;
  }
}
