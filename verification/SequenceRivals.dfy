/**
 Joined rules of three or more slots whose reports do not join: the runs that show it, and which rules have such runs.
 */
module SequenceRivals {
  import opened Options
  import opened Links
  import opened SequenceModel
  import opened SequenceInvariants
  import opened SequenceOrdered
  import opened SequenceReports
  import opened SequenceRuns
  import opened SequenceJoins
  import opened SequencePlain

  // ---- events for one slot each ----

  /** The event meets the condition of slot `k` and of no other, and never repeats another one's key. */
  ghost predicate Only(cfg: Config, k: nat, e: Event) {
    e.key == 0 && forall j :: 0 <= j < cfg.slots ==> (Condition(cfg, j, e) <==> j == k)
  }

  /** Slots whose condition the event does not meet are passed over. */
  lemma {:induction false} PassedOver(cfg: Config, s: State, e: Event, i: nat, k: nat, order: MapOrder)
    requires i <= k <= cfg.slots && forall j :: i <= j < k ==> !Condition(cfg, j, e)
    ensures RunFrom(cfg, s, e, i, order) == RunFrom(cfg, s, e, k, order)
    decreases k - i
  {
    hide Accept;
    if i < k {
      assert !Condition(cfg, i, e);
      assert Decline(cfg, s, i, e) == s;
      PassedOver(cfg, s, e, i + 1, k, order);
    }
  }

  /** An event for one slot, which is accepted there and does not fire. */
  lemma OneSlot(cfg: Config, s: State, e: Event, k: nat, order: MapOrder)
    requires ValidConfig(cfg) && OrderedInv(cfg, s) && HasBy(cfg) && VisitsKeys(order)
    requires k < cfg.slots - 1 && k <= s.fsm.slot && Only(cfg, k, e) && InTime(s, e) && Joined(cfg, s, k, e)
    ensures var t := ProcessEvent(cfg, s, e, order).state;
            && t.fsm == (if k == s.fsm.slot then At(k + 1) else s.fsm) && t.lastMatch == e.timestamp
            && t.partials == Extend(cfg, s.partials, k, e) && t.meta == AddLink(s.meta, e, LinkOf(cfg, k, e))
  {
    WouldAccept(cfg, s, e, k);
    hide *;
    OneSlotRun(cfg, s, e, k, order);
  }

  lemma WouldAccept(cfg: Config, s: State, e: Event, k: nat)
    requires FsmInv(cfg, s) && s.fsm.At? && k <= s.fsm.slot && k < cfg.slots
    requires Only(cfg, k, e) && InTime(s, e) && Joined(cfg, s, k, e)
    ensures Accepts(cfg, s, k, e)
  {
    hide Joined;
    NextBound(cfg, s, k);
    assert Condition(cfg, k, e);
  }

  lemma OneSlotRun(cfg: Config, s: State, e: Event, k: nat, order: MapOrder)
    requires FsmInv(cfg, s) && s.fsm.At? && !cfg.unordered && HasBy(cfg)
    requires k < cfg.slots - 1 && k <= s.fsm.slot && Only(cfg, k, e) && Accepts(cfg, s, k, e)
    ensures var t := ProcessEvent(cfg, s, e, order).state;
            && t.fsm == (if k == s.fsm.slot then At(k + 1) else s.fsm) && t.lastMatch == e.timestamp
            && t.partials == Extend(cfg, s.partials, k, e) && t.meta == AddLink(s.meta, e, LinkOf(cfg, k, e))
  {
    hide FsmInv, Accept, Joined, Extend, RunFrom, Next;
    var t := Accept(cfg, s, k, e, order);
    AcceptMoves(cfg, s, k, e, order);
    PassedOver(cfg, s, e, 0, k, order);
    PassedOver(cfg, t, e, k + 1, cfg.slots, order);
    AcceptedThere(cfg, s, e, k, order);
    NothingLeft(cfg, t, e, order);
  }

  lemma NothingLeft(cfg: Config, s: State, e: Event, order: MapOrder)
    ensures RunFrom(cfg, s, e, cfg.slots, order) == Outcome(s, [], false)
  {
  }

  lemma AcceptedThere(cfg: Config, s: State, e: Event, k: nat, order: MapOrder)
    requires k < cfg.slots && Accepts(cfg, s, k, e) && Accept(cfg, s, k, e, order).fsm != Terminal
    ensures RunFrom(cfg, s, e, k, order).state == RunFrom(cfg, Accept(cfg, s, k, e, order), e, k + 1, order).state
    ensures RunFrom(cfg, s, e, k, order).fired == RunFrom(cfg, Accept(cfg, s, k, e, order), e, k + 1, order).fired
  {
    hide Accept, Accepts;
  }

  /** An event for the last slot, when that is the one awaited, fires. */
  lemma LastSlotFires(cfg: Config, s: State, e: Event, order: MapOrder)
    requires FsmInv(cfg, s) && !cfg.unordered && cfg.slots >= 1 && s.fsm == At(cfg.slots - 1)
    requires Only(cfg, cfg.slots - 1, e) && InTime(s, e) && Joined(cfg, s, cfg.slots - 1, e)
    ensures ProcessEvent(cfg, s, e, order).fired
  {
    var k := cfg.slots - 1;
    WouldAccept(cfg, s, e, k);
    hide FsmInv, Accept, Joined, Next;
    AcceptMoves(cfg, s, k, e, order);
    PassedOver(cfg, s, e, 0, k, order);
    hide Accepts;
  }

  /** A slot that an event without a key can still enter holds the two in order of time. */
  lemma ExtendInOrder(cfg: Config, partials: map<nat, seq<Event>>, k: nat, x: Event, y: Event)
    requires SortsByTime(cfg.sort) && x.key == 0 && y.key == 0 && x.timestamp < y.timestamp
    ensures Slot(partials, k) == [] ==> Extend(cfg, partials, k, x) == partials[k := [x]]
    ensures Slot(partials, k) == [x] ==> Extend(cfg, partials, k, y) == partials[k := [x, y]]
  {
    hide SortsByTime;
    assert [] + [x] == [x] && [x] + [y] == [x, y];
    SortOne(cfg, x);
    SortTwo(cfg, x, y);
  }

  lemma SortOne(cfg: Config, x: Event)
    requires SortsByTime(cfg.sort)
    ensures cfg.sort([x]) == [x]
  {
    var r := cfg.sort([x]);
    assert |r| == |multiset(r)| == 1;
    assert r[0] in multiset(r);
  }

  lemma SortTwo(cfg: Config, x: Event, y: Event)
    requires SortsByTime(cfg.sort) && x.timestamp < y.timestamp
    ensures cfg.sort([x, y]) == [x, y]
  {
    var r := cfg.sort([x, y]);
    assert multiset(r) == multiset([x, y]) == multiset{x, y};
    assert |r| == |multiset(r)| == 2;
    assert r == [r[0], r[1]];
    assert r[0] in multiset(r) && r[1] in multiset(r);
    assert multiset(r) == multiset{r[0], r[1]};
    assert r[0] == r[1] ==> multiset(r)[r[0]] == 2;
    assert Sorted(r);
  }

  lemma PlayNothing(order: MapOrder)
    ensures Play([], order) == []
  {
  }

  lemma FirstOfAll(cfg: Config, meta: Meta, q: seq<Event>, r: seq<Event>)
    requires q != [] && r != [] && Joins(cfg, meta, q[0], r[0])
    ensures FirstPair(cfg, meta, q, r) == Some((q[0], r[0]))
  {
    hide FirstPair;
    FirstPairIs(cfg, meta, q, r, 0, 0);
  }

  const NO_META := Meta(map[], {})

  // ---- two matches that compete ----

  /** One event for each of the first slots, each joined to those before it. */
  ghost predicate Chain(cfg: Config, c: seq<Event>) {
    && (forall i :: 0 <= i < |c| ==> Condition(cfg, i, c[i]))
    && (forall i, j :: 0 <= i < j < |c| ==> CompareLink(cfg.text, LinkOf(cfg, j, c[j]), LinkOf(cfg, i, c[i])))
  }

  /** `b` is a match; `a` starts another one, which does not join it. */
  ghost predicate Rivals(cfg: Config, a: seq<Event>, b: seq<Event>) {
    && |a| == 2 && |b| == cfg.slots >= 3 && Chain(cfg, a) && Chain(cfg, b)
    && !CompareLink(cfg.text, LinkOf(cfg, 0, a[0]), LinkOf(cfg, cfg.slots - 1, b[cfg.slots - 1]))
  }

  /** The two take turns in the first two slots. */
  ghost predicate Interleaved(cfg: Config, a: seq<Event>, b: seq<Event>) {
    && ValidConfig(cfg) && !cfg.unordered && HasBy(cfg) && Rivals(cfg, a, b)
    && Only(cfg, 0, a[0]) && Only(cfg, 1, a[1]) && (forall i :: 0 <= i < |b| ==> Only(cfg, i, b[i]))
    && InTurn(a, b)
  }

  ghost predicate InTurn(a: seq<Event>, b: seq<Event>) {
    && |a| == 2 && |b| >= 3 && a[0].timestamp < b[0].timestamp < a[1].timestamp < b[1].timestamp
    && (forall i, j :: 0 <= i < j < |b| ==> b[i].timestamp < b[j].timestamp)
  }

  ghost predicate Reached(
    cfg: Config, s: State, at: nat, last: nat, partials: map<nat, seq<Event>>, links: map<Event, set<Link>>) {
    && OrderedInv(cfg, s) && s.fsm == At(at) && s.lastMatch == last
    && s.partials == partials && s.meta == Meta(links, {})
  }

  /** One more event, for one of the first two slots. */
  lemma ReachNext(
    cfg: Config, s: State, at: nat, last: nat, partials: map<nat, seq<Event>>, links: map<Event, set<Link>>,
    e: Event, k: nat, order: MapOrder)
    requires ValidConfig(cfg) && HasBy(cfg) && VisitsKeys(order) && Reached(cfg, s, at, last, partials, links)
    requires k <= 1 && k <= at && k < cfg.slots - 1 && Only(cfg, k, e) && last < e.timestamp && e !in links
    requires k == 1 ==> SlotJoins(cfg, s.meta, Slot(partials, 0), LinkOf(cfg, k, e))
    ensures Reached(cfg, ProcessEvent(cfg, s, e, order).state, if k == at then k + 1 else at, e.timestamp,
                    Extend(cfg, partials, k, e), links[e := {LinkOf(cfg, k, e)}])
  {
    hide OrderedInv, ProcessEvent, SortsByTime, VisitsKeys, Only, Extend, SlotJoins, LinkOf;
    assert Joined(cfg, s, k, e);
    OneSlot(cfg, s, e, k, order);
    ProcessEventOrdered(cfg, s, e, order);
    assert LinksOf(s.meta, e) + {LinkOf(cfg, k, e)} == {LinkOf(cfg, k, e)};
  }

  /** An event of the slot carries a link equal to `l`. */
  lemma CarriesLink(cfg: Config, meta: Meta, q: seq<Event>, i: nat, l: Link, m: Link)
    requires i < |q| && LinksOf(meta, q[i]) == {m} && CompareLink(cfg.text, l, m)
    ensures SlotJoins(cfg, meta, q, l)
  {
    assert m in LinksOf(meta, q[i]);
  }

  lemma Start(cfg: Config)
    requires ValidConfig(cfg) && !cfg.unordered
    ensures Reached(cfg, After(cfg, NO_META, []), 0, 0, map[], map[])
  {
    OrderedAlways(cfg, NO_META, []);
  }

  function FirstLinks(cfg: Config, x: Event, y: Event): map<Event, set<Link>> {
    map[x := {LinkOf(cfg, 0, x)}, y := {LinkOf(cfg, 0, y)}]
  }

  lemma FirstSlotFilled(cfg: Config, a: seq<Event>, b: seq<Event>, order: MapOrder)
    requires Interleaved(cfg, a, b) && VisitsKeys(order)
    ensures Reached(cfg, After(cfg, NO_META, Play([a[0], b[0]], order)), 1, b[0].timestamp,
                    map[0 := [a[0], b[0]]], FirstLinks(cfg, a[0], b[0]))
  {
    hide After, VisitsKeys, Play, ProcessEvent, SortsByTime, Condition, SlotJoins, Extend, OrderedInv, LinkOf, Chain;
    var x, y := a[0], b[0];
    Start(cfg);
    PlayNothing(order);
    ReachNext(cfg, After(cfg, NO_META, Play([], order)), 0, 0, map[], map[], x, 0, order);
    PlayNext(cfg, NO_META, [], x, order);
    ExtendInOrder(cfg, map[], 0, x, y);
    assert [] + [x] == [x];
    var links := map[x := {LinkOf(cfg, 0, x)}];
    ReachNext(cfg, After(cfg, NO_META, Play([x], order)), 1, x.timestamp, map[0 := [x]], links, y, 0, order);
    PlayNext(cfg, NO_META, [x], y, order);
    ExtendInOrder(cfg, map[0 := [x]], 0, x, y);
    assert [x] + [y] == [x, y];
  }

  function BothLinks(cfg: Config, a: seq<Event>, b: seq<Event>): map<Event, set<Link>>
    requires |a| >= 2 && |b| >= 2
  {
    FirstLinks(cfg, a[0], b[0])[a[1] := {LinkOf(cfg, 1, a[1])}][b[1] := {LinkOf(cfg, 1, b[1])}]
  }

  lemma Neighbours(cfg: Config, a: seq<Event>, b: seq<Event>)
    requires Interleaved(cfg, a, b)
    ensures CompareLink(cfg.text, LinkOf(cfg, 1, a[1]), LinkOf(cfg, 0, a[0]))
    ensures CompareLink(cfg.text, LinkOf(cfg, 1, b[1]), LinkOf(cfg, 0, b[0]))
  {
    hide CompareLink, LinkOf, Only, Condition;
  }

  /** One more event for the second slot, joined to the event at `i` in the first. */
  lemma SecondSlotNext(
    cfg: Config, s: State, at: nat, last: nat, partials: map<nat, seq<Event>>, links: map<Event, set<Link>>,
    y: Event, i: nat, m: Link, order: MapOrder)
    requires ValidConfig(cfg) && HasBy(cfg) && VisitsKeys(order) && Reached(cfg, s, at, last, partials, links)
    requires 1 <= at && cfg.slots >= 3 && Only(cfg, 1, y) && last < y.timestamp && y !in links
    requires i < |Slot(partials, 0)| && LinksOf(Meta(links, {}), Slot(partials, 0)[i]) == {m}
    requires CompareLink(cfg.text, LinkOf(cfg, 1, y), m)
    ensures Reached(cfg, ProcessEvent(cfg, s, y, order).state, if at == 1 then 2 else at, y.timestamp,
                    Extend(cfg, partials, 1, y), links[y := {LinkOf(cfg, 1, y)}])
  {
    hide VisitsKeys, ProcessEvent, SortsByTime, SlotJoins, Extend, OrderedInv, LinkOf, Only, CompareLink;
    CarriesLink(cfg, s.meta, Slot(partials, 0), i, LinkOf(cfg, 1, y), m);
    ReachNext(cfg, s, at, last, partials, links, y, 1, order);
  }

  /** What `SecondSlotNext` needs of the two rivals. */
  lemma RivalsSecond(cfg: Config, a: seq<Event>, b: seq<Event>)
    requires Interleaved(cfg, a, b)
    ensures ValidConfig(cfg) && HasBy(cfg) && cfg.slots >= 3 && Only(cfg, 1, a[1]) && Only(cfg, 1, b[1])
    ensures a[0].timestamp < b[0].timestamp < a[1].timestamp < b[1].timestamp && a[1].key == 0 && b[1].key == 0
  {
  }

  lemma StrayArrives(cfg: Config, a: seq<Event>, b: seq<Event>, order: MapOrder)
    requires Interleaved(cfg, a, b) && VisitsKeys(order)
    ensures Reached(cfg, After(cfg, NO_META, Play([a[0], b[0], a[1]], order)), 2, a[1].timestamp,
                    map[0 := [a[0], b[0]], 1 := [a[1]]],
                    StrayLinks(cfg, a, b))
  {
    hide *;
    Sizes(cfg, a, b);
    FirstSlotFilled(cfg, a, b, order);
    Neighbours(cfg, a, b);
    RivalsSecond(cfg, a, b);
    LinksSoFar(cfg, a, b);
    var half, links := map[0 := [a[0], b[0]]], FirstLinks(cfg, a[0], b[0]);
    var es, x := [a[0], b[0]], a[1];
    var s := After(cfg, NO_META, Play(es, order));
    InFirst(half, es);
    SecondSlotNext(cfg, s, 1, b[0].timestamp, half, links, x, 0, LinkOf(cfg, 0, a[0]), order);
    PlayNext(cfg, NO_META, es, x, order);
    Sorts(cfg);
    ExtendInOrder(cfg, half, 1, x, b[1]);
    assert es + [x] == [a[0], b[0], x];
    assert half[1 := [x]] == map[0 := es, 1 := [x]];
  }

  function StrayLinks(cfg: Config, a: seq<Event>, b: seq<Event>): map<Event, set<Link>>
    requires |a| >= 2 && |b| >= 1
  {
    FirstLinks(cfg, a[0], b[0])[a[1] := {LinkOf(cfg, 1, a[1])}]
  }

  lemma LinksSoFar(cfg: Config, a: seq<Event>, b: seq<Event>)
    requires |a| == 2 && |b| >= 2 && a[0].timestamp < b[0].timestamp < a[1].timestamp < b[1].timestamp
    ensures a[1] !in FirstLinks(cfg, a[0], b[0])
    ensures LinksOf(Meta(FirstLinks(cfg, a[0], b[0]), {}), a[0]) == {LinkOf(cfg, 0, a[0])}
    ensures StrayLinks(cfg, a, b) == FirstLinks(cfg, a[0], b[0])[a[1] := {LinkOf(cfg, 1, a[1])}]
    ensures b[1] !in StrayLinks(cfg, a, b)
    ensures LinksOf(Meta(StrayLinks(cfg, a, b), {}), b[0]) == {LinkOf(cfg, 0, b[0])}
    ensures BothLinks(cfg, a, b) == StrayLinks(cfg, a, b)[b[1] := {LinkOf(cfg, 1, b[1])}]
  {
    hide LinkOf;
  }

  /** The rivals after their first two slots. */
  lemma BothInProgress(cfg: Config, a: seq<Event>, b: seq<Event>, order: MapOrder)
    requires Interleaved(cfg, a, b) && VisitsKeys(order)
    ensures Reached(cfg, After(cfg, NO_META, Play([a[0], b[0], a[1], b[1]], order)), 2, b[1].timestamp,
                    map[0 := [a[0], b[0]], 1 := [a[1], b[1]]], BothLinks(cfg, a, b))
  {
    hide *;
    Sizes(cfg, a, b);
    StrayArrives(cfg, a, b, order);
    Neighbours(cfg, a, b);
    RivalsSecond(cfg, a, b);
    LinksSoFar(cfg, a, b);
    var half := map[0 := [a[0], b[0]], 1 := [a[1]]];
    var links := StrayLinks(cfg, a, b);
    var es := [a[0], b[0], a[1]];
    var s := After(cfg, NO_META, Play(es, order));
    InSlots(half, [a[0], b[0]], [a[1]]);
    SecondSlotNext(cfg, s, 2, a[1].timestamp, half, links, b[1], 1, LinkOf(cfg, 0, b[0]), order);
    PlayNext(cfg, NO_META, es, b[1], order);
    Sorts(cfg);
    ExtendInOrder(cfg, half, 1, a[1], b[1]);
    assert es + [b[1]] == [a[0], b[0], a[1], b[1]];
    assert half[1 := [a[1], b[1]]] == map[0 := [a[0], b[0]], 1 := [a[1], b[1]]];
  }

  lemma InFirst(partials: map<nat, seq<Event>>, q: seq<Event>)
    requires partials == map[0 := q]
    ensures Slot(partials, 0) == q && Slot(partials, 1) == []
  {
  }

  lemma InSlots(partials: map<nat, seq<Event>>, q: seq<Event>, r: seq<Event>)
    requires partials == map[0 := q, 1 := r]
    ensures Slot(partials, 0) == q && Slot(partials, 1) == r
  {
  }

  lemma Sorts(cfg: Config)
    requires ValidConfig(cfg)
    ensures SortsByTime(cfg.sort)
  {
  }

  /** The first `j` slots hold their event of `b`, the first two behind one of `a`; nothing newer carries a link. */
  ghost predicate Holding(cfg: Config, s: State, a: seq<Event>, b: seq<Event>, j: nat)
    requires |a| == 2 && 2 <= j <= |b|
  {
    && s.fsm == At(j) && s.lastMatch == b[j - 1].timestamp
    && Slot(s.partials, 0) == [a[0], b[0]] && Slot(s.partials, 1) == [a[1], b[1]]
    && (forall i :: 0 <= i < j ==> b[i] in Slot(s.partials, i) && LinksOf(s.meta, b[i]) == {LinkOf(cfg, i, b[i])})
    && (forall i :: 0 <= i < 2 ==> LinksOf(s.meta, a[i]) == {LinkOf(cfg, i, a[i])})
    && (forall x :: x in s.meta.links ==> x.timestamp <= s.lastMatch)
  }

  lemma HoldingFirst(cfg: Config, s: State, a: seq<Event>, b: seq<Event>)
    requires InTurn(a, b) && s.fsm == At(2) && s.lastMatch == b[1].timestamp
    requires s.partials == map[0 := [a[0], b[0]], 1 := [a[1], b[1]]] && s.meta == Meta(BothLinks(cfg, a, b), {})
    ensures Holding(cfg, s, a, b, 2)
  {
    hide LinkOf;
  }

  lemma FilledFirst(cfg: Config, s: State, a: seq<Event>, b: seq<Event>)
    requires InTurn(a, b)
    requires Reached(cfg, s, 2, b[1].timestamp, map[0 := [a[0], b[0]], 1 := [a[1], b[1]]], BothLinks(cfg, a, b))
    ensures OrderedInv(cfg, s) && Holding(cfg, s, a, b, 2)
  {
    hide OrderedInv, Holding, BothLinks;
    HoldingFirst(cfg, s, a, b);
  }

  /** Whoever comes next in `b` joins all slots before its own. */
  lemma FilledJoins(cfg: Config, s: State, a: seq<Event>, b: seq<Event>, j: nat)
    requires |a| == 2 && 2 <= j < |b| && Chain(cfg, b) && Holding(cfg, s, a, b, j)
    ensures Joined(cfg, s, j, b[j])
  {
    hide Condition, LinkOf, Slot, CompareLink;
    forall i: nat | i < j
      ensures SlotJoins(cfg, s.meta, Slot(s.partials, i), LinkOf(cfg, j, b[j]))
    {
      var q := Slot(s.partials, i);
      assert b[i] in q;
      var k: nat :| k < |q| && q[k] == b[i];
      CarriesLink(cfg, s.meta, q, k, LinkOf(cfg, j, b[j]), LinkOf(cfg, i, b[i]));
    }
  }

  lemma FilledNext(cfg: Config, s: State, a: seq<Event>, b: seq<Event>, j: nat, order: MapOrder)
    requires ValidConfig(cfg) && HasBy(cfg) && VisitsKeys(order) && InTurn(a, b) && |b| == cfg.slots && Chain(cfg, b)
    requires 2 <= j < cfg.slots - 1 && Only(cfg, j, b[j]) && OrderedInv(cfg, s) && Holding(cfg, s, a, b, j)
    ensures var t := ProcessEvent(cfg, s, b[j], order).state; OrderedInv(cfg, t) && Holding(cfg, t, a, b, j + 1)
  {
    var e, later := b[j], b[j].(timestamp := b[j].timestamp + 1);
    FilledJoins(cfg, s, a, b, j);
    assert b[j - 1].timestamp < e.timestamp;
    hide OrderedInv, ProcessEvent, SortsByTime, VisitsKeys, Extend, LinkOf, Joined, Chain, CompareLink, Condition;
    SlotAhead(cfg, s, j);
    OneSlot(cfg, s, e, j, order);
    ProcessEventOrdered(cfg, s, e, order);
    ExtendInOrder(cfg, s.partials, j, e, later);
    hide Only, ValidConfig;
    HoldingGrows(cfg, s, ProcessEvent(cfg, s, e, order).state, a, b, j);
  }

  lemma SlotAhead(cfg: Config, s: State, j: nat)
    requires OrderedInv(cfg, s) && s.fsm == At(j)
    ensures j !in s.partials
  {
  }

  lemma HoldingGrows(cfg: Config, s: State, t: State, a: seq<Event>, b: seq<Event>, j: nat)
    requires InTurn(a, b) && 2 <= j < |b| - 1 && Holding(cfg, s, a, b, j) && j !in s.partials
    requires t.fsm == At(j + 1) && t.lastMatch == b[j].timestamp
    requires t.partials == s.partials[j := [b[j]]] && t.meta == AddLink(s.meta, b[j], LinkOf(cfg, j, b[j]))
    ensures Holding(cfg, t, a, b, j + 1)
  {
    hide LinkOf;
    assert {} + {LinkOf(cfg, j, b[j])} == {LinkOf(cfg, j, b[j])};
    forall i | 0 <= i < j + 1
      ensures b[i] in Slot(t.partials, i) && LinksOf(t.meta, b[i]) == {LinkOf(cfg, i, b[i])}
    {
      assert i < j ==> b[i].timestamp < b[j].timestamp;
    }
    assert b[1].timestamp < b[j].timestamp;
  }

  function Script(a: seq<Event>, b: seq<Event>, j: nat): seq<Event>
    requires |a| == 2 && 2 <= j <= |b|
  {
    [a[0], b[0], a[1], b[1]] + b[2..j]
  }

  lemma ScriptNext(a: seq<Event>, b: seq<Event>, j: nat)
    requires |a| == 2 && 2 <= j < |b|
    ensures Script(a, b, j + 1) == Script(a, b, j) + [b[j]]
    ensures Script(a, b, 2) == [a[0], b[0], a[1], b[1]]
  {
    assert b[2..j + 1] == b[2..j] + [b[j]];
  }

  lemma Sizes(cfg: Config, a: seq<Event>, b: seq<Event>)
    requires Interleaved(cfg, a, b)
    ensures |a| == 2 && |b| == cfg.slots >= 3 && InTurn(a, b)
  {
  }

  /** What `FilledNext` needs of the rivals. */
  lemma RivalsLater(cfg: Config, a: seq<Event>, b: seq<Event>, j: nat)
    requires Interleaved(cfg, a, b) && j < cfg.slots
    ensures ValidConfig(cfg) && HasBy(cfg) && Rivals(cfg, a, b) && Chain(cfg, b) && Only(cfg, j, b[j])
  {
    hide Only, Chain, SortsByTime;
  }

  lemma FilledStart(cfg: Config, a: seq<Event>, b: seq<Event>, order: MapOrder)
    requires Interleaved(cfg, a, b) && VisitsKeys(order)
    ensures var s := After(cfg, NO_META, Play(Script(a, b, 2), order));
            OrderedInv(cfg, s) && Holding(cfg, s, a, b, 2)
  {
    hide *;
    Sizes(cfg, a, b);
    ScriptNext(a, b, 2);
    BothInProgress(cfg, a, b, order);
    FilledFirst(cfg, After(cfg, NO_META, Play(Script(a, b, 2), order)), a, b);
  }

  lemma {:induction false} FilledAlong(cfg: Config, a: seq<Event>, b: seq<Event>, j: nat, order: MapOrder)
    requires Interleaved(cfg, a, b) && VisitsKeys(order) && 2 <= j < cfg.slots
    ensures var s := After(cfg, NO_META, Play(Script(a, b, j), order));
            OrderedInv(cfg, s) && Holding(cfg, s, a, b, j)
  {
    hide *;
    Sizes(cfg, a, b);
    if j == 2 {
      FilledStart(cfg, a, b, order);
    } else {
      FilledAlong(cfg, a, b, j - 1, order);
      ScriptNext(a, b, j - 1);
      RivalsLater(cfg, a, b, j - 1);
      FilledNext(cfg, After(cfg, NO_META, Play(Script(a, b, j - 1), order)), a, b, j - 1, order);
      PlayNext(cfg, NO_META, Script(a, b, j - 1), b[j - 1], order);
    }
  }

  lemma HoldingFires(cfg: Config, s: State, a: seq<Event>, b: seq<Event>, order: MapOrder)
    requires InTurn(a, b) && |b| == cfg.slots && Chain(cfg, b) && Only(cfg, cfg.slots - 1, b[cfg.slots - 1])
    requires FsmInv(cfg, s) && !cfg.unordered && Holding(cfg, s, a, b, cfg.slots - 1)
    ensures ProcessEvent(cfg, s, b[cfg.slots - 1], order).fired
  {
    FilledJoins(cfg, s, a, b, cfg.slots - 1);
    assert b[cfg.slots - 2].timestamp < b[cfg.slots - 1].timestamp;
    hide FsmInv, ProcessEvent, Only, LinkOf, Joined, Chain;
    LastSlotFires(cfg, s, b[cfg.slots - 1], order);
  }

  lemma SingleLinks(cfg: Config, meta: Meta, x: Event, y: Event, l: Link, m: Link)
    requires LinksOf(meta, x) == {l} && LinksOf(meta, y) == {m}
    ensures Joins(cfg, meta, x, y) <==> CompareLink(cfg.text, l, m)
  {
    hide CompareLink;
    assert m in LinksOf(meta, y) && l in LinksOf(meta, x);
  }

  lemma RivalCompares(cfg: Config, a: seq<Event>, b: seq<Event>)
    requires Rivals(cfg, a, b)
    ensures var l := LinkOf(cfg, cfg.slots - 1, b[cfg.slots - 1]);
            && CompareLink(cfg.text, LinkOf(cfg, 0, a[0]), LinkOf(cfg, 1, a[1]))
            && !CompareLink(cfg.text, LinkOf(cfg, 0, a[0]), l) && !CompareLink(cfg.text, LinkOf(cfg, 1, a[1]), l)
            && CompareLink(cfg.text, LinkOf(cfg, 0, b[0]), l) && CompareLink(cfg.text, LinkOf(cfg, 1, b[1]), l)
  {
    hide Condition, CompareLink, LinkOf;
    var l0, l1 := LinkOf(cfg, 0, a[0]), LinkOf(cfg, 1, a[1]);
    var l := LinkOf(cfg, cfg.slots - 1, b[cfg.slots - 1]);
    CompareSymmetric(cfg.text, l1, l0);
    CompareSymmetric(cfg.text, l, LinkOf(cfg, 0, b[0]));
    CompareSymmetric(cfg.text, l, LinkOf(cfg, 1, b[1]));
    if CompareLink(cfg.text, l1, l) {
      CompareTransitive(cfg.text, l0, l1, l);
    }
  }

  /** Which of the rivals join the last event, and each other. */
  lemma RivalLinks(cfg: Config, s: State, a: seq<Event>, b: seq<Event>)
    requires Rivals(cfg, a, b) && InTurn(a, b) && Holding(cfg, s, a, b, cfg.slots - 1)
    ensures var e := b[cfg.slots - 1]; var meta := WithLink(cfg, s, e);
            && Joins(cfg, meta, a[0], a[1]) && !Joins(cfg, meta, a[0], e) && !Joins(cfg, meta, a[1], e)
            && Joins(cfg, meta, b[0], e) && Joins(cfg, meta, b[1], e)
  {
    hide Holding, InTurn, Joins, CompareLink, LinkOf, WithLink, Chain;
    RivalCompares(cfg, a, b);
    LinksKept(cfg, s, a, b);
    var e := b[cfg.slots - 1];
    var meta, l := WithLink(cfg, s, e), LinkOf(cfg, cfg.slots - 1, e);
    SingleLinks(cfg, meta, a[0], a[1], LinkOf(cfg, 0, a[0]), LinkOf(cfg, 1, a[1]));
    SingleLinks(cfg, meta, a[0], e, LinkOf(cfg, 0, a[0]), l);
    SingleLinks(cfg, meta, a[1], e, LinkOf(cfg, 1, a[1]), l);
    SingleLinks(cfg, meta, b[0], e, LinkOf(cfg, 0, b[0]), l);
    SingleLinks(cfg, meta, b[1], e, LinkOf(cfg, 1, b[1]), l);
  }

  lemma LinksKept(cfg: Config, s: State, a: seq<Event>, b: seq<Event>)
    requires InTurn(a, b) && |b| == cfg.slots && Holding(cfg, s, a, b, cfg.slots - 1)
    ensures var e := b[cfg.slots - 1]; var meta := WithLink(cfg, s, e);
            && (forall i :: 0 <= i < 2 ==> LinksOf(meta, a[i]) == {LinkOf(cfg, i, a[i])})
            && (forall i :: 0 <= i < 2 ==> LinksOf(meta, b[i]) == {LinkOf(cfg, i, b[i])})
            && LinksOf(meta, e) == {LinkOf(cfg, cfg.slots - 1, e)}
  {
    hide LinkOf;
    var e := b[cfg.slots - 1];
    assert b[1].timestamp < e.timestamp && b[cfg.slots - 2].timestamp < e.timestamp;
    assert {} + {LinkOf(cfg, cfg.slots - 1, e)} == {LinkOf(cfg, cfg.slots - 1, e)};
  }

  /**
   For every number of slots from three on: the rivals take turns, `b` is completed, and the sequence fires and reports
   `a` in the first two slots, which does not join, although `b`, which does, waits right behind it.
   */
  lemma StrayPairReported(cfg: Config, a: seq<Event>, b: seq<Event>, order: MapOrder)
    requires Interleaved(cfg, a, b) && VisitsKeys(order)
    ensures var s := After(cfg, NO_META, Play(Script(a, b, cfg.slots - 1), order));
            var e := b[cfg.slots - 1];
            var r, meta := ProcessEvent(cfg, s, e, order), WithLink(cfg, s, e);
            && r.fired && r.matches.Keys == Below(cfg.slots) && r.matches[0] == a[0] && r.matches[1] == a[1]
            && !Joins(cfg, meta, a[0], e) && !Joins(cfg, meta, a[1], e)
            && Joins(cfg, meta, b[0], e) && Joins(cfg, meta, b[1], e)
  {
    hide *;
    Sizes(cfg, a, b);
    RivalsLater(cfg, a, b, cfg.slots - 1);
    FilledAlong(cfg, a, b, cfg.slots - 1, order);
    var s := After(cfg, NO_META, Play(Script(a, b, cfg.slots - 1), order));
    OrderedParts(cfg, s);
    HoldingFires(cfg, s, a, b, order);
    RivalLinks(cfg, s, a, b);
    HoldingSlots(cfg, s, a, b);
    StrayCollected(cfg, s, a, b, order);
  }

  lemma HoldingSlots(cfg: Config, s: State, a: seq<Event>, b: seq<Event>)
    requires |a| == 2 && 3 <= cfg.slots == |b| && Holding(cfg, s, a, b, cfg.slots - 1)
    ensures Slot(s.partials, 0) == [a[0], b[0]] && Slot(s.partials, 1) == [a[1], b[1]]
  {
  }

  lemma StrayCollected(cfg: Config, s: State, a: seq<Event>, b: seq<Event>, order: MapOrder)
    requires ValidConfig(cfg) && HasBy(cfg) && VisitsKeys(order) && OrderedInv(cfg, s)
    requires cfg.slots >= 3 && |a| == 2 && |b| == cfg.slots
    requires Slot(s.partials, 0) == [a[0], b[0]] && Slot(s.partials, 1) == [a[1], b[1]]
    requires ProcessEvent(cfg, s, b[cfg.slots - 1], order).fired
    requires Joins(cfg, WithLink(cfg, s, b[cfg.slots - 1]), a[0], a[1])
    ensures var m := ProcessEvent(cfg, s, b[cfg.slots - 1], order).matches;
            m.Keys == Below(cfg.slots) && m[0] == a[0] && m[1] == a[1]
  {
    hide OrderedInv, ValidConfig, VisitsKeys, ProcessEvent, Joins, FirstPair, CollectTo, Fired, WithLink, Below;
    var e := b[cfg.slots - 1];
    Reported(cfg, s, e, order);
    var s2 := Fired(cfg, s, e, order);
    CollectedPairs(cfg, s2, cfg.slots - 1);
    FirstOfAll(cfg, WithLink(cfg, s, e), [a[0], b[0]], [a[1], b[1]]);
    assert Slot(s2.partials, 0) == [a[0], b[0]] && Slot(s2.partials, 1) == [a[1], b[1]];
    assert PairOf(cfg, s2, 1) == (a[0], a[1]);
  }

  // ---- rules without rivals ----

  /** Conditions and links look at neither the clock nor the partial key. */
  ghost predicate Blind(cfg: Config) {
    forall k: nat, x: Event, t: Timestamp ::
      (Condition(cfg, k, x) ==> Condition(cfg, k, Retimed(x, t))) && LinkOf(cfg, k, x) == LinkOf(cfg, k, Retimed(x, t))
  }

  function Retimed(x: Event, t: Timestamp): Event {
    x.(timestamp := t, key := 0)
  }

  /** In all runs of events every report joins the event that fires. */
  ghost predicate AllReportsJoin(cfg: Config) {
    forall es: seq<Event>, e: Event, order: MapOrder ::
      VisitsKeys(order) && ProcessEvent(cfg, After(cfg, NO_META, Play(es, order)), e, order).fired && cfg.slots >= 1
      ==> JoinedReport(cfg, After(cfg, NO_META, Play(es, order)), e, order)
  }

  ghost predicate JoinedReport(cfg: Config, s: State, e: Event, order: MapOrder)
    requires cfg.slots >= 1
  {
    ReportJoins(cfg, WithLink(cfg, s, e), ProcessEvent(cfg, s, e, order).matches, e)
  }

  /** Every link of an event is that of a slot whose condition the event meets. */
  ghost predicate LinksTold(cfg: Config, meta: Meta) {
    forall x, l :: l in LinksOf(meta, x) ==> exists k :: OwnLink(cfg, k, x, l)
  }

  predicate OwnLink(cfg: Config, k: nat, x: Event, l: Link) {
    k < cfg.slots && Condition(cfg, k, x) && l == LinkOf(cfg, k, x)
  }

  /** The event ends a chain through all slots before its own. */
  ghost predicate HasChain(cfg: Config, k: nat, x: Event) {
    exists c :: |c| == k + 1 && Chain(cfg, c) && c[k] == x
  }

  ghost predicate ChainsTold(cfg: Config, partials: map<nat, seq<Event>>) {
    forall k, x :: k in partials && x in partials[k] ==> HasChain(cfg, k, x)
  }

  ghost predicate Told(cfg: Config, s: State) {
    LinksTold(cfg, s.meta) && ChainsTold(cfg, s.partials)
  }

  lemma AddLinkTold(cfg: Config, meta: Meta, k: nat, e: Event)
    requires LinksTold(cfg, meta) && k < cfg.slots && Condition(cfg, k, e)
    ensures LinksTold(cfg, AddLink(meta, e, LinkOf(cfg, k, e)))
  {
    hide Condition, LinkOf;
    var t := AddLink(meta, e, LinkOf(cfg, k, e));
    forall x, l | l in LinksOf(t, x)
      ensures exists j :: OwnLink(cfg, j, x, l)
    {
      if l !in LinksOf(meta, x) {
        assert OwnLink(cfg, k, e, l);
      }
    }
  }

  /** With disjoint conditions there is one link an event of a slot can have. */
  lemma OneLink(cfg: Config, meta: Meta, k: nat, x: Event, l: Link)
    requires LinksTold(cfg, meta) && Disjoint(cfg) && k < cfg.slots && Condition(cfg, k, x) && l in LinksOf(meta, x)
    ensures l == LinkOf(cfg, k, x)
  {
    hide Condition, LinkOf;
    var j: nat :| OwnLink(cfg, j, x, l);
    assert j == k;
  }

  lemma ChainSnoc(cfg: Config, c: seq<Event>, e: Event)
    requires Chain(cfg, c) && Condition(cfg, |c|, e)
    requires c != [] ==> CompareLink(cfg.text, LinkOf(cfg, |c|, e), LinkOf(cfg, |c| - 1, c[|c| - 1]))
    ensures Chain(cfg, c + [e])
  {
    hide Condition, LinkOf, CompareLink;
    var n, d := |c|, c + [e];
    forall i, j | 0 <= i < j < |d|
      ensures CompareLink(cfg.text, LinkOf(cfg, j, d[j]), LinkOf(cfg, i, d[i]))
    {
      if j == n && i < n - 1 {
        CompareTransitive(cfg.text, LinkOf(cfg, n, e), LinkOf(cfg, n - 1, c[n - 1]), LinkOf(cfg, i, c[i]));
      }
    }
  }

  lemma ChainEnd(cfg: Config, k: nat, x: Event)
    requires HasChain(cfg, k, x)
    ensures Condition(cfg, k, x)
  {
    hide Condition, LinkOf, CompareLink;
  }

  /** An event that is accepted ends a chain. */
  lemma AcceptedChain(cfg: Config, s: State, k: nat, e: Event)
    requires HasBy(cfg) && Told(cfg, s) && Disjoint(cfg) && k < cfg.slots
    requires Condition(cfg, k, e) && Joined(cfg, s, k, e)
    ensures HasChain(cfg, k, e)
  {
    hide Condition, LinkOf, CompareLink, Chain;
    if k == 0 {
      ChainStart(cfg, e);
    } else {
      var q, l := Slot(s.partials, k - 1), LinkOf(cfg, k, e);
      assert SlotJoins(cfg, s.meta, q, l);
      var i :| 0 <= i < |q| && LinksTo(cfg.text, l, LinksOf(s.meta, q[i]));
      var v :| v in LinksOf(s.meta, q[i]) && CompareLink(cfg.text, l, v);
      assert q[i] in s.partials[k - 1];
      ChainEnd(cfg, k - 1, q[i]);
      OneLink(cfg, s.meta, k - 1, q[i], v);
      var c :| |c| == k && Chain(cfg, c) && c[k - 1] == q[i];
      ChainSnoc(cfg, c, e);
      assert (c + [e])[k] == e;
    }
  }

  lemma ChainStart(cfg: Config, e: Event)
    requires Condition(cfg, 0, e)
    ensures HasChain(cfg, 0, e)
  {
    hide Condition, LinkOf, CompareLink;
    assert Chain(cfg, [e]) && [e][0] == e;
  }

  lemma AcceptsJoined(cfg: Config, s: State, k: nat, e: Event)
    requires HasBy(cfg) && Accepts(cfg, s, k, e)
    ensures Condition(cfg, k, e) && Joined(cfg, s, k, e)
    ensures Evaluated(cfg, s, k, e) == s.(meta := AddLink(s.meta, e, LinkOf(cfg, k, e)))
  {
    hide Joined;
  }

  lemma AcceptTold(cfg: Config, s: State, k: nat, e: Event, order: MapOrder)
    requires ValidConfig(cfg) && !cfg.unordered && HasBy(cfg) && Disjoint(cfg) && k < cfg.slots
    requires FsmInv(cfg, s) && Told(cfg, s) && Accepts(cfg, s, k, e)
    ensures Told(cfg, Accept(cfg, s, k, e, order))
  {
    AcceptsJoined(cfg, s, k, e);
    AcceptedChain(cfg, s, k, e);
    AddLinkTold(cfg, s.meta, k, e);
    ExtendSlots(cfg, s.partials, k, e);
    hide Condition, Accepts, Joined, Holds, HasChain, LinksTold, FsmInv, SortsByTime, Extend, Refuses, MatchTransition;
    var s1 := AddPartial(cfg, Evaluated(cfg, s, k, e), k, e, false);
    SameFsm(cfg, s, s1);
    MatchTransitionKeeps(cfg, s1, k);
    var p := Extend(cfg, s.partials, k, e);
    forall j, x | j in p && x in p[j]
      ensures HasChain(cfg, j, x)
    {
      assert j == k && x != e ==> x in s.partials[k];
    }
  }

  lemma DeclineTold(cfg: Config, s: State, k: nat, e: Event)
    requires !cfg.unordered && HasBy(cfg) && k < cfg.slots && Told(cfg, s)
    ensures Told(cfg, Decline(cfg, s, k, e))
  {
    hide ChainsTold, LinksTold, Joined;
    if Condition(cfg, k, e) {
      AddLinkTold(cfg, s.meta, k, e);
    }
  }

  lemma {:induction false} RunTold(cfg: Config, s: State, e: Event, k: nat, order: MapOrder)
    requires ValidConfig(cfg) && !cfg.unordered && HasBy(cfg) && Disjoint(cfg) && VisitsKeys(order)
    requires Inv(cfg, s) && Told(cfg, s)
    ensures var o := RunFrom(cfg, s, e, k, order);
            LinksTold(cfg, o.state.meta) && (!o.fired ==> Told(cfg, o.state))
    decreases cfg.slots - k
  {
    hide Accept, Decline, Accepts, CollectMatches, Fire, LinksTold, ChainsTold, VisitsKeys, SortsByTime, FsmInv,
      SlotsOk,
      Disjoint;
    if k < cfg.slots {
      if !Accepts(cfg, s, k, e) {
        DeclineKeeps(cfg, s, k, e);
        DeclineTold(cfg, s, k, e);
        RunTold(cfg, Decline(cfg, s, k, e), e, k + 1, order);
      } else {
        AcceptKeeps(cfg, s, k, e, order);
        AcceptTold(cfg, s, k, e, order);
        var t := Accept(cfg, s, k, e, order);
        if t.fsm == Terminal {
          CollectedMeta(cfg, t);
        } else {
          FsmAt(cfg, t);
          RunTold(cfg, t, e, k + 1, order);
        }
      }
    }
  }

  lemma FsmAt(cfg: Config, t: State)
    requires FsmInv(cfg, t) && t.fsm != Terminal
    ensures t.fsm.At?
  {
  }

  lemma CollectedMeta(cfg: Config, t: State)
    requires t.fsm == Terminal
    ensures CollectMatches(cfg, Fire(cfg, t, ResetTrigger)).meta == t.meta
  {
  }

  lemma ProcessTold(cfg: Config, s: State, e: Event, order: MapOrder)
    requires ValidConfig(cfg) && !cfg.unordered && HasBy(cfg) && Disjoint(cfg) && VisitsKeys(order)
    requires Inv(cfg, s) && Told(cfg, s)
    ensures Told(cfg, ProcessEvent(cfg, s, e, order).state)
  {
    hide RunFrom, Inv, LinksTold, HasChain, VisitsKeys, Disjoint, ValidConfig;
    RunTold(cfg, s, e, 0, order);
  }

  lemma {:induction false} PlayTold(cfg: Config, es: seq<Event>, order: MapOrder)
    requires ValidConfig(cfg) && !cfg.unordered && HasBy(cfg) && Disjoint(cfg) && VisitsKeys(order)
    ensures OrderedInv(cfg, After(cfg, NO_META, Play(es, order))) && Told(cfg, After(cfg, NO_META, Play(es, order)))
  {
    if es == [] {
      PlayNothing(order);
      StartTold(cfg);
    } else {
      var n := |es| - 1;
      PlayTold(cfg, es[..n], order);
      assert es == es[..n] + [es[n]];
      hide After, Play, ProcessEvent, VisitsKeys, Disjoint, ValidConfig, Told;
      PlayNext(cfg, NO_META, es[..n], es[n], order);
      OrderedInside(cfg, After(cfg, NO_META, Play(es[..n], order)));
      ProcessTold(cfg, After(cfg, NO_META, Play(es[..n], order)), es[n], order);
      ProcessEventOrdered(cfg, After(cfg, NO_META, Play(es[..n], order)), es[n], order);
    }
  }

  lemma OrderedInside(cfg: Config, s: State)
    requires OrderedInv(cfg, s)
    ensures Inv(cfg, s)
  {
  }

  lemma StartTold(cfg: Config)
    requires ValidConfig(cfg) && !cfg.unordered
    ensures OrderedInv(cfg, After(cfg, NO_META, [])) && Told(cfg, After(cfg, NO_META, []))
  {
    Start(cfg);
  }

  /** What is known when the sequence fires on `e`. */
  lemma FiringTold(cfg: Config, s: State, e: Event, order: MapOrder)
    requires ValidConfig(cfg) && HasBy(cfg) && Disjoint(cfg) && VisitsKeys(order) && cfg.slots >= 1
    requires OrderedInv(cfg, s) && Told(cfg, s) && ProcessEvent(cfg, s, e, order).fired
    ensures LinksTold(cfg, WithLink(cfg, s, e)) && HasChain(cfg, cfg.slots - 1, e)
    ensures LinkOf(cfg, cfg.slots - 1, e) in LinksOf(WithLink(cfg, s, e), e)
  {
    hide OrderedInv, ValidConfig, VisitsKeys, ProcessEvent, Disjoint, LinksTold, ChainsTold, HasChain, Accepts, LinkOf;
    FiresFromLast(cfg, s, e, order);
    AcceptsJoined(cfg, s, cfg.slots - 1, e);
    AcceptedChain(cfg, s, cfg.slots - 1, e);
    AddLinkTold(cfg, s.meta, cfg.slots - 1, e);
  }

  /** A pair of another match in progress shows that there is another one. */
  lemma StrayPairRivals(cfg: Config, meta: Meta, k: nat, x: Event, y: Event, e: Event)
    requires HasBy(cfg) && Disjoint(cfg) && cfg.slots >= 3 && k < cfg.slots - 2 && LinksTold(cfg, meta)
    requires HasChain(cfg, k, x) && HasChain(cfg, k + 1, y) && HasChain(cfg, cfg.slots - 1, e)
    requires Joins(cfg, meta, x, y) && !(Joins(cfg, meta, y, e) && Joins(cfg, meta, x, e))
    requires LinkOf(cfg, cfg.slots - 1, e) in LinksOf(meta, e)
    ensures exists a, b :: Rivals(cfg, a, b)
  {
    hide Condition, LinkOf, CompareLink, Chain, LinksTold, Disjoint, HasChain;
    var l, m := LinkOf(cfg, cfg.slots - 1, e), LinkOf(cfg, k + 1, y);
    var v :| v in LinksOf(meta, x) && LinksTo(cfg.text, v, LinksOf(meta, y));
    var w :| w in LinksOf(meta, y) && CompareLink(cfg.text, v, w);
    ChainEnd(cfg, k + 1, y);
    OneLink(cfg, meta, k + 1, y, w);
    if CompareLink(cfg.text, m, l) {
      CompareTransitive(cfg.text, v, m, l);
    }
    ChainsRival(cfg, k, y, e);
  }

  lemma ChainsRival(cfg: Config, k: nat, y: Event, e: Event)
    requires cfg.slots >= 3 && k < cfg.slots - 2 && HasChain(cfg, k + 1, y) && HasChain(cfg, cfg.slots - 1, e)
    requires !CompareLink(cfg.text, LinkOf(cfg, k + 1, y), LinkOf(cfg, cfg.slots - 1, e))
    ensures exists a, b :: Rivals(cfg, a, b)
  {
    hide Condition, LinkOf, CompareLink;
    var c :| |c| == k + 2 && Chain(cfg, c) && c[k + 1] == y;
    var b :| |b| == cfg.slots && Chain(cfg, b) && b[cfg.slots - 1] == e;
    var a := [c[0], c[1]];
    var m0, l := LinkOf(cfg, 0, c[0]), LinkOf(cfg, cfg.slots - 1, e);
    if CompareLink(cfg.text, m0, l) {
      CompareTransitive(cfg.text, LinkOf(cfg, k + 1, y), m0, l);
    }
    assert Chain(cfg, a);
    assert Rivals(cfg, a, b);
  }

  /** A report that does not join comes from rivals. */
  lemma FiredRivals(cfg: Config, s: State, e: Event, order: MapOrder)
    requires ValidConfig(cfg) && HasBy(cfg) && Disjoint(cfg) && VisitsKeys(order) && cfg.slots >= 3
    requires OrderedInv(cfg, s) && Told(cfg, s) && ProcessEvent(cfg, s, e, order).fired
    requires !JoinedReport(cfg, s, e, order)
    ensures exists a, b :: Rivals(cfg, a, b)
  {
    hide OrderedInv, ValidConfig, VisitsKeys, ProcessEvent, Disjoint, LinksTold, HasChain, LinkOf, WithLink,
      ReportJoins;
    hide FirstAt, Rivals, Slot, Joins;
    var meta := WithLink(cfg, s, e);
    FiringTold(cfg, s, e, order);
    ReportJoinsExactly(cfg, s, e, order);
    var k: nat :| k < cfg.slots - 2 && !LedAt(cfg, meta, Slot(s.partials, k), Slot(s.partials, k + 1), e, k == 0);
    var q, r := Slot(s.partials, k), Slot(s.partials, k + 1);
    var i, j := NotLedAt(cfg, meta, q, r, e, k == 0);
    FirstInside(cfg, meta, q, r, i, j);
    SlotChains(cfg, s, k);
    SlotChains(cfg, s, k + 1);
    PairsJoin(cfg, meta, q[i], r[j]);
    StrayPairRivals(cfg, meta, k, q[i], r[j], e);
  }

  lemma NotLedAt(cfg: Config, meta: Meta, q: seq<Event>, r: seq<Event>, e: Event, outer: bool) returns (i: nat, j: nat)
    requires !LedAt(cfg, meta, q, r, e, outer)
    ensures FirstAt(cfg, meta, q, r, i, j) && i < |q| && j < |r|
    ensures !(Joins(cfg, meta, r[j], e) && Joins(cfg, meta, q[i], e))
  {
    hide Joins;
    i, j :| FirstAt(cfg, meta, q, r, i, j)
            && !(Joins(cfg, meta, r[j], e) && (outer ==> Joins(cfg, meta, q[i], e)));
  }

  lemma PairsJoin(cfg: Config, meta: Meta, x: Event, y: Event)
    requires HasBy(cfg) && Pairs(cfg, meta, x, y)
    ensures Joins(cfg, meta, x, y)
  {
  }

  lemma SlotChains(cfg: Config, s: State, k: nat)
    requires Told(cfg, s)
    ensures forall i :: 0 <= i < |Slot(s.partials, k)| ==> HasChain(cfg, k, Slot(s.partials, k)[i])
  {
    hide HasChain, LinksTold;
    var q := Slot(s.partials, k);
    forall i | 0 <= i < |q|
      ensures HasChain(cfg, k, q[i])
    {
      assert q[i] in s.partials[k];
    }
  }

  // ---- rivals make a run ----

  lemma RetimedChain(cfg: Config, c: seq<Event>, d: seq<Event>)
    requires Blind(cfg) && Chain(cfg, c) && |c| == |d|
    requires forall i :: 0 <= i < |c| ==> d[i] == Retimed(c[i], d[i].timestamp)
    ensures Chain(cfg, d) && forall i :: 0 <= i < |c| ==> LinkOf(cfg, i, d[i]) == LinkOf(cfg, i, c[i])
  {
    hide Condition, LinkOf, CompareLink, Retimed;
    assert forall i: nat :: i < |c| ==> LinkOf(cfg, i, c[i]) == LinkOf(cfg, i, Retimed(c[i], d[i].timestamp));
  }

  lemma DisjointOnly(cfg: Config, k: nat, x: Event)
    requires Disjoint(cfg) && k < cfg.slots && Condition(cfg, k, x) && x.key == 0
    ensures Only(cfg, k, x)
  {
    hide Condition;
  }

  /** When the match has its turns: the rival has the first and the third. */
  function Turn(i: nat): Timestamp {
    if i == 0 then 2 else i + 3
  }

  /** Rivals can be made to take turns. */
  lemma RivalsInterleave(cfg: Config, a: seq<Event>, b: seq<Event>) returns (c: seq<Event>, d: seq<Event>)
    requires ValidConfig(cfg) && !cfg.unordered && HasBy(cfg) && Disjoint(cfg) && Blind(cfg) && Rivals(cfg, a, b)
    ensures Interleaved(cfg, c, d)
  {
    hide Condition, LinkOf, CompareLink, Blind, Disjoint, Only, Chain, SortsByTime;
    var n := cfg.slots;
    c := [Retimed(a[0], 1), Retimed(a[1], 3)];
    d := seq(n, i requires 0 <= i < n => Retimed(b[i], Turn(i)));
    RetimedChain(cfg, a, c);
    RetimedChain(cfg, b, d);
    ChainMeets(cfg, c);
    ChainMeets(cfg, d);
    DisjointOnly(cfg, 0, c[0]);
    DisjointOnly(cfg, 1, c[1]);
    forall i | 0 <= i < n
      ensures Only(cfg, i, d[i])
    {
      DisjointOnly(cfg, i, d[i]);
    }
  }

  lemma ChainMeets(cfg: Config, c: seq<Event>)
    requires Chain(cfg, c)
    ensures forall i :: 0 <= i < |c| ==> Condition(cfg, i, c[i])
  {
    hide Condition, LinkOf, CompareLink;
  }

  function NoneVisited(site: nat, keys: set<nat>): seq<nat> {
    []
  }

  lemma NoneVisits()
    ensures VisitsKeys(NoneVisited)
  {
  }

  lemma RivalsMisreport(cfg: Config, a: seq<Event>, b: seq<Event>)
    requires ValidConfig(cfg) && !cfg.unordered && HasBy(cfg) && Disjoint(cfg) && Blind(cfg) && Rivals(cfg, a, b)
    ensures !AllReportsJoin(cfg)
  {
    var c, d := RivalsInterleave(cfg, a, b);
    Sizes(cfg, c, d);
    NoneVisits();
    hide VisitsKeys, ProcessEvent, After, Play, Disjoint, Blind, Interleaved, Joins, WithLink, Script, ValidConfig,
      Rivals;
    StrayPairReported(cfg, c, d, NoneVisited);
    var es, e := Script(c, d, cfg.slots - 1), d[cfg.slots - 1];
    var s := After(cfg, NO_META, Play(es, NoneVisited));
    assert 0 in ProcessEvent(cfg, s, e, NoneVisited).matches;
    assert !JoinedReport(cfg, s, e, NoneVisited);
  }

  /**
   For rules of three or more slots whose conditions are disjoint and, like the links, look at neither the clock nor the
   partial key: every report of every run of events joins exactly when no two matches can compete.
   */
  lemma AllReportsJoinExactly(cfg: Config)
    requires ValidConfig(cfg) && !cfg.unordered && HasBy(cfg) && Disjoint(cfg) && Blind(cfg) && cfg.slots >= 3
    ensures AllReportsJoin(cfg) <==> forall a, b :: !Rivals(cfg, a, b)
  {
    hide VisitsKeys, ProcessEvent, After, Play, Disjoint, Blind, JoinedReport, Rivals, ValidConfig;
    if forall a, b :: !Rivals(cfg, a, b) {
      forall es: seq<Event>, e: Event, order: MapOrder |
        VisitsKeys(order) && ProcessEvent(cfg, After(cfg, NO_META, Play(es, order)), e, order).fired
        ensures JoinedReport(cfg, After(cfg, NO_META, Play(es, order)), e, order)
      {
        PlayTold(cfg, es, order);
        if !JoinedReport(cfg, After(cfg, NO_META, Play(es, order)), e, order) {
          FiredRivals(cfg, After(cfg, NO_META, Play(es, order)), e, order);
        }
      }
    } else {
      var a, b :| Rivals(cfg, a, b);
      RivalsMisreport(cfg, a, b);
    }
  }
}
