/** What a sequence without a join reports, and what the links that other rules leave on its events do to that. */
module SequenceUnjoined {
  import opened Options
  import opened Links
  import opened SequenceModel
  import opened SequenceInvariants
  import opened SequenceOrdered
  import opened SequenceReports
  import opened SequenceRuns
  import opened SequenceJoins
  import SequenceRivals

  /** Some link of `x` equals some link of `y`. */
  ghost predicate ShareLink(cfg: Config, meta: Meta, x: Event, y: Event) {
    exists v, w :: v in LinksOf(meta, x) && w in LinksOf(meta, y) && CompareLink(cfg.text, v, w)
  }

  /** Two slots hold events that share a link, or neither of which carries one. */
  ghost predicate Stitched(cfg: Config, meta: Meta, q: seq<Event>, r: seq<Event>) {
    exists x, y :: x in q && y in r && (ShareLink(cfg, meta, x, y) || (x !in meta.links && y !in meta.links))
  }

  /** The slots when `e` has entered the last one. */
  function SlotsWith(cfg: Config, s: State, e: Event, k: nat): seq<Event> {
    if k + 1 == cfg.slots then [e] else Slot(s.partials, k)
  }

  /** Slot `k` is stitched to the next one. */
  ghost predicate StitchedAt(cfg: Config, s: State, e: Event, k: nat) {
    k + 1 < cfg.slots && Stitched(cfg, s.meta, SlotsWith(cfg, s, e, k), SlotsWith(cfg, s, e, k + 1))
  }

  /** Slot `k` is stitched to a neighbour. */
  ghost predicate Covered(cfg: Config, s: State, e: Event, k: nat) {
    StitchedAt(cfg, s, e, k) || (k > 0 && StitchedAt(cfg, s, e, k - 1))
  }

  lemma PairsStitch(cfg: Config, meta: Meta, x: Event, y: Event)
    requires cfg.join.NoBy?
    ensures Pairs(cfg, meta, x, y) <==> ShareLink(cfg, meta, x, y) || (x !in meta.links && y !in meta.links)
  {
    hide CompareLink;
    if LinksJoin(cfg.text, LinksOf(meta, x), LinksOf(meta, y)) {
      var v :| v in LinksOf(meta, x) && LinksTo(cfg.text, v, LinksOf(meta, y));
      var w :| w in LinksOf(meta, y) && CompareLink(cfg.text, v, w);
    }
    if ShareLink(cfg, meta, x, y) {
      var v, w :| v in LinksOf(meta, x) && w in LinksOf(meta, y) && CompareLink(cfg.text, v, w);
      assert LinksTo(cfg.text, v, LinksOf(meta, y));
    }
  }

  lemma PairStitched(cfg: Config, meta: Meta, q: seq<Event>, r: seq<Event>)
    requires cfg.join.NoBy?
    ensures FirstPair(cfg, meta, q, r).Some? <==> Stitched(cfg, meta, q, r)
  {
    hide FirstPair, Pairs, ShareLink;
    FirstPairFinds(cfg, meta, q, r);
    if FirstPair(cfg, meta, q, r).Some? {
      var p := FirstPair(cfg, meta, q, r).value;
      PairsStitch(cfg, meta, p.0, p.1);
    }
    if Stitched(cfg, meta, q, r) {
      var x, y :| x in q && y in r && (ShareLink(cfg, meta, x, y) || (x !in meta.links && y !in meta.links));
      PairsStitch(cfg, meta, x, y);
    }
  }

  // ---- what is collected ----

  lemma {:induction false} CollectKeys(cfg: Config, s: State, n: nat, k: nat)
    requires s.matches == map[]
    ensures k in CollectTo(cfg, s, n) <==> (0 < k <= n && HasPair(cfg, s, k)) || (k < n && HasPair(cfg, s, k + 1))
    ensures FromSlots(s, CollectTo(cfg, s, n))
  {
    if n > 0 {
      hide FirstPair;
      CollectKeys(cfg, s, n - 1, k);
      FirstPairFinds(cfg, s.meta, Slot(s.partials, n - 1), Slot(s.partials, n));
    }
  }

  lemma FiredPartials(cfg: Config, s: State, e: Event, order: MapOrder)
    requires ValidConfig(cfg) && OrderedInv(cfg, s) && VisitsKeys(order) && cfg.join.NoBy? && cfg.slots >= 1
    requires ProcessEvent(cfg, s, e, order).fired
    ensures var s2 := Fired(cfg, s, e, order);
            && s2.partials == s.partials[cfg.slots - 1 := [e]] && s2.meta == s.meta && s2.matches == map[]
            && ProcessEvent(cfg, s, e, order).matches == CollectTo(cfg, s2, cfg.slots - 1)
  {
    hide *;
    FiredShape(cfg, s, e, order);
    CollectLast(cfg, Fired(cfg, s, e, order));
    OrderedParts(cfg, s);
    LastAccepted(cfg, s, e, order);
  }

  lemma LastAccepted(cfg: Config, s: State, e: Event, order: MapOrder)
    requires ValidConfig(cfg) && OrderedInv(cfg, s) && cfg.join.NoBy? && cfg.slots >= 1 && s.fsm == At(cfg.slots - 1)
    ensures var s1 := Accept(cfg, s, cfg.slots - 1, e, order);
            s1.partials == s.partials[cfg.slots - 1 := [e]] && s1.meta == s.meta
  {
    var k := cfg.slots - 1;
    AcceptMoves(cfg, s, k, e, order);
    assert k !in s.partials;
    hide Accept, Sorted, SlotsOk, FsmInv, NoneNewer;
    SortedPartial(cfg, [], e);
    assert [] + [e] == [e];
    SequenceRivals.SortOne(cfg, e);
  }

  /**
   Which slots a sequence without a join reports when it fires: those stitched to a neighbour, by events of their own.
   */
  lemma ReportExactly(cfg: Config, s: State, e: Event, order: MapOrder)
    requires ValidConfig(cfg) && OrderedInv(cfg, s) && VisitsKeys(order) && cfg.join.NoBy? && cfg.slots >= 1
    requires ProcessEvent(cfg, s, e, order).fired
    ensures var m := ProcessEvent(cfg, s, e, order).matches;
            && (forall k :: k in m <==> Covered(cfg, s, e, k))
            && (forall k :: k in m ==> k < cfg.slots && m[k] in SlotsWith(cfg, s, e, k))
  {
    hide *;
    FiredPartials(cfg, s, e, order);
    forall k: nat
      ensures var m := ProcessEvent(cfg, s, e, order).matches;
              && (k in m <==> Covered(cfg, s, e, k))
              && (k in m ==> k < cfg.slots && m[k] in SlotsWith(cfg, s, e, k))
    {
      CollectKeys(cfg, Fired(cfg, s, e, order), cfg.slots - 1, k);
      KeysCovered(cfg, s, e, Fired(cfg, s, e, order), k);
    }
  }

  lemma KeysCovered(cfg: Config, s: State, e: Event, s2: State, k: nat)
    requires cfg.join.NoBy? && cfg.slots >= 1 && s2.partials == s.partials[cfg.slots - 1 := [e]] && s2.meta == s.meta
    requires FromSlots(s2, CollectTo(cfg, s2, cfg.slots - 1))
    ensures (0 < k <= cfg.slots - 1 && HasPair(cfg, s2, k)) || (k < cfg.slots - 1 && HasPair(cfg, s2, k + 1))
            <==> Covered(cfg, s, e, k)
    ensures var m := CollectTo(cfg, s2, cfg.slots - 1);
            k in m && Covered(cfg, s, e, k) ==> k < cfg.slots && m[k] in SlotsWith(cfg, s, e, k)
  {
    hide FirstPair, CollectTo, Stitched;
    if k > 0 {
      PairStitched(cfg, s2.meta, Slot(s2.partials, k - 1), Slot(s2.partials, k));
    }
    PairStitched(cfg, s2.meta, Slot(s2.partials, k), Slot(s2.partials, k + 1));
  }

  /** The report has an event from every slot exactly when every slot is stitched to a neighbour. */
  lemma ReportsEverySlotExactly(cfg: Config, s: State, e: Event, order: MapOrder)
    requires ValidConfig(cfg) && OrderedInv(cfg, s) && VisitsKeys(order) && cfg.join.NoBy? && cfg.slots >= 1
    requires ProcessEvent(cfg, s, e, order).fired
    ensures ReportsEverySlot(cfg, s, e, ProcessEvent(cfg, s, e, order).matches)
            <==> forall k :: 0 <= k < cfg.slots ==> Covered(cfg, s, e, k)
  {
    hide ValidConfig, OrderedInv, VisitsKeys, ProcessEvent, Covered;
    ReportExactly(cfg, s, e, order);
    var m := ProcessEvent(cfg, s, e, order).matches;
    if forall k :: 0 <= k < cfg.slots ==> Covered(cfg, s, e, k) {
      assert m.Keys == Below(cfg.slots);
    }
    if ReportsEverySlot(cfg, s, e, m) {
      forall k | 0 <= k < cfg.slots
        ensures Covered(cfg, s, e, k)
      {
        assert k in m.Keys;
      }
    }
  }

  // ---- events that carry no links ----

  /** Neither the partials nor `e` carry links. */
  ghost predicate Unlinked(cfg: Config, s: State, e: Event) {
    e !in s.meta.links && forall k, x :: x in Slot(s.partials, k) ==> x !in s.meta.links
  }

  ghost predicate AllFilled(cfg: Config, s: State) {
    forall k :: 0 <= k < cfg.slots - 1 ==> Slot(s.partials, k) != []
  }

  lemma UnlinkedStitches(cfg: Config, s: State, e: Event, k: nat)
    requires Unlinked(cfg, s, e)
    ensures StitchedAt(cfg, s, e, k) <==>
              k + 1 < cfg.slots && SlotsWith(cfg, s, e, k) != [] && SlotsWith(cfg, s, e, k + 1) != []
  {
    hide Slot, ShareLink;
    var q, r := SlotsWith(cfg, s, e, k), SlotsWith(cfg, s, e, k + 1);
    if k + 1 < cfg.slots && q != [] && r != [] {
      assert q[0] in q && r[0] in r;
    }
  }

  /**
   In every run: an ordered sequence of two or more slots without a join, on events without links, reports one event
   from every slot exactly when none of its slots is empty.
   */
  lemma UnlinkedReportsEverySlot(cfg: Config, meta: Meta, steps: seq<Step>, e: Event, order: MapOrder)
    requires ValidConfig(cfg) && LegalRun(cfg, meta, steps) && !cfg.unordered && cfg.join.NoBy? && VisitsKeys(order)
    requires cfg.slots >= 2 && Unlinked(cfg, After(cfg, meta, steps), e)
    requires ProcessEvent(cfg, After(cfg, meta, steps), e, order).fired
    ensures var s := After(cfg, meta, steps);
            ReportsEverySlot(cfg, s, e, ProcessEvent(cfg, s, e, order).matches) <==> AllFilled(cfg, s)
  {
    hide LegalRun, ValidConfig, VisitsKeys, ProcessEvent, After, OrderedInv, ReportsEverySlot, Covered, Unlinked;
    hide AllFilled;
    var s := After(cfg, meta, steps);
    OrderedAlways(cfg, meta, steps);
    ReportsEverySlotExactly(cfg, s, e, order);
    CoveredFilled(cfg, s, e);
  }

  lemma CoveredFilled(cfg: Config, s: State, e: Event)
    requires Unlinked(cfg, s, e) && cfg.slots >= 2
    ensures (forall k :: 0 <= k < cfg.slots ==> Covered(cfg, s, e, k)) <==> AllFilled(cfg, s)
  {
    hide Unlinked, StitchedAt, Slot;
    if AllFilled(cfg, s) {
      forall k | 0 <= k < cfg.slots
        ensures Covered(cfg, s, e, k)
      {
        if k > 0 {
          UnlinkedStitches(cfg, s, e, k - 1);
        } else {
          UnlinkedStitches(cfg, s, e, 0);
        }
      }
    }
    if forall k :: 0 <= k < cfg.slots ==> Covered(cfg, s, e, k) {
      forall k | 0 <= k < cfg.slots - 1
        ensures Slot(s.partials, k) != []
      {
        UnlinkedStitches(cfg, s, e, k);
        if k > 0 {
          UnlinkedStitches(cfg, s, e, k - 1);
        }
        assert Covered(cfg, s, e, k);
      }
    }
  }

  lemma FilledSlots(cfg: Config, s: State, e: Event, order: MapOrder)
    requires ValidConfig(cfg) && OrderedInv(cfg, s) && SlotsFilled(s) && VisitsKeys(order) && cfg.slots >= 1
    requires ProcessEvent(cfg, s, e, order).fired
    ensures AllFilled(cfg, s)
  {
    hide ProcessEvent, FsmInv, SlotsOk, NoneNewer;
    FiresFromLast(cfg, s, e, order);
  }

  /** As long as nothing is garbage collected, that is always so. */
  lemma UnlinkedReports(cfg: Config, meta: Meta, steps: seq<Step>, e: Event, order: MapOrder)
    requires ValidConfig(cfg) && LegalRun(cfg, meta, steps) && !cfg.unordered && cfg.join.NoBy? && VisitsKeys(order)
    requires cfg.slots >= 2 && Unlinked(cfg, After(cfg, meta, steps), e)
    requires ProcessEvent(cfg, After(cfg, meta, steps), e, order).fired
    requires forall i :: 0 <= i < |steps| ==> !steps[i].Sweep?
    ensures var s := After(cfg, meta, steps);
            ReportsEverySlot(cfg, s, e, ProcessEvent(cfg, s, e, order).matches)
  {
    hide *;
    OrderedAlways(cfg, meta, steps);
    FilledSlots(cfg, After(cfg, meta, steps), e, order);
    UnlinkedReportsEverySlot(cfg, meta, steps, e, order);
  }

  /**
   Links that another rule left on all the events of the first of two slots, and not on the last: nothing is reported.
   */
  lemma ForeignLinksLoseReport(cfg: Config, s: State, e: Event, order: MapOrder)
    requires ValidConfig(cfg) && OrderedInv(cfg, s) && VisitsKeys(order) && cfg.join.NoBy? && cfg.slots == 2
    requires ProcessEvent(cfg, s, e, order).fired
    requires e !in s.meta.links && forall x :: x in Slot(s.partials, 0) ==> x in s.meta.links
    ensures ProcessEvent(cfg, s, e, order).matches == map[]
  {
    hide ValidConfig, OrderedInv, VisitsKeys, ProcessEvent, Slot;
    ReportExactly(cfg, s, e, order);
    assert LinksOf(s.meta, e) == {};
    assert !StitchedAt(cfg, s, e, 0);
    hide Covered, StitchedAt;
    NothingCovered(cfg, s, e);
  }

  lemma NothingCovered(cfg: Config, s: State, e: Event)
    requires cfg.slots == 2 && !StitchedAt(cfg, s, e, 0)
    ensures forall k :: !Covered(cfg, s, e, k)
  {
    hide Stitched;
    forall k: nat
      ensures !Covered(cfg, s, e, k)
    {
      assert k > 0 && StitchedAt(cfg, s, e, k - 1) ==> k - 1 == 0;
    }
  }

  // ---- which events ----

  /** Of several partials in a slot the earliest is reported. */
  lemma UnlinkedReportsEarliest(cfg: Config, s: State, e: Event, order: MapOrder, k: nat)
    requires ValidConfig(cfg) && OrderedInv(cfg, s) && VisitsKeys(order) && cfg.join.NoBy? && cfg.slots >= 2
    requires ProcessEvent(cfg, s, e, order).fired && Unlinked(cfg, s, e) && AllFilled(cfg, s) && k < cfg.slots
    ensures var m := ProcessEvent(cfg, s, e, order).matches;
            k in m && SlotsWith(cfg, s, e, k) != [] && m[k] == SlotsWith(cfg, s, e, k)[0]
  {
    hide *;
    FiredPartials(cfg, s, e, order);
    var s2 := Fired(cfg, s, e, order);
    forall j | 0 < j <= cfg.slots - 1
      ensures HasPair(cfg, s2, j)
    {
      EarliestPair(cfg, s, e, s2, j);
    }
    CollectedPairs(cfg, s2, cfg.slots - 1);
    EarliestPair(cfg, s, e, s2, if k > 0 then k else 1);
    assert k > 0 ==> HasPair(cfg, s2, k);
    HasFirst(cfg, k);
  }

  lemma HasFirst(cfg: Config, k: nat)
    requires k < cfg.slots
    ensures k in Below(cfg.slots)
  {
  }

  lemma EarliestPair(cfg: Config, s: State, e: Event, s2: State, j: nat)
    requires cfg.join.NoBy? && Unlinked(cfg, s, e) && AllFilled(cfg, s) && 0 < j <= cfg.slots - 1
    requires s2.partials == s.partials[cfg.slots - 1 := [e]] && s2.meta == s.meta
    ensures SlotsWith(cfg, s, e, j - 1) != [] && SlotsWith(cfg, s, e, j) != []
    ensures HasPair(cfg, s2, j)
    ensures PairOf(cfg, s2, j) == (SlotsWith(cfg, s, e, j - 1)[0], SlotsWith(cfg, s, e, j)[0])
  {
    hide FirstPair;
    var q, r := SlotsWith(cfg, s, e, j - 1), SlotsWith(cfg, s, e, j);
    assert q == Slot(s2.partials, j - 1) && r == Slot(s2.partials, j);
    assert q[0] in q && r[0] in r;
    PairsStitch(cfg, s.meta, q[0], r[0]);
    hide Pairs;
    FirstPairIs(cfg, s.meta, q, r, 0, 0);
  }
}
