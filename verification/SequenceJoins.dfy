/** Whether the events that a firing reports join the event it fires on. */
module SequenceJoins {
  import opened Options
  import opened Links
  import opened SequenceModel
  import opened SequenceInvariants
  import opened SequenceOrdered
  import opened SequenceReports
  import opened SequenceRuns

  // ---- the first pair of two slots ----

  /** Of all pairs that join, the one at `i` and `j` comes first when the slots are walked in order. */
  ghost predicate FirstAt(cfg: Config, meta: Meta, q: seq<Event>, r: seq<Event>, i: nat, j: nat) {
    && i < |q| && j < |r| && Pairs(cfg, meta, q[i], r[j])
    && forall a, b :: 0 <= a < |q| && 0 <= b < |r| && Pairs(cfg, meta, q[a], r[b]) ==> i < a || (i == a && j <= b)
  }

  lemma {:induction false} FirstInnerAt(cfg: Config, meta: Meta, outer: Event, q: seq<Event>) returns (j: nat)
    requires FirstInner(cfg, meta, outer, q).Some?
    ensures j < |q| && FirstInner(cfg, meta, outer, q) == Some(q[j]) && Pairs(cfg, meta, outer, q[j])
    ensures forall b :: 0 <= b < j ==> !Pairs(cfg, meta, outer, q[b])
  {
    hide Pairs;
    var n := |q| - 1;
    if FirstInner(cfg, meta, outer, q[..n]).Some? {
      j := FirstInnerAt(cfg, meta, outer, q[..n]);
    } else {
      FirstInnerFinds(cfg, meta, outer, q[..n]);
      j := n;
      forall b | 0 <= b < j
        ensures !Pairs(cfg, meta, outer, q[b])
      {
        assert q[b] in q[..n];
      }
    }
  }

  lemma NoPair(cfg: Config, meta: Meta, q: seq<Event>, r: seq<Event>)
    requires FirstPair(cfg, meta, q, r).None?
    ensures forall a, b :: 0 <= a < |q| && 0 <= b < |r| ==> !Pairs(cfg, meta, q[a], r[b])
  {
    hide Pairs, FirstPair;
    FirstPairFinds(cfg, meta, q, r);
    forall a, b | 0 <= a < |q| && 0 <= b < |r|
      ensures !Pairs(cfg, meta, q[a], r[b])
    {
      assert q[a] in q && r[b] in r;
    }
  }

  lemma {:induction false} FirstPairAt(cfg: Config, meta: Meta, q: seq<Event>, r: seq<Event>) returns (i: nat, j: nat)
    requires FirstPair(cfg, meta, q, r).Some?
    ensures FirstAt(cfg, meta, q, r, i, j) && FirstPair(cfg, meta, q, r) == Some((q[i], r[j]))
  {
    hide Pairs;
    var n := |q| - 1;
    if FirstPair(cfg, meta, q[..n], r).Some? {
      i, j := FirstPairAt(cfg, meta, q[..n], r);
    } else {
      NoPair(cfg, meta, q[..n], r);
      i := n;
      j := FirstInnerAt(cfg, meta, q[n], r);
      assert forall a :: 0 <= a < n ==> q[..n][a] == q[a];
    }
  }

  /** The pair that is first is the one that is found. */
  lemma FirstPairIs(cfg: Config, meta: Meta, q: seq<Event>, r: seq<Event>, i: nat, j: nat)
    requires FirstAt(cfg, meta, q, r, i, j)
    ensures FirstPair(cfg, meta, q, r) == Some((q[i], r[j]))
  {
    hide Pairs, FirstPair;
    if FirstPair(cfg, meta, q, r).None? {
      NoPair(cfg, meta, q, r);
    }
    var i', j' := FirstPairAt(cfg, meta, q, r);
    assert i' == i && j' == j;
  }

  // ---- what is collected ----

  ghost function PairOf(cfg: Config, s: State, k: nat): (Event, Event)
    requires k > 0 && HasPair(cfg, s, k)
  {
    FirstPair(cfg, s.meta, Slot(s.partials, k - 1), Slot(s.partials, k)).value
  }

  /** Slot 0 reports the outer event of its first pair, every other slot the inner event of the pair before it. */
  lemma {:induction false} CollectedPairs(cfg: Config, s: State, n: nat)
    requires s.matches == map[] && n > 0 && forall k :: 0 < k <= n ==> HasPair(cfg, s, k)
    ensures var m := CollectTo(cfg, s, n);
            && m.Keys == Below(n + 1)
            && HasPair(cfg, s, 1) && m[0] == PairOf(cfg, s, 1).0
            && forall k :: 0 < k <= n ==> HasPair(cfg, s, k) && k in m && m[k] == PairOf(cfg, s, k).1
  {
    hide FirstPair;
    CollectReaches(cfg, s, n);
    assert HasPair(cfg, s, 1) && HasPair(cfg, s, n);
    if n > 1 {
      CollectedPairs(cfg, s, n - 1);
    }
  }

  // ---- joining the event of the firing ----

  predicate Joins(cfg: Config, meta: Meta, x: Event, e: Event) {
    LinksJoin(cfg.text, LinksOf(meta, x), LinksOf(meta, e))
  }

  /** Every reported event joins the one that fires. */
  ghost predicate ReportJoins(cfg: Config, meta: Meta, m: map<nat, Event>, e: Event) {
    forall k :: k in m && k + 1 < cfg.slots ==> Joins(cfg, meta, m[k], e)
  }

  /** The first pair of two neighbouring slots belongs to `e`; of the outer event this matters in slot 0 only. */
  ghost predicate LedAt(cfg: Config, meta: Meta, q: seq<Event>, r: seq<Event>, e: Event, outerToo: bool) {
    forall i: nat, j: nat :: FirstAt(cfg, meta, q, r, i, j) ==>
      Joins(cfg, meta, r[j], e) && (outerToo ==> Joins(cfg, meta, q[i], e))
  }

  /** Between slots before the last, the pair that is met first belongs to `e`, not to another match in progress. */
  ghost predicate Led(cfg: Config, meta: Meta, partials: map<nat, seq<Event>>, e: Event) {
    forall k :: 0 <= k < cfg.slots - 2 ==> LedAt(cfg, meta, Slot(partials, k), Slot(partials, k + 1), e, k == 0)
  }

  /** The links when `e` is accepted in the last slot. */
  function WithLink(cfg: Config, s: State, e: Event): Meta
    requires cfg.slots >= 1
  {
    AddLink(s.meta, e, LinkOf(cfg, cfg.slots - 1, e))
  }

  lemma OrderedParts(cfg: Config, s: State)
    requires OrderedInv(cfg, s)
    ensures FsmInv(cfg, s) && s.fsm.At? && !cfg.unordered
  {
  }

  lemma AcceptedMeta(cfg: Config, s: State, e: Event, order: MapOrder)
    requires FsmInv(cfg, s) && HasBy(cfg) && !cfg.unordered && cfg.slots >= 1 && s.fsm == At(cfg.slots - 1)
    requires Accepts(cfg, s, cfg.slots - 1, e)
    ensures Accept(cfg, s, cfg.slots - 1, e, order).meta == WithLink(cfg, s, e)
  {
    hide FsmInv, Accept, Joined, Next;
    AcceptMoves(cfg, s, cfg.slots - 1, e, order);
  }

  lemma FiredMeta(cfg: Config, s: State, e: Event, order: MapOrder)
    requires ValidConfig(cfg) && OrderedInv(cfg, s) && HasBy(cfg) && VisitsKeys(order) && cfg.slots >= 1
    requires ProcessEvent(cfg, s, e, order).fired
    ensures Fired(cfg, s, e, order).meta == WithLink(cfg, s, e)
  {
    hide *;
    OrderedParts(cfg, s);
    FiredShape(cfg, s, e, order);
    AcceptedMeta(cfg, s, e, order);
  }

  /** What is reported, in terms of the slots before the firing. */
  lemma Reported(cfg: Config, s: State, e: Event, order: MapOrder)
    requires ValidConfig(cfg) && OrderedInv(cfg, s) && HasBy(cfg) && VisitsKeys(order) && cfg.slots >= 2
    requires ProcessEvent(cfg, s, e, order).fired
    ensures var m, s2 := ProcessEvent(cfg, s, e, order).matches, Fired(cfg, s, e, order);
            && m == CollectTo(cfg, s2, cfg.slots - 1) && s2.matches == map[] && s2.meta == WithLink(cfg, s, e)
            && s2.partials == s.partials[cfg.slots - 1 := [e]]
            && forall k :: 0 < k <= cfg.slots - 1 ==> HasPair(cfg, s2, k)
  {
    hide *;
    FiredShape(cfg, s, e, order);
    FiredMeta(cfg, s, e, order);
    FiredPairs(cfg, s, e, order);
    CollectLast(cfg, Fired(cfg, s, e, order));
  }

  lemma LedJoins(cfg: Config, s2: State, e: Event, m: map<nat, Event>)
    requires HasBy(cfg) && cfg.slots >= 2 && s2.matches == map[]
    requires Slot(s2.partials, cfg.slots - 1) == [e] && m == CollectTo(cfg, s2, cfg.slots - 1)
    requires forall k :: 0 < k <= cfg.slots - 1 ==> HasPair(cfg, s2, k)
    ensures ReportJoins(cfg, s2.meta, m, e) <==> Led(cfg, s2.meta, s2.partials, e)
  {
    hide FirstPair, CollectTo, Slot, LinksJoin, FirstAt;
    CollectedPairs(cfg, s2, cfg.slots - 1);
    if Led(cfg, s2.meta, s2.partials, e) {
      forall k | k in m && k + 1 < cfg.slots
        ensures Joins(cfg, s2.meta, m[k], e)
      {
        LedJoinsAt(cfg, s2, e, m, k);
      }
    }
    if ReportJoins(cfg, s2.meta, m, e) {
      forall k | 0 <= k < cfg.slots - 2
        ensures LedAt(cfg, s2.meta, Slot(s2.partials, k), Slot(s2.partials, k + 1), e, k == 0)
      {
        JoinsLedAt(cfg, s2, e, m, k);
      }
    }
  }

  lemma JoinsLedAt(cfg: Config, s2: State, e: Event, m: map<nat, Event>, k: nat)
    requires k < cfg.slots - 2 && HasPair(cfg, s2, k + 1) && ReportJoins(cfg, s2.meta, m, e)
    requires k + 1 in m && m[k + 1] == PairOf(cfg, s2, k + 1).1
    requires k == 0 ==> 0 in m && m[0] == PairOf(cfg, s2, 1).0
    ensures LedAt(cfg, s2.meta, Slot(s2.partials, k), Slot(s2.partials, k + 1), e, k == 0)
  {
    hide FirstPair, Slot, Joins, FirstAt;
    var q, r := Slot(s2.partials, k), Slot(s2.partials, k + 1);
    forall i: nat, j: nat | FirstAt(cfg, s2.meta, q, r, i, j)
      ensures i < |q| && j < |r| && Joins(cfg, s2.meta, r[j], e) && (k == 0 ==> Joins(cfg, s2.meta, q[i], e))
    {
      FirstInside(cfg, s2.meta, q, r, i, j);
      FirstPairIs(cfg, s2.meta, q, r, i, j);
    }
  }

  lemma FirstInside(cfg: Config, meta: Meta, q: seq<Event>, r: seq<Event>, i: nat, j: nat)
    requires FirstAt(cfg, meta, q, r, i, j)
    ensures i < |q| && j < |r| && Pairs(cfg, meta, q[i], r[j])
  {
  }

  lemma LedJoinsAt(cfg: Config, s2: State, e: Event, m: map<nat, Event>, k: nat)
    requires HasBy(cfg) && cfg.slots >= 2 && Slot(s2.partials, cfg.slots - 1) == [e]
    requires 0 in m && HasPair(cfg, s2, 1) && m[0] == PairOf(cfg, s2, 1).0
    requires forall k :: 0 < k <= cfg.slots - 1 ==> HasPair(cfg, s2, k) && k in m && m[k] == PairOf(cfg, s2, k).1
    requires Led(cfg, s2.meta, s2.partials, e) && k + 1 < cfg.slots
    ensures k in m && Joins(cfg, s2.meta, m[k], e)
  {
    hide FirstPair, Slot, LinksJoin, FirstAt;
    var before := if k == 0 then 0 else k - 1;
    var q, r := Slot(s2.partials, before), Slot(s2.partials, before + 1);
    assert HasPair(cfg, s2, before + 1);
    var i, j := FirstPairAt(cfg, s2.meta, q, r);
    FirstInside(cfg, s2.meta, q, r, i, j);
    if before + 2 == cfg.slots {
      assert r[j] == e;
    }
  }

  /**
   The events that a joined ordered sequence reports all join the one it fires on exactly when, between slots before
   the last, the first pair belongs to it.
   */
  lemma ReportJoinsExactly(cfg: Config, s: State, e: Event, order: MapOrder)
    requires ValidConfig(cfg) && OrderedInv(cfg, s) && HasBy(cfg) && VisitsKeys(order) && cfg.slots >= 2
    requires ProcessEvent(cfg, s, e, order).fired
    ensures ReportJoins(cfg, WithLink(cfg, s, e), ProcessEvent(cfg, s, e, order).matches, e)
            <==> Led(cfg, WithLink(cfg, s, e), s.partials, e)
  {
    hide OrderedInv, ValidConfig, ProcessEvent, Fired, CollectTo, HasPair, ReportJoins, FirstAt, Joins, WithLink;
    Reported(cfg, s, e, order);
    var s2 := Fired(cfg, s, e, order);
    LedJoins(cfg, s2, e, ProcessEvent(cfg, s, e, order).matches);
    assert forall k: nat :: k + 1 < cfg.slots ==> Slot(s2.partials, k) == Slot(s.partials, k);
  }

  /** With two slots the reported events always join. */
  lemma TwoSlotReportJoins(cfg: Config, s: State, e: Event, order: MapOrder)
    requires ValidConfig(cfg) && OrderedInv(cfg, s) && HasBy(cfg) && VisitsKeys(order) && cfg.slots == 2
    requires ProcessEvent(cfg, s, e, order).fired
    ensures ReportJoins(cfg, WithLink(cfg, s, e), ProcessEvent(cfg, s, e, order).matches, e)
  {
    hide OrderedInv, ValidConfig, ProcessEvent, ReportJoins, WithLink;
    ReportJoinsExactly(cfg, s, e, order);
  }

  /** In every run: the report joins exactly when it is led, and with two slots always. */
  lemma EveryReportJoins(cfg: Config, meta: Meta, steps: seq<Step>, e: Event, order: MapOrder)
    requires ValidConfig(cfg) && LegalRun(cfg, meta, steps) && !cfg.unordered && HasBy(cfg) && VisitsKeys(order)
    requires cfg.slots >= 2 && ProcessEvent(cfg, After(cfg, meta, steps), e, order).fired
    ensures var s := After(cfg, meta, steps);
            var joins := ReportJoins(cfg, WithLink(cfg, s, e), ProcessEvent(cfg, s, e, order).matches, e);
            && (joins <==> Led(cfg, WithLink(cfg, s, e), s.partials, e))
            && (cfg.slots == 2 ==> joins)
  {
    hide *;
    OrderedAlways(cfg, meta, steps);
    ReportJoinsExactly(cfg, After(cfg, meta, steps), e, order);
    if cfg.slots == 2 {
      TwoSlotReportJoins(cfg, After(cfg, meta, steps), e, order);
    }
  }
}
