/**
 When a link-free ordered sequence fires: the automaton against the plain reading of its rule, namely that
 the events since the last firing contain one for each slot, in slot order.
 */
module SequenceExact {
  import opened SequenceModel
  import opened SequenceInvariants
  import opened SequenceOrdered
  import opened SequenceRuns

  type Conditions = (nat, Event) -> bool

  /** `picks` selects from `w`, in order, an event for each of the first slots. */
  ghost predicate Selects(cond: Conditions, w: seq<Event>, picks: seq<nat>) {
    && (forall i, j :: 0 <= i < j < |picks| ==> picks[i] < picks[j])
    && (forall i :: 0 <= i < |picks| ==> picks[i] < |w| && cond(i, w[picks[i]]))
  }

  /** `w` contains a subsequence matching the first `k` slots. */
  ghost predicate Contains(cond: Conditions, w: seq<Event>, k: nat) {
    exists picks: seq<nat> :: |picks| == k && Selects(cond, w, picks)
  }

  lemma ContainsEmpty(cond: Conditions)
    ensures Contains(cond, [], 0) && !Contains(cond, [], 1)
  {
    assert Selects(cond, [], []);
    ContainsAtMost(cond, [], 1);
  }

  lemma {:induction false} SelectsAtMost(cond: Conditions, w: seq<Event>, picks: seq<nat>)
    requires Selects(cond, w, picks)
    ensures |picks| <= |w|
    decreases |picks|
  {
    if picks != [] {
      var last := picks[|picks| - 1];
      assert Selects(cond, w[..last], picks[..|picks| - 1]);
      SelectsAtMost(cond, w[..last], picks[..|picks| - 1]);
    }
  }

  lemma ContainsAtMost(cond: Conditions, w: seq<Event>, k: nat)
    ensures Contains(cond, w, k) ==> k <= |w|
  {
    if Contains(cond, w, k) {
      var picks: seq<nat> :| |picks| == k && Selects(cond, w, picks);
      SelectsAtMost(cond, w, picks);
    }
  }

  lemma ContainsFewer(cond: Conditions, w: seq<Event>, k: nat)
    requires Contains(cond, w, k + 1)
    ensures Contains(cond, w, k)
  {
    var picks: seq<nat> :| |picks| == k + 1 && Selects(cond, w, picks);
    assert Selects(cond, w, picks[..k]);
  }

  lemma ContainsMore(cond: Conditions, w: seq<Event>, e: Event, k: nat)
    ensures Contains(cond, w, k) ==> Contains(cond, w + [e], k)
    ensures Contains(cond, w, k) && cond(k, e) ==> Contains(cond, w + [e], k + 1)
  {
    if Contains(cond, w, k) {
      var picks: seq<nat> :| |picks| == k && Selects(cond, w, picks);
      assert Selects(cond, w + [e], picks);
      if cond(k, e) {
        assert Selects(cond, w + [e], picks + [|w|]);
      }
    }
  }

  lemma ContainsSplit(cond: Conditions, w: seq<Event>, e: Event, k: nat)
    requires Contains(cond, w + [e], k + 1)
    ensures Contains(cond, w, k + 1) || (Contains(cond, w, k) && cond(k, e))
  {
    var picks: seq<nat> :| |picks| == k + 1 && Selects(cond, w + [e], picks);
    if picks[k] < |w| {
      assert Selects(cond, w, picks);
    } else {
      assert Selects(cond, w, picks[..k]);
    }
  }

  /** The events since the plain reading last fired, on a stream of events. */
  ghost function Window(cond: Conditions, n: nat, es: seq<Event>): seq<Event> {
    if es == [] then []
    else
      var w := Window(cond, n, es[..|es| - 1]) + [es[|es| - 1]];
      if Contains(cond, w, n) then [] else w
  }

  /** The plain reading fires on `e` after the stream `es`. */
  ghost predicate Completes(cond: Conditions, n: nat, es: seq<Event>, e: Event) {
    Contains(cond, Window(cond, n, es) + [e], n)
  }

  function Stream(steps: seq<Step>): seq<Event> {
    if steps == [] then []
    else
      var init, last := Stream(steps[..|steps| - 1]), steps[|steps| - 1];
      if last.Process? then init + [last.e] else init
  }

  ghost predicate Increasing(es: seq<Event>) {
    forall i, j :: 0 <= i < j < |es| ==> es[i].timestamp < es[j].timestamp
  }

  /** No join, no max span, and one event source, so that events arrive in order. */
  predicate LinkFree(cfg: Config) {
    cfg.join.NoBy? && cfg.maxSpan == 0 && !cfg.unordered
  }

  function PlainConditions(cfg: Config): Conditions {
    (k: nat, e) => Condition(cfg, k, e)
  }

  /** Slot `k` is the first one whose condition the event meets. */
  function FirstConditions(cfg: Config): Conditions {
    (k: nat, e) => Condition(cfg, k, e) && forall j :: 0 <= j < k ==> !Condition(cfg, j, e)
  }

  lemma MatchedPlainly(cfg: Config, s: State, k: nat, e: Event)
    requires FsmInv(cfg, s) && s.fsm.At? && cfg.join.NoBy?
    ensures Matched(cfg, s, k, e) <==> k <= s.fsm.slot && Condition(cfg, k, e)
  {
    NextBound(cfg, s, k);
  }

  /** The machine moves exactly on the events whose first slot is the one it waits for. */
  lemma LinkFreeStep(cfg: Config, s: State, e: Event, order: MapOrder)
    requires ValidConfig(cfg) && LinkFree(cfg) && OrderedInv(cfg, s) && InTime(s, e) && VisitsKeys(order)
    ensures var r := ProcessEvent(cfg, s, e, order);
            var moves := FirstConditions(cfg)(s.fsm.slot, e);
            && (r.fired <==> moves && s.fsm.slot + 1 == cfg.slots)
            && r.state.fsm == (if r.fired then At(0) else if moves then At(s.fsm.slot + 1) else s.fsm)
            && r.state.lastMatch <= if r.fired then 0 else e.timestamp
  {
    hide RunFrom, Accept, SlotsOk, NoneNewer, Below, SortsByTime, CollectMatches, VisitsKeys, Matched, Fire, Condition;
    var o := Run(cfg, s, e, order);
    OrderedRun(cfg, s, e, 0, order);
    forall k: nat
      ensures Matched(cfg, s, k, e) <==> k <= s.fsm.slot && Condition(cfg, k, e)
    {
      MatchedPlainly(cfg, s, k, e);
    }
    var c := s.fsm.slot;
    if o.accepted == [] {
      assert !Matched(cfg, s, c, e);
    } else {
      var a := o.accepted[0];
      AcceptMoves(cfg, s, a, e, order);
      assert Condition(cfg, a, e) by { AcceptedMeets(cfg, s, a, e); }
      if a == c {
        forall j | 0 <= j < c
          ensures !Condition(cfg, j, e)
        {
          assert !Matched(cfg, s, j, e);
        }
      }
    }
    if o.fired {
      ProcessEventOrdered(cfg, s, e, order);
    }
  }

  /** The state of the machine is the longest prefix of the rule found since the last firing. */
  ghost predicate Tracks(cfg: Config, s: State, es: seq<Event>) {
    var w := Window(FirstConditions(cfg), cfg.slots, es);
    && s.fsm.At?
    && Contains(FirstConditions(cfg), w, s.fsm.slot) && !Contains(FirstConditions(cfg), w, s.fsm.slot + 1)
    && (s.lastMatch == 0 || (es != [] && s.lastMatch <= es[|es| - 1].timestamp))
  }

  lemma TracksStep(cfg: Config, s: State, es: seq<Event>, e: Event, order: MapOrder)
    requires ValidConfig(cfg) && LinkFree(cfg) && OrderedInv(cfg, s) && VisitsKeys(order)
    requires Tracks(cfg, s, es) && (es != [] ==> es[|es| - 1].timestamp < e.timestamp)
    ensures ProcessEvent(cfg, s, e, order).fired <==> Completes(FirstConditions(cfg), cfg.slots, es, e)
    ensures Tracks(cfg, ProcessEvent(cfg, s, e, order).state, es + [e])
  {
    hide ProcessEvent, SlotsOk, NoneNewer, Below, SortsByTime, VisitsKeys, Contains, FirstConditions;
    var cond, c := FirstConditions(cfg), s.fsm.slot;
    var w := Window(cond, cfg.slots, es);
    LinkFreeStep(cfg, s, e, order);
    assert (es + [e])[..|es|] == es;
    ContainsMore(cond, w, e, c);
    ContainsEmpty(cond);
    if Contains(cond, w + [e], c + 1) {
      ContainsSplit(cond, w, e, c);
    }
    if Contains(cond, w + [e], c + 2) {
      ContainsSplit(cond, w, e, c + 1);
      if Contains(cond, w, c + 2) {
        ContainsFewer(cond, w, c + 1);
      }
    }
    if c + 1 < cfg.slots {
      TooMany(cond, w + [e], c + 2, cfg.slots);
    }
  }

  lemma {:induction false} TooMany(cond: Conditions, w: seq<Event>, k: nat, n: nat)
    requires k <= n && !Contains(cond, w, k)
    ensures !Contains(cond, w, n)
    decreases n - k
  {
    if k < n {
      if Contains(cond, w, k + 1) {
        ContainsFewer(cond, w, k);
      }
      TooMany(cond, w, k + 1, n);
    }
  }

  lemma {:induction false} TracksAlways(cfg: Config, meta: Meta, steps: seq<Step>)
    requires ValidConfig(cfg) && LinkFree(cfg) && LegalRun(cfg, meta, steps)
    requires (forall i :: 0 <= i < |steps| ==> !steps[i].Terminate?) && Increasing(Stream(steps))
    ensures Tracks(cfg, After(cfg, meta, steps), Stream(steps))
  {
    hide ProcessEvent, OrderedInv, Contains, FirstConditions, SortsByTime, VisitsKeys, Cancel, Expire, Gc, Window;
    if steps == [] {
      ContainsEmpty(FirstConditions(cfg));
      assert Window(FirstConditions(cfg), cfg.slots, []) == [] by { WindowEmpty(FirstConditions(cfg), cfg.slots); }
    } else {
      var init, last := steps[..|steps| - 1], steps[|steps| - 1];
      if last.Process? {
        assert Stream(steps)[..|Stream(init)|] == Stream(init);
        var i := |Stream(init)|;
        assert i > 0 ==> Stream(steps)[i - 1].timestamp < Stream(steps)[i].timestamp;
      }
      TracksAlways(cfg, meta, init);
      OrderedAlways(cfg, meta, init);
      if last.Process? {
        TracksStep(cfg, After(cfg, meta, init), Stream(init), last.e, last.order);
      } else {
        QuietStep(cfg, After(cfg, meta, init), last);
      }
    }
  }

  lemma WindowEmpty(cond: Conditions, n: nat)
    ensures Window(cond, n, []) == []
  {
  }

  lemma QuietStep(cfg: Config, s: State, step: Step)
    requires !step.Process? && !step.Terminate? && !step.Timer?
    ensures Apply(cfg, s, step).fsm == s.fsm && Apply(cfg, s, step).lastMatch == s.lastMatch
  {
  }

  /**
   On every stream with strictly increasing timestamps, and whatever is garbage collected or dropped at the
   cap meanwhile, the automaton fires at exactly the events on which the rule, read with each event standing
   for the first slot it meets, is first complete since the last firing.
   */
  lemma FiresExactly(cfg: Config, meta: Meta, steps: seq<Step>, e: Event, order: MapOrder)
    requires ValidConfig(cfg) && LinkFree(cfg) && LegalRun(cfg, meta, steps) && VisitsKeys(order)
    requires (forall i :: 0 <= i < |steps| ==> !steps[i].Terminate?) && Increasing(Stream(steps) + [e])
    ensures ProcessEvent(cfg, After(cfg, meta, steps), e, order).fired
            <==> Completes(FirstConditions(cfg), cfg.slots, Stream(steps), e)
  {
    hide ProcessEvent, OrderedInv, Contains, FirstConditions, SortsByTime, VisitsKeys, LegalRun, After, Tracks;
    var es := Stream(steps);
    assert (es + [e])[..|es|] == es;
    assert es != [] ==> (es + [e])[|es| - 1].timestamp < (es + [e])[|es|].timestamp;
    TracksAlways(cfg, meta, steps);
    OrderedAlways(cfg, meta, steps);
    TracksStep(cfg, After(cfg, meta, steps), es, e, order);
  }
}
