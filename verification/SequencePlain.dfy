/** When the automaton agrees with the plain reading of its rule, in which an event may stand for any slot it fits. */
module SequencePlain {
  import opened SequenceModel
  import opened SequenceInvariants
  import opened SequenceRuns
  import opened SequenceExact

  /** `w` casts one event for every slot, in order of time. */
  ghost predicate Cast(cfg: Config, w: seq<Event>) {
    |w| == cfg.slots && Increasing(w) && forall i :: 0 <= i < |w| ==> Condition(cfg, i, w[i])
  }

  /** An earlier slot takes `e` before slot `k` gets to see it. */
  predicate Shadowed(cfg: Config, k: nat, e: Event) {
    exists j :: 0 <= j < k && Condition(cfg, j, e)
  }

  /** Whoever can be cast for a slot together with events for all the others is not taken by an earlier slot. */
  ghost predicate NoShadow(cfg: Config) {
    forall w, k :: Cast(cfg, w) && 0 <= k < |w| ==> !Shadowed(cfg, k, w[k])
  }

  // ---- without shadows the readings agree ----

  lemma ContainsAgree(cfg: Config, w: seq<Event>)
    requires NoShadow(cfg) && Increasing(w)
    ensures Contains(FirstConditions(cfg), w, cfg.slots) <==> Contains(PlainConditions(cfg), w, cfg.slots)
  {
    forall picks: seq<nat> | |picks| == cfg.slots
      ensures Selects(FirstConditions(cfg), w, picks) <==> Selects(PlainConditions(cfg), w, picks)
    {
      SelectsAgree(cfg, w, picks);
    }
  }

  lemma SelectsAgree(cfg: Config, w: seq<Event>, picks: seq<nat>)
    requires NoShadow(cfg) && Increasing(w) && |picks| == cfg.slots
    ensures Selects(FirstConditions(cfg), w, picks) <==> Selects(PlainConditions(cfg), w, picks)
  {
    hide Condition;
    if Selects(PlainConditions(cfg), w, picks) {
      var u := seq(|picks|, i requires 0 <= i < |picks| => w[picks[i]]);
      forall i | 0 <= i < |u|
        ensures Condition(cfg, i, u[i])
      {
        assert PlainConditions(cfg)(i, w[picks[i]]);
      }
      assert Cast(cfg, u);
      forall i | 0 <= i < |picks|
        ensures FirstConditions(cfg)(i, w[picks[i]])
      {
        assert !Shadowed(cfg, i, u[i]);
      }
    }
    if Selects(FirstConditions(cfg), w, picks) {
      forall i | 0 <= i < |picks|
        ensures PlainConditions(cfg)(i, w[picks[i]])
      {
        assert FirstConditions(cfg)(i, w[picks[i]]);
      }
    }
  }

  lemma {:induction false} WindowIsSuffix(cond: Conditions, n: nat, es: seq<Event>)
    ensures |Window(cond, n, es)| <= |es| && Window(cond, n, es) == es[|es| - |Window(cond, n, es)|..]
  {
    if es != [] {
      WindowIsSuffix(cond, n, es[..|es| - 1]);
    }
  }

  lemma WindowIncreasing(cond: Conditions, n: nat, es: seq<Event>, e: Event)
    requires Increasing(es + [e])
    ensures Increasing(Window(cond, n, es) + [e])
  {
    WindowIsSuffix(cond, n, es);
    var d := |es| - |Window(cond, n, es)|;
    assert Window(cond, n, es) + [e] == (es + [e])[d..];
  }

  lemma {:induction false} WindowAgrees(cfg: Config, es: seq<Event>)
    requires NoShadow(cfg) && Increasing(es)
    ensures Window(FirstConditions(cfg), cfg.slots, es) == Window(PlainConditions(cfg), cfg.slots, es)
  {
    if es != [] {
      hide NoShadow, Contains;
      var init, last := es[..|es| - 1], es[|es| - 1];
      assert es == init + [last];
      WindowAgrees(cfg, init);
      WindowIncreasing(PlainConditions(cfg), cfg.slots, init, last);
      ContainsAgree(cfg, Window(PlainConditions(cfg), cfg.slots, init) + [last]);
    }
  }

  lemma ReadingsAgree(cfg: Config, es: seq<Event>, e: Event)
    requires NoShadow(cfg) && Increasing(es + [e])
    ensures Completes(FirstConditions(cfg), cfg.slots, es, e) <==> Completes(PlainConditions(cfg), cfg.slots, es, e)
  {
    hide NoShadow, Contains, Window;
    assert es == (es + [e])[..|es|];
    WindowAgrees(cfg, es);
    WindowIncreasing(PlainConditions(cfg), cfg.slots, es, e);
    ContainsAgree(cfg, Window(PlainConditions(cfg), cfg.slots, es) + [e]);
  }

  // ---- a cast completes, unless one of it is shadowed ----

  lemma {:induction false} WholeWindow(cond: Conditions, n: nat, es: seq<Event>)
    requires |es| < n
    ensures Window(cond, n, es) == es
  {
    if es != [] {
      WholeWindow(cond, n, es[..|es| - 1]);
      assert es == es[..|es| - 1] + [es[|es| - 1]];
      ContainsAtMost(cond, es, n);
    }
  }

  /** The only way to pick as many as there are. */
  lemma {:induction false} AllPicked(picks: seq<nat>)
    requires forall i, j :: 0 <= i < j < |picks| ==> picks[i] < picks[j]
    requires forall i :: 0 <= i < |picks| ==> picks[i] < |picks|
    ensures forall i :: 0 <= i < |picks| ==> picks[i] == i
  {
    if picks != [] {
      var n := |picks| - 1;
      PicksClimb(picks, n);
      AllPicked(picks[..n]);
      assert picks == picks[..n] + [picks[n]];
    }
  }

  lemma {:induction false} PicksClimb(picks: seq<nat>, i: nat)
    requires forall i, j :: 0 <= i < j < |picks| ==> picks[i] < picks[j]
    requires i < |picks|
    ensures picks[i] >= i
  {
    if i > 0 {
      PicksClimb(picks, i - 1);
    }
  }

  lemma ContainsWhole(cond: Conditions, w: seq<Event>)
    ensures Contains(cond, w, |w|) <==> forall i :: 0 <= i < |w| ==> cond(i, w[i])
  {
    if Contains(cond, w, |w|) {
      var picks: seq<nat> :| |picks| == |w| && Selects(cond, w, picks);
      AllPicked(picks);
      forall i | 0 <= i < |w|
        ensures cond(i, w[i])
      {
        assert cond(i, w[picks[i]]);
      }
    }
    if forall i :: 0 <= i < |w| ==> cond(i, w[i]) {
      var picks := seq(|w|, i requires 0 <= i < |w| => i as nat);
      assert Selects(cond, w, picks);
    }
  }

  /** On the events of a cast, one after the other. */
  lemma CastCompletes(cfg: Config, w: seq<Event>)
    requires Cast(cfg, w) && cfg.slots >= 1
    ensures var n := cfg.slots;
            && Completes(PlainConditions(cfg), n, w[..n - 1], w[n - 1])
            && (Completes(FirstConditions(cfg), n, w[..n - 1], w[n - 1])
                <==> forall k :: 0 <= k < n ==> !Shadowed(cfg, k, w[k]))
  {
    hide Contains, Condition, Window;
    var n := cfg.slots;
    var plain, first := PlainConditions(cfg), FirstConditions(cfg);
    assert w[..n - 1] + [w[n - 1]] == w;
    WholeWindow(plain, n, w[..n - 1]);
    WholeWindow(first, n, w[..n - 1]);
    ContainsWhole(plain, w);
    ContainsWhole(first, w);
    assert forall k: nat :: k < n ==> (first(k, w[k]) <==> !Shadowed(cfg, k, w[k]));
  }

  // ---- the automaton ----

  lemma {:induction false} PlayIsLegal(cfg: Config, meta: Meta, es: seq<Event>, order: MapOrder)
    requires VisitsKeys(order)
    ensures LegalRun(cfg, meta, Play(es, order)) && Stream(Play(es, order)) == es
  {
    if es != [] {
      hide VisitsKeys, After;
      PlayIsLegal(cfg, meta, es[..|es| - 1], order);
      PlayPrefix(es, order);
      assert es == es[..|es| - 1] + [es[|es| - 1]];
    }
  }

  /** On a cast the plain reading fires; the automaton does exactly when none of the events is shadowed. */
  lemma CastFires(cfg: Config, meta: Meta, w: seq<Event>, order: MapOrder)
    requires ValidConfig(cfg) && LinkFree(cfg) && VisitsKeys(order) && Cast(cfg, w)
    ensures var n := cfg.slots;
            && Completes(PlainConditions(cfg), n, w[..n - 1], w[n - 1])
            && (ProcessEvent(cfg, After(cfg, meta, Play(w[..n - 1], order)), w[n - 1], order).fired
                <==> forall k :: 0 <= k < n ==> !Shadowed(cfg, k, w[k]))
  {
    hide Completes, ProcessEvent, After, LegalRun, SortsByTime, VisitsKeys, Condition, Stream;
    var n := cfg.slots;
    CastCompletes(cfg, w);
    PlayIsLegal(cfg, meta, w[..n - 1], order);
    assert w[..n - 1] + [w[n - 1]] == w;
    FiresExactly(cfg, meta, Play(w[..n - 1], order), w[n - 1], order);
  }

  /** In all runs of increasing timestamps without terminations the automaton fires where the plain reading does. */
  ghost predicate ReadsPlainly(cfg: Config) {
    forall meta: Meta, steps: seq<Step>, e: Event, order: MapOrder ::
      && LegalRun(cfg, meta, steps) && VisitsKeys(order)
      && (forall i :: 0 <= i < |steps| ==> !steps[i].Terminate?) && Increasing(Stream(steps) + [e])
      ==> (ProcessEvent(cfg, After(cfg, meta, steps), e, order).fired
           <==> Completes(PlainConditions(cfg), cfg.slots, Stream(steps), e))
  }

  /** Exactly the rules without shadows are read plainly. */
  lemma ReadsPlainlyExactly(cfg: Config)
    requires ValidConfig(cfg) && LinkFree(cfg)
    ensures ReadsPlainly(cfg) <==> NoShadow(cfg)
  {
    hide Completes, ProcessEvent, After, LegalRun, SortsByTime, VisitsKeys, Condition, Stream, Cast, Shadowed;
    if NoShadow(cfg) {
      hide NoShadow;
      forall meta: Meta, steps: seq<Step>, e: Event, order: MapOrder |
        && LegalRun(cfg, meta, steps) && VisitsKeys(order)
        && (forall i :: 0 <= i < |steps| ==> !steps[i].Terminate?) && Increasing(Stream(steps) + [e])
        ensures ProcessEvent(cfg, After(cfg, meta, steps), e, order).fired
                <==> Completes(PlainConditions(cfg), cfg.slots, Stream(steps), e)
      {
        FiresExactly(cfg, meta, steps, e, order);
        ReadingsAgree(cfg, Stream(steps), e);
      }
    }
    if ReadsPlainly(cfg) {
      forall w, k | Cast(cfg, w) && 0 <= k < |w|
        ensures !Shadowed(cfg, k, w[k])
      {
        PlainCast(cfg, w, k);
      }
    }
  }

  lemma PlainCast(cfg: Config, w: seq<Event>, k: nat)
    requires ValidConfig(cfg) && LinkFree(cfg) && ReadsPlainly(cfg) && Cast(cfg, w) && k < |w|
    ensures !Shadowed(cfg, k, w[k])
  {
    hide Completes, ProcessEvent, After, LegalRun, SortsByTime, Condition, Stream, Shadowed;
    var n, meta := cfg.slots, Meta(map[], {});
    var order: MapOrder := (site, keys) => [];
    CastFires(cfg, meta, w, order);
    PlayIsLegal(cfg, meta, w[..n - 1], order);
    assert w[..n - 1] + [w[n - 1]] == w;
  }

  // ---- conditions that do not look at the clock ----

  /** No event meets the conditions of two slots. */
  ghost predicate Disjoint(cfg: Config) {
    forall j: nat, k: nat, e :: j < k < cfg.slots && Condition(cfg, j, e) ==> !Condition(cfg, k, e)
  }

  ghost predicate TimeBlind(cfg: Config) {
    forall k: nat, e: Event, t: Timestamp :: Condition(cfg, k, e) ==> Condition(cfg, k, e.(timestamp := t))
  }

  ghost predicate Met(cfg: Config, k: nat) {
    exists e :: Condition(cfg, k, e)
  }

  /** Every slot has events that meet its condition. */
  ghost predicate Satisfiable(cfg: Config) {
    forall k :: 0 <= k < cfg.slots ==> Met(cfg, k)
  }

  lemma DisjointSuffices(cfg: Config)
    requires Disjoint(cfg)
    ensures NoShadow(cfg)
  {
    hide Condition;
    forall w, k | Cast(cfg, w) && 0 <= k < |w|
      ensures !Shadowed(cfg, k, w[k])
    {
      assert Condition(cfg, k, w[k]);
    }
  }

  /** In particular rules with pairwise disjoint conditions are read plainly, whatever their conditions look at. */
  lemma FiresExactlyWhenDisjoint(cfg: Config, meta: Meta, steps: seq<Step>, e: Event, order: MapOrder)
    requires ValidConfig(cfg) && LinkFree(cfg) && LegalRun(cfg, meta, steps) && VisitsKeys(order) && Disjoint(cfg)
    requires (forall i :: 0 <= i < |steps| ==> !steps[i].Terminate?) && Increasing(Stream(steps) + [e])
    ensures ProcessEvent(cfg, After(cfg, meta, steps), e, order).fired
            <==> Completes(PlainConditions(cfg), cfg.slots, Stream(steps), e)
  {
    hide Completes, ProcessEvent, After, LegalRun, SortsByTime, VisitsKeys, Condition, Stream;
    DisjointSuffices(cfg);
    FiresExactly(cfg, meta, steps, e, order);
    ReadingsAgree(cfg, Stream(steps), e);
  }

  /** A cast with `e` in slot `k`. */
  lemma {:induction false} CastWith(cfg: Config, n: nat, k: nat, e: Event) returns (w: seq<Event>)
    requires TimeBlind(cfg) && Satisfiable(cfg) && n <= cfg.slots && Condition(cfg, k, e)
    ensures |w| == n && (forall i :: 0 <= i < n ==> Condition(cfg, i, w[i]) && w[i].timestamp == i + 1)
    ensures k < n ==> exists t: Timestamp :: w[k] == e.(timestamp := t)
  {
    hide Condition;
    if n == 0 {
      w := [];
    } else {
      w := CastWith(cfg, n - 1, k, e);
      var t: Timestamp := n;
      if k == n - 1 {
        w := w + [e.(timestamp := t)];
      } else {
        assert Met(cfg, n - 1);
        var x :| Condition(cfg, n - 1, x);
        w := w + [x.(timestamp := t)];
      }
    }
  }

  lemma ShadowFound(cfg: Config, j: nat, k: nat, e: Event)
    requires TimeBlind(cfg) && Satisfiable(cfg)
    requires j < k < cfg.slots && Condition(cfg, j, e) && Condition(cfg, k, e)
    ensures !NoShadow(cfg)
  {
    hide Condition;
    var w := CastWith(cfg, cfg.slots, k, e);
    assert Cast(cfg, w);
    var t: Timestamp :| w[k] == e.(timestamp := t);
    assert Condition(cfg, j, w[k]);
    assert Shadowed(cfg, k, w[k]);
  }

  /**
   Where conditions ignore the clock, a rule all of whose slots can be met is read plainly exactly when they are
   disjoint.
   */
  lemma DisjointExactly(cfg: Config)
    requires ValidConfig(cfg) && LinkFree(cfg) && TimeBlind(cfg) && Satisfiable(cfg)
    ensures ReadsPlainly(cfg) <==> Disjoint(cfg)
  {
    hide ReadsPlainly, SortsByTime, Condition;
    ReadsPlainlyExactly(cfg);
    if Disjoint(cfg) {
      DisjointSuffices(cfg);
    }
    if NoShadow(cfg) {
      forall j: nat, k: nat, e | j < k < cfg.slots && Condition(cfg, j, e)
        ensures !Condition(cfg, k, e)
      {
        if Condition(cfg, k, e) {
          ShadowFound(cfg, j, k, e);
        }
      }
    }
  }

  /** When both slots of a rule accept two events the plain reading fires on the second; the automaton does not. */
  lemma OverlapStarvesLaterSlots(cfg: Config, meta: Meta, a: Event, b: Event, order: MapOrder)
    requires ValidConfig(cfg) && LinkFree(cfg) && cfg.slots == 2 && VisitsKeys(order)
    requires Condition(cfg, 0, a) && Condition(cfg, 0, b) && Condition(cfg, 1, b)
    requires a.timestamp < b.timestamp
    ensures Completes(PlainConditions(cfg), 2, [a], b)
    ensures !ProcessEvent(cfg, After(cfg, meta, [Process(a, order)]), b, order).fired
  {
    hide Completes, ProcessEvent, After, SortsByTime, VisitsKeys, Condition;
    var w := [a, b];
    CastFires(cfg, meta, w, order);
    assert w[..1] == [a] && Play([a], order) == [Process(a, order)];
    assert Shadowed(cfg, 1, w[1]);
  }
}
