/** Whole runs of the automaton: any interleaving of events, deadlines, expiries, collections and foreign rules. */
module SequenceRuns {
  import opened SequenceModel
  import opened SequenceInvariants
  import opened SequenceOrdered
  import opened SequenceReports

  /**
   One atomic step. `Foreign` stands for the other rules, which share the events and may add links to them
   and mark or unmark them as out of order.
   */
  datatype Step =
    | Process(e: Event, order: MapOrder)
    | Timer(slot: nat)
    | Terminate(t: Event)
    | Sweep(now: int)
    | Foreign(meta: Meta)

  ghost predicate LinksGrow(old': Meta, new': Meta) {
    forall e :: e in old'.links ==> e in new'.links && old'.links[e] <= new'.links[e]
  }

  /** Timers exist only under a max span, and never for the initial state. */
  ghost predicate Legal(cfg: Config, s: State, step: Step) {
    match step
    case Process(_, order) => VisitsKeys(order)
    case Timer(k) => k > 0 && cfg.maxSpan != 0
    case Foreign(meta) => LinksGrow(s.meta, meta)
    case _ => true
  }

  function Apply(cfg: Config, s: State, step: Step): State {
    match step
    case Process(e, order) => ProcessEvent(cfg, s, e, order).state
    case Timer(k) => Cancel(cfg, s, k)
    case Terminate(t) => Expire(cfg, s, t)
    case Sweep(now) => Gc(cfg, s, now)
    case Foreign(meta) => s.(meta := meta)
  }

  function After(cfg: Config, meta: Meta, steps: seq<Step>): State {
    if steps == [] then Initial(meta)
    else Apply(cfg, After(cfg, meta, steps[..|steps| - 1]), steps[|steps| - 1])
  }

  ghost predicate LegalRun(cfg: Config, meta: Meta, steps: seq<Step>) {
    steps != [] ==>
      && LegalRun(cfg, meta, steps[..|steps| - 1])
      && Legal(cfg, After(cfg, meta, steps[..|steps| - 1]), steps[|steps| - 1])
  }

  /** Nothing but events. */
  function Play(es: seq<Event>, order: MapOrder): seq<Step> {
    seq(|es|, i requires 0 <= i < |es| => Process(es[i], order))
  }

  lemma PlayPrefix(es: seq<Event>, order: MapOrder)
    requires es != []
    ensures Play(es, order)[..|es| - 1] == Play(es[..|es| - 1], order)
  {
  }

  lemma PlayNext(cfg: Config, meta: Meta, es: seq<Event>, e: Event, order: MapOrder)
    ensures After(cfg, meta, Play(es + [e], order))
            == ProcessEvent(cfg, After(cfg, meta, Play(es, order)), e, order).state
  {
    hide ProcessEvent;
    PlayPrefix(es + [e], order);
    assert (es + [e])[..|es|] == es;
  }

  lemma ApplyKeeps(cfg: Config, s: State, step: Step)
    requires ValidConfig(cfg) && Inv(cfg, s) && Legal(cfg, s, step)
    ensures Inv(cfg, Apply(cfg, s, step))
  {
    match step
    case Process(e, order) => ProcessEventKeeps(cfg, s, e, order);
    case Timer(k) => CancelKeeps(cfg, s, k);
    case Terminate(t) => ExpireKeeps(cfg, s, t);
    case Sweep(now) => GcKeeps(cfg, s, now);
    case Foreign(_) =>
  }

  /** In every run, ordered or not, the machine and its bookkeeping agree after every step. */
  lemma {:induction false} InvAlways(cfg: Config, meta: Meta, steps: seq<Step>)
    requires ValidConfig(cfg) && LegalRun(cfg, meta, steps)
    ensures Inv(cfg, After(cfg, meta, steps))
  {
    if steps != [] {
      InvAlways(cfg, meta, steps[..|steps| - 1]);
      ApplyKeeps(cfg, After(cfg, meta, steps[..|steps| - 1]), steps[|steps| - 1]);
    }
  }

  lemma RetainAllNoneNewer(s: State, drop: (nat, Event) -> bool)
    requires NoneNewer(s)
    ensures NoneNewer(s.(partials := RetainAll(s.partials, drop)))
  {
    forall k, e: Event | k in s.partials && e in RetainAll(s.partials, drop)[k]
      ensures e in s.partials[k]
    {
      RetainAllMembers(s.partials, drop, k);
    }
  }

  lemma ExpireOrdered(cfg: Config, s: State, t: Event)
    requires ValidConfig(cfg) && OrderedInv(cfg, s)
    ensures OrderedInv(cfg, Expire(cfg, s, t))
    ensures SlotsFilled(s) ==> SlotsFilled(Expire(cfg, s, t))
  {
    ExpireKeeps(cfg, s, t);
    if t.etype == TerminateProcess {
      if Drained(cfg, s, t) {
        ExpireWholeResets(cfg, s);
      } else {
        RetainAllNoneNewer(s, Expirable(cfg, t));
        if SlotsFilled(s) {
          UndrainedFilled(cfg, s, t);
        }
      }
    }
  }

  lemma UndrainedFilled(cfg: Config, s: State, t: Event)
    requires SlotsOk(cfg, s.partials) && SlotsFilled(s) && !Drained(cfg, s, t) && t.etype == TerminateProcess
    ensures SlotsFilled(Expire(cfg, s, t))
  {
    hide SlotOk, Expirable;
    forall k | k in s.partials
      ensures RetainAll(s.partials, Expirable(cfg, t))[k] != []
    {
      assert Slot(s.partials, k) == s.partials[k];
      var i :| 0 <= i < |s.partials[k]| && !Expirable(cfg, t)(k, s.partials[k][i]);
      RetainAllMembers(s.partials, Expirable(cfg, t), k);
      assert s.partials[k][i] in RetainAll(s.partials, Expirable(cfg, t))[k];
    }
  }

  lemma TimerOrdered(cfg: Config, s: State, k: nat)
    requires ValidConfig(cfg) && OrderedInv(cfg, s) && k > 0 && cfg.maxSpan != 0
    ensures OrderedInv(cfg, Cancel(cfg, s, k)) && (SlotsFilled(s) ==> SlotsFilled(Cancel(cfg, s, k)))
  {
    CancelKeeps(cfg, s, k);
    if s.fsm != At(k) {
      CancelElsewhere(cfg, s, k);
    }
    hide SlotsOk, SortsByTime, Cancel;
  }

  lemma CancelElsewhere(cfg: Config, s: State, k: nat)
    requires s.fsm != At(k)
    ensures Cancel(cfg, s, k) == s
  {
  }

  lemma SweepOrdered(cfg: Config, s: State, now: int)
    requires ValidConfig(cfg) && OrderedInv(cfg, s)
    ensures OrderedInv(cfg, Gc(cfg, s, now))
  {
    GcKeeps(cfg, s, now);
    hide FsmInv, SlotsOk, SortsByTime;
    RetainAllNoneNewer(s, Stale(cfg, now));
  }

  lemma ForeignOrdered(cfg: Config, s: State, meta: Meta)
    requires OrderedInv(cfg, s)
    ensures OrderedInv(cfg, s.(meta := meta)) && (SlotsFilled(s) ==> SlotsFilled(s.(meta := meta)))
  {
    hide SlotsOk, Below;
  }

  lemma ApplyOrdered(cfg: Config, s: State, step: Step)
    requires ValidConfig(cfg) && OrderedInv(cfg, s) && Legal(cfg, s, step)
    ensures OrderedInv(cfg, Apply(cfg, s, step))
    ensures SlotsFilled(s) && !step.Sweep? ==> SlotsFilled(Apply(cfg, s, step))
  {
    hide ValidConfig, OrderedInv, SlotsFilled, ProcessEvent, Cancel, Expire, Gc, VisitsKeys, LinksGrow;
    match step
    case Process(e, order) => ProcessEventOrdered(cfg, s, e, order);
    case Timer(k) => TimerOrdered(cfg, s, k);
    case Terminate(t) => ExpireOrdered(cfg, s, t);
    case Sweep(now) => SweepOrdered(cfg, s, now);
    case Foreign(meta) => ForeignOrdered(cfg, s, meta);
  }

  /**
   In every ordered run the filled slots are those below the machine's state; as long as nothing was
   garbage collected none of them is empty, even where a slot dropped events at its cap.
   */
  lemma {:induction false} OrderedAlways(cfg: Config, meta: Meta, steps: seq<Step>)
    requires ValidConfig(cfg) && LegalRun(cfg, meta, steps) && !cfg.unordered
    ensures OrderedInv(cfg, After(cfg, meta, steps))
    ensures (forall i :: 0 <= i < |steps| ==> !steps[i].Sweep?) ==> SlotsFilled(After(cfg, meta, steps))
  {
    if steps != [] {
      OrderedAlways(cfg, meta, steps[..|steps| - 1]);
      ApplyOrdered(cfg, After(cfg, meta, steps[..|steps| - 1]), steps[|steps| - 1]);
    }
  }

  // ---- the events behind a firing ----

  /** An event accepted in a slot. */
  datatype Entry = Entry(slot: nat, event: Event)

  function Entries(slots: seq<nat>, e: Event): seq<Entry> {
    seq(|slots|, i requires 0 <= i < |slots| => Entry(slots[i], e))
  }

  /** The step clears the automaton. */
  predicate Clears(cfg: Config, s: State, step: Step) {
    match step
    case Process(e, order) => ProcessEvent(cfg, s, e, order).fired
    case Timer(k) => s.fsm == At(k)
    case Terminate(t) => t.etype == TerminateProcess && Drained(cfg, s, t)
    case _ => false
  }

  function Accepted(cfg: Config, s: State, step: Step): seq<Entry> {
    if step.Process? then Entries(ProcessEvent(cfg, s, step.e, step.order).accepted, step.e) else []
  }

  /** What was accepted since the automaton was last clear, in order. */
  function Log(cfg: Config, meta: Meta, steps: seq<Step>): seq<Entry> {
    if steps == [] then []
    else
      var init, last := steps[..|steps| - 1], steps[|steps| - 1];
      var s := After(cfg, meta, init);
      if Clears(cfg, s, last) then [] else Log(cfg, meta, init) + Accepted(cfg, s, last)
  }

  predicate Condition(cfg: Config, k: nat, e: Event) {
    cfg.evaluable(k, e) && cfg.eval(k, e)
  }

  /** Every entry met the condition of its slot, and timestamps strictly increase. */
  ghost predicate Chronicle(cfg: Config, log: seq<Entry>) {
    && (forall i :: 0 <= i < |log| ==> log[i].slot < cfg.slots && Condition(cfg, log[i].slot, log[i].event))
    && (forall i, j :: 0 <= i < j < |log| ==> log[i].event.timestamp < log[j].event.timestamp)
  }

  /** `picks` climbs through the log from slot 0 upwards, one slot at a time. */
  ghost predicate Climbs(log: seq<Entry>, picks: seq<nat>) {
    && (forall i, j :: 0 <= i < j < |picks| ==> picks[i] < picks[j])
    && (forall i :: 0 <= i < |picks| ==> picks[i] < |log| && log[picks[i]].slot == i)
  }

  ghost predicate LogInv(cfg: Config, s: State, log: seq<Entry>) {
    && Chronicle(cfg, log)
    && (log == [] ==> s.lastMatch == 0)
    && (log != [] ==> log[|log| - 1].event.timestamp == s.lastMatch)
    && s.fsm.At? && exists picks :: |picks| == s.fsm.slot && Climbs(log, picks)
  }

  lemma ClimbExtends(log: seq<Entry>, entry: Entry, picks: seq<nat>)
    requires Climbs(log, picks)
    ensures Climbs(log + [entry], picks)
    ensures entry.slot == |picks| ==> Climbs(log + [entry], picks + [|log|])
  {
  }

  lemma ChronicleExtends(cfg: Config, log: seq<Entry>, k: nat, e: Event)
    requires Chronicle(cfg, log) && k < cfg.slots && Condition(cfg, k, e)
    requires log != [] ==> log[|log| - 1].event.timestamp < e.timestamp
    ensures Chronicle(cfg, log + [Entry(k, e)])
  {
    assert forall i :: 0 <= i < |log| ==> log[i].event.timestamp <= log[|log| - 1].event.timestamp;
  }

  lemma AcceptedMeets(cfg: Config, s: State, k: nat, e: Event)
    requires !cfg.unordered && Accepts(cfg, s, k, e)
    ensures Condition(cfg, k, e) && InTime(s, e)
  {
  }

  /** What one event adds to the log, and what is behind a firing. */
  lemma ProcessLog(cfg: Config, s: State, log: seq<Entry>, e: Event, order: MapOrder)
    requires ValidConfig(cfg) && OrderedInv(cfg, s) && LogInv(cfg, s, log) && VisitsKeys(order)
    ensures var r := ProcessEvent(cfg, s, e, order);
            var log' := log + Entries(r.accepted, e);
            && |r.accepted| <= 1
            && Chronicle(cfg, log')
            && (!r.fired ==> LogInv(cfg, r.state, log'))
            && (r.fired ==> exists picks :: |picks| == cfg.slots && Climbs(log', picks)
                                            && picks[cfg.slots - 1] == |log'| - 1 && log'[|log'| - 1].event == e)
  {
    hide RunFrom, Accept, SlotsOk, NoneNewer, Below, SortsByTime, CollectMatches, Fire, VisitsKeys, Holds, Chronicle,
      Climbs;
    var r := ProcessEvent(cfg, s, e, order);
    OrderedRun(cfg, s, e, 0, order);
    if r.accepted == [] {
      assert log + Entries(r.accepted, e) == log;
    } else {
      var k := r.accepted[0];
      AcceptMoves(cfg, s, k, e, order);
      assert Entries(r.accepted, e) == [Entry(k, e)];
      AcceptedMeets(cfg, s, k, e);
      ChronicleExtends(cfg, log, k, e);
      var picks :| |picks| == s.fsm.slot && Climbs(log, picks);
      ClimbExtends(log, Entry(k, e), picks);
    }
  }

  lemma StepLog(cfg: Config, s: State, log: seq<Entry>, step: Step)
    requires ValidConfig(cfg) && OrderedInv(cfg, s) && LogInv(cfg, s, log) && Legal(cfg, s, step)
    ensures LogInv(cfg, Apply(cfg, s, step), if Clears(cfg, s, step) then [] else log + Accepted(cfg, s, step))
  {
    hide SlotsOk, NoneNewer, Below, SortsByTime, VisitsKeys, Run;
    if Clears(cfg, s, step) {
      assert Climbs([], []);
      match step
      case Process(_, _) => ApplyOrdered(cfg, s, step);
      case Timer(k) => CancelKeeps(cfg, s, k);
      case Terminate(_) => ExpireWholeResets(cfg, s);
    } else if step.Process? {
      ProcessLog(cfg, s, log, step.e, step.order);
    } else {
      assert log + [] == log;
    }
  }

  lemma {:induction false} LogAlways(cfg: Config, meta: Meta, steps: seq<Step>)
    requires ValidConfig(cfg) && LegalRun(cfg, meta, steps) && !cfg.unordered
    ensures LogInv(cfg, After(cfg, meta, steps), Log(cfg, meta, steps))
  {
    if steps == [] {
      assert Climbs([], []);
    } else {
      var init := steps[..|steps| - 1];
      LogAlways(cfg, meta, init);
      OrderedAlways(cfg, meta, init);
      StepLog(cfg, After(cfg, meta, init), Log(cfg, meta, init), steps[|steps| - 1]);
    }
  }

  lemma FiredAccepts(cfg: Config, s: State, e: Event, order: MapOrder)
    requires OrderedInv(cfg, s) && ProcessEvent(cfg, s, e, order).fired
    ensures ProcessEvent(cfg, s, e, order).accepted == [cfg.slots - 1]
  {
    hide RunFrom, Accept, CollectMatches, Fire, Accepts, Matched, SlotsOk, NoneNewer, Below;
    OrderedRun(cfg, s, e, 0, order);
    AcceptMoves(cfg, s, Run(cfg, s, e, order).accepted[0], e, order);
  }

  /**
   Each witness was accepted in its own slot, one after the other, met its condition, and is newer than the one before.
   */
  ghost predicate WitnessedBy(cfg: Config, log: seq<Entry>, witnesses: seq<Event>) {
    && (exists picks: seq<nat> ::
          && |picks| == |witnesses| == cfg.slots && Climbs(log, picks)
          && forall k :: 0 <= k < |picks| ==> log[picks[k]].event == witnesses[k])
    && (forall k :: 0 <= k < |witnesses| ==> Condition(cfg, k, witnesses[k]))
    && (forall j, k :: 0 <= j < k < |witnesses| ==> witnesses[j].timestamp < witnesses[k].timestamp)
  }

  lemma WitnessesOf(cfg: Config, log: seq<Entry>, picks: seq<nat>) returns (witnesses: seq<Event>)
    requires |picks| == cfg.slots && cfg.slots >= 1 && Climbs(log, picks) && Chronicle(cfg, log)
    ensures WitnessedBy(cfg, log, witnesses) && |witnesses| == cfg.slots
    ensures witnesses[cfg.slots - 1] == log[picks[cfg.slots - 1]].event
  {
    witnesses := seq(|picks|, k requires 0 <= k < |picks| => log[picks[k]].event);
    forall j, k | 0 <= j < k < cfg.slots
      ensures witnesses[j].timestamp < witnesses[k].timestamp
    {
      assert picks[j] < picks[k];
    }
  }

  /**
   Whenever an ordered sequence fires, the steps since the last clear accepted an event in each of its slots,
   in slot order and with strictly increasing timestamps, the last of them being the event it fires on.
   */
  lemma FiringHasWitnesses(cfg: Config, meta: Meta, steps: seq<Step>, e: Event, order: MapOrder)
    requires ValidConfig(cfg) && LegalRun(cfg, meta, steps) && !cfg.unordered && VisitsKeys(order)
    requires ProcessEvent(cfg, After(cfg, meta, steps), e, order).fired
    ensures exists witnesses ::
              && WitnessedBy(cfg, Log(cfg, meta, steps) + [Entry(cfg.slots - 1, e)], witnesses)
              && |witnesses| == cfg.slots && witnesses[cfg.slots - 1] == e
  {
    hide WitnessedBy, ProcessEvent, VisitsKeys, LegalRun, OrderedInv, SortsByTime, After, Log, LogInv, Climbs,
      Chronicle;
    var s, log := After(cfg, meta, steps), Log(cfg, meta, steps);
    LogAlways(cfg, meta, steps);
    OrderedAlways(cfg, meta, steps);
    ProcessLog(cfg, s, log, e, order);
    FiredAccepts(cfg, s, e, order);
    var log' := log + [Entry(cfg.slots - 1, e)];
    assert Entries([cfg.slots - 1], e) == [Entry(cfg.slots - 1, e)];
    var picks :| |picks| == cfg.slots && Climbs(log', picks) && picks[cfg.slots - 1] == |log'| - 1;
    var witnesses := WitnessesOf(cfg, log', picks);
    assert witnesses[cfg.slots - 1] == e;
  }

  /**
   In every run: a joined ordered sequence reports one event from every slot exactly when it has two or more slots.
   */
  lemma EveryFiringReports(cfg: Config, meta: Meta, steps: seq<Step>, e: Event, order: MapOrder)
    requires ValidConfig(cfg) && LegalRun(cfg, meta, steps) && !cfg.unordered && HasBy(cfg) && VisitsKeys(order)
    requires ProcessEvent(cfg, After(cfg, meta, steps), e, order).fired
    ensures var s := After(cfg, meta, steps);
            ReportsEverySlot(cfg, s, e, ProcessEvent(cfg, s, e, order).matches) <==> cfg.slots >= 2
  {
    hide *;
    OrderedAlways(cfg, meta, steps);
    FiringReportsEverySlot(cfg, After(cfg, meta, steps), e, order);
  }
}
