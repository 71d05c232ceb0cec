/**
 The sequence-rule automaton as a function of its state: what every lock-protected callback of
 `sequenceState` does to the machine, the partials, the clock and the flags.
 */
module SequenceModel {
  import opened Options
  import opened Links

  /** `maxOutstandingPartials`: a slot refuses events once it holds more than this. */
  const MAX_OUTSTANDING_PARTIALS: nat := 1000

  /** Four hours in nanoseconds: how long a partial may stay when the rule has no max span. */
  const MAX_PARTIAL_LIFETIME: nat := 14_400_000_000_000

  /** Nanoseconds; the zero time is not the timestamp of any event. */
  type Timestamp = t: int | 0 < t witness 1

  datatype EventType = CreateProcess | CreateThread | TerminateProcess | AnyOther

  /** `id` is the identity of the event, `key` its partial key (zero when it has none). */
  datatype Event = Event(
    id: nat, timestamp: Timestamp, key: nat, etype: EventType, pid: nat, paramPid: nat)

  /**
   The join statement: none, one for the sequence, or one per expression. A join on a single address makes the code
   panic at the first match, so there is no such rule here; as a part of a compound key an address is fine.
   */
  datatype By = NoBy | Global(link: Event -> MapKey) | PerSlot(links: (nat, Event) -> MapKey)

  /**
   A compiled sequence rule. `evaluable` and `eval` are the event-type gate and the condition of
   each slot; `sort` is the library sort by timestamp, which may order ties in any way it likes.
   */
  datatype Config = Config(
    slots: nat, unordered: bool, maxSpan: nat, join: By,
    evaluable: (nat, Event) -> bool, eval: (nat, Event) -> bool,
    sort: seq<Event> -> seq<Event>, text: Unicode)

  /** The order in which one `range` over a map visits the given keys. */
  type MapOrder = (nat, set<nat>) -> seq<nat>

  datatype Fsm = At(slot: nat) | Terminal | Deadline | Expired

  datatype Trigger = MatchTrigger | CancelTrigger | ResetTrigger | ExpireTrigger

  /** Metadata lives on the events themselves, which slots and rules share. */
  datatype Meta = Meta(links: map<Event, set<Link>>, ooo: set<Event>)

  datatype State = State(
    fsm: Fsm, states: set<nat>, partials: map<nat, seq<Event>>, matches: map<nat, Event>,
    lastMatch: nat, inDeadline: bool, inExpired: bool, breached: bool,
    timers: set<nat>, meta: Meta, errors: nat)

  // ---- configuration ----

  ghost predicate Sorted(q: seq<Event>) {
    forall i, j :: 0 <= i < j < |q| ==> q[i].timestamp <= q[j].timestamp
  }

  ghost predicate SortsByTime(sort: seq<Event> -> seq<Event>) {
    forall q :: Sorted(sort(q)) && multiset(sort(q)) == multiset(q)
  }

  ghost predicate ValidConfig(cfg: Config) {
    cfg.slots >= 1 && SortsByTime(cfg.sort)
  }

  function Initial(meta: Meta): State {
    State(At(0), {}, map[], map[], 0, false, false, false, {}, meta, 0)
  }

  // ---- the state machine ----

  function Permit(cfg: Config, fsm: Fsm, trigger: Trigger): Option<Fsm> {
    match fsm
    case At(k) =>
      if k >= cfg.slots then None
      else
        (match trigger
         case MatchTrigger => Some(if k + 1 >= cfg.slots then Terminal else At(k + 1))
         case CancelTrigger => Some(Deadline)
         case ExpireTrigger => Some(Expired)
         case ResetTrigger => None)
    case Terminal | Deadline | Expired =>
      if trigger == ResetTrigger then Some(At(0)) else None
  }

  predicate Schedulable(fsm: Fsm) {
    fsm.At? && fsm.slot != 0
  }

  function Clear(s: State): State {
    s.(partials := map[], matches := map[], states := {}, timers := {}, breached := false, lastMatch := 0)
  }

  /** The transition callback; `s` is already in the destination of the transition. */
  function OnTransitioned(cfg: Config, s: State, source: Fsm, trigger: Trigger): State {
    var s1 := if cfg.maxSpan != 0 && Schedulable(s.fsm) then s.(timers := s.timers + {s.fsm.slot}) else s;
    var s2 := if source == At(0) then s1.(inDeadline := false, inExpired := false) else s1;
    var s3 := if trigger == ExpireTrigger || trigger == CancelTrigger then Clear(s2) else s2;
    if trigger == MatchTrigger && source.At?
    then s3.(timers := s3.timers - {source.slot}, states := s3.states + {source.slot})
    else s3
  }

  /** Firing a trigger the current state does not permit leaves the machine alone and counts an error. */
  function Fire(cfg: Config, s: State, trigger: Trigger): State {
    match Permit(cfg, s.fsm, trigger)
    case None => s.(errors := s.errors + 1)
    case Some(destination) => OnTransitioned(cfg, s.(fsm := destination), s.fsm, trigger)
  }

  function MatchTransition(cfg: Config, s: State, k: nat): State {
    if k in s.states then s else Fire(cfg, s, MatchTrigger)
  }

  // ---- partials ----

  function Slot(partials: map<nat, seq<Event>>, k: nat): seq<Event> {
    if k in partials then partials[k] else []
  }

  predicate HasKey(q: seq<Event>, key: nat) {
    exists i :: 0 <= i < |q| && q[i].key == key
  }

  /** A slot refuses an event when it is over its cap or already holds the event's key. */
  predicate Refuses(q: seq<Event>, e: Event) {
    |q| > MAX_OUTSTANDING_PARTIALS || (e.key != 0 && HasKey(q, e.key))
  }

  function Extend(cfg: Config, partials: map<nat, seq<Event>>, k: nat, e: Event): map<nat, seq<Event>> {
    if Refuses(Slot(partials, k), e) then partials else partials[k := cfg.sort(Slot(partials, k) + [e])]
  }

  function AddPartial(cfg: Config, s: State, k: nat, e: Event, isOoo: bool): State {
    s.(partials := Extend(cfg, s.partials, k, e),
       breached := s.breached || |Slot(s.partials, k)| > MAX_OUTSTANDING_PARTIALS,
       meta := if isOoo && !Refuses(Slot(s.partials, k), e) then s.meta.(ooo := s.meta.ooo + {e}) else s.meta)
  }

  /** Keeps the events of slot `k` that `drop` does not hold of, in order. */
  function Retain(q: seq<Event>, drop: (nat, Event) -> bool, k: nat): seq<Event> {
    if q == [] then []
    else if drop(k, q[|q| - 1]) then Retain(q[..|q| - 1], drop, k)
    else Retain(q[..|q| - 1], drop, k) + [q[|q| - 1]]
  }

  function RetainAll(partials: map<nat, seq<Event>>, drop: (nat, Event) -> bool): map<nat, seq<Event>> {
    map k | k in partials :: Retain(partials[k], drop, k)
  }

  function Lifetime(cfg: Config): nat {
    if cfg.maxSpan == 0 then MAX_PARTIAL_LIFETIME else cfg.maxSpan
  }

  function Stale(cfg: Config, now: int): (nat, Event) -> bool {
    (k, e: Event) => now - e.timestamp > Lifetime(cfg)
  }

  function Gc(cfg: Config, s: State, now: int): State {
    s.(partials := RetainAll(s.partials, Stale(cfg, now)))
  }

  // ---- expiry and deadlines ----

  /** May the partial `p` go when the process of `t` terminates? */
  predicate CanExpire(p: Event, t: Event, isFinalSlot: bool) {
    if p.etype == CreateProcess && isFinalSlot then p.paramPid == t.paramPid
    else if p.etype == CreateThread && p.pid != p.paramPid then p.paramPid == t.paramPid
    else p.pid == t.paramPid
  }

  function Expirable(cfg: Config, t: Event): (nat, Event) -> bool {
    (k, e) => CanExpire(e, t, k + 1 == cfg.slots)
  }

  predicate AllExpire(cfg: Config, q: seq<Event>, t: Event, k: nat) {
    forall i :: 0 <= i < |q| ==> Expirable(cfg, t)(k, q[i])
  }

  /** Some slot holds partials and every one of them may go. */
  predicate Drained(cfg: Config, s: State, t: Event) {
    exists k :: 0 <= k < cfg.slots && Slot(s.partials, k) != [] && AllExpire(cfg, Slot(s.partials, k), t, k)
  }

  function ExpireWhole(cfg: Config, s: State): State {
    var s1 := Fire(cfg, s.(inExpired := true), ExpireTrigger);
    var s2 := if Permit(cfg, s.fsm, ExpireTrigger).None? then s1.(inExpired := false) else s1;
    Fire(cfg, s2, ResetTrigger)
  }

  function Expire(cfg: Config, s: State, t: Event): State {
    if t.etype != TerminateProcess then s
    else if Drained(cfg, s, t) then ExpireWhole(cfg, s)
    else s.(partials := RetainAll(s.partials, Expirable(cfg, t)))
  }

  /** The max-span timer of state `k` goes off. */
  function Cancel(cfg: Config, s: State, k: nat): State {
    if s.fsm != At(k) then s
    else
      var s1 := Fire(cfg, s.(inDeadline := true), CancelTrigger);
      var s2 := if Permit(cfg, s.fsm, CancelTrigger).None? then s1.(inDeadline := false) else s1;
      Fire(cfg, s2, ResetTrigger)
  }

  // ---- evaluating a slot ----

  predicate HasBy(cfg: Config) {
    !cfg.join.NoBy?
  }

  function LinkOf(cfg: Config, k: nat, e: Event): Link {
    match cfg.join
    case NoBy => Nil
    case Global(f) => f(e)
    case PerSlot(f) => f(k, e)
  }

  function LinksOf(meta: Meta, e: Event): set<Link> {
    if e in meta.links then meta.links[e] else {}
  }

  function AddLink(meta: Meta, e: Event, l: Link): Meta {
    meta.(links := meta.links[e := LinksOf(meta, e) + {l}])
  }

  /** Some partial in the slot carries a link equal to `l`. */
  predicate SlotJoins(cfg: Config, meta: Meta, q: seq<Event>, l: Link) {
    exists i :: 0 <= i < |q| && LinksTo(cfg.text, l, LinksOf(meta, q[i]))
  }

  /** Every slot upstream of `k` holds a partial linked to `e`. */
  predicate Joined(cfg: Config, s: State, k: nat, e: Event) {
    forall j :: 0 <= j < k ==> SlotJoins(cfg, s.meta, Slot(s.partials, j), LinkOf(cfg, k, e))
  }

  predicate Holds(cfg: Config, s: State, k: nat, e: Event) {
    (HasBy(cfg) ==> Joined(cfg, s, k, e)) && cfg.eval(k, e)
  }

  /** Evaluating a slot leaves its link on the event when the slot holds. */
  function Evaluated(cfg: Config, s: State, k: nat, e: Event): State {
    if Holds(cfg, s, k, e) && HasBy(cfg) then s.(meta := AddLink(s.meta, e, LinkOf(cfg, k, e))) else s
  }

  predicate Next(s: State, k: nat) {
    k == 0 || ((forall j :: 0 <= j < k ==> j in s.states) && !s.inDeadline && !s.inExpired)
  }

  // ---- running the sequence ----

  /** The event may extend the sequence: it is newer than the last accepted one. */
  predicate InTime(s: State, e: Event) {
    s.lastMatch == 0 || s.lastMatch < e.timestamp
  }

  predicate Matched(cfg: Config, s: State, k: nat, e: Event) {
    Next(s, k) && cfg.evaluable(k, e) && Holds(cfg, s, k, e)
  }

  predicate Accepts(cfg: Config, s: State, k: nat, e: Event) {
    Matched(cfg, s, k, e) && (cfg.unordered || InTime(s, e))
  }

  /** One out-of-order partial of slot `k` is evaluated again. */
  function RetryEvent(cfg: Config, s: State, k: nat, e: Event): State {
    if e !in s.meta.ooo || !Holds(cfg, s, k, e) then s
    else
      var s1 := MatchTransition(cfg, Evaluated(cfg, s, k, e), k);
      s1.(meta := s1.meta.(ooo := s1.meta.ooo - {e}))
  }

  function RetrySlot(cfg: Config, s: State, k: nat, q: seq<Event>): State {
    if q == [] then s else RetryEvent(cfg, RetrySlot(cfg, s, k, q[..|q| - 1]), k, q[|q| - 1])
  }

  function Retry(cfg: Config, s: State, order: seq<nat>): State {
    if order == [] then s
    else
      var s1 := Retry(cfg, s, order[..|order| - 1]);
      RetrySlot(cfg, s1, order[|order| - 1], Slot(s.partials, order[|order| - 1]))
  }

  /** The event has been evaluated; it goes into the slot and moves the machine. */
  function AcceptEvaluated(cfg: Config, s: State, k: nat, e: Event, order: MapOrder): State {
    var s1 := AddPartial(cfg, s, k, e, false);
    var s2 := MatchTransition(cfg, s1, k);
    if !cfg.unordered then s2.(lastMatch := e.timestamp)
    else if s2.fsm == Terminal then s2
    else Retry(cfg, s2, order(k, s2.partials.Keys))
  }

  function Accept(cfg: Config, s: State, k: nat, e: Event, order: MapOrder): State {
    AcceptEvaluated(cfg, Evaluated(cfg, s, k, e), k, e, order)
  }

  /** What slot `k` does with an event it does not accept. */
  function Decline(cfg: Config, s: State, k: nat, e: Event): State {
    if Next(s, k) then (if cfg.evaluable(k, e) then Evaluated(cfg, s, k, e) else s)
    else if cfg.unordered && cfg.evaluable(k, e) && cfg.eval(k, e) then AddPartial(cfg, s, k, e, true)
    else s
  }

  datatype Outcome = Outcome(state: State, accepted: seq<nat>, fired: bool)

  function RunFrom(cfg: Config, s: State, e: Event, k: nat, order: MapOrder): Outcome
    decreases cfg.slots - k
  {
    if k >= cfg.slots then Outcome(s, [], false)
    else if !Accepts(cfg, s, k, e) then RunFrom(cfg, Decline(cfg, s, k, e), e, k + 1, order)
    else
      var s1 := Accept(cfg, s, k, e, order);
      if s1.fsm == Terminal then Outcome(CollectMatches(cfg, Fire(cfg, s1, ResetTrigger)), [k], true)
      else
        var rest := RunFrom(cfg, s1, e, k + 1, order);
        rest.(accepted := [k] + rest.accepted)
  }

  function Run(cfg: Config, s: State, e: Event, order: MapOrder): Outcome {
    RunFrom(cfg, s, e, 0, order)
  }

  // ---- collecting the events of a match ----

  predicate Pairs(cfg: Config, meta: Meta, outer: Event, inner: Event) {
    || LinksJoin(cfg.text, LinksOf(meta, outer), LinksOf(meta, inner))
    || (cfg.join.NoBy? && outer !in meta.links && inner !in meta.links)
  }

  /** The first event of `q` that pairs with `outer`. */
  function FirstInner(cfg: Config, meta: Meta, outer: Event, q: seq<Event>): Option<Event> {
    if q == [] then None
    else
      match FirstInner(cfg, meta, outer, q[..|q| - 1])
      case Some(e) => Some(e)
      case None => if Pairs(cfg, meta, outer, q[|q| - 1]) then Some(q[|q| - 1]) else None
  }

  function FirstPair(cfg: Config, meta: Meta, q: seq<Event>, r: seq<Event>): Option<(Event, Event)> {
    if q == [] then None
    else
      match FirstPair(cfg, meta, q[..|q| - 1], r)
      case Some(p) => Some(p)
      case None =>
        match FirstInner(cfg, meta, q[|q| - 1], r)
        case None => None
        case Some(e) => Some((q[|q| - 1], e))
  }

  function SetMatch(matches: map<nat, Event>, k: nat, e: Event): map<nat, Event> {
    if k in matches then matches else matches[k := e]
  }

  function CollectTo(cfg: Config, s: State, k: nat): map<nat, Event> {
    if k == 0 then s.matches
    else
      var m := CollectTo(cfg, s, k - 1);
      match FirstPair(cfg, s.meta, Slot(s.partials, k - 1), Slot(s.partials, k))
      case None => m
      case Some(p) => SetMatch(SetMatch(m, k - 1, p.0), k, p.1)
  }

  function CollectMatches(cfg: Config, s: State): State {
    s.(matches := CollectTo(cfg, s, |s.partials|))
  }

  function Values(m: map<nat, Event>, order: seq<nat>): seq<Event> {
    if order == [] then []
    else
      var rest := Values(m, order[..|order| - 1]);
      var k := order[|order| - 1];
      if k in m then rest + [m[k]] else rest
  }

  /** The events of a match, by timestamp; `order` is the order in which the map is visited. */
  function EventsOf(cfg: Config, matches: map<nat, Event>, order: seq<nat>): seq<Event> {
    cfg.sort(Values(matches, order))
  }

  // ---- the engine ----

  datatype Report = Report(state: State, accepted: seq<nat>, fired: bool, matches: map<nat, Event>)

  /** The engine runs the rule and, when it fires, takes its events and clears it. */
  function ProcessEvent(cfg: Config, s: State, e: Event, order: MapOrder): Report {
    var o := Run(cfg, s, e, order);
    if o.fired then Report(Clear(o.state), o.accepted, true, o.state.matches)
    else Report(o.state, o.accepted, false, map[])
  }
}
