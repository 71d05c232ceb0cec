/** Correlation of events with the stack walks that follow them: what every step does and what every run keeps. */
module StackwalkModel {
  import opened Options

  datatype Type =
    | CreateProcess | CreateThread | TerminateThread | LoadImage
    | RegCreateKey | RegDeleteKey | RegSetValue | RegDeleteValue
    | DeleteFile | RenameFile | VirtualAlloc
    | SubmitThreadpoolWork | SubmitThreadpoolCallback | SetThreadpoolTimer
    | StackWalk | Other(name: string)

  /** `paramPid`, `paramTid`, `ppid` and `realPpid` are parameters; `callstack` is what a stack walk carries. */
  datatype Event = Event(
    seqNo: nat, typ: Type, pid: nat, tid: nat, timestamp: int,
    paramPid: nat, paramTid: nat, ppid: nat, realPpid: nat, callstack: seq<nat>)

  /** An event as a listener sees it. */
  datatype Seen = Seen(event: Event, callstack: Option<seq<nat>>)

  datatype Verdict = Keep(enqueue: bool) | Error

  /** A listener is stateful: its answer may depend on everything handed out before. */
  datatype Listener = Listener(process: (seq<Seen>, Seen) -> Verdict, canEnqueue: bool)

  datatype Config = Config(listeners: seq<Listener>, stackEnrichment: bool, enqueueAlways: bool)

  /** `handed` lists what went to the listeners and `dropped` what was discarded with a bucket. */
  datatype State = State(
    buckets: map<nat, seq<Event>>, handed: seq<Seen>, channel: seq<Seen>, dropped: seq<Event>)

  const INITIAL := State(map[], [], [], [])

  const UINT32: nat := 0x1_0000_0000

  /** In nanoseconds. */
  const MAX_QUEUE_TTL: nat := 10_000_000_000

  predicate CanEnrichStack(t: Type) {
    !t.StackWalk? && !t.Other?
  }

  /** Sums of 32-bit numbers wrap around. */
  function StackId(e: Event): nat {
    (if e.typ == CreateProcess then e.ppid + e.tid else e.pid + e.tid) % UINT32
  }

  /** The process was created on behalf of another one; such events are outside this model. */
  predicate Surrogate(e: Event) {
    e.typ == CreateProcess && e.ppid != e.realPpid
  }

  function Bucket(s: State, id: nat): seq<Event> {
    if id in s.buckets then s.buckets[id] else []
  }

  // ---- handing an event out ----

  /** Some listener fails. */
  predicate Fails(c: Config, s: State, x: Seen) {
    exists i :: 0 <= i < |c.listeners| && c.listeners[i].process(s.handed, x).Error?
  }

  predicate Wanted(c: Config, s: State, x: Seen) {
    || c.enqueueAlways || c.listeners == []
    || exists i :: 0 <= i < |c.listeners| && c.listeners[i].canEnqueue
                   && c.listeners[i].process(s.handed, x) == Keep(true)
  }

  function RemoveBucket(s: State, id: nat): State {
    s.(buckets := s.buckets - {id}, dropped := s.dropped + Bucket(s, id))
  }

  /** The end of a thread discards what waits for it. */
  predicate Discards(c: Config, x: Seen) {
    c.stackEnrichment && x.event.typ == TerminateThread
  }

  function ThreadId(e: Event): nat {
    (e.paramPid + e.paramTid) % UINT32
  }

  function Hand(c: Config, s: State, x: Seen): State {
    var t := s.(handed := s.handed + [x]);
    if Fails(c, s, x) then t
    else
      var u := if Discards(c, x) then RemoveBucket(t, ThreadId(x.event)) else t;
      if Wanted(c, s, x) then u.(channel := u.channel + [x]) else u
  }

  // ---- steps ----

  function Enqueue(s: State, e: Event): State {
    s.(buckets := s.buckets[StackId(e) := Bucket(s, StackId(e)) + [e]])
  }

  /** The oldest event of the bucket leaves it. */
  function Unqueue(s: State, id: nat): State
    requires Bucket(s, id) != []
  {
    s.(buckets := s.buckets[id := Bucket(s, id)[1..]])
  }

  function Give(c: Config, s: State, e: Event): State {
    if c.stackEnrichment && CanEnrichStack(e.typ) then Enqueue(s, e)
    else if e.typ == StackWalk then
      if c.stackEnrichment && Bucket(s, StackId(e)) != [] then
        Hand(c, Unqueue(s, StackId(e)), Seen(Bucket(s, StackId(e))[0], Some(e.callstack)))
      else s
    else Hand(c, s, Seen(e, None))
  }

  predicate Young(e: Event, now: int) {
    now - e.timestamp < MAX_QUEUE_TTL
  }

  function Younger(q: seq<Event>, now: int): seq<Event> {
    if q == [] then []
    else Younger(q[..|q| - 1], now) + if Young(q[|q| - 1], now) then [q[|q| - 1]] else []
  }

  /** Hands out the expired events of a bucket. */
  function HandOld(c: Config, s: State, q: seq<Event>, now: int): State {
    if q == [] then s
    else
      var t := HandOld(c, s, q[..|q| - 1], now);
      if Young(q[|q| - 1], now) then t else Hand(c, t, Seen(q[|q| - 1], None))
  }

  function SetBucket(s: State, id: nat, q: seq<Event>): State {
    s.(buckets := if q == [] then s.buckets - {id} else s.buckets[id := q])
  }

  function FlushBucket(c: Config, s: State, id: nat, now: int): State {
    var q := Bucket(s, id);
    SetBucket(HandOld(c, s, q, now), id, Younger(q, now))
  }

  /** Buckets are visited in the order of the map iteration. */
  function Flush(c: Config, s: State, ids: seq<nat>, now: int): State {
    if ids == [] then s
    else FlushBucket(c, Flush(c, s, ids[..|ids| - 1], now), ids[|ids| - 1], now)
  }

  // ---- flushes that hang ----

  /** A flush holds the decorator's lock, which discarding a bucket takes again: handing out `x` never returns. */
  predicate Hangs(c: Config, s: State, x: Seen) {
    Discards(c, x) && !Fails(c, s, x)
  }

  /** Handing out the expired events of a bucket gets to one that hangs. */
  predicate HandHangs(c: Config, s: State, q: seq<Event>, now: int) {
    q != [] &&
    var n := |q| - 1;
    || HandHangs(c, s, q[..n], now)
    || (!Young(q[n], now) && Hangs(c, HandOld(c, s, q[..n], now), Seen(q[n], None)))
  }

  predicate FlushHangs(c: Config, s: State, ids: seq<nat>, now: int) {
    ids != [] &&
    var n := |ids| - 1;
    var t := Flush(c, s, ids[..n], now);
    FlushHangs(c, s, ids[..n], now) || HandHangs(c, t, Bucket(t, ids[n]), now)
  }

  /** No pending end of a thread has expired. */
  predicate NoThreadEnd(s: State, now: int) {
    forall id :: id in s.buckets ==> forall e :: e in s.buckets[id] && e.typ == TerminateThread ==> Young(e, now)
  }

  // ---- runs ----

  datatype Step = Arrive(e: Event) | Tick(ids: seq<nat>, now: int)

  /** The ids are those of the buckets, in some order. */
  ghost predicate Enumerates(s: State, ids: seq<nat>) {
    Distinct(ids) && forall id :: id in ids <==> id in s.buckets
  }

  ghost predicate Distinct(ids: seq<nat>) {
    forall i, j :: 0 <= i < j < |ids| ==> ids[i] != ids[j]
  }

  /** A run contains the flushes that return. */
  ghost predicate Legal(c: Config, s: State, step: Step) {
    match step
    case Arrive(e) => !Surrogate(e)
    case Tick(ids, now) => Enumerates(s, ids) && !FlushHangs(c, s, ids, now)
  }

  function Apply(c: Config, s: State, step: Step): State {
    match step
    case Arrive(e) => Give(c, s, e)
    case Tick(ids, now) => Flush(c, s, ids, now)
  }

  function After(c: Config, steps: seq<Step>): State {
    if steps == [] then INITIAL else Apply(c, After(c, steps[..|steps| - 1]), steps[|steps| - 1])
  }

  ghost predicate LegalRun(c: Config, steps: seq<Step>) {
    steps != [] ==>
      LegalRun(c, steps[..|steps| - 1]) && Legal(c, After(c, steps[..|steps| - 1]), steps[|steps| - 1])
  }

  /** What was given, apart from the stack walks, which are consumed. */
  function Given(steps: seq<Step>): seq<Event> {
    if steps == [] then []
    else
      var last := steps[|steps| - 1];
      Given(steps[..|steps| - 1]) + if last.Arrive? && last.e.typ != StackWalk then [last.e] else []
  }
}
