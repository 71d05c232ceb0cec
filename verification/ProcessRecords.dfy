/** What the two providers of process events make of a record, whichever comes first. */
module ProcessRecords {
  import opened Options
  import opened Bytes

  datatype Token = Token(integrityLevel: ByteString, elevationType: ByteString, isElevated: bool)

  const NO_TOKEN := Token([], [], false)

  /**
   A process event. The internal provider reports `token`; for the system logger `queried` is what asking the
   system about the token gives, empty when that fails or does not happen.
   */
  datatype ProcessEvent = ProcessEvent(
    internal: bool, pid: nat, ppid: nat, name: ByteString, exe: ByteString, token: Token, queried: Token)

  datatype Record = Record(ppid: nat, name: ByteString, exe: ByteString, token: Token, fromSystemLogger: bool)

  /** Case-insensitive comparison and the last element of a path. */
  datatype Names = Names(equalFold: (ByteString, ByteString) -> bool, base: ByteString -> ByteString)

  /** The full executable path is preferred to a shorter one of the same program. */
  function Prefer(n: Names, name: ByteString, own: ByteString, other: ByteString): ByteString {
    if n.equalFold(name, n.base(other)) && |other| > |own| then other else own
  }

  /** The record that an event alone describes. */
  function Described(n: Names, e: ProcessEvent, first: bool): Record {
    if e.internal then Record(e.ppid, n.base(e.exe), e.exe, e.token, false)
    else Record(e.ppid, e.name, e.exe, if first then e.queried else NO_TOKEN, true)
  }

  /** The record after a write. */
  function Merge(n: Names, before: Option<Record>, e: ProcessEvent): Record {
    var alone := Described(n, e, before.None?);
    if before.None? then alone
    else
      var r := before.value;
      if e.internal && r.fromSystemLogger then
        r.(token := e.token, exe := Prefer(n, r.name, r.exe, e.exe))
      else if !e.internal && !r.fromSystemLogger then
        alone.(token := r.token, exe := Prefer(n, e.name, e.exe, r.exe))
      else alone
  }

  /** What happens to the records: writes, removals (by event or reaping) and insertions after a lookup. */
  datatype Step = Write(e: ProcessEvent) | Drop(pids: set<nat>) | Insert(pid: nat, record: Record)

  type Records = map<nat, Record>

  function Lookup(rs: Records, pid: nat): Option<Record> {
    if pid in rs then Some(rs[pid]) else None
  }

  function Apply(n: Names, rs: Records, step: Step): Records {
    match step
    case Write(e) => rs[e.pid := Merge(n, Lookup(rs, e.pid), e)]
    case Drop(pids) => rs - pids
    case Insert(pid, r) => rs[pid := r]
  }

  function After(n: Names, steps: seq<Step>): Records {
    if steps == [] then map[] else Apply(n, After(n, steps[..|steps| - 1]), steps[|steps| - 1])
  }

  predicate Touches(step: Step, pid: nat) {
    match step
    case Write(e) => e.pid == pid
    case Drop(pids) => pid in pids
    case Insert(p, _) => p == pid
  }

  /** In the stretch `[lo, hi)` nothing concerns the process. */
  predicate Quiet(steps: seq<Step>, lo: nat, hi: nat, pid: nat) {
    forall k :: lo <= k < hi && k < |steps| ==> !Touches(steps[k], pid)
  }

  /** The record that the two events settle on. */
  function Settled(n: Names, system: ProcessEvent, internal: ProcessEvent): Record {
    Record(system.ppid, system.name, Prefer(n, system.name, system.exe, internal.exe), internal.token, true)
  }

  lemma {:induction false} QuietKeeps(n: Names, steps: seq<Step>, lo: nat, hi: nat, pid: nat)
    requires lo <= hi <= |steps| && Quiet(steps, lo, hi, pid)
    ensures Lookup(After(n, steps[..hi]), pid) == Lookup(After(n, steps[..lo]), pid)
    decreases hi
  {
    if lo < hi {
      QuietKeeps(n, steps, lo, hi - 1, pid);
      assert steps[..hi][..hi - 1] == steps[..hi - 1];
      assert !Touches(steps[hi - 1], pid);
    }
  }

  lemma WriteAt(n: Names, steps: seq<Step>, i: nat)
    requires i < |steps| && steps[i].Write?
    ensures var e := steps[i].e;
            Lookup(After(n, steps[..i + 1]), e.pid) == Some(Merge(n, Lookup(After(n, steps[..i]), e.pid), e))
  {
    assert steps[..i + 1][..i] == steps[..i];
  }

  /**
   With one write of each provider for a process, anywhere in a run and in either order, among any steps for other
   processes, the stored record is the settled one.
   */
  lemma {:induction false} OneOfEachSettles(n: Names, steps: seq<Step>, i: nat, j: nat, pid: nat)
    requires i < j < |steps| && steps[i].Write? && steps[j].Write?
    requires steps[i].e.pid == pid && steps[j].e.pid == pid && steps[i].e.internal != steps[j].e.internal
    requires Quiet(steps, 0, i, pid) && Quiet(steps, i + 1, j, pid) && Quiet(steps, j + 1, |steps|, pid)
    ensures var a, b := steps[i].e, steps[j].e;
            Lookup(After(n, steps), pid) == Some(if a.internal then Settled(n, b, a) else Settled(n, a, b))
  {
    hide Quiet, After;
    NothingFirst(n, steps);
    QuietKeeps(n, steps, 0, i, pid);
    WriteAt(n, steps, i);
    QuietKeeps(n, steps, i + 1, j, pid);
    WriteAt(n, steps, j);
    QuietKeeps(n, steps, j + 1, |steps|, pid);
    assert steps[..|steps|] == steps;
  }

  lemma NothingFirst(n: Names, steps: seq<Step>)
    ensures After(n, steps[..0]) == map[]
  {
  }

  /** Two runs that contain the same two events for a process, in whatever order, agree on its record. */
  lemma ArrivalOrderIrrelevant(n: Names, xs: seq<Step>, i: nat, j: nat, ys: seq<Step>, k: nat, l: nat, pid: nat)
    requires i < j < |xs| && xs[i].Write? && xs[j].Write?
    requires xs[i].e.pid == pid && xs[j].e.pid == pid && xs[i].e.internal != xs[j].e.internal
    requires Quiet(xs, 0, i, pid) && Quiet(xs, i + 1, j, pid) && Quiet(xs, j + 1, |xs|, pid)
    requires k < l < |ys| && Quiet(ys, 0, k, pid) && Quiet(ys, k + 1, l, pid) && Quiet(ys, l + 1, |ys|, pid)
    requires (ys[k] == xs[i] && ys[l] == xs[j]) || (ys[k] == xs[j] && ys[l] == xs[i])
    ensures Lookup(After(n, xs), pid) == Lookup(After(n, ys), pid)
  {
    hide Quiet, After, Settled;
    OneOfEachSettles(n, xs, i, j, pid);
    OneOfEachSettles(n, ys, k, l, pid);
  }

  /** Two writes for a process, one of each provider and in either order, among steps for other processes. */
  ghost predicate WrittenOnceByEach(steps: seq<Step>, i: nat, j: nat, pid: nat) {
    && i < j < |steps| && steps[i].Write? && steps[j].Write?
    && steps[i].e.pid == pid && steps[j].e.pid == pid && steps[i].e.internal != steps[j].e.internal
    && Quiet(steps, 0, i, pid) && Quiet(steps, i + 1, j, pid) && Quiet(steps, j + 1, |steps|, pid)
  }

  /**
   What is stored then: everything as the system logger says, except for the token, which is the internal provider's,
   and the path. When the internal path names the same program and is longer, it is stored; otherwise that of the system
   logger.
   */
  lemma StoredFields(n: Names, steps: seq<Step>, i: nat, j: nat, pid: nat)
    requires WrittenOnceByEach(steps, i, j, pid)
    ensures var a, b := steps[i].e, steps[j].e;
            var system, internal := if a.internal then b else a, if a.internal then a else b;
            && Lookup(After(n, steps), pid).Some?
            && var r := Lookup(After(n, steps), pid).value;
            && r.ppid == system.ppid && r.name == system.name && r.token == internal.token && r.fromSystemLogger
            && (r.exe == system.exe || r.exe == internal.exe)
            && (n.equalFold(system.name, n.base(internal.exe)) ==> |r.exe| >= |system.exe| && |r.exe| >= |internal.exe|)
            && (r.exe != system.exe ==>
                  n.equalFold(system.name, n.base(internal.exe)) && |internal.exe| > |system.exe|)
  {
    hide Quiet, After;
    OneOfEachSettles(n, steps, i, j, pid);
  }

  /** A process that one provider wrote is stored as that provider describes it; the system is asked about the token. */
  lemma LoneWrite(n: Names, steps: seq<Step>, i: nat, pid: nat)
    requires i < |steps| && steps[i].Write? && steps[i].e.pid == pid
    requires Quiet(steps, 0, i, pid) && Quiet(steps, i + 1, |steps|, pid)
    ensures var e := steps[i].e;
            Lookup(After(n, steps), pid)
            == Some(if e.internal then Record(e.ppid, n.base(e.exe), e.exe, e.token, false)
                    else Record(e.ppid, e.name, e.exe, e.queried, true))
  {
    hide Quiet, After;
    NothingFirst(n, steps);
    QuietKeeps(n, steps, 0, i, pid);
    WriteAt(n, steps, i);
    QuietKeeps(n, steps, i + 1, |steps|, pid);
    assert steps[..|steps|] == steps;
  }

  /** A second write of the same provider replaces the first; the system logger's then has no token attributes. */
  lemma RewriteReplaces(n: Names, r: Record, e: ProcessEvent)
    requires e.internal != r.fromSystemLogger
    ensures Merge(n, Some(r), e)
            == if e.internal then Record(e.ppid, n.base(e.exe), e.exe, e.token, false)
               else Record(e.ppid, e.name, e.exe, Token([], [], false), true)
  {
  }
}
