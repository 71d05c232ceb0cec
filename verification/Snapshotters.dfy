/** The process snapshotter: shared process records, their parents, and the maps that hold them. */
module Snapshotters {
  import opened Options
  import opened Bytes
  import opened ProcessRecords

  /** A process state. `age` orders the states by creation. */
  class Ps {
    const pid: nat
    const ppid: nat
    const name: ByteString
    const fromSystemLogger: bool
    ghost const age: nat
    var exe: ByteString
    var token: Token
    var parent: Ps?

    constructor (pid: nat, r: Record, parent: Ps?, ghost age: nat)
      ensures this.pid == pid && ppid == r.ppid && name == r.name && fromSystemLogger == r.fromSystemLogger
      ensures exe == r.exe && token == r.token && this.parent == parent && this.age == age
    {
      this.pid, ppid, name, fromSystemLogger := pid, r.ppid, r.name, r.fromSystemLogger;
      exe, token, this.parent := r.exe, r.token, parent;
      this.age := age;
    }

    function Contents(): Record
      reads this
    {
      Record(ppid, name, exe, token, fromSystemLogger)
    }

    /** Takes over the token attributes and, where it is the fuller path, the executable. */
    method Enrich(names: Names, token: Token, exe: ByteString)
      modifies this`token, this`exe
      ensures Contents() == old(Contents()).(token := token, exe := Prefer(names, name, old(this.exe), exe))
    {
      this.token := token;
      if names.equalFold(name, names.base(exe)) && |exe| > |this.exe| {
        this.exe := exe;
      }
    }
  }

  class Snapshotter {
    const names: Names
    const capture: bool
    var procs: map<nat, Ps>
    var dirty: map<nat, Ps>
    ghost var known: set<Ps>
    ghost var clock: nat

    /** Every map holds a process under its own id, and parents are older than their children. */
    ghost predicate Valid()
      reads this, known
    {
      && (forall pid :: pid in procs ==> procs[pid] in known && procs[pid].pid == pid)
      && (forall pid :: pid in dirty ==> dirty[pid] in known && dirty[pid].pid == pid)
      && (forall p :: p in known ==> p.age < clock)
      && (forall p :: p in known && p.parent != null ==> p.parent in known && p.parent.age < p.age)
    }

    ghost function Contents(): (rs: Records)
      requires Valid()
      reads this, known
    {
      map pid | pid in procs :: procs[pid].Contents()
    }

    lemma ContentsAt(pid: nat)
      requires Valid()
      ensures Lookup(Contents(), pid) == if pid in procs then Some(procs[pid].Contents()) else None
    {
    }

    lemma StoredKnown()
      requires Valid()
      ensures forall pid :: pid in procs ==> procs[pid] in known && procs[pid].pid == pid
    {
    }

    /** The parent of a stored process, if any, has the id the process names, and that id is stored. */
    ghost predicate Linked()
      reads this, known
      requires Valid()
    {
      forall pid :: pid in procs && procs[pid].parent != null ==>
        procs[pid].parent.pid == procs[pid].ppid && procs[pid].ppid in procs
    }

    constructor (names: Names, capture: bool)
      ensures Valid() && Linked() && procs == map[] && dirty == map[] && known == {}
      ensures this.names == names && this.capture == capture
    {
      this.names, this.capture := names, capture;
      procs, dirty, known, clock := map[], map[], {}, 0;
    }

    /** From a known process upwards: every step goes to the parent, and the way ends. */
    ghost function Ancestry(p: Ps): (path: seq<Ps>)
      requires Valid() && p in known
      reads this, known
      ensures 0 < |path| <= p.age + 1 && path[0] == p && path[|path| - 1].parent == null
      ensures forall i :: 0 <= i < |path| ==> path[i] in known
      ensures forall i :: 0 <= i < |path| - 1 ==> path[i].parent == path[i + 1]
      decreases p.age
    {
      if p.parent == null then [p] else [p] + Ancestry(p.parent)
    }

    /** Creates a state; only the system logger's states know their parent. */
    method NewProcState(e: ProcessEvent) returns (proc: Ps)
      requires Valid()
      modifies this`known, this`clock
      ensures Valid() && fresh(proc) && known == old(known) + {proc}
      ensures proc.pid == e.pid && proc.Contents() == Described(names, e, e.pid !in procs)
      ensures proc.parent == if !e.internal && e.ppid in procs then procs[e.ppid] else null
      ensures Contents() == old(Contents()) && (old(Linked()) ==> Linked())
    {
      if e.internal {
        proc := new Ps(e.pid, Record(e.ppid, names.base(e.exe), e.exe, e.token, false), null, clock);
      } else {
        var parent: Ps? := if e.ppid in procs then procs[e.ppid] else null;
        var token := if e.pid !in procs then e.queried else NO_TOKEN;
        proc := new Ps(e.pid, Record(e.ppid, e.name, e.exe, token, true), parent, clock);
      }
      known, clock := known + {proc}, clock + 1;
    }

    /** Stores a state under its id. */
    method Store(proc: Ps)
      requires Valid() && proc in known
      modifies this`procs
      ensures Valid() && procs == old(procs)[proc.pid := proc]
      ensures Contents() == old(Contents())[proc.pid := proc.Contents()]
      ensures old(Linked()) && (proc.parent != null ==> proc.parent.pid == proc.ppid && proc.ppid in old(procs))
              ==> Linked()
    {
      procs := procs[proc.pid := proc];
    }

    /** Enriches the stored state of a process in place. */
    method EnrichStored(pid: nat, token: Token, exe: ByteString)
      requires Valid() && pid in procs
      modifies procs[pid]
      ensures Valid() && procs[pid].parent == old(procs[pid].parent)
      ensures var r := old(Contents())[pid];
              Contents() == old(Contents())[pid := r.(token := token, exe := Prefer(names, r.name, r.exe, exe))]
      ensures old(Linked()) ==> Linked()
    {
      var ps := procs[pid];
      ps.Enrich(names, token, exe);
      assert forall p :: p in procs && p != pid ==> procs[p] != ps;
    }

    /** A state from the system logger replaces one from the internal provider and takes over what that knew. */
    method Supersede(proc: Ps)
      requires Valid() && proc in known && proc.pid in procs && proc !in procs.Values
      modifies this`procs, proc
      ensures Valid() && procs == old(procs)[proc.pid := proc] && proc.parent == old(proc.parent)
      ensures var r, own := old(Contents())[proc.pid], old(proc.Contents());
              Contents() == old(Contents())[
                proc.pid := own.(token := r.token, exe := Prefer(names, own.name, own.exe, r.exe))]
      ensures old(Linked()) && (proc.parent != null ==> proc.parent.pid == proc.ppid && proc.ppid in old(procs))
              ==> Linked()
    {
      ghost var before := Contents();
      var ps := procs[proc.pid];
      proc.Enrich(names, ps.token, ps.exe);
      assert Contents() == before;
      Store(proc);
    }

    /** `bound` is the state assigned to the event. */
    method Write(e: ProcessEvent) returns (bound: Ps)
      requires Valid()
      modifies this, known
      ensures Valid() && dirty == old(dirty) && fresh(bound) && known == old(known) + {bound}
      ensures Contents() == Apply(names, old(Contents()), ProcessRecords.Step.Write(e))
      ensures bound.parent == if !e.internal && e.ppid in old(procs) then old(procs)[e.ppid] else null
      ensures procs == if e.internal && e.pid in old(procs) && old(procs)[e.pid].fromSystemLogger then old(procs)
                       else old(procs)[e.pid := bound]
      ensures forall p :: p in old(known) ==> p.parent == old(p.parent)
      ensures old(Linked()) ==> Linked()
    {
      hide Prefer, Linked, Contents, Valid;
      StoredKnown();
      bound := NewProcState(e);
      ContentsAt(e.pid);
      if e.pid !in procs && e.internal {
        Store(bound);
      } else if e.pid in procs && e.internal && procs[e.pid].fromSystemLogger {
        EnrichStored(e.pid, bound.token, bound.exe);
      } else if e.pid in procs && !e.internal && !procs[e.pid].fromSystemLogger {
        Supersede(bound);
      } else {
        Store(bound);
      }
    }

    method ResetParent(k: nat, pid: nat)
      requires Valid() && k in procs
      modifies procs[k]
      ensures Valid() && Contents() == old(Contents())
      ensures procs[k].parent == if procs[k].ppid == pid then null else old(procs[k].parent)
    {
      var proc := procs[k];
      if proc.ppid == pid {
        proc.parent := null;
      }
    }

    lemma Apart(k: nat)
      requires Valid() && k in procs
      ensures forall i :: i in procs && i != k ==> procs[i] != procs[k]
    {
    }

    /** A process whose parent died loses it; the map is walked in no particular order. */
    method ResetParents(pid: nat)
      requires Valid()
      modifies procs.Values
      ensures Valid() && Contents() == old(Contents())
      ensures forall k :: k in procs ==>
                procs[k].parent == if procs[k].ppid == pid then null else old(procs[k].parent)
    {
      ghost var before := Contents();
      var todo := procs.Keys;
      while todo != {}
        invariant todo <= procs.Keys && Valid() && Contents() == before
        invariant forall k :: k in procs ==>
                    procs[k].parent == if k !in todo && procs[k].ppid == pid then null else old(procs[k].parent)
        decreases |todo|
      {
        var k :| k in todo;
        Apart(k);
        hide Valid, Contents;
        ResetParent(k, pid);
        todo := todo - {k};
      }
    }

    /** A terminated process moves to the dirty map. */
    method Retire(pid: nat)
      requires Valid()
      modifies this`procs, this`dirty
      ensures Valid() && procs == old(procs) - {pid}
      ensures dirty == if pid in old(procs) then old(dirty)[pid := old(procs)[pid]] else old(dirty)
      ensures Contents() == Apply(names, old(Contents()), Drop({pid}))
    {
      if pid in procs {
        MarkDirty(procs[pid]);
      }
      procs := procs - {pid};
    }

    method MarkDirty(proc: Ps)
      requires Valid() && proc in known
      modifies this`dirty
      ensures Valid() && dirty == old(dirty)[proc.pid := proc] && Contents() == old(Contents())
    {
      dirty := dirty[proc.pid := proc];
    }

    /** The process moves to the dirty map, from which `Forget` removes it later, and its children lose it. */
    method Remove(pid: nat)
      requires Valid()
      modifies this`procs, this`dirty, procs.Values
      ensures Valid() && procs == old(procs) - {pid}
      ensures dirty == if pid in old(procs) then old(dirty)[pid := old(procs)[pid]] else old(dirty)
      ensures Contents() == Apply(names, old(Contents()), Drop({pid}))
      ensures forall k :: k in procs ==>
                procs[k].parent == if procs[k].ppid == pid then null else old(procs[k].parent)
      ensures old(Linked()) ==> Linked()
    {
      Retire(pid);
      ResetParents(pid);
    }

    method Forget(pid: nat)
      requires Valid()
      modifies this`dirty
      ensures Valid() && dirty == old(dirty) - {pid} && Contents() == old(Contents())
      ensures old(Linked()) ==> Linked()
    {
      if pid in dirty {
        dirty := dirty - {pid};
      }
    }

    /** Inserts a state that a lookup made; such states have no parent. */
    method Put(proc: Ps?)
      requires Valid() && (proc != null ==> proc in known)
      modifies this`procs
      ensures Valid()
      ensures proc == null ==> Contents() == old(Contents()) && procs == old(procs)
      ensures proc != null ==>
                && procs == old(procs)[proc.pid := proc]
                && Contents() == Apply(names, old(Contents()), Insert(proc.pid, proc.Contents()))
      ensures old(Linked()) && (proc == null || proc.parent == null) ==> Linked()
    {
      if proc != null {
        Store(proc);
      }
    }

    /** `asked` is what the system tells about a process that is not stored, if it can be opened. */
    method Find(pid: nat, asked: Option<Record>) returns (found: bool, proc: Ps?)
      requires Valid()
      modifies this`known, this`clock
      ensures Valid() && Contents() == old(Contents()) && (old(Linked()) ==> Linked())
      ensures fresh(known - old(known))
      ensures found <==> pid in procs || (!capture && pid != INVALID_PROCESS_ID && pid in dirty)
      ensures found ==> proc == (if pid in procs then procs[pid] else dirty[pid]) && known == old(known)
      ensures !found && proc != null ==>
                && !capture && pid != INVALID_PROCESS_ID && asked.Some? && fresh(proc) && proc.parent == null
                && proc.pid == pid && proc.Contents() == asked.value.(fromSystemLogger := false)
                && known == old(known) + {proc}
      ensures !found && proc == null ==> capture || pid == INVALID_PROCESS_ID || asked.None?
    {
      if pid in procs {
        return true, procs[pid];
      }
      if capture || pid == INVALID_PROCESS_ID {
        return false, null;
      }
      if pid in dirty {
        return true, dirty[pid];
      }
      if asked.None? {
        return false, null;
      }
      proc := new Ps(pid, asked.value.(fromSystemLogger := false), null, clock);
      known, clock := known + {proc}, clock + 1;
      found := false;
    }

    method FindAndPut(pid: nat, asked: Option<Record>) returns (proc: Ps?)
      requires Valid()
      modifies this`known, this`clock, this`procs
      ensures Valid() && (old(Linked()) ==> Linked()) && fresh(known - old(known))
      ensures proc != null ==> proc in known && proc.pid == pid
      ensures procs == if proc == null || pid in old(procs) || pid in dirty then old(procs) else old(procs)[pid := proc]
    {
      var found;
      found, proc := Find(pid, asked);
      if !found {
        Put(proc);
      }
    }

    /** The collector deletes processes that no longer run and leaves the parents of the others alone. */
    method Reap(dead: set<nat>)
      requires Valid()
      modifies this`procs
      ensures Valid() && procs == old(procs) - dead
      ensures Contents() == Apply(names, old(Contents()), Drop(dead))
      ensures old(Linked()) ==>
                (Linked() <==> forall k :: k in procs && procs[k].parent != null ==> procs[k].ppid !in dead)
    {
      procs := procs - dead;
    }
  }

  const INVALID_PROCESS_ID: nat := 0xffff_ffff

  /** What can happen to a snapshotter. */
  datatype Command =
    | WriteEvent(e: ProcessEvent) | RemoveProcess(pid: nat) | ForgetDirty(pid: nat)
    | LookUp(pid: nat, asked: Option<Record>) | ReapDead(dead: set<nat>)

  /**
   After every run, every parent chain ends; and unless something was reaped, every parent of a stored process
   is the one it names and is still stored.
   */
  method AnyRun(names: Names, capture: bool, commands: seq<Command>) returns (s: Snapshotter)
    ensures fresh(s) && s.Valid()
    ensures (forall i :: 0 <= i < |commands| ==> !commands[i].ReapDead?) ==> s.Linked()
  {
    s := new Snapshotter(names, capture);
    for i := 0 to |commands|
      invariant fresh(s) && fresh(s.known) && s.Valid()
      invariant (forall j :: 0 <= j < i ==> !commands[j].ReapDead?) ==> s.Linked()
    {
      Perform(s, commands[i]);
    }
  }

  method Perform(s: Snapshotter, command: Command)
    requires s.Valid()
    modifies s, s.known
    ensures s.Valid() && fresh(s.known - old(s.known))
    ensures old(s.Linked()) && !command.ReapDead? ==> s.Linked()
  {
    match command
    case WriteEvent(e) => var _ := s.Write(e);
    case RemoveProcess(pid) => s.Remove(pid);
    case ForgetDirty(pid) => s.Forget(pid);
    case LookUp(pid, asked) => var _ := s.FindAndPut(pid, asked);
    case ReapDead(dead) => s.Reap(dead);
  }

  /** Reaping a parent leaves its child with a parent that is no longer stored. */
  method ReapingUnlinks(names: Names, parent: ProcessEvent, child: ProcessEvent) returns (s: Snapshotter)
    requires !parent.internal && !child.internal && child.ppid == parent.pid && child.pid != parent.pid
    ensures s.Valid() && !s.Linked()
  {
    s := new Snapshotter(names, false);
    var p := s.Write(parent);
    var c := s.Write(child);
    s.Reap({parent.pid});
  }
}
