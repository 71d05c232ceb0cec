/** Which partials come and go, in terms of the events themselves: storing, collecting, terminations, and the timers. */
module SequencePartials {
  import opened SequenceModel
  import opened SequenceInvariants
  import opened SequenceRuns

  function Count(q: seq<Event>, x: Event): nat {
    multiset(q)[x]
  }

  lemma {:induction false} RetainCount(q: seq<Event>, drop: (nat, Event) -> bool, k: nat, x: Event)
    ensures Count(Retain(q, drop, k), x) == if drop(k, x) then 0 else Count(q, x)
  {
    if q != [] {
      var n := |q| - 1;
      RetainCount(q[..n], drop, k, x);
      assert q == q[..n] + [q[n]];
    }
  }

  lemma RetainAllCount(partials: map<nat, seq<Event>>, drop: (nat, Event) -> bool, k: nat, x: Event)
    ensures Count(Slot(RetainAll(partials, drop), k), x) == if drop(k, x) then 0 else Count(Slot(partials, k), x)
  {
    if k in partials {
      RetainCount(partials[k], drop, k, x);
    }
  }

  // ---- storing ----

  /**
   A slot of up to 1000 events takes an event in unless one with the same non-zero key is there; others are left alone.
   */
  lemma StoredExactly(cfg: Config, s: State, k: nat, e: Event, isOoo: bool)
    requires ValidConfig(cfg)
    ensures var q, t := Slot(s.partials, k), AddPartial(cfg, s, k, e, isOoo);
            var stored := |q| <= 1000 && (e.key == 0 || forall x :: x in q ==> x.key != e.key);
            && (forall x :: Count(Slot(t.partials, k), x) == Count(q, x) + if stored && x == e then 1 else 0)
            && (forall j :: j != k ==> Slot(t.partials, j) == Slot(s.partials, j))
            && t.meta.ooo == (if stored && isOoo then s.meta.ooo + {e} else s.meta.ooo)
            && t.breached == (s.breached || |q| > 1000)
  {
    var q := Slot(s.partials, k);
    assert multiset(q + [e]) == multiset(q) + multiset{e};
    assert (forall x :: x in q ==> x.key != e.key) <==> !HasKey(q, e.key);
    assert multiset(cfg.sort(q + [e])) == multiset(q + [e]);
  }

  // ---- events that came out of order ----

  /**
   A waiting event is tried again: when it joins the partials upstream and meets its condition, it gets its link, is no
   longer marked, and counts for its slot, once; otherwise nothing happens.
   */
  lemma RetriedExactly(cfg: Config, s: State, k: nat, e: Event)
    requires s.fsm.At? ==> s.fsm.slot < cfg.slots
    ensures var t := RetryEvent(cfg, s, k, e);
            var taken := e in s.meta.ooo && cfg.eval(k, e) && (cfg.join.NoBy? || Joined(cfg, s, k, e));
            && (!taken ==> t == s)
            && (taken ==>
                  && t.partials == s.partials && t.meta.ooo == s.meta.ooo - {e}
                  && LinksOf(t.meta, e) == LinksOf(s.meta, e) + (if cfg.join.NoBy? then {} else {LinkOf(cfg, k, e)})
                  && (forall x :: x != e ==> LinksOf(t.meta, x) == LinksOf(s.meta, x))
                  && t.fsm == if k in s.states || !s.fsm.At? then s.fsm
                              else if s.fsm.slot + 1 == cfg.slots then Terminal else At(s.fsm.slot + 1))
  {
    hide Joined, LinkOf, MatchTransition;
    MatchMoves(cfg, Evaluated(cfg, s, k, e), k);
  }

  lemma MatchMoves(cfg: Config, s: State, k: nat)
    requires s.fsm.At? ==> s.fsm.slot < cfg.slots
    ensures var t := MatchTransition(cfg, s, k);
            && t.partials == s.partials && t.meta == s.meta
            && t.fsm == if k in s.states || !s.fsm.At? then s.fsm
                        else if s.fsm.slot + 1 == cfg.slots then Terminal else At(s.fsm.slot + 1)
  {
    hide OnTransitioned;
    match Permit(cfg, s.fsm, MatchTrigger) {
      case None =>
      case Some(fsm) => TransitionStays(cfg, s.(fsm := fsm), s.fsm);
    }
  }

  /** The event is in a slot that is visited. */
  predicate Visited(s: State, order: seq<nat>, k: nat, x: Event) {
    k in order && x in Slot(s.partials, k)
  }

  lemma RetryUnmarksOne(cfg: Config, s: State, k: nat, e: Event)
    requires cfg.join.NoBy?
    ensures var t := RetryEvent(cfg, s, k, e);
            && t.partials == s.partials
            && t.meta.ooo == if cfg.eval(k, e) then s.meta.ooo - {e} else s.meta.ooo
  {
    hide Joined, MatchTransition;
    MatchStays(cfg, s, k);
  }

  lemma MatchStays(cfg: Config, s: State, k: nat)
    ensures MatchTransition(cfg, s, k).partials == s.partials && MatchTransition(cfg, s, k).meta == s.meta
  {
    hide OnTransitioned;
    match Permit(cfg, s.fsm, MatchTrigger) {
      case None =>
      case Some(fsm) => TransitionStays(cfg, s.(fsm := fsm), s.fsm);
    }
  }

  lemma TransitionStays(cfg: Config, s: State, source: Fsm)
    ensures var t := OnTransitioned(cfg, s, source, MatchTrigger);
            t.partials == s.partials && t.meta == s.meta && t.fsm == s.fsm
  {
  }

  lemma {:induction false} RetrySlotUnmarks(cfg: Config, s: State, k: nat, q: seq<Event>)
    requires cfg.join.NoBy?
    ensures var t := RetrySlot(cfg, s, k, q);
            t.partials == s.partials
            && forall x :: x in t.meta.ooo <==> x in s.meta.ooo && !(x in q && cfg.eval(k, x))
  {
    if q != [] {
      var n := |q| - 1;
      RetrySlotUnmarks(cfg, s, k, q[..n]);
      RetryUnmarksOne(cfg, RetrySlot(cfg, s, k, q[..n]), k, q[n]);
      assert q == q[..n] + [q[n]];
      hide RetryEvent;
    }
  }

  /** Without joins, the waiting events that meet their condition are no longer marked, and the others still are. */
  lemma {:induction false} RetryUnmarks(cfg: Config, s: State, order: seq<nat>)
    requires cfg.join.NoBy?
    ensures Retry(cfg, s, order).partials == s.partials
    ensures forall x :: x in Retry(cfg, s, order).meta.ooo
                        <==> x in s.meta.ooo && !exists k :: Visited(s, order, k, x) && cfg.eval(k, x)
  {
    if order != [] {
      var n := |order| - 1;
      var k, t := order[n], Retry(cfg, s, order[..n]);
      RetryUnmarks(cfg, s, order[..n]);
      RetrySlotUnmarks(cfg, t, k, Slot(s.partials, k));
      hide RetrySlot, Slot;
      assert order == order[..n] + [k];
      forall x
        ensures (exists j :: Visited(s, order, j, x) && cfg.eval(j, x))
                <==> (exists j :: Visited(s, order[..n], j, x) && cfg.eval(j, x))
                     || (x in Slot(s.partials, k) && cfg.eval(k, x))
      {
        assert forall j :: Visited(s, order, j, x)
                           <==> Visited(s, order[..n], j, x) || (j == k && x in Slot(s.partials, j));
      }
    }
  }

  // ---- garbage collection ----

  const HOUR: nat := 3_600_000_000_000

  /** A partial is collected when it is older than the max span, or than four hours where the rule has none. */
  lemma CollectedExactly(cfg: Config, s: State, now: int)
    ensures var t := Gc(cfg, s, now);
            && t == s.(partials := t.partials)
            && forall k, x :: Count(Slot(t.partials, k), x)
                 == if now - x.timestamp > (if cfg.maxSpan == 0 then 4 * HOUR else cfg.maxSpan) then 0
                    else Count(Slot(s.partials, k), x)
  {
    hide Count, Slot, RetainAll;
    forall k, x
      ensures Count(Slot(Gc(cfg, s, now).partials, k), x)
              == if now - x.timestamp > (if cfg.maxSpan == 0 then 4 * HOUR else cfg.maxSpan) then 0
                 else Count(Slot(s.partials, k), x)
    {
      RetainAllCount(s.partials, Stale(cfg, now), k, x);
    }
  }

  // ---- terminations ----

  /** A thread created in another process. */
  predicate RemoteThread(x: Event) {
    x.etype == CreateThread && x.pid != x.paramPid
  }

  /** A process created by what the final slot holds. */
  predicate FinalCreation(cfg: Config, k: nat, x: Event) {
    x.etype == CreateProcess && k + 1 == cfg.slots
  }

  /** The process whose end takes the partial along: the one it acts on, in those two cases, or else its own. */
  function Owner(cfg: Config, k: nat, x: Event): nat {
    if RemoteThread(x) || FinalCreation(cfg, k, x) then x.paramPid else x.pid
  }

  lemma ExpirableOwner(cfg: Config, t: Event, k: nat, x: Event)
    ensures Expirable(cfg, t)(k, x) <==> Owner(cfg, k, x) == t.paramPid
  {
    assert Expirable(cfg, t)(k, x) == CanExpire(x, t, k + 1 == cfg.slots);
    if x.etype == CreateThread && x.pid == x.paramPid {
      assert Owner(cfg, k, x) == x.pid;
    }
  }

  /** Some slot holds nothing but partials of the terminated process. */
  ghost predicate Wiped(cfg: Config, s: State, pid: nat) {
    exists k :: 0 <= k < cfg.slots && Slot(s.partials, k) != [] && OwnedSlot(cfg, s, k, pid)
  }

  ghost predicate OwnedSlot(cfg: Config, s: State, k: nat, pid: nat) {
    forall x :: x in Slot(s.partials, k) ==> Owner(cfg, k, x) == pid
  }

  lemma WipedExactly(cfg: Config, s: State, t: Event)
    ensures Drained(cfg, s, t) <==> Wiped(cfg, s, t.paramPid)
  {
    hide Owner, Slot;
    forall k | 0 <= k < cfg.slots
      ensures AllExpire(cfg, Slot(s.partials, k), t, k) <==> OwnedSlot(cfg, s, k, t.paramPid)
    {
      var q := Slot(s.partials, k);
      forall i | 0 <= i < |q|
        ensures Expirable(cfg, t)(k, q[i]) <==> Owner(cfg, k, q[i]) == t.paramPid
      {
        ExpirableOwner(cfg, t, k, q[i]);
      }
      hide Expirable;
      assert AllExpire(cfg, q, t, k) <==> forall i :: 0 <= i < |q| ==> Owner(cfg, k, q[i]) == t.paramPid;
      assert (forall x :: x in q ==> Owner(cfg, k, x) == t.paramPid)
             <==> (forall i :: 0 <= i < |q| ==> Owner(cfg, k, q[i]) == t.paramPid);
    }
    hide AllExpire, OwnedSlot;
  }

  /**
   The end of a process resets the sequence when some slot holds nothing but its partials; otherwise exactly its
   partials go from every slot, all others stay as often as they were there, and nothing else changes.
   */
  lemma TerminationExactly(cfg: Config, s: State, t: Event)
    requires ValidConfig(cfg) && Inv(cfg, s) && t.etype == TerminateProcess
    ensures var u := Expire(cfg, s, t);
            if Wiped(cfg, s, t.paramPid) then u == Initial(s.meta).(inExpired := s.fsm != At(0))
            else && u == s.(partials := u.partials)
                 && forall k, x :: Count(Slot(u.partials, k), x)
                      == if Owner(cfg, k, x) == t.paramPid then 0 else Count(Slot(s.partials, k), x)
  {
    WipedExactly(cfg, s, t);
    if Wiped(cfg, s, t.paramPid) {
      ExpireWholeResets(cfg, s);
    } else {
      hide Wiped, Drained, Count, Slot, RetainAll, Inv, ValidConfig, Owner, Expirable, ExpireWhole;
      var u := Expire(cfg, s, t);
      forall k, x
        ensures Count(Slot(u.partials, k), x)
                == if Owner(cfg, k, x) == t.paramPid then 0 else Count(Slot(s.partials, k), x)
      {
        RetainAllCount(s.partials, Expirable(cfg, t), k, x);
        ExpirableOwner(cfg, t, k, x);
      }
    }
  }

  lemma Counted(q: seq<Event>, x: Event)
    ensures Count(q, x) > 0 <==> x in q
  {
  }

  /**
   After the end of a process no slot holds an event of it, other than threads it created elsewhere and, in the final
   slot, processes it created; and none of those that act on it.
   */
  lemma NothingOfTerminated(cfg: Config, meta: Meta, steps: seq<Step>, t: Event, k: nat, x: Event)
    requires ValidConfig(cfg) && LegalRun(cfg, meta, steps) && t.etype == TerminateProcess
    requires x in Slot(Apply(cfg, After(cfg, meta, steps), Terminate(t)).partials, k)
    ensures x.pid == t.paramPid ==>
              (x.etype == CreateThread && x.pid != x.paramPid) || (x.etype == CreateProcess && k + 1 == cfg.slots)
    ensures (x.etype == CreateThread && x.pid != x.paramPid) || (x.etype == CreateProcess && k + 1 == cfg.slots) ==>
              x.paramPid != t.paramPid
    ensures x in Slot(After(cfg, meta, steps).partials, k)
  {
    InvAlways(cfg, meta, steps);
    hide LegalRun, After, Inv, ValidConfig, Expire, Wiped, Count;
    var s := After(cfg, meta, steps);
    TerminationExactly(cfg, s, t);
    Counted(Slot(Expire(cfg, s, t).partials, k), x);
    Counted(Slot(s.partials, k), x);
  }

  // ---- timers ----

  /**
   In every run a timer runs exactly for the state the machine is in, if the rule has a max span and it is not the
   first.
   */
  lemma TimersExactly(cfg: Config, meta: Meta, steps: seq<Step>)
    requires ValidConfig(cfg) && LegalRun(cfg, meta, steps)
    ensures var s := After(cfg, meta, steps);
            s.fsm.At? && s.timers == if cfg.maxSpan == 0 || s.fsm.slot == 0 then {} else {s.fsm.slot}
  {
    InvAlways(cfg, meta, steps);
    hide LegalRun, After, SlotsOk, ValidConfig;
  }
}
