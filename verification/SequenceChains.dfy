/** One event for every slot, in order: when a joined rule fires on the last of them. */
module SequenceChains {
  import opened Links
  import opened SequenceModel
  import opened SequenceInvariants
  import opened SequenceOrdered
  import opened SequenceRuns
  import opened SequenceRivals

  /** One event per slot, made for that slot alone, in strict order of time. */
  ghost predicate OneEach(cfg: Config, c: seq<Event>) {
    && |c| == cfg.slots
    && (forall i :: 0 <= i < |c| ==> Only(cfg, i, c[i]))
    && (forall i, j :: 0 <= i < j < |c| ==> c[i].timestamp < c[j].timestamp)
  }

  /** The link of every event equals those of the events before it. */
  ghost predicate Linked(cfg: Config, c: seq<Event>) {
    forall j :: 0 <= j < |c| ==> LinksBack(cfg, c, j)
  }

  ghost predicate LinksBack(cfg: Config, c: seq<Event>, j: nat)
    requires j < |c|
  {
    forall i :: 0 <= i < j ==> CompareLink(cfg.text, LinkOf(cfg, j, c[j]), LinkOf(cfg, i, c[i]))
  }

  function Singles(c: seq<Event>): map<nat, seq<Event>> {
    if c == [] then map[] else Singles(c[..|c| - 1])[|c| - 1 := [c[|c| - 1]]]
  }

  function OwnLinks(cfg: Config, c: seq<Event>): map<Event, set<Link>> {
    if c == [] then map[]
    else OwnLinks(cfg, c[..|c| - 1])[c[|c| - 1] := {LinkOf(cfg, |c| - 1, c[|c| - 1])}]
  }

  lemma {:induction false} SinglesAt(c: seq<Event>, k: nat)
    ensures Slot(Singles(c), k) == if k < |c| then [c[k]] else []
  {
    if c != [] {
      SinglesAt(c[..|c| - 1], k);
    }
  }

  lemma {:induction false} OwnLinksOf(cfg: Config, c: seq<Event>, e: Event)
    requires forall i, j :: 0 <= i < j < |c| ==> c[i].timestamp < c[j].timestamp
    ensures e in OwnLinks(cfg, c) <==> e in c
    ensures forall i :: 0 <= i < |c| && c[i] == e ==> LinksOf(Meta(OwnLinks(cfg, c), {}), e) == {LinkOf(cfg, i, e)}
  {
    if c != [] {
      hide LinkOf;
      OwnLinksOf(cfg, c[..|c| - 1], e);
      assert c == c[..|c| - 1] + [c[|c| - 1]];
    }
  }

  /** The slots hold the events so far, one each. */
  ghost predicate Along(cfg: Config, s: State, c: seq<Event>) {
    Reached(cfg, s, |c|, if c == [] then 0 else c[|c| - 1].timestamp, Singles(c), OwnLinks(cfg, c))
  }

  /** An event for the slot awaited joins what waits exactly when it links back to every event so far. */
  lemma JoinedAlong(cfg: Config, s: State, c: seq<Event>, e: Event)
    requires Along(cfg, s, c)
    requires forall i, j :: 0 <= i < j < |c| ==> c[i].timestamp < c[j].timestamp
    ensures Joined(cfg, s, |c|, e) <==> LinksBack(cfg, c + [e], |c|)
  {
    hide LinkOf, OrderedInv, CompareLink;
    var l := LinkOf(cfg, |c|, e);
    forall i | 0 <= i < |c|
      ensures SlotJoins(cfg, s.meta, Slot(s.partials, i), l) <==> CompareLink(cfg.text, l, LinkOf(cfg, i, (c + [e])[i]))
    {
      SinglesAt(c, i);
      OwnLinksOf(cfg, c, c[i]);
      assert Slot(s.partials, i)[0] == c[i];
    }
  }

  /** One more event of the chain, before the last slot. */
  lemma AlongNext(cfg: Config, s: State, c: seq<Event>, e: Event, order: MapOrder)
    requires ValidConfig(cfg) && HasBy(cfg) && VisitsKeys(order) && Along(cfg, s, c)
    requires |c| + 1 < cfg.slots && Only(cfg, |c|, e) && LinksBack(cfg, c + [e], |c|)
    requires forall i, j :: 0 <= i < j < |c + [e]| ==> (c + [e])[i].timestamp < (c + [e])[j].timestamp
    ensures Along(cfg, ProcessEvent(cfg, s, e, order).state, c + [e])
  {
    Newest(cfg, c, e);
    AlongMore(cfg, c, e);
    hide *;
    AlongParts(cfg, s, c);
    JoinedAlong(cfg, s, c, e);
    OneSlot(cfg, s, e, |c|, order);
    ProcessEventOrdered(cfg, s, e, order);
    EntersAlone(cfg, s.partials, |c|, e);
    AlongFrom(cfg, s, c, e, ProcessEvent(cfg, s, e, order).state);
  }

  /** What the next event of a chain brings: its own slot, and its own link. */
  lemma AlongMore(cfg: Config, c: seq<Event>, e: Event)
    ensures Singles(c + [e]) == Singles(c)[|c| := [e]]
    ensures OwnLinks(cfg, c + [e]) == OwnLinks(cfg, c)[e := {LinkOf(cfg, |c|, e)}]
  {
    hide LinkOf;
    assert (c + [e])[..|c|] == c;
  }

  lemma Newest(cfg: Config, c: seq<Event>, e: Event)
    requires forall i, j :: 0 <= i < j < |c + [e]| ==> (c + [e])[i].timestamp < (c + [e])[j].timestamp
    requires ValidConfig(cfg) && Only(cfg, |c|, e)
    ensures forall i, j :: 0 <= i < j < |c| ==> c[i].timestamp < c[j].timestamp
    ensures (c == [] || c[|c| - 1].timestamp < e.timestamp) && e !in c
    ensures Slot(Singles(c), |c|) == [] && e !in OwnLinks(cfg, c)
    ensures SortsByTime(cfg.sort) && e.key == 0
  {
    var k, q := |c|, c + [e];
    hide Only;
    assert forall i, j :: 0 <= i < j < |c| ==> c[i].timestamp == q[i].timestamp < q[j].timestamp == c[j].timestamp;
    assert forall i :: 0 <= i < |c| ==> c[i].timestamp == q[i].timestamp < q[k].timestamp;
    SinglesAt(c, k);
    OwnLinksOf(cfg, c, e);
    OnlyKeyless(cfg, k, e);
  }

  lemma OnlyKeyless(cfg: Config, k: nat, e: Event)
    requires Only(cfg, k, e)
    ensures e.key == 0
  {
  }

  lemma AlongParts(cfg: Config, s: State, c: seq<Event>)
    requires Along(cfg, s, c)
    ensures OrderedInv(cfg, s) && s.fsm == At(|c|) && s.partials == Singles(c) && s.meta == Meta(OwnLinks(cfg, c), {})
    ensures forall e: Event :: c == [] || c[|c| - 1].timestamp < e.timestamp ==> InTime(s, e)
  {
    hide OrderedInv;
  }

  lemma AlongFrom(cfg: Config, s: State, c: seq<Event>, e: Event, t: State)
    requires s.partials == Singles(c) && s.meta == Meta(OwnLinks(cfg, c), {}) && e !in OwnLinks(cfg, c)
    requires OrderedInv(cfg, t) && t.fsm == At(|c| + 1) && t.lastMatch == e.timestamp
    requires t.partials == s.partials[|c| := [e]] && t.meta == AddLink(s.meta, e, LinkOf(cfg, |c|, e))
    requires Singles(c + [e]) == Singles(c)[|c| := [e]]
    requires OwnLinks(cfg, c + [e]) == OwnLinks(cfg, c)[e := {LinkOf(cfg, |c|, e)}]
    ensures Along(cfg, t, c + [e])
  {
    hide OrderedInv, Singles, OwnLinks, LinkOf;
    assert LinksOf(s.meta, e) + {LinkOf(cfg, |c|, e)} == {LinkOf(cfg, |c|, e)};
  }

  lemma EntersAlone(cfg: Config, partials: map<nat, seq<Event>>, k: nat, e: Event)
    requires SortsByTime(cfg.sort) && Slot(partials, k) == [] && e.key == 0
    ensures Extend(cfg, partials, k, e) == partials[k := [e]]
  {
    SortOne(cfg, e);
    assert [] + [e] == [e];
  }

  // ---- what comes late or does not link ----

  /** An event that joins but is not newer than the last accepted one gets its link, and that is all. */
  lemma LateLeavesLink(cfg: Config, s: State, e: Event, k: nat, order: MapOrder)
    requires !cfg.unordered && HasBy(cfg) && k < cfg.slots && Only(cfg, k, e)
    requires Next(s, k) && Joined(cfg, s, k, e) && 0 < e.timestamp <= s.lastMatch
    ensures var r := ProcessEvent(cfg, s, e, order);
            && !r.fired && r.state == s.(meta := r.state.meta) && r.state.meta.ooo == s.meta.ooo
            && forall x :: LinksOf(r.state.meta, x)
                 == if x == e then LinksOf(s.meta, e) + {LinkOf(cfg, k, e)} else LinksOf(s.meta, x)
  {
    assert Condition(cfg, k, e);
    var t := Decline(cfg, s, k, e);
    assert t == s.(meta := AddLink(s.meta, e, LinkOf(cfg, k, e)));
    PassedOver(cfg, s, e, 0, k, order);
    PassedOver(cfg, t, e, k + 1, cfg.slots, order);
    NothingLeft(cfg, t, e, order);
    assert !Accepts(cfg, s, k, e);
    hide Accepts, Next, Joined, Only, Accept, Decline, LinkOf;
    assert RunFrom(cfg, s, e, k, order) == RunFrom(cfg, t, e, k + 1, order);
  }

  /** An event for a slot that cannot take it leaves everything as it was. */
  lemma PassesBy(cfg: Config, s: State, e: Event, k: nat, order: MapOrder)
    requires !cfg.unordered && HasBy(cfg) && k < cfg.slots && Only(cfg, k, e)
    requires !Next(s, k) || !Joined(cfg, s, k, e)
    ensures ProcessEvent(cfg, s, e, order).state == s && !ProcessEvent(cfg, s, e, order).fired
  {
    PassedOver(cfg, s, e, 0, k, order);
    PassedOver(cfg, s, e, k + 1, cfg.slots, order);
    NothingLeft(cfg, s, e, order);
    assert !Accepts(cfg, s, k, e) && Decline(cfg, s, k, e) == s;
    hide Accepts, Next, Joined, Only, Accept, Decline;
    assert RunFrom(cfg, s, e, k, order) == RunFrom(cfg, s, e, k + 1, order);
  }

  /** The machine waits for a slot that an earlier event missed. */
  ghost predicate Stuck(cfg: Config, s: State, n: nat) {
    FsmInv(cfg, s) && s.fsm.At? && s.fsm.slot < n
  }

  /** Once an event has missed its slot, those for later ones come in vain. */
  lemma StuckNext(cfg: Config, s: State, n: nat, e: Event, order: MapOrder)
    requires !cfg.unordered && HasBy(cfg) && n < cfg.slots && Stuck(cfg, s, n) && Only(cfg, n, e)
    ensures var r := ProcessEvent(cfg, s, e, order); !r.fired && Stuck(cfg, r.state, n + 1)
  {
    NextBound(cfg, s, n);
    hide FsmInv, ProcessEvent, Next, Only;
    PassesBy(cfg, s, e, n, order);
  }

  lemma LinkedPrefix(cfg: Config, c: seq<Event>, n: nat)
    requires n < |c|
    ensures Linked(cfg, c[..n + 1]) <==> Linked(cfg, c[..n]) && LinksBack(cfg, c[..n + 1], n)
  {
    hide CompareLink, LinkOf;
    var p, q := c[..n], c[..n + 1];
    assert forall i :: 0 <= i < n ==> p[i] == q[i];
    forall j | 0 <= j < n
      ensures LinksBack(cfg, p, j) <==> LinksBack(cfg, q, j)
    {
      assert p[j] == q[j];
    }
  }

  /** Before the last event, the machine has come along with the chain or is stuck behind it. */
  lemma {:induction false} AlongOrStuck(cfg: Config, c: seq<Event>, n: nat, order: MapOrder)
    requires ValidConfig(cfg) && !cfg.unordered && HasBy(cfg) && VisitsKeys(order) && OneEach(cfg, c) && n < cfg.slots
    ensures var s := After(cfg, NO_META, Play(c[..n], order));
            if Linked(cfg, c[..n]) then Along(cfg, s, c[..n]) else Stuck(cfg, s, n)
  {
    hide Only, ProcessEvent, After, Play, Linked, LinksBack, Along, Stuck, VisitsKeys, SortsByTime;
    if n == 0 {
      NothingYet(cfg, order);
      assert c[..n] == [];
    } else {
      var p, e := c[..n - 1], c[n - 1];
      var s := After(cfg, NO_META, Play(p, order));
      assert c[..n] == p + [e];
      AlongOrStuck(cfg, c, n - 1, order);
      LinkedPrefix(cfg, c, n - 1);
      PlayNext(cfg, NO_META, p, e, order);
      if Linked(cfg, c[..n]) {
        AlongNext(cfg, s, p, e, order);
      } else if Linked(cfg, p) {
        MissesSlot(cfg, s, p, e, order);
      } else {
        StuckNext(cfg, s, n - 1, e, order);
      }
    }
  }

  lemma NothingYet(cfg: Config, order: MapOrder)
    requires ValidConfig(cfg) && !cfg.unordered
    ensures Linked(cfg, []) && Along(cfg, After(cfg, NO_META, Play([], order)), [])
  {
    hide ValidConfig, OrderedInv;
    Start(cfg);
    PlayNothing(order);
  }

  lemma MissesSlot(cfg: Config, s: State, c: seq<Event>, e: Event, order: MapOrder)
    requires !cfg.unordered && HasBy(cfg) && |c| < cfg.slots && Along(cfg, s, c) && Only(cfg, |c|, e)
    requires forall i, j :: 0 <= i < j < |c| ==> c[i].timestamp < c[j].timestamp
    requires !LinksBack(cfg, c + [e], |c|)
    ensures var r := ProcessEvent(cfg, s, e, order); !r.fired && Stuck(cfg, r.state, |c| + 1)
  {
    hide ProcessEvent, Only, Joined, LinksBack, FsmInv, SlotsOk, NoneNewer;
    JoinedAlong(cfg, s, c, e);
    PassesBy(cfg, s, e, |c|, order);
  }

  /** A joined rule fires on the last of one event per slot exactly when the links of any two of them are equal. */
  lemma ChainFiresExactly(cfg: Config, c: seq<Event>, order: MapOrder)
    requires ValidConfig(cfg) && !cfg.unordered && HasBy(cfg) && VisitsKeys(order) && OneEach(cfg, c)
    ensures var n := cfg.slots - 1;
            ProcessEvent(cfg, After(cfg, NO_META, Play(c[..n], order)), c[n], order).fired <==> Linked(cfg, c)
  {
    var n := cfg.slots - 1;
    LastOfEach(cfg, c, n);
    hide *;
    AlongOrStuck(cfg, c, n, order);
    LinkedPrefix(cfg, c, n);
    LastDecides(cfg, After(cfg, NO_META, Play(c[..n], order)), c[..n], c[n], order);
  }

  lemma LastDecides(cfg: Config, s: State, p: seq<Event>, e: Event, order: MapOrder)
    requires ValidConfig(cfg) && !cfg.unordered && HasBy(cfg) && |p| + 1 == cfg.slots && Only(cfg, |p|, e)
    requires forall i, j :: 0 <= i < j < |p| ==> p[i].timestamp < p[j].timestamp
    requires p == [] || p[|p| - 1].timestamp < e.timestamp
    requires if Linked(cfg, p) then Along(cfg, s, p) else Stuck(cfg, s, |p|)
    ensures ProcessEvent(cfg, s, e, order).fired <==> Linked(cfg, p) && LinksBack(cfg, p + [e], |p|)
  {
    hide *;
    if !Linked(cfg, p) {
      StuckNext(cfg, s, |p|, e, order);
    } else if LinksBack(cfg, p + [e], |p|) {
      LastOfChain(cfg, s, p, e, order);
    } else {
      MissesSlot(cfg, s, p, e, order);
    }
  }

  lemma LastOfEach(cfg: Config, c: seq<Event>, n: nat)
    requires OneEach(cfg, c) && cfg.slots == n + 1
    ensures |c| == n + 1 && |c[..n]| == n && c[..n + 1] == c && c[..n] + [c[n]] == c
    ensures Only(cfg, n, c[n])
    ensures forall i, j :: 0 <= i < j < n ==> c[..n][i].timestamp < c[..n][j].timestamp
    ensures c[..n] == [] || c[..n][n - 1].timestamp < c[n].timestamp
  {
    hide Only;
  }

  lemma LastOfChain(cfg: Config, s: State, c: seq<Event>, e: Event, order: MapOrder)
    requires ValidConfig(cfg) && !cfg.unordered && |c| + 1 == cfg.slots && Along(cfg, s, c) && Only(cfg, |c|, e)
    requires forall i, j :: 0 <= i < j < |c| ==> c[i].timestamp < c[j].timestamp
    requires c == [] || c[|c| - 1].timestamp < e.timestamp
    requires LinksBack(cfg, c + [e], |c|)
    ensures ProcessEvent(cfg, s, e, order).fired
  {
    hide ProcessEvent, Only, Joined, LinksBack, FsmInv, SlotsOk, NoneNewer, SortsByTime;
    JoinedAlong(cfg, s, c, e);
    LastSlotFires(cfg, s, e, order);
  }

  /** The rule joins on a 32-bit number, such as a process id, of the events in its slots. */
  ghost predicate JoinsOnNumber(join: By, field: (nat, Event) -> int) {
    match join
    case NoBy => false
    case Global(f) => forall k: nat, e: Event :: f(e) == Num(Uint32, field(k, e))
    case PerSlot(f) => forall k: nat, e: Event :: f(k, e) == Num(Uint32, field(k, e))
  }

  /** Such a rule fires on the last of one event per slot exactly when they all have the same number. */
  lemma SameNumberFires(cfg: Config, c: seq<Event>, field: (nat, Event) -> int, order: MapOrder)
    requires ValidConfig(cfg) && !cfg.unordered && VisitsKeys(order) && OneEach(cfg, c)
    requires JoinsOnNumber(cfg.join, field)
    ensures var n := cfg.slots - 1;
            && (ProcessEvent(cfg, After(cfg, NO_META, Play(c[..n], order)), c[n], order).fired
                <==> forall i :: 0 <= i < |c| ==> field(i, c[i]) == field(0, c[0]))
  {
    ChainFiresExactly(cfg, c, order);
    hide ProcessEvent, After, Play, Only, VisitsKeys, SortsByTime;
    forall i: nat, j: nat | i < j < |c|
      ensures CompareLink(cfg.text, LinkOf(cfg, j, c[j]), LinkOf(cfg, i, c[i])) <==> field(j, c[j]) == field(i, c[i])
    {
      NumbersJoinExactly(cfg.text, Uint32, field(j, c[j]), Uint32, field(i, c[i]));
      assert LinkOf(cfg, j, c[j]) == Num(Uint32, field(j, c[j]));
      assert LinkOf(cfg, i, c[i]) == Num(Uint32, field(i, c[i]));
    }
    if Linked(cfg, c) {
      forall i | 0 < i < |c|
        ensures field(i, c[i]) == field(0, c[0])
      {
        assert LinksBack(cfg, c, i);
      }
    }
  }
}
