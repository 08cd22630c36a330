/** What becomes of slots and connections: when slots are taken and freed, and what can always still happen. */
module SlotService {
  import opened SlotTable

  // Taking and freeing slots.

  function Stores(acts: seq<Action>): nat {
    if acts == [] then 0 else Stores(acts[..|acts| - 1]) + if acts[|acts| - 1].Store? then 1 else 0
  }

  function Clears(acts: seq<Action>): nat {
    if acts == [] then 0 else Clears(acts[..|acts| - 1]) + if acts[|acts| - 1].Clear? then 1 else 0
  }

  lemma OccupiedByStore(n: nat, s: State, a: Action)
    requires Ownership(n, s) && Enabled(s, a) && a.Store?
    ensures Occupied(Apply(s, a)) == Occupied(s) + {s.acc.i} && s.acc.i !in Occupied(s)
  {
  }

  lemma OccupiedByClear(n: nat, s: State, a: Action)
    requires Ownership(n, s) && Enabled(s, a) && a.Clear?
    ensures Occupied(Apply(s, a)) == Occupied(s) - {s.handlers[a.t].slot} && s.handlers[a.t].slot in Occupied(s)
  {
  }

  lemma SlotsStay(s: State, a: Action)
    requires Enabled(s, a) && !a.Store? && !a.Clear?
    ensures Apply(s, a).slots == s.slots
  {
  }

  /** Storing takes a slot that was free, clearing frees one that was taken, and nothing else takes or frees any. */
  lemma OccupiedStep(n: nat, s: State, a: Action)
    requires Ownership(n, s) && Enabled(s, a)
    ensures |Occupied(Apply(s, a))|
         == |Occupied(s)| + (if a.Store? then 1 else 0) - (if a.Clear? then 1 else 0)
  {
    hide Apply, Enabled, Ownership;
    if a.Store? {
      OccupiedByStore(n, s, a);
    } else if a.Clear? {
      OccupiedByClear(n, s, a);
    } else {
      SlotsStay(s, a);
    }
  }

  lemma NothingOccupied(n: nat)
    ensures Occupied(Init(n)) == {}
  {
  }

  /** After every run, as many slots are occupied as have been stored in and not been cleared since. */
  lemma {:induction false} OccupiedCount(n: nat, acts: seq<Action>)
    requires Legal(n, acts)
    ensures |Occupied(After(n, acts))| == Stores(acts) - Clears(acts)
  {
    hide Occupied, Apply, Enabled, Ownership, Responsibility, Descriptors, Pending, LostOpen, Conserved;
    if acts == [] {
      NothingOccupied(n);
    } else {
      var front := acts[..|acts| - 1];
      OccupiedCount(n, front);
      RunInv(n, front);
      OccupiedStep(n, After(n, front), acts[|acts| - 1]);
    }
  }

  /** Clearing frees the slot of the handler, which is gone then; every other slot and handler stays. */
  lemma ClearFrees(n: nat, acts: seq<Action>, t: nat)
    requires Legal(n, acts + [Clear(t)])
    ensures Legal(n, acts) && t in After(n, acts).handlers
    ensures var s, s' := After(n, acts), After(n, acts + [Clear(t)]);
            var i := s.handlers[t].slot;
            && i < n == |s.slots| == |s'.slots| && s.slots[i] != FREE == s'.slots[i]
            && (forall j :: 0 <= j < n && j != i ==> s'.slots[j] == s.slots[j])
            && t !in s'.handlers
            && (forall t' :: t' != t ==> (t' in s'.handlers <==> t' in s.handlers))
            && (forall t' :: t' in s'.handlers ==> s'.handlers[t'] == s.handlers[t'] && s'.handlers[t'].slot != i)
  {
    LastStep(n, acts, Clear(t));
    RunInv(n, acts);
    hide Legal, After, Responsibility, Descriptors, Pending, LostOpen, Conserved;
  }

  // What each task does next.

  predicate AcceptorStep(s: State, a: Action) {
    match s.acc
    case Accepting => a.AcceptFails? || (a.Accept? && a.fd >= 0 && a.fd !in s.open)
    case Scanning(_, _, _) => a.Scan?
    case Rejecting(_, _) => a.Reject?
    case Storing(_, _, _) => a.Store?
    case Creating(_, _) => a.Create? || a.CreateFails?
  }

  predicate OfHandler(a: Action) {
    a.Fetch? || a.Use? || a.FetchToClose? || a.Close? || a.Clear?
  }

  predicate HandlerStep(s: State, a: Action) {
    && OfHandler(a) && a.t in s.handlers
    && match s.handlers[a.t].phase
       case Ready => a.Fetch? || a.FetchToClose?
       case Fetched(_) => a.Use?
       case FetchedToClose(_) => a.Close?
       case Closed => a.Clear?
  }

  lemma AcceptorEnabled(n: nat, s: State, a: Action)
    requires Ownership(n, s) && !OfHandler(a)
    ensures Enabled(s, a) <==> AcceptorStep(s, a)
  {
  }

  lemma HandlerEnabled(n: nat, s: State, a: Action)
    requires Ownership(n, s) && OfHandler(a)
    ensures (Enabled(s, a) <==> HandlerStep(s, a)) && !AcceptorStep(s, a)
  {
  }

  /** No task ever waits for another, and no slot number ever leaves the table. */
  lemma NextSteps(n: nat, acts: seq<Action>, a: Action)
    requires Legal(n, acts)
    ensures Legal(n, acts + [a]) <==> AcceptorStep(After(n, acts), a) || HandlerStep(After(n, acts), a)
  {
    LastStep(n, acts, a);
    RunInv(n, acts);
    hide Legal, After, Ownership, Responsibility, Descriptors, Pending, LostOpen, Conserved;
    if OfHandler(a) {
      HandlerEnabled(n, After(n, acts), a);
    } else {
      AcceptorEnabled(n, After(n, acts), a);
    }
  }

  // What can always still happen.

  /** The first free slot from `i` on, or the number of slots. */
  function FirstFree(slots: seq<int>, i: nat): (j: nat)
    requires i <= |slots|
    ensures i <= j <= |slots| && (j < |slots| ==> slots[j] == FREE)
    ensures forall k :: i <= k < j ==> slots[k] != FREE
    decreases |slots| - i
  {
    if i == |slots| || slots[i] == FREE then i else FirstFree(slots, i + 1)
  }

  /** Left alone, a scan finds the first free slot and goes on to store there, or turns away if there is none. */
  lemma {:induction false} ScanFinds(n: nat, acts: seq<Action>) returns (acts': seq<Action>)
    requires Legal(n, acts) && After(n, acts).acc.Scanning? && After(n, acts).acc.i <= |After(n, acts).slots|
    ensures acts <= acts' && Legal(n, acts')
    ensures var s := After(n, acts);
            var j := FirstFree(s.slots, s.acc.i);
            After(n, acts') == s.(acc := if j < |s.slots| then Storing(j, s.acc.fd, s.acc.conn)
                                         else Rejecting(s.acc.fd, s.acc.conn))
    decreases |After(n, acts).slots| - After(n, acts).acc.i
  {
    hide Legal, After;
    var s := After(n, acts);
    acts' := Extend(n, acts, Scan);
    if s.acc.i < |s.slots| && s.slots[s.acc.i] != FREE {
      acts' := ScanFinds(n, acts');
    }
  }

  /** No step but a failed creation loses a slot. */
  lemma LostSame(n: nat, s: State, a: Action)
    requires Inv(n, s) && Enabled(s, a) && !a.CreateFails?
    ensures LostSlots(Apply(s, a)) == LostSlots(s)
  {
    hide Responsibility, Descriptors, Pending, LostOpen, Conserved;
  }

  /** A step that is not a failed creation, and what stays the same about lost slots and the number of connections. */
  lemma Go(n: nat, acts: seq<Action>, a: Action) returns (acts': seq<Action>)
    requires Legal(n, acts) && Enabled(After(n, acts), a) && !a.CreateFails?
    ensures acts <= acts' && Legal(n, acts') && After(n, acts') == Apply(After(n, acts), a)
    ensures LostSlots(After(n, acts')) == LostSlots(After(n, acts))
  {
    hide Apply, Enabled, Inv, LostSlots;
    RunInv(n, acts);
    acts' := Extend(n, acts, a);
    LostSame(n, After(n, acts), a);
  }

  /** Handler `t` is gone, its slot is free, and nothing else of all this has changed. */
  ghost predicate Cleared(s: State, s': State, t: nat) {
    && t in s.handlers && s.handlers[t].slot < |s.slots| && s'.slots == s.slots[s.handlers[t].slot := FREE]
    && s'.handlers == s.handlers - {t} && s'.acc == s.acc && s'.open == s.open && s'.closed == s.closed
    && s'.accepted == s.accepted && s'.started == s.started
  }

  /** A handler that has closed its connection can clear its slot. */
  lemma HandlerClears(n: nat, acts: seq<Action>, t: nat) returns (acts': seq<Action>)
    requires Legal(n, acts) && t in After(n, acts).handlers && After(n, acts).handlers[t].phase.Closed?
    ensures acts <= acts' && Legal(n, acts') && LostSlots(After(n, acts')) == LostSlots(After(n, acts))
    ensures Cleared(After(n, acts), After(n, acts'), t)
  {
    var s := After(n, acts);
    RunInv(n, acts);
    hide Legal, After, LostSlots, Responsibility, Descriptors, Pending, LostOpen, Conserved;
    acts' := Go(n, acts, Clear(t));
  }

  /** Handler `t` is gone with its slot free, and its connection has been closed, which was open until then. */
  ghost predicate Ended(s: State, s': State, t: nat) {
    && t in s.handlers && s.handlers[t].slot < |s.slots|
    && OpenAs(s, s.slots[s.handlers[t].slot], s.handlers[t].conn)
    && s'.slots == s.slots[s.handlers[t].slot := FREE] && s'.handlers == s.handlers - {t} && s'.acc == s.acc
    && s'.open == s.open - {s.slots[s.handlers[t].slot]} && s'.closed == s.closed + [s.handlers[t].conn]
    && s'.accepted == s.accepted && s'.started == s.started
  }

  /** What happens to a handler does not depend on its phase. */
  lemma EndedFrom(s: State, r: State, s': State, t: nat, phase: Phase)
    requires t in s.handlers && r == s.(handlers := s.handlers[t := s.handlers[t].(phase := phase)]) && Ended(r, s', t)
    ensures Ended(s, s', t)
  {
    assert r.handlers - {t} == s.handlers - {t};
  }

  lemma EndedByBoth(s: State, r: State, s': State, t: nat)
    requires t in s.handlers && s.handlers[t].slot < |s.slots| && r.slots == s.slots
    requires OpenAs(s, s.slots[s.handlers[t].slot], s.handlers[t].conn)
    requires r.handlers == s.handlers[t := s.handlers[t].(phase := Closed)]
    requires r.open == s.open - {s.slots[s.handlers[t].slot]} && r.closed == s.closed + [s.handlers[t].conn]
    requires r.acc == s.acc && r.accepted == s.accepted && r.started == s.started && Cleared(r, s', t)
    ensures Ended(s, s', t)
  {
    assert r.handlers - {t} == s.handlers - {t};
  }

  lemma ClosingStep(n: nat, s: State, t: nat)
    requires Inv(n, s) && t in s.handlers && s.handlers[t].phase.FetchedToClose?
    ensures Enabled(s, Close(t))
    ensures var s' := Apply(s, Close(t));
            && t in s'.handlers && s'.handlers == s.handlers[t := s.handlers[t].(phase := Closed)]
            && s.handlers[t].slot < |s.slots| && s'.slots == s.slots
            && OpenAs(s, s.slots[s.handlers[t].slot], s.handlers[t].conn)
            && s'.open == s.open - {s.slots[s.handlers[t].slot]} && s'.closed == s.closed + [s.handlers[t].conn]
            && s'.acc == s.acc && s'.accepted == s.accepted && s'.started == s.started
  {
    hide Conserved, LostOpen;
    UsesOwn(n, s, t);
    hide Responsibility, Descriptors;
  }

  /** A handler that is about to close its connection can do that, and then clear its slot. */
  lemma HandlerCloses(n: nat, acts: seq<Action>, t: nat) returns (acts': seq<Action>)
    requires Legal(n, acts) && t in After(n, acts).handlers && After(n, acts).handlers[t].phase.FetchedToClose?
    ensures acts <= acts' && Legal(n, acts') && LostSlots(After(n, acts')) == LostSlots(After(n, acts))
    ensures Ended(After(n, acts), After(n, acts'), t)
  {
    RunInv(n, acts);
    ClosingStep(n, After(n, acts), t);
    hide Legal, After, LostSlots, Inv, Apply, Enabled, Cleared, Ended, OpenAs;
    acts' := Go(n, acts, Close(t));
    var r := After(n, acts');
    acts' := HandlerClears(n, acts', t);
    EndedByBoth(After(n, acts), r, After(n, acts'), t);
  }

  lemma FetchingStep(n: nat, s: State, t: nat)
    requires Inv(n, s) && t in s.handlers && s.handlers[t].phase.Ready?
    ensures s.handlers[t].slot < |s.slots|
    ensures Enabled(s, FetchToClose(t))
    ensures var fd := s.slots[s.handlers[t].slot];
            Apply(s, FetchToClose(t)) == s.(handlers := s.handlers[t := s.handlers[t].(phase := FetchedToClose(fd))])
    ensures Enabled(s, Fetch(t)) && Enabled(Apply(s, Fetch(t)), Use(t)) && Apply(Apply(s, Fetch(t)), Use(t)) == s
    ensures t in Apply(s, Fetch(t)).handlers
    ensures Apply(s, Fetch(t)).handlers[t].phase == Fetched(s.slots[s.handlers[t].slot])
  {
    hide Responsibility, Descriptors, Pending, LostOpen, Conserved;
    assert Apply(Apply(s, Fetch(t)), Use(t)).handlers == s.handlers;
  }

  /** A handler that does not use its slot just now can close its connection and clear the slot. */
  lemma HandlerEnds(n: nat, acts: seq<Action>, t: nat) returns (acts': seq<Action>)
    requires Legal(n, acts) && t in After(n, acts).handlers && After(n, acts).handlers[t].phase.Ready?
    ensures acts <= acts' && Legal(n, acts') && LostSlots(After(n, acts')) == LostSlots(After(n, acts))
    ensures Ended(After(n, acts), After(n, acts'), t)
  {
    RunInv(n, acts);
    FetchingStep(n, After(n, acts), t);
    hide Legal, After, LostSlots, Inv, Apply, Enabled, Ended;
    var s := After(n, acts);
    acts' := Go(n, acts, FetchToClose(t));
    var r := After(n, acts');
    acts' := HandlerCloses(n, acts', t);
    EndedFrom(s, r, After(n, acts'), t, FetchedToClose(s.slots[s.handlers[t].slot]));
  }

  /** A handler can use its slot again and again: a use, once done, leaves everything as it was. */
  lemma UseRepeats(n: nat, acts: seq<Action>, t: nat)
    requires Legal(n, acts) && t in After(n, acts).handlers && After(n, acts).handlers[t].phase.Ready?
    ensures Legal(n, acts + [Fetch(t)]) && Legal(n, acts + [Fetch(t), Use(t)])
    ensures After(n, acts + [Fetch(t), Use(t)]) == After(n, acts)
    ensures var s, f := After(n, acts), After(n, acts + [Fetch(t)]);
            && s.handlers[t].slot < |s.slots| && t in f.handlers
            && f.handlers[t].phase == Fetched(s.slots[s.handlers[t].slot])
  {
    RunInv(n, acts);
    FetchingStep(n, After(n, acts), t);
    hide Legal, After, Inv, Apply, Enabled;
    assert acts + [Fetch(t)] + [Use(t)] == acts + [Fetch(t), Use(t)];
    LastStep(n, acts, Fetch(t));
    LastStep(n, acts + [Fetch(t)], Use(t));
  }

  lemma UsingStep(s: State, t: nat)
    requires t in s.handlers && s.handlers[t].phase.Fetched?
    ensures Enabled(s, Use(t)) && Apply(s, Use(t)) == s.(handlers := s.handlers[t := s.handlers[t].(phase := Ready)])
  {
  }

  /** A handler can end, whatever it is about to do. */
  lemma HandlerGoes(n: nat, acts: seq<Action>, t: nat) returns (acts': seq<Action>)
    requires Legal(n, acts) && t in After(n, acts).handlers
    ensures acts <= acts' && Legal(n, acts') && LostSlots(After(n, acts')) == LostSlots(After(n, acts))
    ensures var s, s' := After(n, acts), After(n, acts');
            s'.handlers == s.handlers - {t} && s'.acc == s.acc && s'.accepted == s.accepted
  {
    var s := After(n, acts);
    if s.handlers[t].phase.Fetched? {
      UsingStep(s, t);
    }
    hide Legal, After, LostSlots, Apply, Enabled;
    if s.handlers[t].phase.Closed? {
      acts' := HandlerClears(n, acts, t);
    } else if s.handlers[t].phase.FetchedToClose? {
      acts' := HandlerCloses(n, acts, t);
    } else {
      acts' := acts;
      if s.handlers[t].phase.Fetched? {
        acts' := Go(n, acts, Use(t));
      }
      acts' := HandlerEnds(n, acts', t);
    }
  }

  lemma {:induction false} HandlersGo(n: nat, acts: seq<Action>) returns (acts': seq<Action>)
    requires Legal(n, acts)
    ensures acts <= acts' && Legal(n, acts')
    ensures var s, s' := After(n, acts), After(n, acts');
            s'.handlers == map[] && s'.acc == s.acc && s'.accepted == s.accepted && LostSlots(s') == LostSlots(s)
    decreases |After(n, acts).handlers|
  {
    hide Legal, LostSlots;
    var s := After(n, acts);
    hide After;
    acts' := acts;
    if t :| t in s.handlers {
      acts' := HandlerGoes(n, acts, t);
      assert (s.handlers - {t}).Keys == s.handlers.Keys - {t};
      acts' := HandlersGo(n, acts');
    }
  }

  lemma SameOwners(s: State, s': State)
    requires s'.owner == s.owner
    ensures LostSlots(s') == LostSlots(s)
  {
  }

  /** A connection that has been given a slot can be given its handler. */
  lemma StoringGoes(n: nat, acts: seq<Action>) returns (acts': seq<Action>)
    requires Legal(n, acts) && (After(n, acts).acc.Storing? || After(n, acts).acc.Creating?)
    ensures acts <= acts' && Legal(n, acts')
    ensures var s, s' := After(n, acts), After(n, acts');
            s'.acc.Accepting? && s'.accepted == s.accepted && LostSlots(s') == LostSlots(s)
  {
    RunInv(n, acts);
    hide Legal, After, LostSlots, Responsibility, Descriptors, Pending, LostOpen, Conserved;
    acts' := acts;
    if After(n, acts).acc.Storing? {
      acts' := Go(n, acts, Store);
    }
    acts' := Go(n, acts', Create);
  }

  /** The acceptor can finish with its connection. */
  lemma AcceptorGoes(n: nat, acts: seq<Action>) returns (acts': seq<Action>)
    requires Legal(n, acts)
    ensures acts <= acts' && Legal(n, acts')
    ensures var s, s' := After(n, acts), After(n, acts');
            s'.acc.Accepting? && s'.accepted == s.accepted && LostSlots(s') == LostSlots(s)
  {
    var s := After(n, acts);
    RunInv(n, acts);
    hide Legal, After, LostSlots, Responsibility, Descriptors, Pending, LostOpen, Conserved;
    acts' := acts;
    if s.acc.Scanning? {
      acts' := ScanFinds(n, acts);
      SameOwners(s, After(n, acts'));
    }
    if After(n, acts').acc.Rejecting? {
      acts' := Go(n, acts', Reject);
    } else if !s.acc.Accepting? {
      acts' := StoringGoes(n, acts');
    }
  }

  /** Slot `i` was lost while it held connection `conn`. */
  predicate LostWith(s: State, i: nat, conn: nat) {
    i in LostSlots(s) && i < |s.slots| && OpenAs(s, s.slots[i], conn)
  }

  lemma OnlyLostOccupied(n: nat, s: State)
    requires Inv(n, s) && s.acc.Accepting? && s.handlers == map[]
    ensures Occupied(s) == LostSlots(s)
  {
    hide Responsibility, Descriptors, Pending, LostOpen, Conserved;
  }

  lemma AtRest(n: nat, s: State)
    requires Inv(n, s) && s.acc.Accepting? && s.handlers == map[]
    ensures Occupied(s) == LostSlots(s)
    ensures forall conn: nat :: conn < s.accepted && conn !in s.closed ==> exists i :: LostWith(s, i, conn)
  {
    OnlyLostHeld(n, s);
    OnlyLostOccupied(n, s);
    forall conn: nat | conn < s.accepted && conn !in s.closed ensures exists i :: LostWith(s, i, conn) {
      hide Ownership, LostSlots, Occupied, LostOpen, Pending;
      assert conn in s.holder;
      assert LostWith(s, s.holder[conn].i, conn);
    }
  }

  /**
   * From every state a run can reach, the server can come to rest without accepting anything: the acceptor waits,
   * no handler is left, and exactly the lost slots are still occupied.
   */
  lemma CanDrain(n: nat, acts: seq<Action>) returns (acts': seq<Action>)
    requires Legal(n, acts)
    ensures acts <= acts' && Legal(n, acts')
    ensures var s, s' := After(n, acts), After(n, acts');
            && s'.acc.Accepting? && s'.handlers == map[] && s'.accepted == s.accepted
            && Occupied(s') == LostSlots(s') == LostSlots(s)
            && forall conn: nat :: conn < s.accepted && conn !in s'.closed ==> exists i :: LostWith(s', i, conn)
  {
    hide Legal, After, LostSlots, Occupied;
    acts' := AcceptorGoes(n, acts);
    acts' := HandlersGo(n, acts');
    RunInv(n, acts');
    AtRest(n, After(n, acts'));
  }

  lemma {:induction false} Above(open: map<int, nat>) returns (k: nat)
    ensures forall f :: f in open ==> f < k
  {
    if f :| f in open {
      var k' := Above(open - {f});
      k := if f < k' then k' else f + 1;
      forall g | g in open ensures g < k {
        assert g != f ==> g in open - {f};
      }
    } else {
      k := 0;
    }
  }

  lemma StartedStep(s: State, a: Action)
    requires Enabled(s, a)
    ensures Apply(s, a).started >= s.started
  {
  }

  lemma {:induction false} StartedGrows(n: nat, acts: seq<Action>, acts': seq<Action>)
    requires Legal(n, acts') && acts <= acts'
    ensures Legal(n, acts) && After(n, acts').started >= After(n, acts).started
  {
    hide Apply, Enabled;
    if acts == acts' {
    } else {
      var front := acts'[..|acts'| - 1];
      assert acts <= front;
      StartedGrows(n, acts, front);
      StartedStep(After(n, front), acts'[|acts'| - 1]);
    }
  }

  function UpTo(n: nat): (xs: set<nat>)
    ensures |xs| == n && forall i: nat :: i in xs <==> i < n
  {
    if n == 0 then {} else UpTo(n - 1) + {n - 1}
  }

  lemma SomeFree(s: State)
    requires |Occupied(s)| < |s.slots|
    ensures FirstFree(s.slots, 0) < |s.slots|
  {
    assert FirstFree(s.slots, 0) == |s.slots| ==> Occupied(s) == UpTo(|s.slots|);
  }

  /** If not every slot is lost, the server can still take a connection and start a handler for it. */
  lemma CanServe(n: nat, acts: seq<Action>) returns (acts': seq<Action>)
    requires Legal(n, acts) && |LostSlots(After(n, acts))| < n
    ensures acts <= acts' && Legal(n, acts')
    ensures After(n, acts').started > After(n, acts).started
  {
    hide Legal, After, LostSlots, Occupied, Responsibility, Descriptors, Pending, LostOpen, Conserved;
    acts' := CanDrain(n, acts);
    StartedGrows(n, acts, acts');
    RunInv(n, acts');
    SomeFree(After(n, acts'));
    var k := Above(After(n, acts').open);
    acts' := Extend(n, acts', Accept(k));
    acts' := ScanFinds(n, acts');
    acts' := Extend(n, acts', Store);
    acts' := Extend(n, acts', Create);
  }

  lemma LostHeld(n: nat, s: State)
    requires Ownership(n, s) && LostSlots(s) == UpTo(n)
    ensures forall i: nat :: i < n ==> i in s.owner && s.owner[i].Lost? && i < |s.slots| && s.slots[i] != FREE
  {
    forall i: nat | i < n ensures i in s.owner && s.owner[i].Lost? {
      assert i in UpTo(n);
    }
  }

  lemma NoneToStore(n: nat, s: State)
    requires Ownership(n, s) && LostSlots(s) == UpTo(n)
    ensures !s.acc.Storing? && !s.acc.Creating?
  {
    LostHeld(n, s);
  }

  lemma OnlyCreateStarts(s: State, a: Action)
    requires Enabled(s, a) && !s.acc.Creating?
    ensures Apply(s, a).started == s.started && !a.CreateFails?
  {
  }

  /** Where all slots are lost, no slot is ever stored in again, and no handler created. */
  lemma AllLostStep(n: nat, s: State, a: Action)
    requires Inv(n, s) && Enabled(s, a) && LostSlots(s) == UpTo(n)
    ensures Apply(s, a).started == s.started && LostSlots(Apply(s, a)) == UpTo(n)
  {
    hide Apply, Enabled, LostSlots, Ownership, Responsibility, Descriptors, Pending, LostOpen, Conserved;
    NoneToStore(n, s);
    OnlyCreateStarts(s, a);
    LostSame(n, s, a);
  }

  lemma {:induction false} NeverServes(n: nat, acts: seq<Action>, acts': seq<Action>)
    requires Legal(n, acts') && acts <= acts' && Legal(n, acts) && LostSlots(After(n, acts)) == UpTo(n)
    ensures After(n, acts').started == After(n, acts).started && LostSlots(After(n, acts')) == UpTo(n)
  {
    hide LostSlots, UpTo, Apply, Enabled, Inv;
    if acts == acts' {
    } else {
      var front := acts'[..|acts'| - 1];
      assert acts <= front;
      NeverServes(n, acts, front);
      RunInv(n, front);
      AllLostStep(n, After(n, front), acts'[|acts'| - 1]);
    }
  }

  lemma {:induction false} SubsetSize(xs: set<nat>, ys: set<nat>)
    requires xs <= ys
    ensures |xs| <= |ys|
  {
    if x :| x in xs {
      SubsetSize(xs - {x}, ys - {x});
    } else {
      assert xs == {};
    }
  }

  lemma {:induction false} AllLost(n: nat, lost: set<nat>)
    requires (forall i :: i in lost ==> i < n) && |lost| >= n
    ensures lost == UpTo(n)
  {
    if i: nat :| i < n && i !in lost {
      assert lost <= UpTo(n) - {i};
      SubsetSize(lost, UpTo(n) - {i});
    }
  }

  lemma LostBelow(n: nat, s: State)
    requires Inv(n, s)
    ensures forall i :: i in LostSlots(s) ==> i < n
  {
  }

  /** The server can serve once more if and only if not every slot has been lost to a failed creation. */
  lemma CanServeIff(n: nat, acts: seq<Action>)
    requires Legal(n, acts)
    ensures (exists acts' :: acts <= acts' && Legal(n, acts') && After(n, acts').started > After(n, acts).started)
       <==> |LostSlots(After(n, acts))| < n
  {
    hide Legal, After, LostSlots, Inv;
    RunInv(n, acts);
    if |LostSlots(After(n, acts))| < n {
      var acts' := CanServe(n, acts);
    } else {
      LostBelow(n, After(n, acts));
      AllLost(n, LostSlots(After(n, acts)));
      forall acts' | acts <= acts' && Legal(n, acts') ensures After(n, acts').started == After(n, acts).started {
        NeverServes(n, acts, acts');
      }
    }
  }
}
