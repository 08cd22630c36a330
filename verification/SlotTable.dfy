/**
 * The server's slot table. One acceptor task scans the table without a lock while handler tasks use their
 * slots and free them, in any interleaving: every shared read, shared write and socket call is one step.
 */
module SlotTable {

  const FREE := -1

  /** Where the acceptor is; `fd` is its local `tempS`, `conn` numbers the connection it has accepted. */
  datatype Acceptor =
    | Accepting
    | Scanning(i: nat, fd: int, conn: nat)
    | Rejecting(fd: int, conn: nat)
    | Storing(i: nat, fd: int, conn: nat)
    | Creating(i: nat, conn: nat)

  /** Where a handler is; a fetched value has been read from the table and is about to be used. */
  datatype Phase = Ready | Fetched(fd: int) | FetchedToClose(fd: int) | Closed

  datatype Handler = Handler(slot: nat, conn: nat, phase: Phase)

  /** Who is responsible: the acceptor, a handler, or nobody since the handler of slot `i` was not created. */
  datatype Party = Main | Task(t: nat) | Lost(i: nat)

  /**
   * `open` maps every open descriptor to its connection, and `closed` lists connections in the order they
   * were closed. `owner` (of a slot) and `holder` (of a connection) are bookkeeping that no step reads.
   */
  datatype State = State(
    slots: seq<int>,
    acc: Acceptor,
    handlers: map<nat, Handler>,
    started: nat,
    open: map<int, nat>,
    accepted: nat,
    closed: seq<nat>,
    owner: map<nat, Party>,
    holder: map<nat, Party>)

  datatype Action =
    | Accept(fd: int)
    | AcceptFails
    | Scan
    | Reject
    | Store
    | Create
    | CreateFails
    | Fetch(t: nat)
    | Use(t: nat)
    | FetchToClose(t: nat)
    | Close(t: nat)
    | Clear(t: nat)

  function Init(n: nat): State {
    State(seq(n, _ => FREE), Accepting, map[], 0, map[], 0, [], map[], map[])
  }

  /** Accepting returns a number that is not open; it may have been open before. */
  predicate Enabled(s: State, a: Action) {
    match a
    case Accept(fd) => s.acc.Accepting? && fd >= 0 && fd !in s.open
    case AcceptFails => s.acc.Accepting?
    case Scan => s.acc.Scanning? && s.acc.i <= |s.slots|
    case Reject => s.acc.Rejecting?
    case Store => s.acc.Storing? && s.acc.i < |s.slots|
    case Create => s.acc.Creating?
    case CreateFails => s.acc.Creating?
    case Fetch(t) => t in s.handlers && s.handlers[t].phase.Ready? && s.handlers[t].slot < |s.slots|
    case Use(t) => t in s.handlers && s.handlers[t].phase.Fetched?
    case FetchToClose(t) => t in s.handlers && s.handlers[t].phase.Ready? && s.handlers[t].slot < |s.slots|
    case Close(t) => t in s.handlers && s.handlers[t].phase.FetchedToClose?
    case Clear(t) => t in s.handlers && s.handlers[t].phase.Closed? && s.handlers[t].slot < |s.slots|
  }

  /** Closing a descriptor closes whatever connection it stands for at that moment. */
  function CloseFd(s: State, fd: int): State {
    if fd in s.open then
      s.(open := s.open - {fd}, closed := s.closed + [s.open[fd]], holder := s.holder - {s.open[fd]})
    else
      s
  }

  function SetPhase(s: State, t: nat, phase: Phase): State
    requires t in s.handlers
  {
    s.(handlers := s.handlers[t := s.handlers[t].(phase := phase)])
  }

  function Apply(s: State, a: Action): State
    requires Enabled(s, a)
  {
    match a
    case Accept(fd) =>
      s.(acc := Scanning(0, fd, s.accepted), open := s.open[fd := s.accepted], accepted := s.accepted + 1,
         holder := s.holder[s.accepted := Main])
    case AcceptFails => s
    case Scan =>
      var Scanning(i, fd, conn) := s.acc;
      if i == |s.slots| then s.(acc := Rejecting(fd, conn))
      else if s.slots[i] == FREE then s.(acc := Storing(i, fd, conn))
      else s.(acc := Scanning(i + 1, fd, conn))
    case Reject => CloseFd(s, s.acc.fd).(acc := Accepting)
    case Store =>
      s.(slots := s.slots[s.acc.i := s.acc.fd], acc := Creating(s.acc.i, s.acc.conn), owner := s.owner[s.acc.i := Main])
    case Create =>
      s.(handlers := s.handlers[s.started := Handler(s.acc.i, s.acc.conn, Ready)],
         started := s.started + 1, acc := Accepting,
         owner := s.owner[s.acc.i := Task(s.started)], holder := s.holder[s.acc.conn := Task(s.started)])
    case CreateFails =>
      s.(acc := Accepting, owner := s.owner[s.acc.i := Lost(s.acc.i)], holder := s.holder[s.acc.conn := Lost(s.acc.i)])
    case Fetch(t) => SetPhase(s, t, Fetched(s.slots[s.handlers[t].slot]))
    case Use(t) => SetPhase(s, t, Ready)
    case FetchToClose(t) => SetPhase(s, t, FetchedToClose(s.slots[s.handlers[t].slot]))
    case Close(t) => SetPhase(CloseFd(s, s.handlers[t].phase.fd), t, Closed)
    case Clear(t) =>
      s.(slots := s.slots[s.handlers[t].slot := FREE], handlers := s.handlers - {t},
         owner := s.owner - {s.handlers[t].slot})
  }

  /** `acts` can happen in this order from the start. */
  predicate Legal(n: nat, acts: seq<Action>)
    decreases |acts|, 0
  {
    acts == [] || (Legal(n, acts[..|acts| - 1]) && Enabled(After(n, acts[..|acts| - 1]), acts[|acts| - 1]))
  }

  function After(n: nat, acts: seq<Action>): State
    requires Legal(n, acts)
    decreases |acts|, 1
  {
    if acts == [] then Init(n) else Apply(After(n, acts[..|acts| - 1]), acts[|acts| - 1])
  }

  // The invariant.

  predicate Live(s: State, t: nat) {
    t in s.handlers && !s.handlers[t].phase.Closed?
  }

  /** Exactly the occupied slots have an owner, and owners and their slots point at each other. */
  ghost predicate Ownership(n: nat, s: State) {
    && |s.slots| == n
    && (forall i: nat :: i in s.owner <==> i < n && s.slots[i] != FREE)
    && (forall t :: t in s.handlers ==>
          t < s.started && s.handlers[t].slot in s.owner && s.owner[s.handlers[t].slot] == Task(t))
    && (forall i :: i in s.owner && s.owner[i].Task? ==>
          s.owner[i].t in s.handlers && s.handlers[s.owner[i].t].slot == i)
    && (forall i :: i in s.owner && s.owner[i].Main? ==> s.acc.Creating? && s.acc.i == i)
    && (forall i :: i in s.owner && s.owner[i].Lost? ==> s.owner[i].i == i)
    && (s.acc.Creating? ==> s.acc.i in s.owner && s.owner[s.acc.i] == Main)
    && (s.acc.Scanning? ==> s.acc.i <= n)
    && (s.acc.Storing? ==> s.acc.i < n && s.slots[s.acc.i] == FREE)
    && (s.acc.Scanning? || s.acc.Rejecting? || s.acc.Storing? ==> s.acc.fd >= 0)
  }

  /** Where a party keeps the descriptor of the connection it is responsible for. */
  function Descriptor(s: State, p: Party): int {
    match p
    case Main =>
      if s.acc.Accepting? then FREE
      else if !s.acc.Creating? then s.acc.fd
      else if s.acc.i < |s.slots| then s.slots[s.acc.i] else FREE
    case Task(t) => if t in s.handlers && s.handlers[t].slot < |s.slots| then s.slots[s.handlers[t].slot] else FREE
    case Lost(i) => if i < |s.slots| then s.slots[i] else FREE
  }

  /** Connections and the parties responsible for them point at each other. */
  ghost predicate Responsibility(s: State) {
    && (forall c :: c in s.holder && s.holder[c].Main? ==> !s.acc.Accepting? && s.acc.conn == c)
    && (forall c :: c in s.holder && s.holder[c].Task? ==>
          Live(s, s.holder[c].t) && s.handlers[s.holder[c].t].conn == c)
    && (forall c :: c in s.holder && s.holder[c].Lost? ==>
          s.holder[c].i in s.owner && s.owner[s.holder[c].i] == s.holder[c])
    && (!s.acc.Accepting? ==> s.acc.conn in s.holder && s.holder[s.acc.conn] == Main)
    && (forall t :: Live(s, t) ==> s.handlers[t].conn in s.holder && s.holder[s.handlers[t].conn] == Task(t))
  }

  /** The descriptor of every open connection is where the party responsible for it keeps it. */
  ghost predicate Descriptors(s: State) {
    && (forall c :: c in s.holder ==> Descriptor(s, s.holder[c]) in s.open && s.open[Descriptor(s, s.holder[c])] == c)
    && (forall fd :: fd in s.open ==> s.open[fd] in s.holder && Descriptor(s, s.holder[s.open[fd]]) == fd)
  }

  /** A descriptor that a live handler has fetched is still the one in its slot. */
  ghost predicate Pending(s: State) {
    forall t :: Live(s, t) && !s.handlers[t].phase.Ready? ==> s.handlers[t].phase.fd == Descriptor(s, Task(t))
  }

  /** A lost slot still holds the open descriptor of the connection that was stored in it. */
  ghost predicate LostOpen(s: State) {
    forall i :: i in s.owner && s.owner[i].Lost? ==>
      i < |s.slots| && s.slots[i] in s.open && s.open[s.slots[i]] in s.holder && s.holder[s.open[s.slots[i]]] == Lost(i)
  }

  /** Every accepted connection is either open or closed, and closed only once. */
  ghost predicate Conserved(s: State) {
    && (forall c: nat :: c < s.accepted <==> c in s.holder || c in s.closed)
    && (forall c :: c in s.holder ==> c !in s.closed)
    && (forall j, k :: 0 <= j < k < |s.closed| ==> s.closed[j] != s.closed[k])
  }

  ghost predicate Inv(n: nat, s: State) {
    Ownership(n, s) && Responsibility(s) && Descriptors(s) && Pending(s) && LostOpen(s) && Conserved(s)
  }

  lemma InitInv(n: nat)
    ensures Inv(n, Init(n))
  {
  }

  /** Whatever descriptor a live handler has fetched is open, and stands for the handler's own connection. */
  lemma UsesOwn(n: nat, s: State, t: nat)
    requires Inv(n, s) && Live(s, t) && !s.handlers[t].phase.Ready?
    ensures s.handlers[t].phase.fd in s.open && s.open[s.handlers[t].phase.fd] == s.handlers[t].conn
    ensures s.handlers[t].conn in s.holder && s.holder[s.handlers[t].conn] == Task(t)
  {
    hide Conserved, Ownership, LostOpen;
    assert s.holder[s.handlers[t].conn] == Task(t);
  }

  /** Parties and connections go on pointing at each other while neither changes. */
  lemma ResponsibilityKept(s: State, s': State)
    requires Responsibility(s) && s'.holder == s.holder
    requires s'.acc.Accepting? == s.acc.Accepting? && (!s.acc.Accepting? ==> s'.acc.conn == s.acc.conn)
    requires forall t :: Live(s', t) == Live(s, t) && (Live(s, t) ==> s'.handlers[t].conn == s.handlers[t].conn)
    requires forall i :: i in s.owner && s.owner[i].Lost? ==> i in s'.owner && s'.owner[i] == s.owner[i]
    ensures Responsibility(s')
  {
  }

  /** Nothing moves that a party relies on. */
  lemma DescriptorsKept(s: State, s': State)
    requires Descriptors(s) && s'.holder == s.holder && s'.open == s.open
    requires forall c :: c in s.holder ==> Descriptor(s', s.holder[c]) == Descriptor(s, s.holder[c])
    ensures Descriptors(s')
  {
    hide Descriptor;
  }

  lemma SlotsKept(s: State, s': State)
    requires s'.slots == s.slots && s'.acc == s.acc && s'.handlers.Keys == s.handlers.Keys
    requires forall t :: t in s.handlers ==> s'.handlers[t].slot == s.handlers[t].slot
    ensures forall p :: Descriptor(s', p) == Descriptor(s, p)
  {
  }

  /** One descriptor is closed, and nothing else moves that a party relies on. */
  lemma DescriptorsClosed(s: State, s': State, fd: int)
    requires Descriptors(s) && fd in s.open
    requires s'.open == s.open - {fd} && s'.holder == s.holder - {s.open[fd]}
    requires forall c :: c in s'.holder ==> Descriptor(s', s.holder[c]) == Descriptor(s, s.holder[c])
    ensures Descriptors(s')
  {
    hide Descriptor;
  }

  /** One descriptor is opened for a connection that the acceptor takes. */
  lemma DescriptorsOpened(s: State, s': State, fd: int, conn: nat)
    requires Descriptors(s) && fd !in s.open && conn !in s.holder
    requires s'.open == s.open[fd := conn] && s'.holder == s.holder[conn := Main] && Descriptor(s', Main) == fd
    requires forall c :: c in s.holder ==> Descriptor(s', s.holder[c]) == Descriptor(s, s.holder[c])
    ensures Descriptors(s')
  {
    hide Descriptor;
  }

  /** The acceptor hands its connection to another party, and waits again. */
  lemma ResponsibilityGiven(s: State, s': State, p: Party)
    requires Responsibility(s) && s.acc.Creating? && s'.acc.Accepting? && !p.Main?
    requires s'.holder == s.holder[s.acc.conn := p]
    requires forall t :: Live(s', t) <==> Live(s, t) || p == Task(t)
    requires forall t :: Live(s, t) && Live(s', t) ==> s'.handlers[t].conn == s.handlers[t].conn
    requires p.Task? ==> !Live(s, p.t) && Live(s', p.t) && s'.handlers[p.t].conn == s.acc.conn
    requires forall i :: i in s.owner && s.owner[i].Lost? ==> i in s'.owner && s'.owner[i] == s.owner[i]
    requires p.Lost? ==> p.i in s'.owner && s'.owner[p.i] == p
    ensures Responsibility(s')
  {
  }

  predicate ByHandler(a: Action) {
    a.Fetch? || a.Use? || a.FetchToClose? || a.Close? || a.Clear?
  }

  /** The acceptor's steps that change who owns a slot. */
  predicate Assigns(a: Action) {
    a.Store? || a.Create? || a.CreateFails?
  }

  lemma AssigningLostOpen(n: nat, s: State, a: Action)
    requires Inv(n, s) && Enabled(s, a) && Assigns(a)
    ensures LostOpen(Apply(s, a))
  {
    hide Pending, Conserved;
  }

  lemma RejectLostOpen(n: nat, s: State, a: Action)
    requires Inv(n, s) && Enabled(s, a) && a.Reject?
    ensures LostOpen(Apply(s, a))
  {
    hide Pending, Conserved;
    assert s.holder[s.acc.conn] == Main;
    hide Responsibility;
  }

  lemma AcceptLostOpen(n: nat, s: State, a: Action)
    requires Inv(n, s) && Enabled(s, a) && (a.Accept? || a.AcceptFails? || a.Scan?)
    ensures LostOpen(Apply(s, a))
  {
    hide Pending, Responsibility, Descriptors;
  }

  lemma AcceptorLostOpen(n: nat, s: State, a: Action)
    requires Inv(n, s) && Enabled(s, a) && !ByHandler(a) && !Assigns(a)
    ensures LostOpen(Apply(s, a))
  {
    hide Inv, Apply, Enabled, LostOpen;
    if a.Reject? {
      RejectLostOpen(n, s, a);
    } else {
      AcceptLostOpen(n, s, a);
    }
  }

  lemma HandlerLostOpen(n: nat, s: State, a: Action)
    requires Inv(n, s) && Enabled(s, a) && ByHandler(a)
    ensures LostOpen(Apply(s, a))
  {
    hide Conserved, Descriptors, Responsibility, Pending;
    if a.Close? {
      UsesOwn(n, s, a.t);
    }
  }

  lemma AcceptorPending(n: nat, s: State, a: Action)
    requires Inv(n, s) && Enabled(s, a) && !ByHandler(a)
    ensures Pending(Apply(s, a))
  {
    hide Conserved, Descriptors, Responsibility, LostOpen;
  }

  lemma HandlerPending(n: nat, s: State, a: Action)
    requires Inv(n, s) && Enabled(s, a) && ByHandler(a)
    ensures Pending(Apply(s, a))
  {
    hide Conserved, Descriptors, Responsibility, LostOpen;
  }

  lemma AcceptResponsibility(n: nat, s: State, a: Action)
    requires Inv(n, s) && Enabled(s, a) && a.Accept?
    ensures Responsibility(Apply(s, a))
  {
    hide Descriptors, Pending, LostOpen;
  }

  lemma AcceptDescriptors(n: nat, s: State, a: Action)
    requires Inv(n, s) && Enabled(s, a) && a.Accept?
    ensures Descriptors(Apply(s, a))
  {
    hide Pending, LostOpen, Ownership, Descriptors;
    DescriptorsOpened(s, Apply(s, a), a.fd, s.accepted);
  }

  lemma ScanResponsibility(n: nat, s: State, a: Action)
    requires Inv(n, s) && Enabled(s, a) && a.Scan?
    ensures Responsibility(Apply(s, a))
  {
    hide Conserved, Ownership, Responsibility, Descriptors, Pending, LostOpen;
    ResponsibilityKept(s, Apply(s, a));
  }

  lemma ScanDescriptors(n: nat, s: State, a: Action)
    requires Inv(n, s) && Enabled(s, a) && a.Scan?
    ensures Descriptors(Apply(s, a))
  {
    hide Conserved, Ownership, Responsibility, Descriptors, Pending, LostOpen;
    DescriptorsKept(s, Apply(s, a));
  }

  lemma RejectResponsibility(n: nat, s: State, a: Action)
    requires Inv(n, s) && Enabled(s, a) && a.Reject?
    ensures Responsibility(Apply(s, a))
  {
    hide Conserved, Pending, LostOpen;
  }

  lemma RejectDescriptors(n: nat, s: State, a: Action)
    requires Inv(n, s) && Enabled(s, a) && a.Reject?
    ensures Descriptors(Apply(s, a))
  {
    var s' := Apply(s, a);
    assert s.acc.fd in s.open && s.open[s.acc.fd] == s.acc.conn by {
      hide Conserved, Pending, LostOpen, Ownership;
      assert s.holder[s.acc.conn] == Main;
    }
    hide Conserved, Pending, LostOpen, Ownership, Descriptors;
    DescriptorsClosed(s, s', s.acc.fd);
  }

  lemma StoreResponsibility(n: nat, s: State, a: Action)
    requires Inv(n, s) && Enabled(s, a) && a.Store?
    ensures Responsibility(Apply(s, a))
  {
    hide Conserved, Responsibility, Descriptors, Pending, LostOpen;
    ResponsibilityKept(s, Apply(s, a));
  }

  lemma StoreDescriptors(n: nat, s: State, a: Action)
    requires Inv(n, s) && Enabled(s, a) && a.Store?
    ensures Descriptors(Apply(s, a))
  {
    hide Conserved, Descriptors, Pending, LostOpen;
    DescriptorsKept(s, Apply(s, a));
  }

  lemma CreateResponsibility(n: nat, s: State, a: Action)
    requires Inv(n, s) && Enabled(s, a) && a.Create?
    ensures Responsibility(Apply(s, a))
  {
    hide Descriptors, Pending, LostOpen, Conserved, Responsibility;
    ResponsibilityGiven(s, Apply(s, a), Task(s.started));
  }

  lemma CreateDescriptors(n: nat, s: State, a: Action)
    requires Inv(n, s) && Enabled(s, a) && a.Create?
    ensures Descriptors(Apply(s, a))
  {
    hide Conserved, Pending, LostOpen;
  }

  lemma CreateFailsResponsibility(n: nat, s: State, a: Action)
    requires Inv(n, s) && Enabled(s, a) && a.CreateFails?
    ensures Responsibility(Apply(s, a))
  {
    hide Descriptors, Pending, LostOpen, Conserved, Responsibility;
    ResponsibilityGiven(s, Apply(s, a), Lost(s.acc.i));
  }

  lemma CreateFailsDescriptors(n: nat, s: State, a: Action)
    requires Inv(n, s) && Enabled(s, a) && a.CreateFails?
    ensures Descriptors(Apply(s, a))
  {
    hide Conserved, Pending, LostOpen;
  }

  lemma PhaseResponsibility(n: nat, s: State, a: Action)
    requires Inv(n, s) && Enabled(s, a) && (a.Fetch? || a.Use? || a.FetchToClose?)
    ensures Responsibility(Apply(s, a))
  {
    hide Conserved, Ownership, Responsibility, Descriptors, Pending, LostOpen;
    ResponsibilityKept(s, Apply(s, a));
  }

  lemma PhaseDescriptors(n: nat, s: State, a: Action)
    requires Inv(n, s) && Enabled(s, a) && (a.Fetch? || a.Use? || a.FetchToClose?)
    ensures Descriptors(Apply(s, a))
  {
    hide Conserved, Ownership, Responsibility, Descriptors, Pending, LostOpen;
    DescriptorsKept(s, Apply(s, a));
  }

  lemma CloseResponsibility(n: nat, s: State, a: Action)
    requires Inv(n, s) && Enabled(s, a) && a.Close?
    ensures Responsibility(Apply(s, a))
  {
    hide Conserved, LostOpen;
    UsesOwn(n, s, a.t);
    hide Pending, LostOpen;
  }

  lemma CloseDescriptors(n: nat, s: State, a: Action)
    requires Inv(n, s) && Enabled(s, a) && a.Close?
    ensures Descriptors(Apply(s, a))
  {
    hide Conserved, Pending, LostOpen, Ownership, Descriptors, Responsibility;
    UsesOwn(n, s, a.t);
    SlotsKept(s, Apply(s, a));
    DescriptorsClosed(s, Apply(s, a), s.handlers[a.t].phase.fd);
  }

  lemma ClearResponsibility(n: nat, s: State, a: Action)
    requires Inv(n, s) && Enabled(s, a) && a.Clear?
    ensures Responsibility(Apply(s, a))
  {
    hide Conserved, Responsibility, Descriptors, Pending, LostOpen;
    ResponsibilityKept(s, Apply(s, a));
  }

  lemma ClearDescriptors(n: nat, s: State, a: Action)
    requires Inv(n, s) && Enabled(s, a) && a.Clear?
    ensures Descriptors(Apply(s, a))
  {
    hide Conserved, Descriptors, Pending, LostOpen;
    DescriptorsKept(s, Apply(s, a));
  }

  lemma StoreOwnership(n: nat, s: State, a: Action)
    requires Ownership(n, s) && Enabled(s, a) && a.Store?
    ensures Ownership(n, Apply(s, a))
  {
  }

  lemma CreateOwnership(n: nat, s: State, a: Action)
    requires Ownership(n, s) && Enabled(s, a) && a.Create?
    ensures Ownership(n, Apply(s, a))
  {
  }

  lemma CreateFailsOwnership(n: nat, s: State, a: Action)
    requires Ownership(n, s) && Enabled(s, a) && a.CreateFails?
    ensures Ownership(n, Apply(s, a))
  {
  }

  lemma AssigningOwnership(n: nat, s: State, a: Action)
    requires Ownership(n, s) && Enabled(s, a) && Assigns(a)
    ensures Ownership(n, Apply(s, a))
  {
    hide Ownership, Apply, Enabled;
    if a.Store? {
      StoreOwnership(n, s, a);
    } else if a.Create? {
      CreateOwnership(n, s, a);
    } else {
      CreateFailsOwnership(n, s, a);
    }
  }

  lemma AcceptorOwnership(n: nat, s: State, a: Action)
    requires Ownership(n, s) && Enabled(s, a) && !ByHandler(a) && !Assigns(a)
    ensures Ownership(n, Apply(s, a))
  {
  }

  lemma ClearOwnership(n: nat, s: State, a: Action)
    requires Ownership(n, s) && Enabled(s, a) && a.Clear?
    ensures Ownership(n, Apply(s, a))
  {
  }

  lemma HandlerOwnership(n: nat, s: State, a: Action)
    requires Ownership(n, s) && Enabled(s, a) && ByHandler(a) && !a.Clear?
    ensures Ownership(n, Apply(s, a))
  {
  }

  lemma ClosingConserved(n: nat, s: State, a: Action)
    requires Inv(n, s) && Enabled(s, a) && (a.Close? || a.Reject?)
    ensures Conserved(Apply(s, a))
  {
    hide Pending, LostOpen;
  }

  lemma StepConserved(n: nat, s: State, a: Action)
    requires Inv(n, s) && Enabled(s, a) && !a.Close? && !a.Reject?
    ensures Conserved(Apply(s, a))
  {
    hide Pending, LostOpen, Descriptors;
  }

  lemma StepInv(n: nat, s: State, a: Action)
    requires Inv(n, s) && Enabled(s, a)
    ensures Inv(n, Apply(s, a))
  {
    hide Ownership, Responsibility, Descriptors, Pending, LostOpen, Conserved;
    if a.Clear? {
      ClearOwnership(n, s, a);
    } else if ByHandler(a) {
      HandlerOwnership(n, s, a);
    } else if Assigns(a) {
      AssigningOwnership(n, s, a);
    } else {
      AcceptorOwnership(n, s, a);
    }
    if a.Close? || a.Reject? { ClosingConserved(n, s, a); } else { StepConserved(n, s, a); }
    if ByHandler(a) {
      HandlerLostOpen(n, s, a);
      HandlerPending(n, s, a);
    } else {
      if Assigns(a) { AssigningLostOpen(n, s, a); } else { AcceptorLostOpen(n, s, a); }
      AcceptorPending(n, s, a);
    }
    match a {
      case Accept(_) => AcceptResponsibility(n, s, a); AcceptDescriptors(n, s, a);
      case AcceptFails =>
      case Scan => ScanResponsibility(n, s, a); ScanDescriptors(n, s, a);
      case Reject => RejectResponsibility(n, s, a); RejectDescriptors(n, s, a);
      case Store => StoreResponsibility(n, s, a); StoreDescriptors(n, s, a);
      case Create => CreateResponsibility(n, s, a); CreateDescriptors(n, s, a);
      case CreateFails => CreateFailsResponsibility(n, s, a); CreateFailsDescriptors(n, s, a);
      case Close(_) => CloseResponsibility(n, s, a); CloseDescriptors(n, s, a);
      case Clear(_) => ClearResponsibility(n, s, a); ClearDescriptors(n, s, a);
      case _ => PhaseResponsibility(n, s, a); PhaseDescriptors(n, s, a);
    }
  }

  lemma {:induction false} RunInv(n: nat, acts: seq<Action>)
    requires Legal(n, acts)
    ensures Inv(n, After(n, acts))
  {
    hide Inv, Apply, Enabled;
    if acts == [] {
      InitInv(n);
    } else {
      var k := |acts| - 1;
      RunInv(n, acts[..k]);
      StepInv(n, After(n, acts[..k]), acts[k]);
    }
  }

  // What follows for every run.

  predicate Owns(s: State, p: Party, i: nat) {
    match p
    case Main => s.acc.Creating? && s.acc.i == i
    case Task(t) => t in s.handlers && s.handlers[t].slot == i
    case Lost(_) => i in s.owner && s.owner[i] == p
  }

  /** A slot is occupied exactly when some party owns it, and then one party only. */
  lemma OccupiedIffOwned(n: nat, acts: seq<Action>, i: nat)
    requires Legal(n, acts) && i < n
    ensures var s := After(n, acts);
            |s.slots| == n && (s.slots[i] != FREE <==> exists p :: Owns(s, p, i))
    ensures forall p, q :: Owns(After(n, acts), p, i) && Owns(After(n, acts), q, i) ==> p == q
  {
    RunInv(n, acts);
    hide After, Legal, Responsibility, Descriptors, Pending, LostOpen, Conserved;
    var s := After(n, acts);
    if i in s.owner {
      assert Owns(s, s.owner[i], i);
    }
  }

  /** The slots whose handler could not be created. */
  function LostSlots(s: State): set<nat> {
    set i | i in s.owner && s.owner[i].Lost?
  }

  function Occupied(s: State): set<nat> {
    set i: nat | i < |s.slots| && s.slots[i] != FREE
  }

  function TaskSlots(owner: map<nat, Party>): set<nat> {
    set i | i in owner && owner[i].Task?
  }

  lemma OwnersPartition(n: nat, s: State)
    requires Ownership(n, s)
    ensures var creating: set<nat> := if s.acc.Creating? then {s.acc.i} else {};
            && Occupied(s) == TaskSlots(s.owner) + LostSlots(s) + creating
            && TaskSlots(s.owner) !! LostSlots(s) && (TaskSlots(s.owner) + LostSlots(s)) !! creating
    ensures forall i :: i in Occupied(s) ==> i < n
  {
  }

  lemma {:induction false} TasksCounted(hs: map<nat, Handler>, owner: map<nat, Party>)
    requires forall t :: t in hs ==> hs[t].slot in owner && owner[hs[t].slot] == Task(t)
    requires forall i :: i in owner && owner[i].Task? ==> owner[i].t in hs && hs[owner[i].t].slot == i
    ensures |hs| == |TaskSlots(owner)|
  {
    if t :| t in hs {
      var i := hs[t].slot;
      TasksCounted(hs - {t}, owner - {i});
      assert TaskSlots(owner - {i}) == TaskSlots(owner) - {i};
      assert (hs - {t}).Keys == hs.Keys - {t};
    } else {
      assert TaskSlots(owner) == {};
    }
  }

  lemma {:induction false} BelowSize(n: nat, xs: set<nat>)
    requires forall i :: i in xs ==> i < n
    ensures |xs| <= n
  {
    if n == 0 {
      if x :| x in xs {
        assert false;
      }
    } else {
      BelowSize(n - 1, xs - {n - 1});
    }
  }

  lemma OwnersCounted(n: nat, s: State)
    requires Ownership(n, s)
    ensures |s.handlers| + |LostSlots(s)| + (if s.acc.Creating? then 1 else 0) == |Occupied(s)| <= n
  {
    TasksCounted(s.handlers, s.owner);
    OwnersPartition(n, s);
    hide Ownership, TaskSlots, LostSlots, Occupied;
    var creating: set<nat> := if s.acc.Creating? then {s.acc.i} else {};
    assert |TaskSlots(s.owner) + LostSlots(s)| == |TaskSlots(s.owner)| + |LostSlots(s)|;
    BelowSize(n, Occupied(s));
  }

  /** Every party that can still touch the table has a slot of its own, so there are never more than slots. */
  lemma HandlersBounded(n: nat, acts: seq<Action>)
    requires Legal(n, acts)
    ensures var s := After(n, acts);
            |s.handlers| + |LostSlots(s)| + (if s.acc.Creating? then 1 else 0) == |Occupied(s)| <= n
  {
    RunInv(n, acts);
    hide After, Legal, Ownership, Responsibility, Descriptors, Pending, LostOpen, Conserved;
    OwnersCounted(n, After(n, acts));
  }

  /** The descriptors that stand for a connection. */
  predicate OpenAs(s: State, fd: int, conn: nat) {
    fd in s.open && s.open[fd] == conn
  }

  lemma LastStep(n: nat, acts: seq<Action>, a: Action)
    ensures Legal(n, acts + [a]) <==> Legal(n, acts) && Enabled(After(n, acts), a)
    ensures Legal(n, acts + [a]) ==> After(n, acts + [a]) == Apply(After(n, acts), a)
  {
    assert (acts + [a])[..|acts + [a]| - 1] == acts;
  }

  /** A handler only ever uses a descriptor that is open and stands for its own connection. */
  lemma UseIsOwn(n: nat, acts: seq<Action>, a: Action)
    requires Legal(n, acts + [a]) && (a.Use? || a.Close?)
    ensures Legal(n, acts) && a.t in After(n, acts).handlers
    ensures var s, h := After(n, acts), After(n, acts).handlers[a.t];
            && !h.phase.Ready? && !h.phase.Closed? && OpenAs(s, h.phase.fd, h.conn) && h.conn !in s.closed
            && (a.Close? ==> After(n, acts + [a]).closed == s.closed + [h.conn])
  {
    LastStep(n, acts, a);
    RunInv(n, acts);
    hide Legal, After, Ownership, Responsibility, Descriptors, Pending, LostOpen;
    UsesOwn(n, After(n, acts), a.t);
  }

  /**
   * From accepting a connection to storing or turning it away, the acceptor's number is open and stands for
   * that connection; so turning away closes it, and no other.
   */
  lemma AcceptorIsOwn(n: nat, acts: seq<Action>)
    requires Legal(n, acts)
    ensures var s := After(n, acts);
            s.acc.Scanning? || s.acc.Rejecting? || s.acc.Storing? ==>
              OpenAs(s, s.acc.fd, s.acc.conn) && s.acc.conn !in s.closed
    ensures Legal(n, acts + [Reject]) ==>
              var s := After(n, acts);
              s.acc.Rejecting? && After(n, acts + [Reject]).closed == s.closed + [s.acc.conn]
  {
    RunInv(n, acts);
    LastStep(n, acts, Reject);
    hide Legal, After, Ownership, Pending, LostOpen;
    var s := After(n, acts);
    if !s.acc.Accepting? && !s.acc.Creating? {
      assert s.holder[s.acc.conn] == Main && Descriptor(s, Main) == s.acc.fd;
    }
  }

  /** Every accepted connection is open under one number, or has been closed once: never both, never twice. */
  lemma ClosedOnce(n: nat, acts: seq<Action>, conn: nat)
    requires Legal(n, acts)
    ensures var s := After(n, acts);
            && (conn < s.accepted <==> conn in s.closed || exists fd :: OpenAs(s, fd, conn))
            && (conn in s.closed ==> !exists fd :: OpenAs(s, fd, conn))
            && (forall fd, fd' :: OpenAs(s, fd, conn) && OpenAs(s, fd', conn) ==> fd == fd')
            && (forall j, k :: 0 <= j < k < |s.closed| ==> s.closed[j] != s.closed[k])
  {
    RunInv(n, acts);
    hide Legal, After, Ownership, Responsibility, Pending, LostOpen;
    var s := After(n, acts);
    if conn in s.holder {
      assert OpenAs(s, Descriptor(s, s.holder[conn]), conn);
    }
  }

  /** Slot `i` belongs to a handler that has closed its connection. */
  predicate ClosedOwner(s: State, t: nat, i: nat) {
    t in s.handlers && s.handlers[t].slot == i && s.handlers[t].phase.Closed?
  }

  /** Until it has been closed, the number in an occupied slot stands for the connection that the slot's owner holds. */
  lemma HeldByOwner(n: nat, s: State, i: nat)
    requires Inv(n, s) && i in s.owner && i < n
    requires s.owner[i].Task? ==> !s.handlers[s.owner[i].t].phase.Closed?
    ensures s.slots[i] in s.open && s.open[s.slots[i]] in s.holder && s.holder[s.open[s.slots[i]]] == s.owner[i]
  {
    hide Pending, Conserved;
    var p := s.owner[i];
    if p.Task? {
      assert s.holder[s.handlers[p.t].conn] == p;
    } else if p.Main? {
      assert s.holder[s.acc.conn] == p;
    }
  }

  /** Two slots may hold the same number, but then one of them is about to be cleared: its handler has closed it. */
  lemma SharedNumber(n: nat, acts: seq<Action>, i: nat, i': nat)
    requires Legal(n, acts) && i < n && i' < n && i != i'
    ensures var s := After(n, acts);
            && |s.slots| == n
            && (s.slots[i] == s.slots[i'] != FREE ==> exists t :: ClosedOwner(s, t, i) || ClosedOwner(s, t, i'))
  {
    RunInv(n, acts);
    hide Legal, After, Responsibility, Descriptors, Pending, LostOpen, Conserved;
    var s := After(n, acts);
    if s.slots[i] == s.slots[i'] != FREE {
      var p, p' := s.owner[i], s.owner[i'];
      if p.Task? && s.handlers[p.t].phase.Closed? {
        assert ClosedOwner(s, p.t, i);
      } else if p'.Task? && s.handlers[p'.t].phase.Closed? {
        assert ClosedOwner(s, p'.t, i');
      } else {
        HeldByOwner(n, s, i);
        HeldByOwner(n, s, i');
      }
    }
  }

  lemma ExtendFrom(n: nat)
    ensures Legal(n, []) && After(n, []) == Init(n)
  {
  }

  lemma Extend(n: nat, acts: seq<Action>, a: Action) returns (acts': seq<Action>)
    requires Legal(n, acts) && Enabled(After(n, acts), a)
    ensures acts' == acts + [a] && Legal(n, acts') && After(n, acts') == Apply(After(n, acts), a)
  {
    acts' := acts + [a];
    LastStep(n, acts, a);
  }

  lemma OneStarted() returns (acts: seq<Action>)
    ensures Legal(2, acts)
    ensures After(2, acts)
         == State([5, FREE], Accepting, map[0 := Handler(0, 0, Ready)], 1, map[5 := 0], 1, [],
                  map[0 := Task(0)], map[0 := Task(0)])
  {
    hide Legal, After;
    acts := [];
    ExtendFrom(2);
    acts := Extend(2, acts, Accept(5));
    acts := Extend(2, acts, Scan);
    acts := Extend(2, acts, Store);
    acts := Extend(2, acts, Create);
  }

  lemma OneClosed() returns (acts: seq<Action>)
    ensures Legal(2, acts)
    ensures After(2, acts)
         == State([5, FREE], Accepting, map[0 := Handler(0, 0, Closed)], 1, map[], 1, [0], map[0 := Task(0)], map[])
  {
    hide Legal, After;
    acts := OneStarted();
    acts := Extend(2, acts, FetchToClose(0));
    acts := Extend(2, acts, Close(0));
  }

  /** That case is real: a number is accepted again before the slot it was closed in has been cleared. */
  lemma SharedNumberHappens()
    ensures exists acts ::
      && Legal(2, acts) && var s := After(2, acts);
      && s.slots == [5, 5] && Live(s, 1) && 0 in s.handlers && s.handlers[0].phase.Closed?
  {
    hide Legal, After;
    var acts := OneClosed();
    acts := Extend(2, acts, Accept(5));
    acts := Extend(2, acts, Scan);
    acts := Extend(2, acts, Scan);
    acts := Extend(2, acts, Store);
    acts := Extend(2, acts, Create);
  }

  /** Slots do get lost. */
  lemma LostHappens()
    ensures exists acts :: Legal(1, acts) && LostSlots(After(1, acts)) == {0} && After(1, acts).open == map[5 := 0]
  {
    hide Legal, After;
    var acts := [];
    ExtendFrom(1);
    acts := Extend(1, acts, Accept(5));
    acts := Extend(1, acts, Scan);
    acts := Extend(1, acts, Store);
    acts := Extend(1, acts, CreateFails);
  }

  lemma LostNow(n: nat, s: State, i: nat)
    requires Inv(n, s) && i in LostSlots(s)
    ensures i < |s.slots| && s.slots[i] != FREE && s.slots[i] in s.open
  {
  }

  /** The lost slot `i`, its number and its connection stay as they are. */
  ghost predicate LostKept(s: State, s': State, i: nat) {
    && i in LostSlots(s') && i < |s.slots| == |s'.slots| && s'.slots[i] == s.slots[i] != FREE
    && s.slots[i] in s.open && s.slots[i] in s'.open && s'.open[s.slots[i]] == s.open[s.slots[i]]
  }

  lemma LostStaysAssigning(n: nat, s: State, a: Action, i: nat)
    requires Inv(n, s) && Enabled(s, a) && Assigns(a) && i in LostSlots(s)
    ensures LostKept(s, Apply(s, a), i)
  {
    hide Pending, Conserved, Responsibility, Descriptors;
  }

  lemma LostStaysRejecting(n: nat, s: State, a: Action, i: nat)
    requires Inv(n, s) && Enabled(s, a) && a.Reject? && i in LostSlots(s)
    ensures LostKept(s, Apply(s, a), i)
  {
    hide Pending, Conserved;
    assert s.holder[s.acc.conn] == Main;
    hide Responsibility;
  }

  lemma LostStaysClosing(n: nat, s: State, a: Action, i: nat)
    requires Inv(n, s) && Enabled(s, a) && a.Close? && i in LostSlots(s)
    ensures LostKept(s, Apply(s, a), i)
  {
    hide Pending, Conserved, Responsibility, Descriptors;
    UsesOwn(n, s, a.t);
  }

  lemma LostStaysOther(n: nat, s: State, a: Action, i: nat)
    requires Inv(n, s) && Enabled(s, a) && !Assigns(a) && !a.Close? && !a.Reject? && i in LostSlots(s)
    ensures LostKept(s, Apply(s, a), i)
  {
    hide Pending, Conserved, Responsibility, Descriptors;
  }

  lemma LostStays(n: nat, s: State, a: Action, i: nat)
    requires Inv(n, s) && Enabled(s, a) && i in LostSlots(s)
    ensures LostKept(s, Apply(s, a), i)
  {
    hide Inv, Apply, Enabled, LostSlots, LostKept;
    if Assigns(a) {
      LostStaysAssigning(n, s, a, i);
    } else if a.Reject? {
      LostStaysRejecting(n, s, a, i);
    } else if a.Close? {
      LostStaysClosing(n, s, a, i);
    } else {
      LostStaysOther(n, s, a, i);
    }
  }

  /** A slot whose handler could not be created stays occupied, and its connection open, for ever. */
  lemma {:induction false} LostForever(n: nat, acts: seq<Action>, more: seq<Action>, i: nat)
    requires Legal(n, acts + more) && Legal(n, acts) && i in LostSlots(After(n, acts))
    ensures var s := After(n, acts + more);
            && i in LostSlots(s) && i < |s.slots| == |After(n, acts).slots|
            && s.slots[i] == After(n, acts).slots[i] != FREE
            && s.slots[i] in s.open && s.slots[i] in After(n, acts).open
            && s.open[s.slots[i]] == After(n, acts).open[s.slots[i]]
  {
    hide LostSlots, Inv, Apply, Enabled;
    RunInv(n, acts);
    if more == [] {
      assert acts + more == acts;
      LostNow(n, After(n, acts), i);
    } else {
      var rest, a := more[..|more| - 1], more[|more| - 1];
      assert acts + more == (acts + rest) + [a];
      LastStep(n, acts + rest, a);
      LostForever(n, acts, rest, i);
      RunInv(n, acts + rest);
      LostStays(n, After(n, acts + rest), a, i);
    }
  }

  lemma NoneLost(n: nat)
    ensures LostSlots(Init(n)) == {}
  {
  }

  lemma LostStep(n: nat, s: State, a: Action)
    requires Inv(n, s) && Enabled(s, a)
    ensures LostSlots(Apply(s, a)) != {} <==> LostSlots(s) != {} || a.CreateFails?
  {
    hide Responsibility, Descriptors, Pending, LostOpen, Conserved;
    var s' := Apply(s, a);
    if i :| i in LostSlots(s) {
      assert i in LostSlots(s');
    } else if a.CreateFails? {
      assert s.acc.i in LostSlots(s');
    } else {
      assert LostSlots(s') <= LostSlots(s);
    }
  }

  /** Slots are lost exactly through failed creations. */
  lemma {:induction false} LostIffFailed(n: nat, acts: seq<Action>)
    requires Legal(n, acts)
    ensures LostSlots(After(n, acts)) != {} <==> CreateFails in acts
  {
    hide LostSlots, Inv, Apply, Enabled;
    if acts == [] {
      NoneLost(n);
    } else {
      var front, a := acts[..|acts| - 1], acts[|acts| - 1];
      assert acts == front + [a];
      LostIffFailed(n, front);
      RunInv(n, front);
      LostStep(n, After(n, front), a);
    }
  }

  lemma LostNeverClosed(n: nat, s: State, i: nat)
    requires Inv(n, s) && i in LostSlots(s)
    ensures exists conn: nat :: conn < s.accepted && conn !in s.closed
  {
    hide Pending, Responsibility, Descriptors, Ownership;
    assert s.open[s.slots[i]] in s.holder;
  }

  /** When the acceptor waits and no handler is left, only lost slots still hold connections. */
  lemma OnlyLostHeld(n: nat, s: State)
    requires Inv(n, s) && s.acc.Accepting? && s.handlers == map[]
    ensures forall conn :: conn in s.holder ==> s.holder[conn].Lost? && s.holder[conn].i in LostSlots(s)
  {
    hide Pending, Descriptors, Ownership, LostOpen;
  }

  lemma RestClosed(n: nat, s: State)
    requires Inv(n, s) && LostSlots(s) == {} && s.acc.Accepting? && s.handlers == map[]
    ensures forall conn :: 0 <= conn < s.accepted ==> conn in s.closed
  {
    OnlyLostHeld(n, s);
    hide Ownership, Responsibility, Descriptors, Pending, LostOpen;
  }

  /**
   * When the acceptor waits and no handler is left, every accepted connection has been closed, exactly once,
   * if and only if every handler task could be created.
   */
  lemma AllClosedIff(n: nat, acts: seq<Action>)
    requires Legal(n, acts) && After(n, acts).acc.Accepting? && After(n, acts).handlers == map[]
    ensures (forall conn :: 0 <= conn < After(n, acts).accepted ==> conn in After(n, acts).closed)
       <==> CreateFails !in acts
  {
    LostIffFailed(n, acts);
    RunInv(n, acts);
    hide Legal, After, Inv;
    var s := After(n, acts);
    if i :| i in LostSlots(s) {
      LostNeverClosed(n, s, i);
    } else {
      RestClosed(n, s);
    }
  }
}
