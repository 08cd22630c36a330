/**
 * Messages for the display. Producers allocate a buffer, try to put it into the one-element queue without
 * waiting, and free it themselves if that fails; the display task frees what it receives. The event watcher
 * also allocates a buffer for every event it raises.
 */
module LcdQueue {

  const CAPACITY := 1

  /** A server handler looks for space before it allocates; a client does not. */
  datatype Kind = Server | Client

  datatype Producer = Idle | SawSpace | Holding(buf: nat) | Refused(buf: nat)

  datatype Consumer = Waiting | Received(buf: nat) | Shown(buf: nat)

  /**
   * Buffers are numbered in the order of allocation. `freed`, `sent` and `shown` are histories, and
   * `dropped` lists the watcher's buffers, whose only pointer is overwritten.
   */
  datatype State = State(
    kinds: seq<Kind>,
    producers: seq<Producer>,
    queue: seq<nat>,
    consumer: Consumer,
    next: nat,
    dropped: seq<nat>,
    freed: seq<nat>,
    sent: seq<nat>,
    shown: seq<nat>)

  datatype Action =
    | Look(p: nat)
    | Allocate(p: nat)
    | Send(p: nat)
    | FreeRefused(p: nat)
    | Receive
    | Show
    | FreeShown
    | WatcherAllocates

  function Init(kinds: seq<Kind>): State {
    State(kinds, seq(|kinds|, _ => Idle), [], Waiting, 0, [], [], [], [])
  }

  predicate Enabled(s: State, a: Action) {
    match a
    case Look(p) => p < |s.producers| == |s.kinds| && s.kinds[p].Server? && s.producers[p].Idle?
    case Allocate(p) =>
      p < |s.producers| == |s.kinds| && (if s.kinds[p].Server? then s.producers[p].SawSpace? else s.producers[p].Idle?)
    case Send(p) => p < |s.producers| && s.producers[p].Holding?
    case FreeRefused(p) => p < |s.producers| && s.producers[p].Refused?
    case Receive => s.consumer.Waiting? && s.queue != []
    case Show => s.consumer.Received?
    case FreeShown => s.consumer.Shown?
    case WatcherAllocates => true
  }

  function Apply(s: State, a: Action): State
    requires Enabled(s, a)
  {
    match a
    case Look(p) => s.(producers := s.producers[p := if |s.queue| < CAPACITY then SawSpace else Idle])
    case Allocate(p) => s.(producers := s.producers[p := Holding(s.next)], next := s.next + 1)
    case Send(p) =>
      var b := s.producers[p].buf;
      if |s.queue| < CAPACITY then
        s.(producers := s.producers[p := Idle], queue := s.queue + [b], sent := s.sent + [b])
      else
        s.(producers := s.producers[p := Refused(b)])
    case FreeRefused(p) => s.(producers := s.producers[p := Idle], freed := s.freed + [s.producers[p].buf])
    case Receive => s.(queue := s.queue[1..], consumer := Received(s.queue[0]))
    case Show => s.(consumer := Shown(s.consumer.buf), shown := s.shown + [s.consumer.buf])
    case FreeShown => s.(consumer := Waiting, freed := s.freed + [s.consumer.buf])
    case WatcherAllocates => s.(dropped := s.dropped + [s.next], next := s.next + 1)
  }

  predicate Legal(kinds: seq<Kind>, acts: seq<Action>)
    decreases |acts|, 0
  {
    acts == [] || (Legal(kinds, acts[..|acts| - 1]) && Enabled(After(kinds, acts[..|acts| - 1]), acts[|acts| - 1]))
  }

  function After(kinds: seq<Kind>, acts: seq<Action>): State
    requires Legal(kinds, acts)
    decreases |acts|, 1
  {
    if acts == [] then Init(kinds) else Apply(After(kinds, acts[..|acts| - 1]), acts[|acts| - 1])
  }

  // Where the buffers are.

  function Holds(p: Producer, b: nat): nat {
    if (p.Holding? || p.Refused?) && p.buf == b then 1 else 0
  }

  /** How many producers have buffer `b`. */
  function Held(ps: seq<Producer>, b: nat): nat {
    if ps == [] then 0 else Held(ps[..|ps| - 1], b) + Holds(ps[|ps| - 1], b)
  }

  /** How often buffer `b` occurs in a list. */
  function Count(xs: seq<nat>, b: nat): nat {
    if xs == [] then 0 else Count(xs[..|xs| - 1], b) + (if xs[|xs| - 1] == b then 1 else 0)
  }

  function AtConsumer(c: Consumer): seq<nat> {
    if c.Waiting? then [] else [c.buf]
  }

  /** In how many places buffer `b` is: with a producer, queued, with the display task, dropped, or freed. */
  function Places(s: State, b: nat): nat {
    Held(s.producers, b) + Count(s.queue, b) + Count(AtConsumer(s.consumer), b)
    + Count(s.dropped, b) + Count(s.freed, b)
  }

  ghost predicate Shape(s: State) {
    && |s.producers| == |s.kinds|
    && |s.queue| <= CAPACITY
    && s.sent == s.shown + (if s.consumer.Received? then [s.consumer.buf] else []) + s.queue
    && (forall i :: 0 <= i < |s.shown| ==> s.shown[i] in s.freed || s.consumer == Shown(s.shown[i]))
    && (s.consumer.Shown? ==> s.consumer.buf in s.shown)
  }

  ghost predicate Inv(s: State) {
    Shape(s) && forall b: nat :: Places(s, b) == if b < s.next then 1 else 0
  }

  lemma {:induction false} HeldUpdate(ps: seq<Producer>, p: nat, q: Producer, b: nat)
    requires p < |ps|
    ensures Held(ps[p := q], b) + Holds(ps[p], b) == Held(ps, b) + Holds(q, b)
  {
    var n := |ps| - 1;
    if p == n {
      assert ps[p := q][..n] == ps[..n];
    } else {
      HeldUpdate(ps[..n], p, q, b);
      assert ps[p := q][..n] == ps[..n][p := q];
    }
  }

  lemma CountAppend(xs: seq<nat>, x: nat, b: nat)
    ensures Count(xs + [x], b) == Count(xs, b) + if x == b then 1 else 0
  {
    assert (xs + [x])[..|xs + [x]| - 1] == xs;
  }

  predicate ByProducer(a: Action) {
    a.Look? || a.Allocate? || a.Send? || a.FreeRefused?
  }

  /** A step adds a place to a buffer only by allocating it. */
  lemma ProducerPlaces(s: State, a: Action, b: nat)
    requires Shape(s) && Enabled(s, a) && ByProducer(a)
    ensures Places(Apply(s, a), b) == Places(s, b) + if a.Allocate? && b == s.next then 1 else 0
  {
    var s' := Apply(s, a);
    hide Held, Count;
    HeldUpdate(s.producers, a.p, s'.producers[a.p], b);
    if a.Send? {
      CountAppend(s.queue, s.producers[a.p].buf, b);
    } else if a.FreeRefused? {
      CountAppend(s.freed, s.producers[a.p].buf, b);
    }
  }

  lemma CountOne(x: nat, b: nat)
    ensures Count([x], b) == if x == b then 1 else 0
  {
    assert [x] == [] + [x];
    CountAppend([], x, b);
  }

  lemma CountNone(b: nat)
    ensures Count([], b) == 0
  {
  }

  lemma OtherPlaces(s: State, a: Action, b: nat)
    requires Shape(s) && Enabled(s, a) && !ByProducer(a)
    ensures Places(Apply(s, a), b) == Places(s, b) + if a.WatcherAllocates? && b == s.next then 1 else 0
  {
    hide Held, Count;
    CountNone(b);
    if a.Receive? {
      CountOne(s.queue[0], b);
      assert s.queue == [s.queue[0]] && Apply(s, a).queue == [];
    } else if a.FreeShown? {
      CountAppend(s.freed, s.consumer.buf, b);
      CountOne(s.consumer.buf, b);
    } else if a.WatcherAllocates? {
      CountAppend(s.dropped, s.next, b);
    }
  }

  lemma StepShape(s: State, a: Action)
    requires Shape(s) && Enabled(s, a)
    ensures Shape(Apply(s, a))
  {
    if a.Receive? {
      assert s.queue == [s.queue[0]] + s.queue[1..];
    }
  }

  lemma StepInv(s: State, a: Action)
    requires Inv(s) && Enabled(s, a)
    ensures Inv(Apply(s, a))
  {
    hide Places, Shape;
    StepShape(s, a);
    forall b: nat ensures Places(Apply(s, a), b) == if b < Apply(s, a).next then 1 else 0 {
      if ByProducer(a) { ProducerPlaces(s, a, b); } else { OtherPlaces(s, a, b); }
    }
  }

  lemma {:induction false} NoneHeld(ps: seq<Producer>, b: nat)
    requires forall p :: 0 <= p < |ps| ==> !ps[p].Holding? && !ps[p].Refused?
    ensures Held(ps, b) == 0
  {
    if ps == [] {
    } else {
      NoneHeld(ps[..|ps| - 1], b);
    }
  }

  lemma InitInv(kinds: seq<Kind>)
    ensures Inv(Init(kinds))
  {
    forall b: nat ensures Places(Init(kinds), b) == 0 {
      NoneHeld(Init(kinds).producers, b);
    }
  }

  lemma {:induction false} RunInv(kinds: seq<Kind>, acts: seq<Action>)
    requires Legal(kinds, acts)
    ensures Inv(After(kinds, acts)) && After(kinds, acts).kinds == kinds
  {
    if acts == [] {
      InitInv(kinds);
    } else {
      var k := |acts| - 1;
      RunInv(kinds, acts[..k]);
      hide Inv;
      StepInv(After(kinds, acts[..k]), acts[k]);
    }
  }

  lemma {:induction false} CountHas(xs: seq<nat>, b: nat)
    ensures Count(xs, b) > 0 <==> b in xs
  {
    if xs == [] {
    } else {
      CountHas(xs[..|xs| - 1], b);
      assert xs == xs[..|xs| - 1] + [xs[|xs| - 1]];
    }
  }

  // What follows for every run.

  /** No event the watcher raises is ever shown. */
  lemma DroppedNeverShown(kinds: seq<Kind>, acts: seq<Action>, b: nat)
    requires Legal(kinds, acts) && b in After(kinds, acts).dropped
    ensures b !in After(kinds, acts).sent && b !in After(kinds, acts).shown && b !in After(kinds, acts).freed
  {
    RunInv(kinds, acts);
    hide Legal, After, Held, Count;
    var s := After(kinds, acts);
    assert Places(s, b) <= 1;
    CountHas(s.dropped, b);
    CountHas(s.freed, b);
    CountHas(s.queue, b);
    CountHas(AtConsumer(s.consumer), b);
  }

  /**
   * Every buffer allocated so far is in exactly one place, once; no other buffer is anywhere. So what the watcher
   * has dropped has never been sent, shown or freed.
   */
  lemma OnePlace(kinds: seq<Kind>, acts: seq<Action>, b: nat)
    requires Legal(kinds, acts)
    ensures var s := After(kinds, acts);
            && Places(s, b) == (if b < s.next then 1 else 0)
            && (b in s.dropped ==> b !in s.sent && b !in s.shown && b !in s.freed)
  {
    RunInv(kinds, acts);
    if b in After(kinds, acts).dropped {
      DroppedNeverShown(kinds, acts, b);
    }
  }

  lemma {:induction false} HeldHas(ps: seq<Producer>, p: nat, b: nat)
    requires p < |ps| && Holds(ps[p], b) == 1
    ensures Held(ps, b) >= 1
  {
    var n := |ps| - 1;
    if p == n {
    } else {
      HeldHas(ps[..n], p, b);
    }
  }

  /** A buffer about to be freed, or about to be shown, has not been freed. */
  lemma FreedAtMostOnce(kinds: seq<Kind>, acts: seq<Action>, a: Action)
    requires Legal(kinds, acts) && Enabled(After(kinds, acts), a)
    ensures var s := After(kinds, acts);
            && (a.FreeRefused? ==> s.producers[a.p].buf !in s.freed)
            && (a.FreeShown? || a.Show? ==> s.consumer.buf !in s.freed)
            && (a.Send? ==> s.producers[a.p].buf !in s.freed)
  {
    RunInv(kinds, acts);
    hide Legal, After, Held, Count;
    var s := After(kinds, acts);
    if a.FreeRefused? || a.Send? {
      var b := s.producers[a.p].buf;
      assert Places(s, b) <= 1;
      HeldHas(s.producers, a.p, b);
      CountHas(s.freed, b);
    } else if a.FreeShown? || a.Show? {
      var b := s.consumer.buf;
      assert Places(s, b) <= 1;
      CountHas(s.freed, b);
      CountHas(AtConsumer(s.consumer), b);
    }
  }

  /** The display shows the messages in the order in which they were sent, and skips none. */
  lemma ShownInOrder(kinds: seq<Kind>, acts: seq<Action>)
    requires Legal(kinds, acts)
    ensures var s := After(kinds, acts); s.shown <= s.sent && |s.sent| <= |s.shown| + 2
  {
    RunInv(kinds, acts);
  }

  /** How many buffers the producers have. */
  function HeldTotal(ps: seq<Producer>): nat {
    if ps == [] then 0 else HeldTotal(ps[..|ps| - 1]) + if ps[|ps| - 1].Holding? || ps[|ps| - 1].Refused? then 1 else 0
  }

  lemma {:induction false} HeldTotalUpdate(ps: seq<Producer>, p: nat, q: Producer)
    requires p < |ps|
    ensures HeldTotal(ps[p := q]) + (if ps[p].Holding? || ps[p].Refused? then 1 else 0)
         == HeldTotal(ps) + if q.Holding? || q.Refused? then 1 else 0
  {
    var n := |ps| - 1;
    if p == n {
      assert ps[p := q][..n] == ps[..n];
    } else {
      HeldTotalUpdate(ps[..n], p, q);
      assert ps[p := q][..n] == ps[..n][p := q];
    }
  }

  lemma {:induction false} HeldTotalBounded(ps: seq<Producer>)
    ensures HeldTotal(ps) <= |ps|
    ensures (forall p :: 0 <= p < |ps| ==> !ps[p].Holding? && !ps[p].Refused?) ==> HeldTotal(ps) == 0
  {
    if ps == [] {
    } else {
      HeldTotalBounded(ps[..|ps| - 1]);
    }
  }

  /** Live buffers, counted by place. */
  lemma {:induction false} LiveCount(kinds: seq<Kind>, acts: seq<Action>)
    requires Legal(kinds, acts)
    ensures var s := After(kinds, acts);
            s.next == |s.freed| + HeldTotal(s.producers) + |s.queue| + |AtConsumer(s.consumer)| + |s.dropped|
  {
    if acts == [] {
      HeldTotalBounded(Init(kinds).producers);
    } else {
      var k := |acts| - 1;
      LiveCount(kinds, acts[..k]);
      RunInv(kinds, acts[..k]);
      hide HeldTotal;
      var s, s', a := After(kinds, acts[..k]), After(kinds, acts), acts[k];
      if a.Look? || a.Allocate? || a.Send? || a.FreeRefused? {
        HeldTotalUpdate(s.producers, a.p, s'.producers[a.p]);
      }
    }
  }

  /** How often the watcher has raised an event. */
  function Raised(acts: seq<Action>): nat {
    if acts == [] then 0 else Raised(acts[..|acts| - 1]) + if acts[|acts| - 1].WatcherAllocates? then 1 else 0
  }

  lemma {:induction false} DroppedIsRaised(kinds: seq<Kind>, acts: seq<Action>)
    requires Legal(kinds, acts)
    ensures |After(kinds, acts).dropped| == Raised(acts)
  {
    if acts == [] {
    } else {
      DroppedIsRaised(kinds, acts[..|acts| - 1]);
    }
  }

  /**
   * The most buffers that can be live, the watcher's aside: one per producer, one at the display, and one in the
   * queue, unless all producers are server handlers. Then the handler that filled the queue finds no space for
   * another buffer.
   */
  function MaxLive(kinds: seq<Kind>): nat {
    if kinds == [] then 0 else if Client in kinds then |kinds| + 2 else |kinds| + 1
  }

  /** Without producers nothing moves, and among server handlers one stays idle while the queue is full. */
  ghost predicate HeldBack(s: State) {
    && (s.producers == [] ==> s.queue == [] && s.consumer.Waiting?)
    && (Client !in s.kinds && s.queue != [] ==> exists p :: 0 <= p < |s.producers| && s.producers[p].Idle?)
  }

  lemma StepHeldBack(s: State, a: Action)
    requires Shape(s) && HeldBack(s) && Enabled(s, a)
    ensures HeldBack(Apply(s, a))
  {
    var s' := Apply(s, a);
    if a.Send? && s'.queue != s.queue {
      assert s'.producers[a.p].Idle?;
    } else if Client !in s.kinds && s.queue != [] {
      var p :| 0 <= p < |s.producers| && s.producers[p].Idle?;
      assert s'.producers[p].Idle?;
    }
  }

  lemma {:induction false} RunHeldBack(kinds: seq<Kind>, acts: seq<Action>)
    requires Legal(kinds, acts)
    ensures HeldBack(After(kinds, acts))
  {
    if acts == [] {
    } else {
      var k := |acts| - 1;
      RunHeldBack(kinds, acts[..k]);
      RunInv(kinds, acts[..k]);
      hide HeldBack, Apply, Enabled;
      StepHeldBack(After(kinds, acts[..k]), acts[k]);
    }
  }

  lemma {:induction false} HeldTotalIdle(ps: seq<Producer>, p: nat)
    requires p < |ps| && ps[p].Idle?
    ensures HeldTotal(ps) < |ps|
  {
    var n := |ps| - 1;
    if p == n {
      HeldTotalBounded(ps[..n]);
    } else {
      HeldTotalIdle(ps[..n], p);
    }
  }

  lemma {:induction false} HeldTotalFull(ps: seq<Producer>)
    requires forall p :: 0 <= p < |ps| ==> ps[p].Holding?
    ensures HeldTotal(ps) == |ps|
  {
    if ps == [] {
    } else {
      HeldTotalFull(ps[..|ps| - 1]);
    }
  }

  /**
   * Live buffers never exceed that number and one for every event the watcher has raised; and when all others
   * are at rest, only those of the watcher are still live.
   */
  lemma LiveBounded(kinds: seq<Kind>, acts: seq<Action>)
    requires Legal(kinds, acts)
    ensures var s := After(kinds, acts); Raised(acts) <= s.next - |s.freed| <= MaxLive(kinds) + Raised(acts)
    ensures var s := After(kinds, acts);
            (forall p :: 0 <= p < |s.producers| ==> !s.producers[p].Holding? && !s.producers[p].Refused?)
            && s.queue == [] && s.consumer.Waiting?
            ==> s.next - |s.freed| == Raised(acts)
  {
    RunInv(kinds, acts);
    RunHeldBack(kinds, acts);
    LiveCount(kinds, acts);
    DroppedIsRaised(kinds, acts);
    hide Legal, After, HeldTotal;
    var s := After(kinds, acts);
    HeldTotalBounded(s.producers);
    if Client !in s.kinds && s.queue != [] {
      var p :| 0 <= p < |s.producers| && s.producers[p].Idle?;
      HeldTotalIdle(s.producers, p);
    }
  }

  lemma Extend(kinds: seq<Kind>, acts: seq<Action>, a: Action) returns (acts': seq<Action>)
    requires Legal(kinds, acts) && Enabled(After(kinds, acts), a)
    ensures acts' == acts + [a] && Legal(kinds, acts') && After(kinds, acts') == Apply(After(kinds, acts), a)
  {
    acts' := acts + [a];
    assert acts'[..|acts'| - 1] == acts;
  }

  lemma ExtendFrom(kinds: seq<Kind>)
    ensures Legal(kinds, []) && After(kinds, []) == Init(kinds)
  {
  }

  /** The display task has a buffer, the queue is empty, and of the first `k` producers all but `last` have one. */
  ghost predicate Filling(kinds: seq<Kind>, s: State, k: nat, last: nat) {
    && s.kinds == kinds && |s.producers| == |kinds| && s.queue == [] && s.consumer.Received? && s.dropped == []
    && forall p :: 0 <= p < |kinds| ==> if p < k && p != last then s.producers[p].Holding? else s.producers[p].Idle?
  }

  /** A producer with nothing to do takes a buffer, while the queue has space. */
  lemma Take(kinds: seq<Kind>, acts: seq<Action>, p: nat) returns (acts': seq<Action>)
    requires Legal(kinds, acts) && p < |kinds|
    requires var s := After(kinds, acts);
             s.kinds == kinds && |s.producers| == |kinds| && s.producers[p].Idle? && (s.queue == [] || kinds[p].Client?)
    ensures Legal(kinds, acts')
    ensures var s, s' := After(kinds, acts), After(kinds, acts');
            s' == s.(producers := s.producers[p := Holding(s.next)], next := s.next + 1)
  {
    hide Legal, After;
    acts' := acts;
    if kinds[p].Server? {
      acts' := Extend(kinds, acts', Look(p));
    }
    acts' := Extend(kinds, acts', Allocate(p));
  }

  lemma {:induction false} Fill(kinds: seq<Kind>, acts: seq<Action>, k: nat, last: nat) returns (acts': seq<Action>)
    requires Legal(kinds, acts) && k <= |kinds| && Filling(kinds, After(kinds, acts), k, last)
    ensures Legal(kinds, acts') && Filling(kinds, After(kinds, acts'), |kinds|, last)
    decreases |kinds| - k
  {
    hide Legal, After;
    acts' := acts;
    if k == |kinds| {
    } else {
      if k != last {
        acts' := Take(kinds, acts', k);
      }
      acts' := Fill(kinds, acts', k + 1, last);
    }
  }

  /** One producer delivers a buffer to the display task; then all producers take one, this one last. */
  lemma Crowd(kinds: seq<Kind>, last: nat) returns (acts: seq<Action>)
    requires last < |kinds|
    ensures Legal(kinds, acts)
    ensures Filling(kinds, After(kinds, acts), |kinds|, last)
  {
    hide Legal, After;
    acts := [];
    ExtendFrom(kinds);
    acts := Take(kinds, acts, last);
    acts := Extend(kinds, acts, Send(last));
    acts := Extend(kinds, acts, Receive);
    acts := Fill(kinds, acts, 0, last);
  }

  /** Producers, queue and display task have as many buffers as they ever can. */
  ghost predicate Crowded(kinds: seq<Kind>, s: State) {
    HeldTotal(s.producers) + |s.queue| + |AtConsumer(s.consumer)| == MaxLive(kinds)
  }

  lemma CrowdedRun(kinds: seq<Kind>) returns (acts: seq<Action>)
    ensures Legal(kinds, acts) && Crowded(kinds, After(kinds, acts)) && After(kinds, acts).dropped == []
  {
    hide Legal, After, HeldTotal;
    if kinds == [] {
      acts := [];
      ExtendFrom(kinds);
      HeldTotalFull([]);
      assert Init(kinds).producers == [];
    } else if Client in kinds {
      var c: nat :| c < |kinds| && kinds[c].Client?;
      acts := Crowd(kinds, c);
      acts := Take(kinds, acts, c);
      acts := Extend(kinds, acts, Send(c));
      acts := Take(kinds, acts, c);
      HeldTotalFull(After(kinds, acts).producers);
    } else {
      acts := Crowd(kinds, 0);
      acts := Take(kinds, acts, 0);
      HeldTotalFull(After(kinds, acts).producers);
    }
  }

  lemma {:induction false} RaiseMore(kinds: seq<Kind>, acts: seq<Action>, more: nat) returns (acts': seq<Action>)
    requires Legal(kinds, acts) && Crowded(kinds, After(kinds, acts))
    ensures Legal(kinds, acts') && Crowded(kinds, After(kinds, acts')) && Raised(acts') == Raised(acts) + more
  {
    hide Legal, After;
    if more == 0 {
      acts' := acts;
    } else {
      acts' := RaiseMore(kinds, acts, more - 1);
      var before := acts';
      acts' := Extend(kinds, acts', WatcherAllocates);
      assert acts'[..|acts'| - 1] == before;
    }
  }

  /** The bound is exact: for all producers and any number of events, some run reaches it. */
  lemma LiveReached(kinds: seq<Kind>, events: nat)
    ensures exists acts ::
      Legal(kinds, acts) && var s := After(kinds, acts);
      Raised(acts) == events && s.next - |s.freed| == MaxLive(kinds) + events
  {
    var acts := CrowdedRun(kinds);
    DroppedIsRaised(kinds, acts);
    acts := RaiseMore(kinds, acts, events);
    LiveCount(kinds, acts);
    DroppedIsRaised(kinds, acts);
    hide Legal, After, HeldTotal;
  }

  lemma LastStep(kinds: seq<Kind>, acts: seq<Action>, a: Action)
    ensures Legal(kinds, acts + [a]) <==> Legal(kinds, acts) && Enabled(After(kinds, acts), a)
    ensures Legal(kinds, acts + [a]) ==> After(kinds, acts + [a]) == Apply(After(kinds, acts), a)
  {
    assert (acts + [a])[..|acts + [a]| - 1] == acts;
  }

  // When a message gets through.

  /** The queue refuses a buffer exactly while it holds another; otherwise it takes this one, and only this one. */
  lemma SendOutcome(kinds: seq<Kind>, acts: seq<Action>, p: nat)
    requires Legal(kinds, acts + [Send(p)])
    ensures Legal(kinds, acts) && p < |After(kinds, acts).producers| && After(kinds, acts).producers[p].Holding?
    ensures var s, s', b := After(kinds, acts), After(kinds, acts + [Send(p)]), After(kinds, acts).producers[p].buf;
            && (s.queue != [] ==> s.queue != [b] && s'.producers[p] == Refused(b))
            && (s.queue != [] ==> s'.queue == s.queue && s'.sent == s.sent)
            && (s.queue == [] ==> s'.producers[p].Idle? && s'.queue == [b] && s'.sent == s.sent + [b])
            && |s'.producers| == |s.producers| && s'.consumer == s.consumer
            && s'.shown == s.shown && s'.freed == s.freed
            && forall q :: 0 <= q < |s.producers| && q != p ==> s'.producers[q] == s.producers[q]
  {
    LastStep(kinds, acts, Send(p));
    RunInv(kinds, acts);
    hide Legal, After, Held, Count;
    var s := After(kinds, acts);
    var b := s.producers[p].buf;
    assert Places(s, b) <= 1;
    HeldHas(s.producers, p, b);
    CountHas(s.queue, b);
  }

  /** A server handler that looks for space sees it exactly while the queue is empty. */
  lemma LookOutcome(kinds: seq<Kind>, acts: seq<Action>, p: nat)
    requires Legal(kinds, acts + [Look(p)])
    ensures Legal(kinds, acts) && p < |After(kinds, acts).producers|
    ensures var s, s' := After(kinds, acts), After(kinds, acts + [Look(p)]);
            s' == s.(producers := s.producers[p := if s.queue == [] then SawSpace else Idle])
  {
    LastStep(kinds, acts, Look(p));
    hide Legal, After;
  }

  /** At step `j` a producer tried to send buffer `b`, and another buffer was in the queue. */
  predicate RefusedAt(kinds: seq<Kind>, acts: seq<Action>, j: nat, b: nat)
    requires Legal(kinds, acts)
  {
    && j < |acts| && acts[j].Send? && Legal(kinds, acts[..j])
    && var s := After(kinds, acts[..j]);
    && acts[j].p < |s.producers| && s.producers[acts[j].p] == Holding(b)
    && |s.queue| == 1 && s.queue[0] != b
  }

  lemma {:induction false} LegalFront(kinds: seq<Kind>, acts: seq<Action>, j: nat)
    requires Legal(kinds, acts) && j <= |acts|
    ensures Legal(kinds, acts[..j])
  {
    if j == |acts| {
      assert acts[..j] == acts;
    } else {
      LegalFront(kinds, acts[..|acts| - 1], j);
      assert acts[..|acts| - 1][..j] == acts[..j];
    }
  }

  lemma UnshownBefore(s: State, a: Action, b: nat)
    requires Inv(s) && Enabled(s, a)
    requires var s' := Apply(s, a);
             (b in s'.freed && b !in s'.shown) || exists p :: 0 <= p < |s'.producers| && s'.producers[p] == Refused(b)
    requires !(a.Send? && s.queue != [] && s.producers[a.p].buf == b)
    ensures (b in s.freed && b !in s.shown) || exists p :: 0 <= p < |s.producers| && s.producers[p] == Refused(b)
  {
    var s' := Apply(s, a);
    if p :| 0 <= p < |s'.producers| && s'.producers[p] == Refused(b) {
      assert s.producers[p] == Refused(b);
    } else if a.FreeRefused? && s.producers[a.p].buf == b {
      assert s.producers[a.p] == Refused(b);
    }
  }

  /** Every buffer that is freed without having been shown, or is about to be, was refused by a full queue. */
  lemma {:induction false} FreedUnshown(kinds: seq<Kind>, acts: seq<Action>, b: nat)
    requires Legal(kinds, acts)
    requires var s := After(kinds, acts);
             (b in s.freed && b !in s.shown) || exists p :: 0 <= p < |s.producers| && s.producers[p] == Refused(b)
    ensures exists j: nat :: RefusedAt(kinds, acts, j, b)
  {
    if acts == [] {
    } else {
      var k := |acts| - 1;
      var front, a := acts[..k], acts[k];
      var s := After(kinds, front);
      RunInv(kinds, front);
      if a.Send? && s.queue != [] && s.producers[a.p].buf == b {
        assert acts == front + [a];
        SendOutcome(kinds, front, a.p);
        assert RefusedAt(kinds, acts, k, b);
      } else {
        UnshownBefore(s, a, b);
        FreedUnshown(kinds, front, b);
        var j: nat :| RefusedAt(kinds, front, j, b);
        assert front[..j] == acts[..j];
        assert RefusedAt(kinds, acts, j, b);
      }
    }
  }

  /** The display task has nothing to do. */
  ghost predicate DisplayRests(s: State) {
    s.queue == [] && s.consumer.Waiting? && s.shown == s.sent
  }

  /** The display task can finish with the buffer it has. */
  lemma DisplayFinishes(kinds: seq<Kind>, acts: seq<Action>) returns (acts': seq<Action>)
    requires Legal(kinds, acts)
    ensures acts <= acts' && Legal(kinds, acts')
    ensures var s, s' := After(kinds, acts), After(kinds, acts');
            && s'.consumer.Waiting? && s'.queue == s.queue && s'.producers == s.producers && s'.kinds == s.kinds
            && s'.sent == s.sent
  {
    hide Legal, After;
    acts' := acts;
    if After(kinds, acts).consumer.Received? {
      acts' := Extend(kinds, acts', Show);
    }
    if After(kinds, acts').consumer.Shown? {
      acts' := Extend(kinds, acts', FreeShown);
    }
  }

  lemma TakeNext(kinds: seq<Kind>, acts: seq<Action>) returns (acts': seq<Action>)
    requires Legal(kinds, acts) && |After(kinds, acts).queue| == 1 && After(kinds, acts).consumer.Waiting?
    ensures acts <= acts' && Legal(kinds, acts')
    ensures var s, s' := After(kinds, acts), After(kinds, acts');
            s'.queue == [] && s'.producers == s.producers && s'.kinds == s.kinds && s'.sent == s.sent
  {
    hide Legal, After;
    acts' := Extend(kinds, acts, Receive);
  }

  /** The display task can go on until it has shown all that has been sent. */
  lemma Drain(kinds: seq<Kind>, acts: seq<Action>) returns (acts': seq<Action>)
    requires Legal(kinds, acts)
    ensures acts <= acts' && Legal(kinds, acts')
    ensures var s, s' := After(kinds, acts), After(kinds, acts');
            DisplayRests(s') && s'.producers == s.producers && s'.kinds == s.kinds && s'.sent == s.sent
  {
    hide Legal, After, Places;
    acts' := DisplayFinishes(kinds, acts);
    RunInv(kinds, acts');
    if After(kinds, acts').queue != [] {
      acts' := TakeNext(kinds, acts');
      acts' := DisplayFinishes(kinds, acts');
    }
    RunInv(kinds, acts');
  }

  lemma {:induction false} SpaceIsForServers(kinds: seq<Kind>, acts: seq<Action>, p: nat)
    requires Legal(kinds, acts) && p < |After(kinds, acts).producers| && After(kinds, acts).producers[p].SawSpace?
    ensures p < |After(kinds, acts).kinds| && After(kinds, acts).kinds[p].Server?
  {
    if acts == [] {
    } else {
      var k := |acts| - 1;
      RunInv(kinds, acts[..k]);
      if After(kinds, acts[..k]).producers[p].SawSpace? {
        SpaceIsForServers(kinds, acts[..k], p);
      }
    }
  }

  /** The step that a producer takes next. */
  predicate ProducerStep(kind: Kind, producer: Producer, p: nat, a: Action) {
    match producer
    case Idle => a == if kind.Server? then Look(p) else Allocate(p)
    case SawSpace => a == Allocate(p)
    case Holding(_) => a == Send(p)
    case Refused(_) => a == FreeRefused(p)
  }

  predicate DisplayStep(s: State, a: Action) {
    match s.consumer
    case Waiting => a.Receive? && s.queue != []
    case Received(_) => a.Show?
    case Shown(_) => a.FreeShown?
  }

  /** No producer ever waits; the display task waits exactly while the queue is empty. */
  lemma NextSteps(kinds: seq<Kind>, acts: seq<Action>, a: Action)
    requires Legal(kinds, acts)
    ensures var s := After(kinds, acts);
            && |s.producers| == |kinds|
            && (Legal(kinds, acts + [a]) <==>
                  a.WatcherAllocates? || DisplayStep(s, a)
                  || exists p :: 0 <= p < |s.producers| && ProducerStep(kinds[p], s.producers[p], p, a))
  {
    LastStep(kinds, acts, a);
    RunInv(kinds, acts);
    var s := After(kinds, acts);
    forall p | 0 <= p < |s.producers| && s.producers[p].SawSpace? ensures kinds[p].Server? {
      SpaceIsForServers(kinds, acts, p);
    }
    hide Legal, After, Places;
    if (a.Look? || a.Allocate? || a.Send? || a.FreeRefused?) && Enabled(s, a) {
      assert ProducerStep(kinds[a.p], s.producers[a.p], a.p, a);
    }
  }

  /** A producer can finish what it is about to do. */
  lemma ProducerRests(kinds: seq<Kind>, acts: seq<Action>, p: nat) returns (acts': seq<Action>)
    requires Legal(kinds, acts) && DisplayRests(After(kinds, acts)) && p < |After(kinds, acts).producers|
    ensures acts <= acts' && Legal(kinds, acts')
    ensures var s, s' := After(kinds, acts), After(kinds, acts');
            && DisplayRests(s') && s'.producers == s.producers[p := Idle] && s.sent <= s'.sent
            && (s.producers[p].Holding? ==> s'.sent == s.sent + [s.producers[p].buf])
  {
    RunInv(kinds, acts);
    hide Legal, After, Held, Count;
    var s := After(kinds, acts);
    acts' := acts;
    if s.producers[p].Refused? {
      acts' := Extend(kinds, acts', FreeRefused(p));
    }
    if s.producers[p].SawSpace? {
      SpaceIsForServers(kinds, acts, p);
      acts' := Extend(kinds, acts', Allocate(p));
    }
    if After(kinds, acts').producers[p].Holding? {
      acts' := Extend(kinds, acts', Send(p));
      acts' := Drain(kinds, acts');
    }
  }

  lemma {:induction false} ProducersRest(kinds: seq<Kind>, acts: seq<Action>, k: nat) returns (acts': seq<Action>)
    requires Legal(kinds, acts) && DisplayRests(After(kinds, acts)) && k <= |After(kinds, acts).producers|
    requires forall p :: 0 <= p < k ==> After(kinds, acts).producers[p].Idle?
    ensures acts <= acts' && Legal(kinds, acts')
    ensures var s, s' := After(kinds, acts), After(kinds, acts');
            && DisplayRests(s') && |s'.producers| == |s.producers| && s.sent <= s'.sent
            && forall p :: 0 <= p < |s'.producers| ==> s'.producers[p].Idle?
    decreases |After(kinds, acts).producers| - k
  {
    hide Legal, DisplayRests;
    var s := After(kinds, acts);
    hide After;
    if k == |s.producers| {
      acts' := acts;
    } else {
      acts' := ProducerRests(kinds, acts, k);
      acts' := ProducersRest(kinds, acts', k + 1);
    }
  }

  /** From every state a run can reach, all that has been sent can be shown, and everything come to rest. */
  lemma CanSettle(kinds: seq<Kind>, acts: seq<Action>) returns (acts': seq<Action>)
    requires Legal(kinds, acts)
    ensures acts <= acts' && Legal(kinds, acts')
    ensures var s, s' := After(kinds, acts), After(kinds, acts');
            && s'.queue == [] && s'.consumer.Waiting? && s'.shown == s'.sent && s.sent <= s'.sent
            && forall p :: 0 <= p < |s'.producers| ==> s'.producers[p].Idle?
  {
    hide Legal, After;
    acts' := Drain(kinds, acts);
    acts' := ProducersRest(kinds, acts', 0);
  }
}
