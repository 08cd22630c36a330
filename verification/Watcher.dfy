/** The event watcher: it polls the sockets again and again and reports the events that are new. */
module Watcher {

  const MAX_SOCKETS := 10

  /** What one poll of a socket finds: no such socket, or its event bits. */
  datatype Poll = Invalid | Events(bits: bv32)

  /** An event bit raised for a socket. */
  datatype Report = Report(socket: nat, bit: bv32)

  /** The bits that the watcher looks at, from the first to the seventh. */
  function Bit(k: nat): bv32 {
    if k == 0 then 1 else if k == 1 then 2 else if k == 2 then 4 else if k == 3 then 8
    else if k == 4 then 16 else if k == 5 then 32 else if k == 6 then 64 else 128
  }

  predicate Has(bits: bv32, k: nat) {
    Bit(k) & bits != 0
  }

  /** The reports for the first `n` bits. */
  function Raised(socket: nat, before: bv32, now: bv32, n: nat): seq<Report> {
    if n == 0 then []
    else
      Raised(socket, before, now, n - 1)
      + if !Has(before, n - 1) && Has(now, n - 1) then [Report(socket, Bit(n - 1))] else []
  }

  /** How many sockets a sweep looks at. */
  function Looked(sweep: seq<Poll>): (n: nat)
    ensures n <= |sweep| && n <= 10 && (n == |sweep| || n == 10)
  {
    if |sweep| < MAX_SOCKETS then |sweep| else MAX_SOCKETS
  }

  /** The samples of one socket: a sweep may stop short of it. */
  function Sample(sweep: seq<Poll>, socket: nat): Poll {
    if socket < |sweep| then sweep[socket] else Events(0)
  }

  /** The last positive sample since the socket was last invalid, or 0. */
  function LastPositive(history: seq<seq<Poll>>, socket: nat): bv32 {
    if history == [] then 0
    else
      var last := Sample(history[|history| - 1], socket);
      if last.Invalid? then 0
      else if last.bits != 0 then last.bits
      else LastPositive(history[..|history| - 1], socket)
  }

  /** The reports of a sweep for its first `n` sockets. */
  function SweepReports(history: seq<seq<Poll>>, sweep: seq<Poll>, n: nat): seq<Report>
    requires n <= |sweep|
  {
    if n == 0 then []
    else
      SweepReports(history, sweep, n - 1)
      + if sweep[n - 1].Invalid? then [] else Raised(n - 1, LastPositive(history, n - 1), sweep[n - 1].bits, 7)
  }

  lemma BitShifts(k: nat)
    ensures Bit(0) == 1
    ensures k < 7 ==> Bit(k) <= 64 && Bit(k) << 1 == Bit(k + 1)
    ensures k == 7 ==> Bit(k) > 64
  {
  }

  lemma LastPositiveStep(history: seq<seq<Poll>>, sweep: seq<Poll>, socket: nat)
    ensures LastPositive(history + [sweep], socket)
         == if Sample(sweep, socket).Invalid? then 0
            else if Sample(sweep, socket).bits != 0 then Sample(sweep, socket).bits
            else LastPositive(history, socket)
  {
    var h := history + [sweep];
    assert h[..|h| - 1] == history;
  }

  lemma {:induction false} NothingRaised(socket: nat, before: bv32, now: bv32, n: nat)
    requires now == before || now == 0
    ensures Raised(socket, before, now, n) == []
  {
    if n == 0 {
    } else {
      NothingRaised(socket, before, now, n - 1);
    }
  }

  class Task {
    const bits: array<bv32>
    ghost var history: seq<seq<Poll>>

    ghost predicate Valid()
      reads this, bits
    {
      bits.Length == MAX_SOCKETS && forall k :: 0 <= k < MAX_SOCKETS ==> bits[k] == LastPositive(history, k)
    }

    constructor ()
      ensures Valid() && fresh(bits) && history == []
    {
      bits := new bv32[MAX_SOCKETS](_ => 0);
      history := [];
    }

    /** The loop over the bits of one socket. */
    method Raise(socket: nat, temp: bv32) returns (reports: seq<Report>)
      requires socket < bits.Length
      ensures reports == Raised(socket, bits[socket], temp, 7)
    {
      hide Bit;
      BitShifts(0);
      reports := [];
      ghost var k := 0;
      var i: bv32 := 1;
      while i <= 64
        invariant k <= 7 && i == Bit(k) && (i <= 64 <==> k < 7)
        invariant reports == Raised(socket, bits[socket], temp, k)
        decreases 7 - k
      {
        BitShifts(k);
        if i & bits[socket] == 0 && i & temp != 0 {
          reports := reports + [Report(socket, i)];
        }
        i := i << 1;
        k := k + 1;
        BitShifts(k);
      }
    }

    /** One round over the sockets; `sweep` is what the calls about each of them return. */
    method Sweep(sweep: seq<Poll>) returns (reports: seq<Report>)
      requires Valid()
      modifies this, bits
      ensures Valid() && history == old(history) + [sweep]
      ensures reports == SweepReports(old(history), sweep, Looked(sweep))
    {
      hide LastPositive, Raised;
      reports := [];
      var socket := 0;
      while socket < |sweep| && socket < MAX_SOCKETS
        invariant 0 <= socket <= Looked(sweep) && history == old(history)
        invariant reports == SweepReports(history, sweep, socket)
        invariant forall k :: 0 <= k < MAX_SOCKETS ==>
          bits[k] == if k < socket then LastPositive(history + [sweep], k) else LastPositive(history, k)
      {
        LastPositiveStep(history, sweep, socket);
        if sweep[socket].Invalid? {
          bits[socket] := 0;
          socket := socket + 1;
          continue;
        }
        var temp := sweep[socket].bits;
        if temp > 0 {
          if temp != bits[socket] {
            var raised := Raise(socket, temp);
            reports := reports + raised;
            bits[socket] := temp;
          } else {
            NothingRaised(socket, temp, temp, 7);
          }
        } else {
          NothingRaised(socket, bits[socket], temp, 7);
        }
        socket := socket + 1;
      }
      forall k | Looked(sweep) <= k < MAX_SOCKETS
        ensures LastPositive(history + [sweep], k) == LastPositive(history, k)
      {
        LastPositiveStep(history, sweep, k);
      }
      history := history + [sweep];
    }
  }

  lemma BitsDiffer(j: nat, k: nat)
    requires j <= 7 && k <= 7 && Bit(j) == Bit(k)
    ensures j == k
  {
  }

  lemma {:induction false} RaisedIff(socket: nat, before: bv32, now: bv32, n: nat, r: Report)
    requires n <= 7
    ensures r in Raised(socket, before, now, n)
       <==> r.socket == socket && exists k: nat :: k < n && r.bit == Bit(k) && !Has(before, k) && Has(now, k)
  {
    hide Has, Bit;
    if n == 0 {
    } else {
      RaisedIff(socket, before, now, n - 1, r);
    }
  }

  lemma RaisedBit(from: nat, before: bv32, now: bv32, socket: nat, k: nat)
    requires k < 7
    ensures Report(socket, Bit(k)) in Raised(from, before, now, 7)
       <==> socket == from && !Has(before, k) && Has(now, k)
  {
    RaisedIff(from, before, now, 7, Report(socket, Bit(k)));
    forall j: nat | j < 7 && Bit(j) == Bit(k) ensures j == k {
      BitsDiffer(j, k);
    }
    hide Has, Bit;
  }

  /** Bit `k` was set in the sample of a socket in sweep `t`. */
  predicate SetIn(history: seq<seq<Poll>>, t: nat, socket: nat, k: nat) {
    t < |history| && Sample(history[t], socket).Events? && Has(Sample(history[t], socket).bits, k)
  }

  /** Sweep `t` neither found the socket invalid nor any of its bits set. */
  predicate Silent(history: seq<seq<Poll>>, t: nat, socket: nat) {
    t < |history| && Sample(history[t], socket) == Events(0)
  }

  /** Bit `k` of a socket has been seen, and since then there were only silent sweeps. */
  ghost predicate Remembered(history: seq<seq<Poll>>, socket: nat, k: nat) {
    exists t: nat :: SetIn(history, t, socket, k) && forall u: nat :: t < u < |history| ==> Silent(history, u, socket)
  }

  lemma {:induction false} RememberedIff(history: seq<seq<Poll>>, socket: nat, k: nat)
    ensures Remembered(history, socket, k) <==> Has(LastPositive(history, socket), k)
  {
    if history == [] {
    } else {
      var n := |history| - 1;
      var front := history[..n];
      RememberedIff(front, socket, k);
      if Silent(history, n, socket) {
        if Remembered(history, socket, k) {
          var t: nat :|
            SetIn(history, t, socket, k) && forall u: nat :: t < u < |history| ==> Silent(history, u, socket);
          assert SetIn(front, t, socket, k);
          forall u: nat | t < u < |front| ensures Silent(front, u, socket) {
            assert Silent(history, u, socket);
          }
        }
        if Remembered(front, socket, k) {
          var t: nat :| SetIn(front, t, socket, k) && forall u: nat :: t < u < |front| ==> Silent(front, u, socket);
          assert SetIn(history, t, socket, k);
          forall u: nat | t < u < |history| ensures Silent(history, u, socket) {
            assert u < n ==> Silent(front, u, socket);
          }
        }
      } else if SetIn(history, n, socket, k) {
        assert Remembered(history, socket, k);
      }
    }
  }

  /**
   * A sweep reports a bit for a socket exactly if it finds the bit set and the bit is not remembered:
   * it was not set in the last sweep that was not silent for this socket.
   */
  lemma {:induction false} ReportedIff(history: seq<seq<Poll>>, sweep: seq<Poll>, n: nat, socket: nat, k: nat)
    requires n <= |sweep| && k < 7
    ensures Report(socket, Bit(k)) in SweepReports(history, sweep, n)
       <==> socket < n && sweep[socket].Events? && Has(sweep[socket].bits, k) && !Remembered(history, socket, k)
  {
    hide Has, Bit, LastPositive, Remembered, Raised;
    if n == 0 {
    } else {
      ReportedIff(history, sweep, n - 1, socket, k);
      RememberedIff(history, socket, k);
      if sweep[n - 1].Events? {
        RaisedBit(n - 1, LastPositive(history, n - 1), sweep[n - 1].bits, socket, k);
      }
    }
  }

  /** The task, over the rounds of `sweeps`: what each of them reports. */
  method WatcherTask(sweeps: seq<seq<Poll>>) returns (reports: seq<seq<Report>>)
    ensures |reports| == |sweeps|
    ensures forall i :: 0 <= i < |sweeps| ==> reports[i] == SweepReports(sweeps[..i], sweeps[i], Looked(sweeps[i]))
  {
    hide SweepReports, LastPositive;
    reports := [];
    var task := new Task();
    for n := 0 to |sweeps|
      invariant task.Valid() && fresh(task) && fresh(task.bits) && task.history == sweeps[..n] && |reports| == n
      invariant forall i :: 0 <= i < n ==> reports[i] == SweepReports(sweeps[..i], sweeps[i], Looked(sweeps[i]))
    {
      var raised := task.Sweep(sweeps[n]);
      reports := reports + [raised];
      assert sweeps[..n + 1] == sweeps[..n] + [sweeps[n]];
    }
  }

  /** By socket, and for the same socket by bit. */
  predicate Before(r: Report, r': Report) {
    r.socket < r'.socket || (r.socket == r'.socket && r.bit < r'.bit)
  }

  predicate Ordered(reports: seq<Report>) {
    forall i, j :: 0 <= i < j < |reports| ==> Before(reports[i], reports[j])
  }

  /** A report of one of the first `n` bits of a socket. */
  predicate BitOf(r: Report, socket: nat, n: nat) {
    r.socket == socket && exists k: nat :: k < n && k < 7 && r.bit == Bit(k)
  }

  lemma BitsIncrease(j: nat, k: nat)
    requires j < k <= 7
    ensures Bit(j) < Bit(k)
  {
  }

  lemma OrderedAppend(xs: seq<Report>, ys: seq<Report>)
    requires Ordered(xs) && Ordered(ys) && forall x, y :: x in xs && y in ys ==> Before(x, y)
    ensures Ordered(xs + ys)
  {
  }

  lemma {:induction false} RaisedOrdered(socket: nat, before: bv32, now: bv32, n: nat)
    requires n <= 7
    ensures Ordered(Raised(socket, before, now, n))
    ensures forall r :: r in Raised(socket, before, now, n) ==> BitOf(r, socket, n)
  {
    hide Has, Bit;
    if n == 0 {
    } else {
      var front := Raised(socket, before, now, n - 1);
      RaisedOrdered(socket, before, now, n - 1);
      forall r | r in front ensures Before(r, Report(socket, Bit(n - 1))) && BitOf(r, socket, n) {
        var k: nat :| k < n - 1 && k < 7 && r.bit == Bit(k);
        BitsIncrease(k, n - 1);
      }
      assert BitOf(Report(socket, Bit(n - 1)), socket, n);
      OrderedAppend(front, [Report(socket, Bit(n - 1))]);
    }
  }

  lemma OfSocket(reports: seq<Report>, socket: nat)
    requires forall r :: r in reports ==> BitOf(r, socket, 7)
    ensures forall r :: r in reports ==> r.socket == socket
  {
  }

  lemma NothingOrdered()
    ensures Ordered([])
  {
  }

  /**
   * The reports of a round are strictly in order, by socket and then by bit, and each is of one of the first
   * seven bits.
   */
  lemma {:induction false} SweepOrdered(history: seq<seq<Poll>>, sweep: seq<Poll>, n: nat)
    requires n <= |sweep|
    ensures Ordered(SweepReports(history, sweep, n))
    ensures forall r :: r in SweepReports(history, sweep, n) ==> r.socket < n && BitOf(r, r.socket, 7)
  {
    hide Raised, LastPositive, BitOf, Ordered;
    if n == 0 {
      NothingOrdered();
    } else {
      SweepOrdered(history, sweep, n - 1);
      if sweep[n - 1].Events? {
        RaisedOrdered(n - 1, LastPositive(history, n - 1), sweep[n - 1].bits, 7);
        OfSocket(Raised(n - 1, LastPositive(history, n - 1), sweep[n - 1].bits, 7), n - 1);
        OrderedAppend(SweepReports(history, sweep, n - 1),
                      Raised(n - 1, LastPositive(history, n - 1), sweep[n - 1].bits, 7));
      } else {
        assert SweepReports(history, sweep, n) == SweepReports(history, sweep, n - 1);
      }
    }
  }

  lemma BeforeIsStrict(r: Report, r': Report)
    requires Before(r, r')
    ensures r != r' && !Before(r', r)
  {
  }

  lemma InRest(xs: seq<Report>, r: Report)
    requires Ordered(xs) && xs != []
    ensures r in xs[1..] <==> r in xs && r != xs[0]
  {
    assert forall i :: 0 < i < |xs| ==> Before(xs[0], xs[i]);
    assert xs == [xs[0]] + xs[1..];
    if r in xs[1..] {
      var i :| 0 <= i < |xs| - 1 && xs[1..][i] == r;
      BeforeIsStrict(xs[0], xs[i + 1]);
    }
  }

  lemma NoneIn(xs: seq<Report>)
    requires forall r :: r !in xs
    ensures xs == []
  {
    var ys := multiset(xs);
    assert forall r :: r in ys ==> r in xs;
    assert ys == multiset{};
  }

  lemma LeastFirst(xs: seq<Report>, ys: seq<Report>)
    requires Ordered(xs) && Ordered(ys) && xs != [] && ys != [] && forall r :: r in xs <==> r in ys
    ensures xs[0] == ys[0]
  {
    assert xs[0] in xs && ys[0] in ys;
    var i :| 0 <= i < |ys| && ys[i] == xs[0];
    var j :| 0 <= j < |xs| && xs[j] == ys[0];
    assert i > 0 ==> Before(ys[0], xs[0]);
    assert j > 0 ==> Before(xs[0], ys[0]);
  }

  /** Reports in strict order are determined by which reports they are. */
  lemma {:induction false} OrderedDetermined(xs: seq<Report>, ys: seq<Report>)
    requires Ordered(xs) && Ordered(ys) && forall r :: r in xs <==> r in ys
    ensures xs == ys
  {
    if xs == [] {
      NoneIn(ys);
    } else if ys == [] {
      NoneIn(xs);
    } else {
      LeastFirst(xs, ys);
      forall r ensures r in xs[1..] <==> r in ys[1..] {
        InRest(xs, r);
        InRest(ys, r);
      }
      OrderedDetermined(xs[1..], ys[1..]);
      assert xs == [xs[0]] + xs[1..] && ys == [ys[0]] + ys[1..];
    }
  }

  lemma BitNumber(r: Report) returns (k: nat)
    requires BitOf(r, r.socket, 7)
    ensures k < 7 && r == Report(r.socket, Bit(k))
  {
    hide Bit;
    k :| k < 7 && r.bit == Bit(k);
  }

  /** A round finds the bit set, and it is not remembered. */
  ghost predicate News(history: seq<seq<Poll>>, sweep: seq<Poll>, socket: nat, k: nat) {
    && socket < Looked(sweep) && sweep[socket].Events? && Has(sweep[socket].bits, k)
    && !Remembered(history, socket, k)
  }

  /**
   * So a round's reports are the one sequence in that order that holds, for each socket looked at, the bits that
   * are set and not remembered.
   */
  lemma ReportsDetermined(history: seq<seq<Poll>>, sweep: seq<Poll>, reports: seq<Report>)
    requires Ordered(reports)
    requires forall r :: r in reports ==> BitOf(r, r.socket, 7)
    requires forall socket: nat, k: nat :: k < 7 ==>
               (Report(socket, Bit(k)) in reports <==> News(history, sweep, socket, k))
    ensures reports == SweepReports(history, sweep, Looked(sweep))
  {
    hide Bit, Has, Remembered, SweepReports, Ordered, BitOf;
    var n := Looked(sweep);
    SweepOrdered(history, sweep, n);
    var swept := SweepReports(history, sweep, n);
    forall r ensures r in reports <==> r in swept {
      if BitOf(r, r.socket, 7) {
        var k := BitNumber(r);
        ReportedIff(history, sweep, n, r.socket, k);
        assert r in reports <==> News(history, sweep, r.socket, k);
      }
    }
    OrderedDetermined(reports, swept);
  }
}
