/** What the acceptor's unlocked scan of the slot table is worth, whatever the handlers do meanwhile. */
module SlotScan {
  import opened SlotTable

  /** The acceptor is comparing slots, or has come to the end of them. */
  predicate InScan(s: State) {
    s.acc.Scanning? || s.acc.Rejecting?
  }

  /** How many slots the scan has passed; a rejection has seen all of them. */
  function Passed(s: State): nat
    requires InScan(s)
  {
    if s.acc.Scanning? then s.acc.i else |s.slots|
  }

  /** Step `j` is the first read of the scan for connection `conn`. */
  predicate FirstRead(n: nat, acts: seq<Action>, j: nat, conn: nat)
    requires Legal(n, acts)
  {
    && j < |acts| && acts[j] == Scan && Legal(n, acts[..j])
    && After(n, acts[..j]).acc.Scanning? && After(n, acts[..j]).acc.i == 0 && After(n, acts[..j]).acc.conn == conn
  }

  /** Occupied slots of `s` were occupied in the earlier state `r`, and so were the first `count`. */
  ghost predicate OccupiedBefore(r: State, s: State, count: int) {
    && |r.slots| == |s.slots|
    && (forall i :: 0 <= i < |s.slots| && s.slots[i] != FREE ==> r.slots[i] != FREE)
    && (forall i :: 0 <= i < count && i < |s.slots| ==> r.slots[i] != FREE)
  }

  /** A scan goes on from a scan, unless it has just begun. */
  lemma ScanStep(n: nat, s: State, a: Action)
    requires Inv(n, s) && Enabled(s, a) && InScan(Apply(s, a)) && (Apply(s, a).acc.Scanning? ==> Apply(s, a).acc.i > 0)
    ensures InScan(s) && Apply(s, a).acc.conn == s.acc.conn
    ensures s.acc.Scanning? && s.acc.i == 0 ==> a.Scan?
  {
    hide Ownership, Responsibility, Descriptors, Pending, LostOpen, Conserved;
  }

  lemma ScanKeeps(n: nat, r: State, s: State, a: Action)
    requires Inv(n, s) && Enabled(s, a) && InScan(s) && InScan(Apply(s, a)) && OccupiedBefore(r, s, Passed(s))
    ensures OccupiedBefore(r, Apply(s, a), Passed(Apply(s, a)))
  {
    hide Ownership, Responsibility, Descriptors, Pending, LostOpen, Conserved;
  }

  lemma NothingPassed(s: State)
    ensures OccupiedBefore(s, s, 0)
  {
  }

  /**
   * While the acceptor scans, every slot it has passed was occupied when it read the first one; and no
   * slot has become occupied since.
   */
  lemma {:induction false} ScanLooksBack(n: nat, acts: seq<Action>) returns (j: nat)
    requires Legal(n, acts) && InScan(After(n, acts))
    requires After(n, acts).acc.Scanning? ==> After(n, acts).acc.i > 0
    ensures FirstRead(n, acts, j, After(n, acts).acc.conn)
    ensures OccupiedBefore(After(n, acts[..j]), After(n, acts), Passed(After(n, acts)))
  {
    var k := |acts| - 1;
    var front, a := acts[..k], acts[k];
    hide Inv, Apply, Enabled, OccupiedBefore;
    RunInv(n, front);
    var s := After(n, front);
    ScanStep(n, s, a);
    if s.acc.Scanning? && s.acc.i == 0 {
      j := k;
      NothingPassed(s);
    } else {
      j := ScanLooksBack(n, front);
      assert front[..j] == acts[..j];
    }
    ScanKeeps(n, After(n, acts[..j]), s, a);
  }

  /** A connection is only turned away if at the first read of its scan all slots were occupied at once. */
  lemma RejectionLinearizable(n: nat, acts: seq<Action>)
    requires Legal(n, acts) && After(n, acts).acc.Rejecting?
    ensures exists j: nat ::
      && FirstRead(n, acts, j, After(n, acts).acc.conn)
      && |After(n, acts[..j]).slots| == n && forall i :: 0 <= i < n ==> After(n, acts[..j]).slots[i] != FREE
  {
    RunInv(n, acts);
    hide Responsibility, Descriptors, Pending, LostOpen, Conserved, Legal, After;
    var j := ScanLooksBack(n, acts);
  }

  /** A slot that the scan found free is still free when the acceptor stores into it, without any lock. */
  lemma FreeAtWrite(n: nat, acts: seq<Action>)
    requires Legal(n, acts + [Store])
    ensures Legal(n, acts)
    ensures var s := After(n, acts);
            && s.acc.Storing? && s.acc.i < |s.slots| == n && s.slots[s.acc.i] == FREE
            && After(n, acts + [Store]).slots == s.slots[s.acc.i := s.acc.fd]
            && OpenAs(s, s.acc.fd, s.acc.conn)
  {
    LastStep(n, acts, Store);
    RunInv(n, acts);
    hide After, Legal, Pending, LostOpen, Conserved;
    var s := After(n, acts);
    assert Descriptor(s, s.holder[s.acc.conn]) == s.acc.fd;
  }
}
