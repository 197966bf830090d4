/**
 Runs of the decision engine in which other calls come between the three locked parts of a
 received message: the index is updated under the engine's lock, the peer's ledger is
 found or created under that lock again, and its wantlist is updated under the ledger's
 lock. When the peer disconnects after its ledger was found, the message writes into a
 ledger that nobody looks at. A notification drops stale pairs in one locked part that
 looks at the wantlists again. The index misses a want exactly when the pair is dropped
 in between.
 */
module EngineRuns {
  import opened Types
  import opened Wantlists
  import opened EngineModel

  /** A message whose first part is done. */
  datatype Half = Half(p: PeerId, full: bool, wants: seq<MsgEntry>, cancels: seq<MsgEntry>)

  /** Whether the message has its peer's ledger, and whether that ledger is still the engine's. */
  datatype Stage = Begun | Found | Orphaned

  datatype Flight = Flight(h: Half, stage: Stage)

  datatype Split = Split(s: State, flights: seq<Flight>)

  datatype SplitOp =
    | OpBegin(h: Half)
    | OpFind(k: nat)
    | OpEnd(k: nat)
    | OpDrop(noted: set<(Cid, PeerId)>)  // the pairs a notification found without a want
    | OpOther(op: Op)                    // a sent message whose ledger is orphaned is a connect, then a disconnect

  const START := Split(State(map[], {}), [])

  ghost predicate SplitEnabled(w: Split, op: SplitOp) {
    match op
    case OpBegin(h) => CidsOf(h.wants) !! CidsOf(h.cancels)
    case OpFind(k) => k < |w.flights| && w.flights[k].stage == Begun
    case OpEnd(k) => k < |w.flights| && w.flights[k].stage != Begun
    case OpDrop(_) => true
    case OpOther(other) => other.OpSent? || other.OpConnect? || other.OpDisconnect?
  }

  ghost function IndexHalf(s: State, h: Half): State {
    s.(index := s.index + PairsOf(CidsOf(h.wants), h.p) - PairsOf(CidsOf(h.cancels), h.p))
  }

  ghost function LedgerHalf(s: State, h: Half): State {
    s.(lists := s.lists[h.p := AddAll((if h.full then map[] else ListOf(s, h.p)) - CidsOf(h.cancels), h.wants)])
  }

  /** The noted pairs that still no wantlist has leave the index. */
  ghost function Dropped(s: State, noted: set<(Cid, PeerId)>): State {
    s.(index := set cp | cp in s.index && !(cp in noted && !Wants(s, cp.1, cp.0)))
  }

  ghost function Without(flights: seq<Flight>, k: nat): seq<Flight>
    requires k < |flights|
  {
    flights[..k] + flights[k + 1..]
  }

  /** A disconnect takes the ledger out of the engine's map. */
  ghost function AfterDisconnect(f: Flight, p: PeerId): Flight {
    if f.h.p == p && f.stage == Found then f.(stage := Orphaned) else f
  }

  ghost function AllAfterDisconnect(flights: seq<Flight>, p: PeerId): seq<Flight> {
    seq(|flights|, i requires 0 <= i < |flights| => AfterDisconnect(flights[i], p))
  }

  ghost function Ended(s: State, f: Flight): State {
    if f.stage == Found then LedgerHalf(s, f.h) else s
  }

  ghost function SplitStep(w: Split, op: SplitOp): Split
    requires SplitEnabled(w, op)
  {
    match op
    case OpBegin(h) => Split(IndexHalf(w.s, h), w.flights + [Flight(h, Begun)])
    case OpFind(k) => Split(Connect(w.s, w.flights[k].h.p), w.flights[k := w.flights[k].(stage := Found)])
    case OpEnd(k) => Split(Ended(w.s, w.flights[k]), Without(w.flights, k))
    case OpDrop(noted) => w.(s := Dropped(w.s, noted))
    case OpOther(other) =>
      Split(Step(w.s, other), if other.OpDisconnect? then AllAfterDisconnect(w.flights, other.p) else w.flights)
  }

  ghost predicate IsSplitRun(worlds: seq<Split>, ops: seq<SplitOp>) {
    && |worlds| == |ops| + 1 && worlds[0] == START
    && forall i :: 0 <= i < |ops| ==> SplitEnabled(worlds[i], ops[i]) && worlds[i + 1] == SplitStep(worlds[i], ops[i])
  }

  // ---------- the parts together are the calls ----------

  /** The parts without anything between them are one received message. */
  lemma HalvesAreReceive(w: Split, h: Half)
    requires SplitEnabled(w, OpBegin(h))
    ensures var w1 := SplitStep(w, OpBegin(h));
            var k := |w.flights|;
            && SplitEnabled(w1, OpFind(k)) && SplitEnabled(SplitStep(w1, OpFind(k)), OpEnd(k))
            && SplitStep(SplitStep(w1, OpFind(k)), OpEnd(k)).s == Receive(w.s, h.p, h.full, h.wants, h.cancels)
            && SplitStep(SplitStep(w1, OpFind(k)), OpEnd(k)).flights == w.flights
  {
    hide CidsOf, AddAll;
  }

  /** A notification drops what it finds without a want; when nothing comes in between that is all of it. */
  lemma DropIsNotify(s: State, ks: set<Cid>)
    ensures Dropped(s, set cp | cp in s.index && cp.0 in ks && !Wants(s, cp.1, cp.0)) == Notify(s, ks)
  {
  }

  // ---------- what every step keeps ----------

  /** A message under way will take `c` off the wantlist of `p`. */
  ghost predicate BeingCancelled(flights: seq<Flight>, p: PeerId, c: Cid) {
    exists k :: 0 <= k < |flights| && Cancelling(flights[k], p, c)
  }

  ghost predicate Cancelling(f: Flight, p: PeerId, c: Cid) {
    f.h.p == p && f.stage != Orphaned && c in CidsOf(f.h.cancels)
  }

  /** Every want is in the index, or its cancel is under way. */
  ghost predicate CoveredUpTo(w: Split) {
    forall p, c :: Wants(w.s, p, c) ==> (c, p) in w.s.index || BeingCancelled(w.flights, p, c)
  }

  /** The pair of a want is gone when the message ends. */
  ghost predicate Uncovers(w: Split, op: SplitOp) {
    && op.OpEnd? && op.k < |w.flights| && w.flights[op.k].stage == Found
    && var h := w.flights[op.k].h;
       exists c :: c in CidsOf(h.wants) && (c, h.p) !in w.s.index && !BeingCancelled(Without(w.flights, op.k), h.p, c)
  }

  lemma OneMoreFlight(flights: seq<Flight>, f: Flight, p: PeerId, c: Cid)
    ensures BeingCancelled(flights + [f], p, c) <==> BeingCancelled(flights, p, c) || Cancelling(f, p, c)
  {
    hide Cancelling;
    var more := flights + [f];
    if k :| 0 <= k < |flights| && Cancelling(flights[k], p, c) {
      assert more[k] == flights[k];
    }
    if Cancelling(f, p, c) {
      assert more[|flights|] == f;
    }
  }

  lemma OneFewerFlight(flights: seq<Flight>, k: nat, p: PeerId, c: Cid)
    requires k < |flights|
    ensures BeingCancelled(flights, p, c)
            <==> BeingCancelled(Without(flights, k), p, c) || Cancelling(flights[k], p, c)
  {
    hide Cancelling;
    var rest := Without(flights, k);
    if i :| 0 <= i < |flights| && i != k && Cancelling(flights[i], p, c) {
      assert rest[if i < k then i else i - 1] == flights[i];
    }
    if i :| 0 <= i < |rest| && Cancelling(rest[i], p, c) {
      assert flights[if i < k then i else i + 1] == rest[i];
    }
  }

  lemma LedgerWants(s: State, h: Half, p: PeerId, c: Cid)
    ensures Wants(LedgerHalf(s, h), p, c)
            <==> if p != h.p then Wants(s, p, c)
                 else c in CidsOf(h.wants) || (!h.full && Wants(s, p, c) && c !in CidsOf(h.cancels))
  {
    hide CidsOf, AddAll;
    AddAllKeys((if h.full then map[] else ListOf(s, h.p)) - CidsOf(h.cancels), h.wants);
  }

  lemma EndCoveredIff(w: Split, k: nat)
    requires CoveredUpTo(w) && SplitEnabled(w, OpEnd(k))
    ensures CoveredUpTo(SplitStep(w, OpEnd(k))) <==> !Uncovers(w, OpEnd(k))
  {
    hide CidsOf, LedgerHalf, BeingCancelled, Wants;
    var f, w' := w.flights[k], SplitStep(w, OpEnd(k));
    var h := f.h;
    forall p, c
      ensures BeingCancelled(w.flights, p, c) <==> BeingCancelled(w'.flights, p, c) || Cancelling(f, p, c)
    {
      OneFewerFlight(w.flights, k, p, c);
    }
    if f.stage == Found {
      forall p, c
        ensures Wants(w'.s, p, c) <==> if p != h.p then Wants(w.s, p, c)
                                       else || c in CidsOf(h.wants)
                                            || (!h.full && Wants(w.s, p, c) && c !in CidsOf(h.cancels))
      {
        LedgerWants(w.s, h, p, c);
      }
      assert w'.s.index == w.s.index by { SameIndex(w.s, h); }
      if CoveredUpTo(w') {
        forall c | c in CidsOf(h.wants)
          ensures (c, h.p) in w.s.index || BeingCancelled(w'.flights, h.p, c)
        {
          assert Wants(w'.s, h.p, c);
        }
      }
    }
  }

  lemma SameIndex(s: State, h: Half)
    ensures LedgerHalf(s, h).index == s.index
  {
  }

  lemma BeginKeepsCovered(w: Split, h: Half)
    requires CoveredUpTo(w) && SplitEnabled(w, OpBegin(h))
    ensures CoveredUpTo(SplitStep(w, OpBegin(h)))
  {
    hide CidsOf, BeingCancelled;
    var w' := SplitStep(w, OpBegin(h));
    forall p, c | Wants(w'.s, p, c)
      ensures (c, p) in w'.s.index || BeingCancelled(w'.flights, p, c)
    {
      OneMoreFlight(w.flights, Flight(h, Begun), p, c);
      assert Wants(w.s, p, c);
    }
  }

  /** Whether a cancel is under way depends on the flights one by one. */
  lemma SameCancelling(flights: seq<Flight>, flights': seq<Flight>, p: PeerId, c: Cid)
    requires |flights'| == |flights|
    requires forall k :: 0 <= k < |flights| && Cancelling(flights[k], p, c) ==> Cancelling(flights'[k], p, c)
    ensures BeingCancelled(flights, p, c) ==> BeingCancelled(flights', p, c)
  {
    hide Cancelling;
  }

  lemma FindKeepsCovered(w: Split, k: nat)
    requires CoveredUpTo(w) && SplitEnabled(w, OpFind(k))
    ensures CoveredUpTo(SplitStep(w, OpFind(k)))
  {
    hide BeingCancelled;
    var w' := SplitStep(w, OpFind(k));
    forall p, c | Wants(w'.s, p, c)
      ensures (c, p) in w'.s.index || BeingCancelled(w'.flights, p, c)
    {
      assert Wants(w.s, p, c);
      SameCancelling(w.flights, w'.flights, p, c);
    }
  }

  lemma OtherKeepsCovered(w: Split, op: SplitOp)
    requires CoveredUpTo(w) && SplitEnabled(w, op) && (op.OpDrop? || op.OpOther?)
    ensures CoveredUpTo(SplitStep(w, op))
  {
    hide BeingCancelled;
    var w' := SplitStep(w, op);
    forall p, c | Wants(w'.s, p, c)
      ensures (c, p) in w'.s.index || BeingCancelled(w'.flights, p, c)
    {
      assert Wants(w.s, p, c);
      SameCancelling(w.flights, w'.flights, p, c);
    }
  }

  /** One step keeps the wants covered, if and only if it does not end a message whose pair is gone. */
  lemma StepCoveredIff(w: Split, op: SplitOp)
    requires CoveredUpTo(w) && SplitEnabled(w, op)
    ensures CoveredUpTo(SplitStep(w, op)) <==> !Uncovers(w, op)
  {
    hide CoveredUpTo, SplitStep;
    match op
    case OpBegin(h) => BeginKeepsCovered(w, h);
    case OpFind(k) => FindKeepsCovered(w, k);
    case OpEnd(k) => EndCoveredIff(w, k);
    case OpDrop(_) => OtherKeepsCovered(w, op);
    case OpOther(_) => OtherKeepsCovered(w, op);
  }

  /** In every run the wants stay covered all along, if and only if no message ends with its pair gone. */
  lemma {:induction false} RunCoveredIff(worlds: seq<Split>, ops: seq<SplitOp>, n: nat)
    requires IsSplitRun(worlds, ops) && n <= |ops|
    ensures (forall i :: 0 <= i <= n ==> CoveredUpTo(worlds[i]))
            <==> (forall i :: 0 <= i < n ==> !Uncovers(worlds[i], ops[i]))
  {
    hide SplitStep, SplitEnabled, CoveredUpTo, Uncovers;
    if n == 0 {
      StartCovered();
    } else {
      RunCoveredIff(worlds, ops, n - 1);
      assert worlds[n] == SplitStep(worlds[n - 1], ops[n - 1]);
      if CoveredUpTo(worlds[n - 1]) {
        StepCoveredIff(worlds[n - 1], ops[n - 1]);
      }
      if forall i :: 0 <= i <= n ==> CoveredUpTo(worlds[i]) {
        assert CoveredUpTo(worlds[n - 1]) && CoveredUpTo(worlds[n]);
      }
      if forall i :: 0 <= i < n ==> !Uncovers(worlds[i], ops[i]) {
        assert !Uncovers(worlds[n - 1], ops[n - 1]) && CoveredUpTo(worlds[n - 1]);
      }
    }
  }

  lemma StartCovered()
    ensures CoveredUpTo(START)
  {
  }

  /** When no message is under way, covered means that every want is in the index. */
  lemma AtRestCovered(w: Split)
    requires w.flights == []
    ensures CoveredUpTo(w) <==> Covered(w.s)
  {
  }

  // ---------- when the pair of a want is gone ----------

  /** The step takes the pair from the index. */
  ghost predicate Removes(w: Split, op: SplitOp, p: PeerId, c: Cid) {
    match op
    case OpBegin(h) => h.p == p && c in CidsOf(h.cancels)
    case OpFind(_) => false
    case OpEnd(_) => false
    case OpDrop(noted) => (c, p) in noted && !Wants(w.s, p, c)
    case OpOther(other) => other.OpDisconnect? && other.p == p && c in ListOf(w.s, p)
  }

  ghost predicate Puts(op: SplitOp, p: PeerId, c: Cid) {
    op.OpBegin? && op.h.p == p && c in CidsOf(op.h.wants)
  }

  lemma PairStep(w: Split, op: SplitOp, p: PeerId, c: Cid)
    requires SplitEnabled(w, op)
    ensures (c, p) in SplitStep(w, op).s.index <==> !Removes(w, op, p, c) && ((c, p) in w.s.index || Puts(op, p, c))
  {
    hide CidsOf, AddAll;
  }

  /**
   A pair that a message put is gone at step `j`, if and only if some step since then removed
   it and none put it back: a notification that found no want, a disconnect of a peer that
   wanted it before, or a cancel in another message of the peer.
   */
  lemma {:induction false} PairGoneIff(worlds: seq<Split>, ops: seq<SplitOp>, i: nat, j: nat, p: PeerId, c: Cid)
    requires IsSplitRun(worlds, ops) && i < j <= |ops| && Puts(ops[i], p, c)
    ensures (c, p) !in worlds[j].s.index
            <==> exists m :: && i < m < j && Removes(worlds[m], ops[m], p, c)
                             && forall k :: m < k < j ==> !Puts(ops[k], p, c)
    decreases j
  {
    hide SplitStep, Removes, Puts, SplitEnabled;
    var n := j - 1;
    assert worlds[j] == SplitStep(worlds[n], ops[n]) && SplitEnabled(worlds[n], ops[n]);
    PairStep(worlds[n], ops[n], p, c);
    if n == i {
      PutsRemovesNot(worlds[n], ops[n], p, c);
    } else {
      PairGoneIff(worlds, ops, i, n, p, c);
      if Removes(worlds[n], ops[n], p, c) {
        assert i < n < j;
      }
      PutsRemovesNot(worlds[n], ops[n], p, c);
    }
  }

  lemma PutsRemovesNot(w: Split, op: SplitOp, p: PeerId, c: Cid)
    requires SplitEnabled(w, op)
    ensures Puts(op, p, c) ==> !Removes(w, op, p, c)
  {
    hide CidsOf;
  }

  /** Nothing but a new want from the peer brings a missing pair back. */
  lemma StaysUncovered(w: Split, op: SplitOp, p: PeerId, c: Cid)
    requires SplitEnabled(w, op) && (c, p) !in w.s.index && !Puts(op, p, c)
    ensures (c, p) !in SplitStep(w, op).s.index
  {
    PairStep(w, op, p, c);
  }

  // ---------- a run that uncovers a want ----------

  /** A notification falls between the parts of a message: its want is missing from the index for good. */
  lemma NotifiedInBetweenIsMissed(p: PeerId, e: MsgEntry) returns (worlds: seq<Split>, ops: seq<SplitOp>)
    ensures IsSplitRun(worlds, ops) && |ops| == 4 && worlds[4].flights == []
    ensures Wants(worlds[4].s, p, e.want.cid) && (e.want.cid, p) !in worlds[4].s.index && !Covered(worlds[4].s)
  {
    hide AddAll;
    var h, c := Half(p, false, [e], []), e.want.cid;
    ops := [OpBegin(h), OpDrop({(c, p)}), OpFind(0), OpEnd(0)];
    assert [e][0] in [e] && CidsOf([e]) == {c} && CidsOf([]) == {};
    var w1 := SplitStep(START, ops[0]);
    var w2 := SplitStep(w1, ops[1]);
    var w3 := SplitStep(w2, ops[2]);
    var w4 := SplitStep(w3, ops[3]);
    worlds := [START, w1, w2, w3, w4];
    PairStep(w1, ops[1], p, c);
    PairStep(w2, ops[2], p, c);
    PairStep(w3, ops[3], p, c);
    LedgerWants(w3.s, h, p, c);
  }
}
