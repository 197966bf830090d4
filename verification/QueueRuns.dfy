/**
 Runs of the message queue in which anything may happen between the two locked parts of
 an extraction, and what they mean for the remote: when it still holds every want that
 was recorded as sent, and when it holds no more than the queue knows of.
 */
module QueueRuns {
  import opened Types
  import opened Wantlists
  import opened QueueModel
  import opened SplitExtraction
  import BM = BitswapMessages

  datatype SplitOp = OpLocal(op: Op) | OpBegin(cut: Cut) | OpFinish

  datatype SplitWorld = SplitWorld(q: Q, remote: WantMap, flight: Option<Flight>)

  const START := SplitWorld(EMPTY, map[], None)

  /** Only one extraction is under way at a time. */
  ghost predicate SplitEnabled(w: SplitWorld, op: SplitOp, max: int) {
    match op
    case OpLocal(local) => !local.OpSend?
    case OpBegin(cut) => w.flight.None? && CutOf(w.q, cut, max)
    case OpFinish => w.flight.Some?
  }

  /** The message is delivered when its extraction is finished. */
  ghost function SplitStep(w: SplitWorld, op: SplitOp, max: int): SplitWorld
    requires SplitEnabled(w, op, max)
  {
    match op
    case OpLocal(local) => w.(q := Step(World(w.q, w.remote), local, max).q)
    case OpBegin(cut) => w.(q := Prepared(w.q, cut.supportsHave), flight := Some(FlightOf(cut)))
    case OpFinish =>
      var (q', msg') := Finish(w.q, w.flight.value);
      SplitWorld(q', Applied(w.remote, msg'), None)
  }

  ghost predicate IsSplitRun(worlds: seq<SplitWorld>, ops: seq<SplitOp>, max: int) {
    && |worlds| == |ops| + 1 && worlds[0] == START
    && forall i :: 0 <= i < |ops| ==>
         SplitEnabled(worlds[i], ops[i], max) && worlds[i + 1] == SplitStep(worlds[i], ops[i], max)
  }

  /** Holds in every run, whatever is lost. */
  ghost predicate SplitInv(w: SplitWorld) {
    Inv(w.q) && (w.flight.Some? ==> FlightOk(w.flight.value))
  }

  ghost predicate InStep(w: SplitWorld) {
    Synced(w.q, w.remote)
  }

  ghost predicate LosesNothing(w: SplitWorld, op: SplitOp) {
    op.OpFinish? && w.flight.Some? ==> NothingLost(w.q, w.remote, w.flight.value)
  }

  ghost predicate ListsAgree(w: SplitWorld, op: SplitOp) {
    op.OpFinish? && w.flight.Some? ==> Agree(w.q, w.flight.value)
  }

  // ---------- every want recorded as sent is at the remote ----------

  lemma LocalKeepsInv(w: SplitWorld, op: SplitOp, max: int)
    requires SplitInv(w) && SplitEnabled(w, op, max) && op.OpLocal?
    ensures SplitInv(SplitStep(w, op, max))
  {
    hide Step, FlightOk;
    InvIsSynced(w.q);
    StepKeepsSynced(World(w.q, SentThere(w.q)), op.op, max);
    SameQueue(w.q, w.remote, SentThere(w.q), op.op, max);
  }

  /** What is done locally does not depend on the remote. */
  lemma SameQueue(q: Q, remote: WantMap, remote': WantMap, op: Op, max: int)
    requires !op.OpSend?
    ensures Step(World(q, remote), op, max).q == Step(World(q, remote'), op, max).q
    ensures Step(World(q, remote), op, max).remote == remote
  {
  }

  /** A remote that holds all that was sent, as want-blocks. */
  ghost function SentThere(q: Q): WantMap {
    map c | c in q.peerSent.Keys + q.bcstSent.Keys :: Entry(c, 0, WANT_BLOCK)
  }

  lemma InvIsSynced(q: Q)
    requires Inv(q)
    ensures Synced(q, SentThere(q))
  {
  }

  lemma StepKeepsSplitInv(w: SplitWorld, op: SplitOp, max: int)
    requires SplitInv(w) && SplitEnabled(w, op, max)
    ensures SplitInv(SplitStep(w, op, max))
  {
    hide Inv, FlightOk, Step, FlightOf, Finish, CutOf, Prepared;
    match op
    case OpLocal(_) => LocalKeepsInv(w, op, max);
    case OpBegin(cut) =>
      PreparedKeeps(w.q, cut.supportsHave);
      CutFlightOk(w.q, cut, max);
    case OpFinish => FinishInv(w.q, w.flight.value);
  }

  lemma PreparedKeepsSynced(q: Q, remote: WantMap, supportsHave: bool)
    requires Synced(q, remote)
    ensures Synced(Prepared(q, supportsHave), remote)
  {
    hide Prepared, Inv;
    PreparedKeeps(q, supportsHave);
  }

  /** One step keeps the remote in step, if and only if it loses nothing. */
  lemma StepInStepIff(w: SplitWorld, op: SplitOp, max: int)
    requires SplitInv(w) && InStep(w) && SplitEnabled(w, op, max)
    ensures InStep(SplitStep(w, op, max)) <==> LosesNothing(w, op)
  {
    hide Synced, FlightOk, Step, FlightOf, Finish, CutOf, Prepared, NothingLost, Inv;
    match op
    case OpLocal(local) =>
      StepKeepsSynced(World(w.q, w.remote), local, max);
      SameQueue(w.q, w.remote, w.remote, local, max);
    case OpBegin(cut) => PreparedKeepsSynced(w.q, w.remote, cut.supportsHave);
    case OpFinish => FinishKeepsSyncedIff(w.q, w.remote, w.flight.value);
  }

  lemma {:induction false} RunKeepsSplitInv(worlds: seq<SplitWorld>, ops: seq<SplitOp>, max: int, n: nat)
    requires IsSplitRun(worlds, ops, max) && n <= |ops|
    ensures SplitInv(worlds[n])
  {
    hide SplitStep, SplitEnabled;
    if n > 0 {
      RunKeepsSplitInv(worlds, ops, max, n - 1);
      StepKeepsSplitInv(worlds[n - 1], ops[n - 1], max);
    }
  }

  /**
   In every run, with anything between the two parts of an extraction: the remote holds
   every want recorded as sent, all along, if and only if no finish loses a want that the
   remote does not have.
   */
  lemma {:induction false} RunInStepIff(worlds: seq<SplitWorld>, ops: seq<SplitOp>, max: int, n: nat)
    requires IsSplitRun(worlds, ops, max) && n <= |ops|
    ensures (forall i :: 0 <= i <= n ==> InStep(worlds[i]))
            <==> (forall i :: 0 <= i < n ==> LosesNothing(worlds[i], ops[i]))
  {
    hide SplitStep, SplitEnabled, InStep, LosesNothing;
    if n == 0 {
      StartsInStep();
    } else {
      RunInStepIff(worlds, ops, max, n - 1);
      RunKeepsSplitInv(worlds, ops, max, n - 1);
      assert worlds[n] == SplitStep(worlds[n - 1], ops[n - 1], max);
      if InStep(worlds[n - 1]) {
        StepInStepIff(worlds[n - 1], ops[n - 1], max);
      }
      if forall i :: 0 <= i <= n ==> InStep(worlds[i]) {
        assert InStep(worlds[n - 1]) && InStep(worlds[n]);
      }
      if forall i :: 0 <= i < n ==> LosesNothing(worlds[i], ops[i]) {
        assert LosesNothing(worlds[n - 1], ops[n - 1]) && InStep(worlds[n - 1]);
      }
    }
  }

  lemma StartsInStep()
    ensures InStep(START)
  {
  }

  /** So it is when at every finish the two lists agree on the keys that are in both. */
  lemma AgreeingRunInStep(worlds: seq<SplitWorld>, ops: seq<SplitOp>, max: int, n: nat)
    requires IsSplitRun(worlds, ops, max) && n <= |ops|
    requires forall i :: 0 <= i < n ==> ListsAgree(worlds[i], ops[i])
    ensures InStep(worlds[n])
  {
    hide InStep;
    forall i | 0 <= i < n
      ensures LosesNothing(worlds[i], ops[i])
    {
      RunKeepsSplitInv(worlds, ops, max, i);
      assert ListsAgree(worlds[i], ops[i]);
      if ops[i].OpFinish? {
        AgreeIff(worlds[i].q, worlds[i].flight.value);
      }
    }
    RunInStepIff(worlds, ops, max, n);
  }

  /** A finish right after its beginning finds the lists in agreement. */
  lemma ImmediateFinishAgrees(q: Q, cut: Cut, max: int)
    requires Inv(q) && CutOf(q, cut, max)
    ensures cut.n <= |cut.Items()| && Agree(Prepared(q, cut.supportsHave), FlightOf(cut))
  {
    hide Cut.Items, MsgOf, IsCut, Descending, Prepared;
    IsCutBound(cut, max);
    var f, p := FlightOf(cut), Prepared(q, cut.supportsHave);
    PreparedKeeps(q, cut.supportsHave);
    FlightTypes(cut.peers, p.peerPending, cut.SentPeers());
    FlightTypes(cut.bcsts, p.bcstPending, cut.SentBcsts());
  }

  // ---------- the remote holds no more than the queue knows of ----------

  ghost function PendingKeys(q: Q): set<Cid> {
    q.peerPending.Keys + q.bcstPending.Keys
  }

  /** Whatever the remote wants on our behalf is wanted or to be cancelled here. */
  ghost predicate NoLarger(q: Q, remote: WantMap) {
    remote.Keys <= SentKeys(q) + PendingKeys(q) + q.cancels
  }

  /**
   The keys in limbo: at the remote, but neither recorded as sent nor to be cancelled. A key
   gets there when its cancel is withdrawn by a new want, or when its want-have is dropped
   for an old peer, and leaves when it is sent. Nothing of this reads the remote.
   */
  ghost function NextLimbo(w: SplitWorld, op: SplitOp, limbo: set<Cid>): set<Cid> {
    match op
    case OpLocal(OpWants(bs, hs)) => limbo + (Elems(hs) + Elems(bs)) * w.q.cancels
    case OpLocal(OpBroadcast(ks)) => limbo + Elems(ks) * w.q.cancels
    case OpLocal(_) => limbo
    case OpBegin(cut) => limbo + (SentKeys(w.q) - SentKeys(Prepared(w.q, cut.supportsHave)))
    case OpFinish => if w.flight.None? then limbo else limbo - SentBy(w.q, w.flight.value)
  }

  ghost function SentBy(q: Q, f: Flight): set<Cid> {
    Marked(q.peerPending, f.peers) + Marked(q.bcstPending, f.bcsts)
  }

  ghost predicate IsLimbo(worlds: seq<SplitWorld>, ops: seq<SplitOp>, limbos: seq<set<Cid>>) {
    && |worlds| == |ops| + 1 == |limbos| && limbos[0] == {}
    && forall i :: 0 <= i < |ops| ==> limbos[i + 1] == NextLimbo(worlds[i], ops[i], limbos[i])
  }

  /** The keys at the remote are those sent, those to be cancelled and those in limbo. */
  ghost predicate RemoteKnown(w: SplitWorld, limbo: set<Cid>) {
    && w.remote.Keys == SentKeys(w.q) + w.q.cancels + limbo
    && limbo !! SentKeys(w.q) + w.q.cancels
  }

  lemma {:induction false} PeerWantsEffect(q: Q, ks: seq<Cid>, wantType: Int32)
    ensures var r := AddPeerWants(q, ks, wantType);
            && r.cancels == q.cancels - Elems(ks) && SentKeys(r) == SentKeys(q)
            && PendingKeys(r) == PendingKeys(q) + Elems(ks)
  {
    if ks != [] {
      PeerWantsEffect(q, ks[..|ks| - 1], wantType);
      LastElem(ks);
    }
  }

  lemma {:induction false} BroadcastEffect(q: Q, ks: seq<Cid>)
    ensures var r := AddBroadcastWants(q, ks);
            && r.cancels == q.cancels - Elems(ks) && SentKeys(r) == SentKeys(q)
            && PendingKeys(r) == PendingKeys(q) + Elems(ks)
  {
    if ks != [] {
      BroadcastEffect(q, ks[..|ks| - 1]);
      LastElem(ks);
    }
  }

  lemma LastElem(ks: seq<Cid>)
    requires ks != []
    ensures Elems(ks) == Elems(ks[..|ks| - 1]) + {ks[|ks| - 1]}
  {
    assert ks == ks[..|ks| - 1] + [ks[|ks| - 1]];
  }

  lemma RebroadcastEffect(q: Q)
    ensures var r := Rebroadcast(q);
            && r.cancels == q.cancels && SentKeys(r) == SentKeys(q) && PendingKeys(r) == PendingKeys(q) + SentKeys(q)
  {
  }

  lemma CancelEffect(q: Q, ks: seq<Cid>)
    ensures var r, gone := AddCancelAll(q, ks), Elems(ks);
            && r.cancels == q.cancels + gone * SentKeys(q) && SentKeys(r) == SentKeys(q) - gone
            && PendingKeys(r) == PendingKeys(q) - gone
  {
    CancelAllIs(q, ks);
  }

  lemma FinishEffect(q: Q, remote: WantMap, f: Flight)
    requires Inv(q) && FlightOk(f)
    ensures var (q', msg') := Finish(q, f);
            && SentKeys(q') == SentKeys(q) + SentBy(q, f) && q'.cancels == q.cancels - Elems(f.cs)
            && PendingKeys(q') + SentBy(q, f) >= PendingKeys(q) && PendingKeys(q') <= PendingKeys(q)
            && Applied(remote, msg').Keys == remote.Keys + (SentBy(q, f) - LostKeys(q, f)) - Elems(f.cs) * q.cancels
  {
    hide MarkAll, ClearAll, Marked, Changed, CidsOf, FlightOk;
    var (q', msg') := Finish(q, f);
    FinishIs(q, f);
    FlightLists(f);
    var p := MarkAll(Marking(q.peerPending, q.peerSent, f.msg), f.peers);
    MarkAllIs(Marking(q.peerPending, q.peerSent, f.msg), f.peers);
    MarkAllIs(Marking(q.bcstPending, q.bcstSent, p.msg), f.bcsts);
    ClearAllIs(q.cancels, MarkAll(Marking(q.bcstPending, q.bcstSent, p.msg), f.bcsts).msg, f.cs);
    MessageKeys(q, remote, f, msg');
  }

  lemma FlightLists(f: Flight)
    requires FlightOk(f)
    ensures CidsDistinct(f.peers) && CidsDistinct(f.bcsts) && Distinct(f.cs)
  {
  }

  /** The keys that the finished message adds at the remote, and those that it takes away. */
  lemma MessageKeys(q: Q, remote: WantMap, f: Flight, msg': MsgWants)
    requires Inv(q) && FlightOk(f)
    requires msg' == f.msg - Changed(q.peerPending, f.peers) - Changed(q.bcstPending, f.bcsts)
             - (Elems(f.cs) - q.cancels)
    ensures Applied(remote, msg').Keys == remote.Keys + (SentBy(q, f) - LostKeys(q, f)) - Elems(f.cs) * q.cancels
  {
    hide Marked, Changed, CidsOf, Applied, Inv, FlightOk, SentBy, LostKeys;
    forall c
      ensures c in Applied(remote, msg')
              <==> c in remote.Keys + (SentBy(q, f) - LostKeys(q, f)) - Elems(f.cs) * q.cancels
    {
      MessageKey(q, remote, f, msg', c);
    }
  }

  lemma MessageKey(q: Q, remote: WantMap, f: Flight, msg': MsgWants, c: Cid)
    requires Inv(q) && FlightOk(f)
    requires msg' == f.msg - Changed(q.peerPending, f.peers) - Changed(q.bcstPending, f.bcsts)
             - (Elems(f.cs) - q.cancels)
    ensures c in Applied(remote, msg')
            <==> c in remote.Keys + (SentBy(q, f) - LostKeys(q, f)) - Elems(f.cs) * q.cancels
  {
    hide Marked, Changed, CidsOf, Keyed, KnownTypes, HavesOnly, AddTo, CidsDistinct, Distinct;
    ListedOnce(q.peerPending, f.peers);
    ListedOnce(q.bcstPending, f.bcsts);
    MarkedArePending(q.peerPending, f.peers);
    MarkedArePending(q.bcstPending, f.bcsts);
  }

  lemma MarkedArePending(pending: WantMap, es: seq<Entry>)
    ensures Marked(pending, es) <= pending.Keys
  {
  }

  lemma BeginEffect(q: Q, supportsHave: bool)
    ensures var p := Prepared(q, supportsHave);
            && p.cancels == q.cancels && SentKeys(p) <= SentKeys(q) && PendingKeys(p) <= PendingKeys(q)
  {
  }

  lemma LocalKeepsRemoteKnown(w: SplitWorld, op: SplitOp, max: int, limbo: set<Cid>)
    requires SplitInv(w) && RemoteKnown(w, limbo) && SplitEnabled(w, op, max) && op.OpLocal?
    ensures RemoteKnown(SplitStep(w, op, max), NextLimbo(w, op, limbo))
  {
    hide AddPeerWants, AddBroadcastWants, AddCancelAll, Rebroadcast, Elems, PendingKeys;
    match op.op
    case OpWants(bs, hs) =>
      PeerWantsEffect(w.q, hs, WANT_HAVE);
      PeerWantsEffect(AddPeerWants(w.q, hs, WANT_HAVE), bs, WANT_BLOCK);
    case OpBroadcast(ks) => BroadcastEffect(w.q, ks);
    case OpCancels(ks) => CancelEffect(w.q, ks);
    case OpRebroadcast => RebroadcastEffect(w.q);
  }

  lemma StepKeepsRemoteKnown(w: SplitWorld, op: SplitOp, max: int, limbo: set<Cid>)
    requires SplitInv(w) && RemoteKnown(w, limbo) && SplitEnabled(w, op, max) && LosesNothing(w, op)
    ensures RemoteKnown(SplitStep(w, op, max), NextLimbo(w, op, limbo))
  {
    hide FlightOk, Step, FlightOf, CutOf, Prepared, Finish, PendingKeys, Applied, SentBy, LostKeys, Elems;
    match op
    case OpLocal(_) => LocalKeepsRemoteKnown(w, op, max, limbo);
    case OpBegin(cut) => BeginEffect(w.q, cut.supportsHave);
    case OpFinish =>
      var f := w.flight.value;
      FinishEffect(w.q, w.remote, f);
      SentWerePending(w.q, f);
  }

  lemma SentWerePending(q: Q, f: Flight)
    ensures SentBy(q, f) <= PendingKeys(q) && LostKeys(q, f) <= SentBy(q, f)
    ensures Inv(q) ==> SentBy(q, f) !! q.cancels
  {
    hide Marked, Changed;
    MarkedArePending(q.peerPending, f.peers);
    MarkedArePending(q.bcstPending, f.bcsts);
  }

  /** In every run that loses nothing, the queue's own history tells which keys are at the remote. */
  lemma {:induction false} RunKeepsRemoteKnown(worlds: seq<SplitWorld>, ops: seq<SplitOp>, max: int,
                                               limbos: seq<set<Cid>>, n: nat)
    requires IsSplitRun(worlds, ops, max) && IsLimbo(worlds, ops, limbos) && n <= |ops|
    requires forall i :: 0 <= i < n ==> LosesNothing(worlds[i], ops[i])
    ensures RemoteKnown(worlds[n], limbos[n])
  {
    hide SplitStep, SplitEnabled, NextLimbo, LosesNothing;
    if n > 0 {
      RunKeepsRemoteKnown(worlds, ops, max, limbos, n - 1);
      RunKeepsSplitInv(worlds, ops, max, n - 1);
      StepKeepsRemoteKnown(worlds[n - 1], ops[n - 1], max, limbos[n - 1]);
    }
  }

  // ---------- what is lost, told without the remote ----------

  /** The keys that the messages sent so far made want-blocks at the remote, cancelled ones taken out again. */
  ghost function NextBlocks(w: SplitWorld, op: SplitOp, blocks: set<Cid>): set<Cid> {
    if op.OpFinish? && w.flight.Some? then
      var msg' := Finish(w.q, w.flight.value).1;
      blocks + (set c | c in msg' && msg'[c].want.wantType == WANT_BLOCK) - (set c | c in msg' && msg'[c].cancel)
    else blocks
  }

  ghost predicate IsBlocks(worlds: seq<SplitWorld>, ops: seq<SplitOp>, blocks: seq<set<Cid>>) {
    && |worlds| == |ops| + 1 == |blocks| && blocks[0] == {}
    && forall i :: 0 <= i < |ops| ==> blocks[i + 1] == NextBlocks(worlds[i], ops[i], blocks[i])
  }

  ghost predicate BlocksKnown(w: SplitWorld, blocks: set<Cid>) {
    forall c :: c in blocks <==> c in w.remote && w.remote[c].wantType == WANT_BLOCK
  }

  lemma AppliedBlocks(remote: WantMap, msg: MsgWants, c: Cid)
    ensures var r := Applied(remote, msg);
            c in r && r[c].wantType == WANT_BLOCK
            <==> && !(c in msg && msg[c].cancel)
                 && (|| (c in remote && remote[c].wantType == WANT_BLOCK)
                     || (c in msg && msg[c].want.wantType == WANT_BLOCK))
  {
  }

  lemma StepKeepsBlocksKnown(w: SplitWorld, op: SplitOp, max: int, blocks: set<Cid>)
    requires BlocksKnown(w, blocks) && SplitEnabled(w, op, max)
    ensures BlocksKnown(SplitStep(w, op, max), NextBlocks(w, op, blocks))
  {
    hide Finish, Applied, FlightOf, Prepared, CutOf, Step;
    match op
    case OpLocal(_) =>
    case OpBegin(_) =>
    case OpFinish =>
      var msg' := Finish(w.q, w.flight.value).1;
      forall c
        ensures c in NextBlocks(w, op, blocks)
                <==> c in Applied(w.remote, msg') && Applied(w.remote, msg')[c].wantType == WANT_BLOCK
      {
        AppliedBlocks(w.remote, msg', c);
      }
  }

  lemma {:induction false} RunKeepsBlocksKnown(worlds: seq<SplitWorld>, ops: seq<SplitOp>, max: int,
                                               blocks: seq<set<Cid>>, n: nat)
    requires IsSplitRun(worlds, ops, max) && IsBlocks(worlds, ops, blocks) && n <= |ops|
    ensures BlocksKnown(worlds[n], blocks[n])
  {
    hide SplitStep, SplitEnabled, NextBlocks;
    if n > 0 {
      RunKeepsBlocksKnown(worlds, ops, max, blocks, n - 1);
      StepKeepsBlocksKnown(worlds[n - 1], ops[n - 1], max, blocks[n - 1]);
    }
  }

  /** What a finish loses was sent before or is in limbo, with its type. */
  ghost predicate LossIsHarmless(w: SplitWorld, op: SplitOp, limbo: set<Cid>, blocks: set<Cid>) {
    op.OpFinish? && w.flight.Some? ==>
      var f := w.flight.value;
      && LostKeys(w.q, f) <= SentKeys(w.q) + limbo
      && forall e :: e in f.peers && e.cid in LostKeys(w.q, f) * Marked(w.q.peerPending, f.peers) ==>
                       e.wantType == WANT_BLOCK ==> e.cid in blocks
  }

  lemma HarmlessIff(w: SplitWorld, op: SplitOp, limbo: set<Cid>, blocks: set<Cid>)
    requires SplitInv(w) && RemoteKnown(w, limbo) && BlocksKnown(w, blocks)
    ensures LosesNothing(w, op) <==> LossIsHarmless(w, op, limbo, blocks)
  {
    hide Marked, LostKeys, FlightOk, PendingKeys;
    if op.OpFinish? && w.flight.Some? {
      var f := w.flight.value;
      SentWerePending(w.q, f);
      assert forall c :: c in LostKeys(w.q, f) ==> (c in w.remote <==> c in SentKeys(w.q) + limbo);
    }
  }

  /** The condition of `RunInStepIff` told by the queue's own history. */
  lemma {:induction false} RunInStepIffHarmless(worlds: seq<SplitWorld>, ops: seq<SplitOp>, max: int,
                                                limbos: seq<set<Cid>>, blocks: seq<set<Cid>>, n: nat)
    requires IsSplitRun(worlds, ops, max) && n <= |ops|
    requires IsLimbo(worlds, ops, limbos) && IsBlocks(worlds, ops, blocks)
    ensures (forall i :: 0 <= i <= n ==> InStep(worlds[i]))
            <==> (forall i :: 0 <= i < n ==> LossIsHarmless(worlds[i], ops[i], limbos[i], blocks[i]))
  {
    hide SplitStep, SplitEnabled, InStep, LosesNothing, LossIsHarmless, NextLimbo, NextBlocks, RemoteKnown, BlocksKnown;
    RunInStepIff(worlds, ops, max, n);
    HarmlessUpTo(worlds, ops, max, limbos, blocks, n);
  }

  lemma {:induction false} HarmlessUpTo(worlds: seq<SplitWorld>, ops: seq<SplitOp>, max: int, limbos: seq<set<Cid>>,
                                        blocks: seq<set<Cid>>, n: nat)
    requires IsSplitRun(worlds, ops, max) && n <= |ops|
    requires IsLimbo(worlds, ops, limbos) && IsBlocks(worlds, ops, blocks)
    ensures (forall i :: 0 <= i < n ==> LosesNothing(worlds[i], ops[i]))
            <==> (forall i :: 0 <= i < n ==> LossIsHarmless(worlds[i], ops[i], limbos[i], blocks[i]))
  {
    hide SplitStep, SplitEnabled, LosesNothing, LossIsHarmless, NextLimbo, NextBlocks, RemoteKnown, BlocksKnown;
    if n > 0 {
      HarmlessUpTo(worlds, ops, max, limbos, blocks, n - 1);
      if forall i :: 0 <= i < n - 1 ==> LosesNothing(worlds[i], ops[i]) {
        RunKeepsRemoteKnown(worlds, ops, max, limbos, n - 1);
        RunKeepsBlocksKnown(worlds, ops, max, blocks, n - 1);
        RunKeepsSplitInv(worlds, ops, max, n - 1);
        HarmlessIff(worlds[n - 1], ops[n - 1], limbos[n - 1], blocks[n - 1]);
      }
    }
  }

  // ---------- when the remote holds no more ----------

  /** In a run that loses nothing: the remote holds no more if and only if every key in limbo is pending. */
  lemma NoLargerIff(w: SplitWorld, limbo: set<Cid>)
    requires RemoteKnown(w, limbo)
    ensures NoLarger(w.q, w.remote) <==> limbo <= PendingKeys(w.q)
  {
  }

  /** The keys that the messages sent so far asked of the remote, cancelled ones taken out again. */
  ghost function NextThere(w: SplitWorld, op: SplitOp, there: set<Cid>): set<Cid> {
    if op.OpFinish? && w.flight.Some? then
      var msg' := Finish(w.q, w.flight.value).1;
      there + (set c | c in msg' && !msg'[c].cancel) - (set c | c in msg' && msg'[c].cancel)
    else there
  }

  ghost predicate IsThere(worlds: seq<SplitWorld>, ops: seq<SplitOp>, theres: seq<set<Cid>>) {
    && |worlds| == |ops| + 1 == |theres| && theres[0] == {}
    && forall i :: 0 <= i < |ops| ==> theres[i + 1] == NextThere(worlds[i], ops[i], theres[i])
  }

  lemma StepKeepsThere(w: SplitWorld, op: SplitOp, max: int)
    requires SplitEnabled(w, op, max)
    ensures NextThere(w, op, w.remote.Keys) == SplitStep(w, op, max).remote.Keys
  {
    hide Finish, FlightOf, Prepared, CutOf, Step, AddTo;
  }

  /** In every run, whatever it loses, the messages sent tell which keys are at the remote. */
  lemma {:induction false} RunKeepsThere(worlds: seq<SplitWorld>, ops: seq<SplitOp>, max: int, theres: seq<set<Cid>>,
                                         n: nat)
    requires IsSplitRun(worlds, ops, max) && IsThere(worlds, ops, theres) && n <= |ops|
    ensures theres[n] == worlds[n].remote.Keys
  {
    hide SplitStep, SplitEnabled, NextThere;
    if n > 0 {
      RunKeepsThere(worlds, ops, max, theres, n - 1);
      StepKeepsThere(worlds[n - 1], ops[n - 1], max);
    }
  }

  /** For an old peer, the pending want-have is all there is of a key that is at the remote. */
  ghost predicate StrandedByDrop(q: Q, there: set<Cid>, c: Cid) {
    && c in there && c in q.peerPending && q.peerPending[c].wantType == WANT_HAVE
    && c !in q.bcstPending && c !in q.bcstSent && !(c in q.peerSent && q.peerSent[c].wantType == WANT_BLOCK)
  }

  /**
   The step forgets a key that is at the remote: a cancel of one that is neither recorded as
   sent nor to be cancelled, or a drop for an old peer.
   */
  ghost predicate Strands(w: SplitWorld, op: SplitOp, there: set<Cid>) {
    match op
    case OpLocal(OpCancels(ks)) => Elems(ks) * there - SentKeys(w.q) - w.q.cancels != {}
    case OpBegin(cut) => !cut.supportsHave && exists c :: StrandedByDrop(w.q, there, c)
    case _ => false
  }

  lemma DropEffect(q: Q, remote: WantMap)
    requires Inv(q) && NoLarger(q, remote)
    ensures NoLarger(DropHaves(q), remote) <==> !exists c :: StrandedByDrop(q, remote.Keys, c)
  {
    hide Keyed, KnownTypes, HavesOnly;
    var p := DropHaves(q);
    forall c
      ensures c in remote.Keys && c !in SentKeys(p) + PendingKeys(p) + p.cancels <==> StrandedByDrop(q, remote.Keys, c)
    {
    }
  }

  lemma CancelStrandsIff(q: Q, remote: WantMap, ks: seq<Cid>)
    requires NoLarger(q, remote)
    ensures NoLarger(AddCancelAll(q, ks), remote) <==> Elems(ks) * remote.Keys - SentKeys(q) - q.cancels == {}
  {
    hide AddCancelAll, PendingKeys, SentKeys, Elems;
    CancelEffect(q, ks);
    var r := AddCancelAll(q, ks);
    var strays := remote.Keys - SentKeys(r) - PendingKeys(r) - r.cancels;
    assert strays == Elems(ks) * remote.Keys - SentKeys(q) - q.cancels;
    assert NoLarger(r, remote) <==> strays == {} by {
      assert forall c :: c in strays <==> c in remote && c !in SentKeys(r) + PendingKeys(r) + r.cancels;
    }
  }

  /** One step keeps the remote from holding more, if and only if it strands no key. */
  lemma StepNoLargerIff(w: SplitWorld, op: SplitOp, max: int)
    requires SplitInv(w) && NoLarger(w.q, w.remote) && SplitEnabled(w, op, max)
    ensures var w' := SplitStep(w, op, max);
            NoLarger(w'.q, w'.remote) <==> !Strands(w, op, w.remote.Keys)
  {
    hide FlightOk, FlightOf, CutOf, DropHaves, StrandedByDrop, Finish, PendingKeys, Applied, SentBy, LostKeys, Elems,
         Inv, AddPeerWants, AddBroadcastWants, AddCancelAll, Rebroadcast, SentKeys;
    match op
    case OpLocal(OpWants(bs, hs)) =>
      PeerWantsEffect(w.q, hs, WANT_HAVE);
      PeerWantsEffect(AddPeerWants(w.q, hs, WANT_HAVE), bs, WANT_BLOCK);
    case OpLocal(OpBroadcast(ks)) => BroadcastEffect(w.q, ks);
    case OpLocal(OpCancels(ks)) => CancelStrandsIff(w.q, w.remote, ks);
    case OpLocal(OpRebroadcast) => RebroadcastEffect(w.q);
    case OpBegin(cut) =>
      if !cut.supportsHave {
        DropEffect(w.q, w.remote);
      }
    case OpFinish => FinishEffect(w.q, w.remote, w.flight.value);
  }

  /**
   In every run: the remote never holds more than the queue knows of, if and only if no
   cancel and no drop for an old peer strands a key. The condition is told by the queue and
   the messages it sent.
   */
  lemma {:induction false} RunNoLargerIff(worlds: seq<SplitWorld>, ops: seq<SplitOp>, max: int,
                                          theres: seq<set<Cid>>, n: nat)
    requires IsSplitRun(worlds, ops, max) && IsThere(worlds, ops, theres) && n <= |ops|
    ensures (forall i :: 0 <= i <= n ==> NoLarger(worlds[i].q, worlds[i].remote))
            <==> (forall i :: 0 <= i < n ==> !Strands(worlds[i], ops[i], theres[i]))
  {
    hide SplitStep, SplitEnabled, NextThere, Strands, NoLarger;
    if n == 0 {
      NoLargerAtStart();
    } else {
      RunNoLargerIff(worlds, ops, max, theres, n - 1);
      RunKeepsSplitInv(worlds, ops, max, n - 1);
      RunKeepsThere(worlds, ops, max, theres, n - 1);
      assert worlds[n] == SplitStep(worlds[n - 1], ops[n - 1], max);
      if NoLarger(worlds[n - 1].q, worlds[n - 1].remote) {
        StepNoLargerIff(worlds[n - 1], ops[n - 1], max);
      }
      if forall i :: 0 <= i <= n ==> NoLarger(worlds[i].q, worlds[i].remote) {
        assert NoLarger(worlds[n - 1].q, worlds[n - 1].remote) && NoLarger(worlds[n].q, worlds[n].remote);
      }
      if forall i :: 0 <= i < n ==> !Strands(worlds[i], ops[i], theres[i]) {
        assert !Strands(worlds[n - 1], ops[n - 1], theres[n - 1]) && NoLarger(worlds[n - 1].q, worlds[n - 1].remote);
      }
    }
  }

  lemma NoLargerAtStart()
    ensures NoLarger(START.q, START.remote)
  {
  }

  // ---------- runs that show the conditions are needed ----------

  /** A run and its last world. */
  datatype Trace = Trace(worlds: seq<SplitWorld>, ops: seq<SplitOp>)

  const NO_STEPS := Trace([START], [])

  ghost predicate Ends(tr: Trace, max: int, w: SplitWorld) {
    IsSplitRun(tr.worlds, tr.ops, max) && tr.worlds[|tr.ops|] == w
  }

  ghost function Then(tr: Trace, w: SplitWorld, op: SplitOp, max: int): Trace
    requires SplitEnabled(w, op, max)
  {
    Trace(tr.worlds + [SplitStep(w, op, max)], tr.ops + [op])
  }

  lemma ThenEnds(tr: Trace, max: int, w: SplitWorld, op: SplitOp)
    requires Ends(tr, max, w) && SplitEnabled(w, op, max)
    ensures Ends(Then(tr, w, op, max), max, SplitStep(w, op, max))
  {
    hide SplitStep, SplitEnabled;
    var tr' := Then(tr, w, op, max);
    forall i | 0 <= i < |tr'.ops|
      ensures SplitEnabled(tr'.worlds[i], tr'.ops[i], max)
      ensures tr'.worlds[i + 1] == SplitStep(tr'.worlds[i], tr'.ops[i], max)
    {
      if i < |tr.ops| {
        assert tr'.worlds[i] == tr.worlds[i] && tr'.worlds[i + 1] == tr.worlds[i + 1] && tr'.ops[i] == tr.ops[i];
      }
    }
  }

  /** The size of the first item decides whether the second fits. */
  ghost predicate RoomForTwo(c: Cid, max: int) {
    BM.WireSize(PeerItem(Entry(c, MAX_PRIORITY - 1, WANT_HAVE)).Wire(true)) < max
  }

  ghost function BothPending(c: Cid): Q {
    Q(map[c := Entry(c, MAX_PRIORITY - 1, WANT_HAVE)], map[], map[c := Entry(c, MAX_PRIORITY, WANT_HAVE)], map[], {},
      MAX_PRIORITY - 2)
  }

  ghost function BothCut(c: Cid): Cut {
    Cut(true, [], [Entry(c, MAX_PRIORITY - 1, WANT_HAVE)], [Entry(c, MAX_PRIORITY, WANT_HAVE)], 2)
  }

  lemma BothCutOk(c: Cid, max: int)
    requires RoomForTwo(c, max)
    ensures CutOf(BothPending(c), BothCut(c), max) && BothCut(c).n <= |BothCut(c).Items()|
    ensures FlightOf(BothCut(c)).peers == BothCut(c).peers && FlightOf(BothCut(c)).bcsts == BothCut(c).bcsts
            && FlightOf(BothCut(c)).cs == []
  {
    var cut := BothCut(c);
    var items := cut.Items();
    assert items == [PeerItem(cut.peers[0]), BcstItem(cut.bcsts[0])];
    assert items[..1] == [items[0]] && items[..1][..0] == [];
    assert SizeOf(items[..1], true) == BM.WireSize(items[0].Wire(true));
    assert Elems(cut.cancels) == {};
  }

  /** A key is pending as a broadcast and as a peer want-have, and an extraction has listed both. */
  lemma BothListed(c: Cid, max: int) returns (tr: Trace, w: SplitWorld)
    requires RoomForTwo(c, max)
    ensures Ends(tr, max, w) && w == SplitWorld(BothPending(c), map[], Some(FlightOf(BothCut(c))))
  {
    hide CutOf, FlightOf, RoomForTwo, Ends;
    assert Ends(NO_STEPS, max, START) by { NoSteps(max); }
    var op0, op1 := OpLocal(OpBroadcast([c])), OpLocal(OpWants([], [c]));
    var w0 := SplitStep(START, op0, max);
    ThenEnds(NO_STEPS, max, START, op0);
    tr := Then(NO_STEPS, START, op0, max);
    OneBroadcast(EMPTY, c);
    var w1 := SplitStep(w0, op1, max);
    ThenEnds(tr, max, w0, op1);
    tr := Then(tr, w0, op1, max);
    OneWant(w0.q, c, WANT_HAVE);
    assert w1.q == BothPending(c);
    BothCutOk(c, max);
    ThenEnds(tr, max, w1, OpBegin(BothCut(c)));
    tr := Then(tr, w1, OpBegin(BothCut(c)), max);
    w := SplitStep(w1, OpBegin(BothCut(c)), max);
  }

  lemma NoSteps(max: int)
    ensures Ends(NO_STEPS, max, START)
  {
  }

  lemma OneBroadcast(q: Q, c: Cid)
    ensures AddBroadcastWants(q, [c]) == AddBroadcastWant(q, c)
  {
    assert [c][..0] == [];
  }

  lemma OneWant(q: Q, c: Cid, wantType: Int32)
    ensures AddPeerWants(q, [c], wantType) == AddPeerWant(q, c, wantType) && AddPeerWants(q, [], wantType) == q
  {
    assert [c][..0] == [];
  }

  lemma OneCancel(q: Q, c: Cid)
    ensures AddCancelAll(q, [c]) == AddCancel(q, c)
  {
    assert [c][..0] == [];
  }

  /** The broadcast entry is marked as sent, and the peer entry takes the key out of the message. */
  lemma LostOnFinish(w: SplitWorld, c: Cid, max: int)
    requires SplitInv(w) && w.remote == map[] && w.flight == Some(FlightOf(BothCut(c))) && RoomForTwo(c, max)
    requires c in w.q.bcstPending && w.q.bcstPending[c].wantType == WANT_HAVE && w.q.bcstSent == map[]
    requires c !in w.q.peerPending || w.q.peerPending[c].wantType == WANT_BLOCK
    ensures var w' := SplitStep(w, OpFinish, max);
            c in w'.q.bcstSent && c !in w'.remote && !InStep(w')
  {
    hide Finish, FlightOk, FlightOf, CutOf, RoomForTwo, Applied;
    var f := w.flight.value;
    BothCutOk(c, max);
    assert f.peers[0] in f.peers && f.bcsts[0] in f.bcsts;
    assert Marked(w.q.bcstPending, f.bcsts) == {c} && Marked(w.q.peerPending, f.peers) == {};
    assert c in Changed(w.q.peerPending, f.peers);
    FinishIs(w.q, f);
    FinishEffect(w.q, w.remote, f);
  }

  /** An upgrade between the two parts of an extraction loses the want. */
  lemma UpgradeInBetweenLosesWant(c: Cid, max: int) returns (tr: Trace, w: SplitWorld)
    requires RoomForTwo(c, max)
    ensures Ends(tr, max, w) && c in w.q.bcstSent && c !in w.remote && !InStep(w)
  {
    hide Ends, FlightOf, RoomForTwo, SplitInv;
    tr, w := BothListed(c, max);
    var op := OpLocal(OpWants([c], []));
    ThenEnds(tr, max, w, op);
    var w1 := SplitStep(w, op, max);
    OneWant(w.q, c, WANT_BLOCK);
    OneWant(w.q, c, WANT_HAVE);
    tr := Then(tr, w, op, max);
    EndsInv(tr, max, w1);
    LostOnFinish(w1, c, max);
    ThenEnds(tr, max, w1, OpFinish);
    tr, w := Then(tr, w1, OpFinish, max), SplitStep(w1, OpFinish, max);
  }

  lemma EndsInv(tr: Trace, max: int, w: SplitWorld)
    requires Ends(tr, max, w)
    ensures SplitInv(w)
  {
    hide SplitInv, SplitStep, SplitEnabled;
    RunKeepsSplitInv(tr.worlds, tr.ops, max, |tr.ops|);
  }

  /** So does a cancel followed by a new broadcast. */
  lemma CancelAndBroadcastLosesWant(c: Cid, max: int) returns (tr: Trace, w: SplitWorld)
    requires RoomForTwo(c, max)
    ensures Ends(tr, max, w) && c in w.q.bcstSent && c !in w.remote && !InStep(w)
  {
    hide Ends, FlightOf, RoomForTwo, SplitInv;
    tr, w := BothListed(c, max);
    var op1, op2 := OpLocal(OpCancels([c])), OpLocal(OpBroadcast([c]));
    ThenEnds(tr, max, w, op1);
    var w1 := SplitStep(w, op1, max);
    OneCancel(w.q, c);
    tr := Then(tr, w, op1, max);
    ThenEnds(tr, max, w1, op2);
    var w2 := SplitStep(w1, op2, max);
    OneBroadcast(w1.q, c);
    tr := Then(tr, w1, op2, max);
    EndsInv(tr, max, w2);
    LostOnFinish(w2, c, max);
    ThenEnds(tr, max, w2, OpFinish);
    tr, w := Then(tr, w2, OpFinish, max), SplitStep(w2, OpFinish, max);
  }

  /** One want is sent and delivered; the rest of the queue is empty. */
  ghost predicate OneSent(w: SplitWorld, c: Cid) {
    && w.flight.None? && w.remote.Keys == {c} && SentKeys(w.q) == {c} && w.q.cancels == {} && PendingKeys(w.q) <= {c}
  }

  ghost function OneCut(peers: seq<Entry>, bcsts: seq<Entry>): Cut {
    Cut(true, [], peers, bcsts, |peers| + |bcsts|)
  }

  lemma OneCutOk(q: Q, peers: seq<Entry>, bcsts: seq<Entry>, max: int)
    requires q.cancels == {} && SortedListing(peers, q.peerPending) && SortedListing(bcsts, q.bcstPending)
    requires |peers| + |bcsts| == 1
    ensures var cut := OneCut(peers, bcsts);
            && CutOf(q, cut, max) && cut.n <= |cut.Items()|
            && FlightOf(cut).peers == peers && FlightOf(cut).bcsts == bcsts && FlightOf(cut).cs == []
  {
    hide SortedListing, SizeOf;
    assert Elems(OneCut(peers, bcsts).cancels) == {};
  }

  lemma FinishOne(w: SplitWorld, c: Cid, max: int)
    requires SplitInv(w) && w.flight.Some? && w.remote == map[] && SentKeys(w.q) == {} && w.q.cancels == {}
    requires PendingKeys(w.q) == {c} && SentBy(w.q, w.flight.value) == {c} && LostKeys(w.q, w.flight.value) == {}
    ensures OneSent(SplitStep(w, OpFinish, max), c)
  {
    hide Finish, FlightOk, Applied, SentBy, LostKeys, PendingKeys, SentKeys, Inv;
    FinishEffect(w.q, w.remote, w.flight.value);
  }

  lemma BroadcastIsSent(c: Cid, max: int) returns (tr: Trace, w: SplitWorld)
    ensures Ends(tr, max, w) && OneSent(w, c)
  {
    hide Ends, CutOf, FlightOf, OneSent, SplitInv;
    NoSteps(max);
    var op := OpLocal(OpBroadcast([c]));
    var e := Entry(c, MAX_PRIORITY, WANT_HAVE);
    var w1 := SplitStep(START, op, max);
    ThenEnds(NO_STEPS, max, START, op);
    OneBroadcast(EMPTY, c);
    OneCutOk(w1.q, [], [e], max);
    var begin := OpBegin(OneCut([], [e]));
    tr := Then(NO_STEPS, START, op, max);
    ThenEnds(tr, max, w1, begin);
    tr := Then(tr, w1, begin, max);
    var w2 := SplitStep(w1, begin, max);
    EndsInv(tr, max, w2);
    assert [e][0] in [e];
    FinishOne(w2, c, max);
    ThenEnds(tr, max, w2, OpFinish);
    tr, w := Then(tr, w2, OpFinish, max), SplitStep(w2, OpFinish, max);
  }

  /** A want is sent, cancelled, wanted again and cancelled again before a flush: the remote is never told. */
  lemma WithdrawnCancelIsForgotten(c: Cid, max: int) returns (tr: Trace, w: SplitWorld)
    ensures Ends(tr, max, w) && c in w.remote && !NoLarger(w.q, w.remote)
  {
    hide Ends, AddCancelAll, AddBroadcastWants, PendingKeys, SentKeys;
    tr, w := BroadcastIsSent(c, max);
    var cancel, again := OpLocal(OpCancels([c])), OpLocal(OpBroadcast([c]));
    CancelEffect(w.q, [c]);
    ThenEnds(tr, max, w, cancel);
    tr, w := Then(tr, w, cancel, max), SplitStep(w, cancel, max);
    BroadcastEffect(w.q, [c]);
    ThenEnds(tr, max, w, again);
    tr, w := Then(tr, w, again, max), SplitStep(w, again, max);
    CancelEffect(w.q, [c]);
    ThenEnds(tr, max, w, cancel);
    tr, w := Then(tr, w, cancel, max), SplitStep(w, cancel, max);
    assert Elems([c]) == {c};
  }

  lemma HaveIsSent(c: Cid, max: int) returns (tr: Trace, w: SplitWorld)
    ensures Ends(tr, max, w) && OneSent(w, c)
    ensures c in w.q.peerSent && w.q.peerSent[c].wantType == WANT_HAVE && c !in w.q.peerPending
    ensures w.q.bcstPending == map[] && w.q.bcstSent == map[]
  {
    hide Ends, CutOf, FlightOf, OneSent, SplitInv, Finish;
    NoSteps(max);
    var op := OpLocal(OpWants([], [c]));
    var e := Entry(c, MAX_PRIORITY, WANT_HAVE);
    var w1 := SplitStep(START, op, max);
    ThenEnds(NO_STEPS, max, START, op);
    OneWant(EMPTY, c, WANT_HAVE);
    OneCutOk(w1.q, [e], [], max);
    var begin := OpBegin(OneCut([e], []));
    tr := Then(NO_STEPS, START, op, max);
    ThenEnds(tr, max, w1, begin);
    tr := Then(tr, w1, begin, max);
    var w2 := SplitStep(w1, begin, max);
    EndsInv(tr, max, w2);
    assert [e][0] in [e];
    FinishOne(w2, c, max);
    OnePeerFinished(w2.q, w2.flight.value, e);
    ThenEnds(tr, max, w2, OpFinish);
    tr, w := Then(tr, w2, OpFinish, max), SplitStep(w2, OpFinish, max);
  }

  lemma OnePeerFinished(q: Q, f: Flight, e: Entry)
    requires f.peers == [e] && f.bcsts == [] && q.peerPending == map[e.cid := e] && q.peerSent == map[]
    requires q.bcstPending == map[] && q.bcstSent == map[]
    ensures var q' := Finish(q, f).0;
            q'.peerSent == map[e.cid := e] && q'.bcstPending == map[] && q'.bcstSent == map[] && q'.peerPending == map[]
  {
    var m := Marking(q.peerPending, q.peerSent, f.msg);
    assert f.peers[..|f.peers| - 1] == [] && f.peers[|f.peers| - 1] == e;
    assert MarkAll(m, f.peers[..|f.peers| - 1]) == m;
    assert m.pending - {e.cid} == map[];
    assert AddTo(m.sent, e.cid, e.priority, e.wantType) == map[e.cid := e];
  }

  /** A want-have is sent and pending again when the peer turns out to be old: both are dropped without a cancel. */
  lemma OldPeerDropIsForgotten(c: Cid, max: int) returns (tr: Trace, w: SplitWorld)
    ensures Ends(tr, max, w) && c in w.remote && !NoLarger(w.q, w.remote)
  {
    hide Ends, CutOf, FlightOf;
    tr, w := HaveIsSent(c, max);
    var again := OpLocal(OpRebroadcast);
    ThenEnds(tr, max, w, again);
    tr, w := Then(tr, w, again, max), SplitStep(w, again, max);
    assert w.q.peerPending.Keys == {c} && w.q.peerPending[c].wantType == WANT_HAVE;
    var cut := Cut(false, [], [], [], 0);
    NothingToSend(w.q, cut, max);
    ThenEnds(tr, max, w, OpBegin(cut));
    tr, w := Then(tr, w, OpBegin(cut), max), SplitStep(w, OpBegin(cut), max);
  }

  lemma NothingToSend(q: Q, cut: Cut, max: int)
    requires cut == Cut(false, [], [], [], 0) && q.cancels == {} && q.bcstPending == map[]
    requires forall c :: c in q.peerPending ==> q.peerPending[c].wantType == WANT_HAVE
    ensures CutOf(q, cut, max) && cut.n <= |cut.Items()|
  {
    assert Elems(cut.cancels) == {};
    assert DropHaves(q).peerPending == map[];
  }
}
