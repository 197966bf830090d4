/**
 What the peer want manager is for, on values: which keys each peer's queue has
 been told to want, as a fold over the calls made on that queue, and the five
 operations as steps of a state machine.
 */
module PeerWants {
  import opened Types

  /** One call on a peer's message queue. */
  datatype Call =
    | AddBroadcastWantHaves(ks: seq<Cid>)
    | AddWants(blocks: seq<Cid>, haves: seq<Cid>)
    | AddCancels(ks: seq<Cid>)

  /** The wants recorded for a peer, and the calls made on its queue so far. */
  datatype PeerWant = PeerWant(wantBlocks: set<Cid>, wantHaves: set<Cid>, queue: seq<Call>) {
    function Wants(): set<Cid> {
      wantBlocks + wantHaves
    }
  }

  datatype State = State(peers: map<PeerId, PeerWant>, broadcast: set<Cid>)

  datatype Op =
    | Connect(p: PeerId, order: seq<Cid>)
    | Disconnect(p: PeerId)
    | Broadcast(ks: seq<Cid>)
    | Send(p: PeerId, blocks: seq<Cid>, haves: seq<Cid>)
    | Cancel(ks: seq<Cid>)

  // ---------- the reference: what a queue has been told ----------

  /** Keys a queue is currently told to want: as blocks, and in any form. */
  datatype Mirror = Mirror(blocks: set<Cid>, all: set<Cid>)

  function Told(calls: seq<Call>): Mirror {
    if calls == [] then Mirror({}, {})
    else
      var m := Told(calls[..|calls| - 1]);
      match calls[|calls| - 1]
      case AddBroadcastWantHaves(ks) => Mirror(m.blocks, m.all + Elems(ks))
      case AddWants(bs, hs) => Mirror(m.blocks + Elems(bs), m.all + Elems(bs) + Elems(hs))
      case AddCancels(ks) => Mirror(m.blocks - Elems(ks), m.all - Elems(ks))
  }

  /** No call repeats what is outstanding, and every cancel has something to cancel. */
  ghost predicate CallFits(m: Mirror, call: Call) {
    match call
    case AddBroadcastWantHaves(ks) =>
      ks != [] && Distinct(ks) && Elems(ks) !! m.all
    case AddWants(bs, hs) =>
      && Distinct(bs) && Elems(bs) !! m.blocks
      && Distinct(hs) && Elems(hs) !! m.all + Elems(bs)
    case AddCancels(ks) =>
      ks != [] && Elems(ks) <= m.all
  }

  ghost predicate NoWaste(calls: seq<Call>) {
    forall i :: 0 <= i < |calls| ==> CallFits(Told(calls[..i]), calls[i])
  }

  /** A peer's wants are the union of the broadcast wants and its own. */
  ghost predicate PeerSynced(pw: PeerWant, broadcast: set<Cid>) {
    && Told(pw.queue) == Mirror(pw.wantBlocks, pw.Wants() + broadcast)
    && NoWaste(pw.queue)
    && pw.wantBlocks !! pw.wantHaves
  }

  ghost predicate Synced(s: State) {
    forall p :: p in s.peers ==> PeerSynced(s.peers[p], s.broadcast)
  }

  // ---------- the operations ----------

  function PeerBroadcast(pw: PeerWant, broadcast: set<Cid>, ks: seq<Cid>): PeerWant {
    var unsent := FirstNew(ks, broadcast + pw.Wants());
    if unsent == [] then pw else pw.(queue := pw.queue + [AddBroadcastWantHaves(unsent)])
  }

  function PeerSend(pw: PeerWant, broadcast: set<Cid>, bs: seq<Cid>, hs: seq<Cid>): PeerWant {
    var fltBs := FirstNew(bs, pw.wantBlocks);
    var blocks := pw.wantBlocks + Elems(fltBs);
    var haves := pw.wantHaves - Elems(fltBs);
    var fltHs := FirstNew(hs, broadcast + blocks + haves);
    PeerWant(blocks, haves + Elems(fltHs), pw.queue + [AddWants(fltBs, fltHs)])
  }

  function CancelsFor(pw: PeerWant, broadcast: set<Cid>, ks: seq<Cid>): seq<Cid> {
    Keep(ks, broadcast) + FirstIn(ks, pw.Wants() - broadcast)
  }

  function PeerCancel(pw: PeerWant, broadcast: set<Cid>, ks: seq<Cid>): PeerWant {
    var toCancel := CancelsFor(pw, broadcast, ks);
    PeerWant(pw.wantBlocks - Elems(ks), pw.wantHaves - Elems(ks),
             if toCancel == [] then pw.queue else pw.queue + [AddCancels(toCancel)])
  }

  /** A connecting peer is told the broadcast wants, in the order a map yields them. */
  ghost predicate Enabled(s: State, op: Op) {
    op.Connect? ==> IsListing(op.order, s.broadcast)
  }

  function NewPeer(order: seq<Cid>): PeerWant {
    PeerWant({}, {}, if order == [] then [] else [AddBroadcastWantHaves(order)])
  }

  function Step(s: State, op: Op): State {
    match op
    case Connect(p, order) =>
      if p in s.peers then s else s.(peers := s.peers[p := NewPeer(order)])
    case Disconnect(p) =>
      s.(peers := s.peers - {p})
    case Broadcast(ks) =>
      State(map p | p in s.peers :: PeerBroadcast(s.peers[p], s.broadcast, ks), s.broadcast + Elems(ks))
    case Send(p, bs, hs) =>
      if p in s.peers then s.(peers := s.peers[p := PeerSend(s.peers[p], s.broadcast, bs, hs)]) else s
    case Cancel(ks) =>
      State(map p | p in s.peers :: PeerCancel(s.peers[p], s.broadcast, ks), s.broadcast - Elems(ks))
  }

  // ---------- every run keeps every queue in step with the records ----------

  const INIT := State(map[], {})

  ghost predicate IsRun(states: seq<State>, ops: seq<Op>) {
    && |states| == |ops| + 1
    && states[0] == INIT
    && forall i :: 0 <= i < |ops| ==> Enabled(states[i], ops[i]) && states[i + 1] == Step(states[i], ops[i])
  }

  lemma OneMoreCall(calls: seq<Call>, call: Call)
    requires NoWaste(calls) && CallFits(Told(calls), call)
    ensures NoWaste(calls + [call])
    ensures (calls + [call])[..|calls|] == calls
  {
    hide Told, CallFits;
    var longer := calls + [call];
    assert longer[..|calls|] == calls;
    forall i | 0 <= i < |longer|
      ensures CallFits(Told(longer[..i]), longer[i])
    {
      if i < |calls| {
        assert longer[..i] == calls[..i];
      }
    }
  }

  lemma NewPeerSynced(order: seq<Cid>, broadcast: set<Cid>)
    requires IsListing(order, broadcast)
    ensures PeerSynced(NewPeer(order), broadcast)
  {
    if order == [] {
      assert broadcast == {};
    } else {
      OneMoreCall([], AddBroadcastWantHaves(order));
      assert [] + [AddBroadcastWantHaves(order)] == [AddBroadcastWantHaves(order)];
    }
  }

  lemma BroadcastSynced(pw: PeerWant, broadcast: set<Cid>, ks: seq<Cid>)
    requires PeerSynced(pw, broadcast)
    ensures PeerSynced(PeerBroadcast(pw, broadcast, ks), broadcast + Elems(ks))
  {
    FirstNewElems(ks, broadcast + pw.Wants());
    var unsent := FirstNew(ks, broadcast + pw.Wants());
    if unsent != [] {
      OneMoreCall(pw.queue, AddBroadcastWantHaves(unsent));
    } else {
      assert Elems(unsent) == {};
    }
  }

  lemma SendSynced(pw: PeerWant, broadcast: set<Cid>, bs: seq<Cid>, hs: seq<Cid>)
    requires PeerSynced(pw, broadcast)
    ensures PeerSynced(PeerSend(pw, broadcast, bs, hs), broadcast)
  {
    FirstNewElems(bs, pw.wantBlocks);
    var fltBs := FirstNew(bs, pw.wantBlocks);
    var known := broadcast + (pw.wantBlocks + Elems(fltBs)) + (pw.wantHaves - Elems(fltBs));
    FirstNewElems(hs, known);
    OneMoreCall(pw.queue, AddWants(fltBs, FirstNew(hs, known)));
  }

  /** A cancel names exactly the outstanding keys among the cancelled ones. */
  lemma CancelsForElems(pw: PeerWant, broadcast: set<Cid>, ks: seq<Cid>)
    ensures Elems(CancelsFor(pw, broadcast, ks)) == Elems(ks) * (pw.Wants() + broadcast)
    ensures CancelsFor(pw, broadcast, ks) == [] <==> Elems(ks) * (pw.Wants() + broadcast) == {}
  {
    KeepElems(ks, broadcast);
    KeepElems(ks, pw.Wants() - broadcast);
    var own := Keep(ks, pw.Wants() - broadcast);
    FirstNewElems(own, {});
    var toCancel := CancelsFor(pw, broadcast, ks);
    assert Elems(toCancel) == Elems(Keep(ks, broadcast)) + Elems(FirstNew(own, {}));
    assert toCancel != [] ==> toCancel[0] in Elems(toCancel);
    assert toCancel == [] ==> Elems(toCancel) == {};
  }

  lemma CancelSynced(pw: PeerWant, broadcast: set<Cid>, ks: seq<Cid>)
    requires PeerSynced(pw, broadcast)
    ensures PeerSynced(PeerCancel(pw, broadcast, ks), broadcast - Elems(ks))
  {
    CancelsForElems(pw, broadcast, ks);
    var toCancel := CancelsFor(pw, broadcast, ks);
    if toCancel != [] {
      OneMoreCall(pw.queue, AddCancels(toCancel));
      var all := pw.Wants() + broadcast;
      assert all - Elems(toCancel) == all - Elems(ks);
    } else {
      assert forall c :: c in pw.Wants() + broadcast ==> c !in Elems(ks) * (pw.Wants() + broadcast);
      assert (pw.wantBlocks - Elems(ks)) == pw.wantBlocks && (pw.wantHaves - Elems(ks)) == pw.wantHaves;
      assert broadcast - Elems(ks) == broadcast;
    }
  }

  lemma StepSynced(s: State, op: Op)
    requires Synced(s) && Enabled(s, op)
    ensures Synced(Step(s, op))
  {
    match op
    case Connect(p, order) =>
      NewPeerSynced(order, s.broadcast);
    case Disconnect(p) =>
    case Broadcast(ks) =>
      forall p | p in s.peers {
        BroadcastSynced(s.peers[p], s.broadcast, ks);
      }
    case Send(p, bs, hs) =>
      if p in s.peers {
        SendSynced(s.peers[p], s.broadcast, bs, hs);
      }
    case Cancel(ks) =>
      forall p | p in s.peers {
        CancelSynced(s.peers[p], s.broadcast, ks);
      }
  }

  /**
   Over every run: what a connected peer's queue was told to want and not since
   told to cancel is the union of its want-blocks, its want-haves and the
   broadcast wants; no want was told twice; no cancel was told for nothing.
   */
  lemma {:induction false} RunSynced(states: seq<State>, ops: seq<Op>, i: nat)
    requires IsRun(states, ops) && i < |states|
    ensures Synced(states[i])
  {
    if i != 0 {
      RunSynced(states, ops, i - 1);
      StepSynced(states[i - 1], ops[i - 1]);
    }
  }

  // ---------- what was asked for is what the queues were told ----------

  /** What the calls on the manager ask for: of everybody, and of each connected peer. */
  datatype Asked = Asked(broadcast: set<Cid>, peers: map<PeerId, Mirror>)

  const NOTHING_ASKED := Asked({}, map[])

  function AskedNext(a: Asked, op: Op): Asked {
    match op
    case Connect(p, _) => if p in a.peers then a else a.(peers := a.peers[p := Mirror({}, {})])
    case Disconnect(p) => a.(peers := a.peers - {p})
    case Broadcast(ks) => a.(broadcast := a.broadcast + Elems(ks))
    case Send(p, bs, hs) =>
      if p !in a.peers then a
      else
        var m := a.peers[p];
        a.(peers := a.peers[p := Mirror(m.blocks + Elems(bs), m.all + Elems(bs) + Elems(hs))])
    case Cancel(ks) =>
      Asked(a.broadcast - Elems(ks),
            map p | p in a.peers :: Mirror(a.peers[p].blocks - Elems(ks), a.peers[p].all - Elems(ks)))
  }

  ghost predicate IsAsked(ops: seq<Op>, asked: seq<Asked>) {
    && |asked| == |ops| + 1 && asked[0] == NOTHING_ASKED
    && forall i :: 0 <= i < |ops| ==> asked[i + 1] == AskedNext(asked[i], ops[i])
  }

  /** Each connected peer's queue is told what was asked of it and of everybody. */
  ghost predicate TellsAsked(s: State, a: Asked) {
    && s.peers.Keys == a.peers.Keys && s.broadcast == a.broadcast
    && forall p :: p in s.peers ==>
         Told(s.peers[p].queue) == Mirror(a.peers[p].blocks, a.peers[p].all + a.broadcast)
  }

  /**
   After a send the want-blocks outstanding at the peer's queue are those before and the given
   ones, and all that is outstanding there is what was before and all that is given. Every
   other peer is left alone.
   */
  lemma SendIsTold(s: State, p: PeerId, bs: seq<Cid>, hs: seq<Cid>)
    requires Synced(s) && p in s.peers
    ensures var s' := Step(s, Send(p, bs, hs));
            var m := Told(s.peers[p].queue);
            && s'.peers.Keys == s.peers.Keys && s'.broadcast == s.broadcast
            && Told(s'.peers[p].queue) == Mirror(m.blocks + Elems(bs), m.all + Elems(bs) + Elems(hs))
            && forall q :: q in s.peers && q != p ==> s'.peers[q] == s.peers[q]
  {
    hide Told, NoWaste;
    var pw := s.peers[p];
    SendSynced(pw, s.broadcast, bs, hs);
    FirstNewElems(bs, pw.wantBlocks);
    var fltBs := FirstNew(bs, pw.wantBlocks);
    FirstNewElems(hs, s.broadcast + (pw.wantBlocks + Elems(fltBs)) + (pw.wantHaves - Elems(fltBs)));
  }

  /** After a broadcast every connected peer's queue is also told the given keys, as wants in any form. */
  lemma BroadcastIsTold(s: State, ks: seq<Cid>, p: PeerId)
    requires Synced(s) && p in s.peers
    ensures var s' := Step(s, Broadcast(ks));
            var m := Told(s.peers[p].queue);
            && p in s'.peers && s'.broadcast == s.broadcast + Elems(ks)
            && Told(s'.peers[p].queue) == Mirror(m.blocks, m.all + Elems(ks))
  {
    hide Told, NoWaste;
    BroadcastSynced(s.peers[p], s.broadcast, ks);
  }

  /** After a cancel exactly the given keys are no longer outstanding. */
  lemma CancelIsTold(s: State, ks: seq<Cid>, p: PeerId)
    requires Synced(s) && p in s.peers
    ensures var s' := Step(s, Cancel(ks));
            var m := Told(s.peers[p].queue);
            && p in s'.peers && s'.broadcast == s.broadcast - Elems(ks)
            && Told(s'.peers[p].queue) == Mirror(m.blocks - Elems(ks), m.all - Elems(ks))
  {
    hide Told, NoWaste;
    CancelSynced(s.peers[p], s.broadcast, ks);
  }

  lemma StepTellsAsked(s: State, op: Op, a: Asked)
    requires Synced(s) && Enabled(s, op) && TellsAsked(s, a)
    ensures TellsAsked(Step(s, op), AskedNext(a, op))
  {
    hide Told, PeerSynced, PeerSend, PeerBroadcast, PeerCancel, NewPeer;
    match op
    case Connect(p, order) => NewPeerTold(order, s.broadcast);
    case Disconnect(p) =>
    case Broadcast(ks) =>
      forall p | p in s.peers {
        BroadcastIsTold(s, ks, p);
      }
    case Send(p, bs, hs) =>
      if p in s.peers {
        SendIsTold(s, p, bs, hs);
      }
    case Cancel(ks) =>
      forall p | p in s.peers {
        CancelIsTold(s, ks, p);
      }
  }

  lemma NewPeerTold(order: seq<Cid>, broadcast: set<Cid>)
    requires IsListing(order, broadcast)
    ensures Told(NewPeer(order).queue) == Mirror({}, broadcast)
  {
    hide NoWaste;
    NewPeerSynced(order, broadcast);
  }

  /**
   Over every run: the connected peers are those that connected and did not disconnect since,
   and what a peer's queue is told to want, as blocks and in any form, is what the calls on the
   manager asked of that peer since it connected and of everybody, without what was cancelled.
   */
  lemma {:induction false} RunTellsAsked(states: seq<State>, ops: seq<Op>, asked: seq<Asked>, i: nat)
    requires IsRun(states, ops) && IsAsked(ops, asked) && i < |states|
    ensures TellsAsked(states[i], asked[i])
  {
    hide Step, AskedNext, Enabled, Synced;
    if i == 0 {
      NothingTold();
    } else {
      RunTellsAsked(states, ops, asked, i - 1);
      RunSynced(states, ops, i - 1);
      StepTellsAsked(states[i - 1], ops[i - 1], asked[i - 1]);
    }
  }

  lemma NothingTold()
    ensures TellsAsked(INIT, NOTHING_ASKED)
  {
  }

  /** `after` is `before` with one cancel call for exactly the keys `due`, or no call if there are none. */
  ghost predicate CancelledExactly(before: seq<Call>, due: set<Cid>, after: seq<Call>) {
    if due == {} then after == before
    else exists ks :: Elems(ks) == due && after == before + [AddCancels(ks)]
  }

  lemma PeerCancelIsExact(pw: PeerWant, broadcast: set<Cid>, ks: seq<Cid>)
    requires PeerSynced(pw, broadcast)
    ensures CancelledExactly(pw.queue, Elems(ks) * Told(pw.queue).all, PeerCancel(pw, broadcast, ks).queue)
    ensures Told(PeerCancel(pw, broadcast, ks).queue).all !! Elems(ks)
  {
    CancelsForElems(pw, broadcast, ks);
    CancelSynced(pw, broadcast, ks);
    var toCancel := CancelsFor(pw, broadcast, ks);
    assert Elems(toCancel) == Elems(ks) * Told(pw.queue).all;
    assert toCancel == [] <==> Elems(ks) * Told(pw.queue).all == {};
  }

  /**
   Cancelling, in any reachable state: a peer gets one cancel call if and only if
   some cancelled key is outstanding at its queue, that call names exactly those
   keys, and afterwards none of the cancelled keys is outstanding anywhere.
   */
  lemma CancelReachesExactlyTheOutstanding(states: seq<State>, ops: seq<Op>, i: nat, p: PeerId)
    requires IsRun(states, ops) && i < |ops| && ops[i].Cancel?
    requires p in states[i].peers
    ensures p in states[i + 1].peers
    ensures CancelledExactly(states[i].peers[p].queue,
                             Elems(ops[i].ks) * Told(states[i].peers[p].queue).all,
                             states[i + 1].peers[p].queue)
    ensures Told(states[i + 1].peers[p].queue).all !! Elems(ops[i].ks)
  {
    RunSynced(states, ops, i);
    PeerCancelIsExact(states[i].peers[p], states[i].broadcast, ops[i].ks);
  }
}
