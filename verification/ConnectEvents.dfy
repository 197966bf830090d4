/**
 The connection event manager: three states per peer, a queue that holds a peer
 at most once, and a worker that lets go of the lock while it calls the
 listeners. A step is one locked region, or one call of one listener.
 */
module ConnectEvents {
  import opened Types

  datatype ConnState = Disconnected | Responsive | Unresponsive

  datatype PeerState = PeerState(newState: ConnState, curState: ConnState, pending: bool)

  datatype Event = Event(peer: PeerId, connected: bool)

  /** Where the worker is; `told` counts the listeners already called with the event. */
  datatype Worker = Waiting | Delivering(event: Event, told: nat) | Exited

  /** `heard` holds, for each listener, the events it has been called with. */
  datatype State = State(peers: map<PeerId, PeerState>, changeQueue: seq<PeerId>, stop: bool,
                         worker: Worker, heard: seq<seq<Event>>)

  datatype Op =
    | OnConnected(p: PeerId)
    | OnDisconnected(p: PeerId)
    | OnUnresponsive(p: PeerId)
    | OnMessage(p: PeerId)
    | Stop
    | Pop      // the worker takes the lock and handles the next queued peer
    | Deliver  // the worker, without the lock, calls the next listener
    | Resume   // every listener has been called: the worker takes the lock again
    | Exit     // the worker sees that it has been stopped

  function GetState(s: State, p: PeerId): ConnState {
    if p in s.peers then s.peers[p].newState else Disconnected
  }

  /** The state the worker has acted on. */
  function CurState(s: State, p: PeerId): ConnState {
    if p in s.peers then s.peers[p].curState else Disconnected
  }

  function SetState(s: State, p: PeerId, newState: ConnState): State {
    var ps := if p in s.peers then s.peers[p] else PeerState(Disconnected, Disconnected, false);
    if !ps.pending && newState != ps.curState then
      s.(peers := s.peers[p := PeerState(newState, ps.curState, true)], changeQueue := s.changeQueue + [p])
    else
      s.(peers := s.peers[p := ps.(newState := newState)])
  }

  ghost predicate Enabled(s: State, op: Op) {
    match op
    case Pop => s.worker.Waiting? && !s.stop && s.changeQueue != []
    case Deliver => s.worker.Delivering? && s.worker.told < |s.heard|
    case Resume => s.worker.Delivering? && s.worker.told == |s.heard|
    case Exit => s.worker.Waiting? && s.stop
    case _ => true
  }

  /** The worker's locked region for the queued peer `p`. */
  function Handle(s: State, p: PeerId): State {
    if p !in s.peers then s
    else
      var ps := s.peers[p].(pending := false);
      if ps.curState == ps.newState then s.(peers := s.peers[p := ps])
      else if ps.newState == Responsive then
        s.(peers := s.peers[p := ps.(curState := Responsive)], worker := Delivering(Event(p, true), 0))
      else
        var s' := if ps.newState == Disconnected then s.(peers := s.peers - {p})
                  else s.(peers := s.peers[p := ps.(curState := Unresponsive)]);
        if ps.curState == Responsive then s'.(worker := Delivering(Event(p, false), 0)) else s'
  }

  function Step(s: State, op: Op): State
    requires Enabled(s, op)
  {
    match op
    case OnConnected(p) => if GetState(s, p) == Responsive then s else SetState(s, p, Responsive)
    case OnDisconnected(p) => if GetState(s, p) == Disconnected then s else SetState(s, p, Disconnected)
    case OnUnresponsive(p) => if GetState(s, p) != Responsive then s else SetState(s, p, Unresponsive)
    case OnMessage(p) => if GetState(s, p) != Unresponsive then s else SetState(s, p, Responsive)
    case Stop => s.(stop := true)
    case Pop => Handle(s.(changeQueue := s.changeQueue[1..]), s.changeQueue[0])
    case Deliver =>
      var k := s.worker.told;
      s.(heard := s.heard[k := s.heard[k] + [s.worker.event]], worker := s.worker.(told := k + 1))
    case Resume => s.(worker := Waiting)
    case Exit => s.(worker := Exited)
  }

  // ---------- what listeners may rely on ----------

  /** Whether the last event about `p` is "connected"; with no event, it is not. */
  function LastConnected(log: seq<Event>, p: PeerId): bool {
    if log == [] then false
    else if log[|log| - 1].peer == p then log[|log| - 1].connected
    else LastConnected(log[..|log| - 1], p)
  }

  /** About each peer, connected and disconnected strictly alternate, beginning with connected. */
  ghost predicate Alternates(log: seq<Event>) {
    forall i :: 0 <= i < |log| ==> log[i].connected != LastConnected(log[..i], log[i].peer)
  }

  /** What listener `k` was last told about `p`, from the worker's point of view. */
  ghost predicate ToldConnected(s: State, k: nat, p: PeerId) {
    if s.worker.Delivering? && s.worker.event.peer == p && k >= s.worker.told then !s.worker.event.connected
    else CurState(s, p) == Responsive
  }

  // ---------- the invariant ----------

  /** A peer is queued, once, exactly while it is tracked with a pending change. */
  ghost predicate QueueExact(s: State) {
    && Distinct(s.changeQueue)
    && (forall p :: p in s.changeQueue <==> p in s.peers && s.peers[p].pending)
    && (forall p :: p in s.peers && !s.peers[p].pending ==> s.peers[p].newState == s.peers[p].curState)
  }

  ghost predicate InFlight(s: State) {
    s.worker.Delivering? ==>
      && s.worker.told <= |s.heard|
      && (CurState(s, s.worker.event.peer) == Responsive <==> s.worker.event.connected)
  }

  ghost predicate Heard(s: State) {
    forall k :: 0 <= k < |s.heard| ==>
      && Alternates(s.heard[k])
      && forall p :: LastConnected(s.heard[k], p) == ToldConnected(s, k, p)
  }

  ghost predicate Inv(s: State) {
    QueueExact(s) && InFlight(s) && Heard(s)
  }

  lemma SetStateKeepsQueue(s: State, p: PeerId, newState: ConnState)
    requires QueueExact(s)
    ensures QueueExact(SetState(s, p, newState))
    ensures GetState(SetState(s, p, newState), p) == newState
    ensures forall q :: q != p ==> GetState(SetState(s, p, newState), q) == GetState(s, q)
  {
    hide Elems, Distinct;
    var s' := SetState(s, p, newState);
    DistinctPush(s.changeQueue, p);
    assert p in Elems(s.changeQueue) <==> p in s.changeQueue by { InElems(s.changeQueue, p); }
    forall q
      ensures q in s'.changeQueue <==> q in s'.peers && s'.peers[q].pending
    {
      assert q in s.changeQueue + [p] <==> q in s.changeQueue || q == p;
    }
  }

  lemma InElems(ks: seq<PeerId>, p: PeerId)
    ensures p in Elems(ks) <==> p in ks
  {
  }

  lemma SetStateKeepsCur(s: State, p: PeerId, newState: ConnState)
    ensures forall q :: CurState(SetState(s, p, newState), q) == CurState(s, q)
  {
  }

  /** Steps that leave the worker, the logs and the acted-on states alone. */
  lemma SameHeard(s: State, s': State)
    requires s'.worker == s.worker && s'.heard == s.heard
    requires forall q :: CurState(s', q) == CurState(s, q)
    requires InFlight(s) && Heard(s)
    ensures InFlight(s') && Heard(s')
  {
    hide LastConnected, Alternates, CurState;
    forall k, p | 0 <= k < |s'.heard|
      ensures LastConnected(s'.heard[k], p) == ToldConnected(s', k, p)
    {
      assert ToldConnected(s, k, p) == ToldConnected(s', k, p);
    }
  }

  lemma PopKeepsQueue(s: State)
    requires QueueExact(s) && Enabled(s, Pop)
    ensures QueueExact(Step(s, Pop))
    ensures s.changeQueue[0] in s.peers
  {
    hide Distinct;
    var p, rest := s.changeQueue[0], s.changeQueue[1..];
    WithoutFirst(s.changeQueue);
    assert p in s.changeQueue && p in s.peers;
    HandleKeepsQueue(s.(changeQueue := rest), p);
  }

  lemma WithoutFirst(queue: seq<PeerId>)
    requires queue != [] && Distinct(queue)
    ensures Distinct(queue[1..]) && forall q :: q in queue[1..] <==> q in queue && q != queue[0]
  {
    var rest := queue[1..];
    assert forall i :: 0 <= i < |rest| ==> rest[i] == queue[i + 1];
    assert queue == [queue[0]] + rest;
  }

  lemma HandleKeepsQueue(s: State, p: PeerId)
    requires Distinct(s.changeQueue) && p in s.peers && p !in s.changeQueue
    requires forall q :: q != p ==> (q in s.changeQueue <==> q in s.peers && s.peers[q].pending)
    requires forall q :: q in s.peers && !s.peers[q].pending ==> s.peers[q].newState == s.peers[q].curState
    ensures QueueExact(Handle(s, p))
  {
    hide Distinct;
  }

  /** An event is raised exactly when the acted-on state changes to or from responsive. */
  lemma PopRaises(s: State)
    requires QueueExact(s) && Enabled(s, Pop)
    ensures var p, s' := s.changeQueue[0], Step(s, Pop);
            && CurState(s', p) == GetState(s, p)
            && (forall q :: q != p ==> CurState(s', q) == CurState(s, q))
            && s'.heard == s.heard
            && s'.worker == if (CurState(s, p) == Responsive) == (GetState(s, p) == Responsive) then Waiting
                            else Delivering(Event(p, GetState(s, p) == Responsive), 0)
  {
    PopKeepsQueue(s);
  }

  lemma PopKeepsInv(s: State)
    requires Inv(s) && Enabled(s, Pop)
    ensures Inv(Step(s, Pop))
  {
    hide QueueExact, LastConnected, Alternates, CurState, GetState, Handle;
    PopKeepsQueue(s);
    PopRaises(s);
    var p, s' := s.changeQueue[0], Step(s, Pop);
    forall k, q | 0 <= k < |s'.heard|
      ensures LastConnected(s'.heard[k], q) == ToldConnected(s', k, q)
    {
      assert LastConnected(s.heard[k], q) == ToldConnected(s, k, q);
    }
  }

  lemma OneMoreEvent(log: seq<Event>, e: Event)
    requires Alternates(log) && e.connected != LastConnected(log, e.peer)
    ensures Alternates(log + [e])
    ensures forall p :: LastConnected(log + [e], p) == if p == e.peer then e.connected else LastConnected(log, p)
  {
    var longer := log + [e];
    assert longer[..|log|] == log;
    forall i | 0 <= i < |longer|
      ensures longer[i].connected != LastConnected(longer[..i], longer[i].peer)
    {
      if i < |log| {
        assert longer[..i] == log[..i];
      }
    }
  }

  lemma DeliverKeepsInv(s: State)
    requires Inv(s) && Enabled(s, Deliver)
    ensures Inv(Step(s, Deliver))
  {
    hide QueueExact, LastConnected, Alternates, CurState;
    var k, e, s' := s.worker.told, s.worker.event, Step(s, Deliver);
    assert LastConnected(s.heard[k], e.peer) == ToldConnected(s, k, e.peer);
    OneMoreEvent(s.heard[k], e);
    assert QueueExact(s') by { SameQueue(s, s'); }
    SameCur(s, s');
    forall j, p | 0 <= j < |s'.heard|
      ensures LastConnected(s'.heard[j], p) == ToldConnected(s', j, p)
    {
      assert LastConnected(s.heard[j], p) == ToldConnected(s, j, p);
    }
  }

  lemma SameQueue(s: State, s': State)
    requires QueueExact(s) && s'.peers == s.peers && s'.changeQueue == s.changeQueue
    ensures QueueExact(s')
  {
  }

  lemma SameCur(s: State, s': State)
    requires s'.peers == s.peers
    ensures forall p :: CurState(s', p) == CurState(s, p)
  {
  }

  lemma ResumeKeepsInv(s: State)
    requires Inv(s) && Enabled(s, Resume)
    ensures Inv(Step(s, Resume))
  {
    hide QueueExact, LastConnected, Alternates, CurState;
    var s' := Step(s, Resume);
    SameQueue(s, s');
    SameCur(s, s');
    forall j, p | 0 <= j < |s'.heard|
      ensures LastConnected(s'.heard[j], p) == ToldConnected(s', j, p)
    {
      assert LastConnected(s.heard[j], p) == ToldConnected(s, j, p);
    }
  }

  lemma SetStateKeepsInv(s: State, p: PeerId, newState: ConnState)
    requires Inv(s)
    ensures Inv(SetState(s, p, newState))
  {
    hide QueueExact, InFlight, Heard, CurState, GetState;
    SetStateKeepsQueue(s, p, newState);
    SetStateKeepsCur(s, p, newState);
    SameHeard(s, SetState(s, p, newState));
  }

  lemma StepKeepsInv(s: State, op: Op)
    requires Inv(s) && Enabled(s, op)
    ensures Inv(Step(s, op))
  {
    hide Inv, SetState, Handle;
    match op
    case OnConnected(p) => SetStateKeepsInv(s, p, Responsive);
    case OnDisconnected(p) => SetStateKeepsInv(s, p, Disconnected);
    case OnUnresponsive(p) => SetStateKeepsInv(s, p, Unresponsive);
    case OnMessage(p) => SetStateKeepsInv(s, p, Responsive);
    case Stop => StopKeepsInv(s);
    case Pop => PopKeepsInv(s);
    case Deliver => DeliverKeepsInv(s);
    case Resume => ResumeKeepsInv(s);
    case Exit => ExitKeepsInv(s);
  }

  lemma StopKeepsInv(s: State)
    requires Inv(s)
    ensures Inv(s.(stop := true))
  {
    hide QueueExact, InFlight, Heard, CurState;
    var s' := s.(stop := true);
    SameQueue(s, s');
    SameCur(s, s');
    SameHeard(s, s');
  }

  lemma ExitKeepsInv(s: State)
    requires Inv(s) && Enabled(s, Exit)
    ensures Inv(s.(worker := Exited))
  {
    hide QueueExact, LastConnected, Alternates, CurState;
    var s' := s.(worker := Exited);
    SameQueue(s, s');
    SameCur(s, s');
    forall j, p | 0 <= j < |s'.heard|
      ensures LastConnected(s'.heard[j], p) == ToldConnected(s', j, p)
    {
      assert LastConnected(s.heard[j], p) == ToldConnected(s, j, p);
    }
  }

  // ---------- runs ----------

  function Initial(listeners: nat): State {
    State(map[], [], false, Waiting, seq(listeners, _ => []))
  }

  ghost predicate IsRun(listeners: nat, states: seq<State>, ops: seq<Op>) {
    && |states| == |ops| + 1
    && states[0] == Initial(listeners)
    && forall i :: 0 <= i < |ops| ==> Enabled(states[i], ops[i]) && states[i + 1] == Step(states[i], ops[i])
  }

  /**
   Under any interleaving: a peer is queued, once, exactly while it has a pending
   change, so the worker never pops an untracked peer; and every listener hears
   strictly alternating events about each peer.
   */
  lemma {:induction false} RunKeepsInv(listeners: nat, states: seq<State>, ops: seq<Op>, i: nat)
    requires IsRun(listeners, states, ops) && i < |states|
    ensures Inv(states[i])
  {
    hide Inv, Step;
    if i == 0 {
      InitialInv(listeners);
    } else {
      RunKeepsInv(listeners, states, ops, i - 1);
      StepKeepsInv(states[i - 1], ops[i - 1]);
    }
  }

  lemma InitialInv(listeners: nat)
    ensures Inv(Initial(listeners))
  {
  }

  /**
   With nothing queued and no callback under way, every listener was last told
   "connected" about exactly the responsive peers.
   */
  lemma QuiescentIsTold(s: State, k: nat, p: PeerId)
    requires Inv(s) && s.changeQueue == [] && !s.worker.Delivering? && k < |s.heard|
    ensures LastConnected(s.heard[k], p) <==> GetState(s, p) == Responsive
  {
    assert LastConnected(s.heard[k], p) == ToldConnected(s, k, p);
    assert p !in s.changeQueue;
  }

  // ---------- the worker catches up ----------

  /** One turn of the worker with nothing else happening: pop, call every listener, resume. */
  function CallListeners(s: State): State
    requires s.worker.Delivering? && s.worker.told <= |s.heard|
    decreases |s.heard| - s.worker.told
  {
    if s.worker.told == |s.heard| then Step(s, Resume) else CallListeners(Step(s, Deliver))
  }

  function Turn(s: State): State
    requires Enabled(s, Pop)
  {
    var s' := Step(s, Pop);
    if s'.worker.Delivering? && s'.worker.told <= |s'.heard| then CallListeners(s') else s'
  }

  lemma {:induction false} CallListenersKeeps(s: State)
    requires Inv(s) && s.worker.Delivering? && s.worker.told <= |s.heard|
    ensures var s' := CallListeners(s);
            Inv(s') && s'.worker == Waiting && s'.stop == s.stop
            && s'.changeQueue == s.changeQueue && s'.peers == s.peers && |s'.heard| == |s.heard|
    decreases |s.heard| - s.worker.told
  {
    hide Inv;
    if s.worker.told == |s.heard| {
      ResumeKeepsInv(s);
    } else {
      DeliverKeepsInv(s);
      CallListenersKeeps(Step(s, Deliver));
    }
  }

  lemma TurnKeeps(s: State)
    requires Inv(s) && Enabled(s, Pop)
    ensures var s' := Turn(s);
            Inv(s') && s'.worker == Waiting && s'.stop == s.stop
            && s'.changeQueue == s.changeQueue[1..] && |s'.heard| == |s.heard|
    ensures forall p :: GetState(Turn(s), p) == GetState(s, p)
  {
    PopKeepsInv(s);
    PopRaises(s);
    PopKeepsQueue(s);
    var s1 := Step(s, Pop);
    assert forall p :: GetState(s1, p) == GetState(s, p);
    if s1.worker.Delivering? {
      CallListenersKeeps(s1);
    }
  }

  function Drain(s: State): State
    requires Inv(s) && s.worker.Waiting? && !s.stop
    decreases |s.changeQueue|
  {
    if s.changeQueue == [] then s
    else
      TurnKeeps(s);
      Drain(Turn(s))
  }

  /**
   From any reachable state, the worker left alone empties the queue in as many
   turns as it is long, and then every listener was last told "connected" about
   exactly the peers that are responsive now.
   */
  lemma {:induction false} WorkerCatchesUp(s: State, k: nat, p: PeerId)
    requires Inv(s) && s.worker.Waiting? && !s.stop && k < |s.heard|
    ensures var s' := Drain(s);
            && s'.changeQueue == [] && |s'.heard| == |s.heard| && Inv(s')
            && GetState(s', p) == GetState(s, p)
            && (LastConnected(s'.heard[k], p) <==> GetState(s, p) == Responsive)
    decreases |s.changeQueue|
  {
    hide Inv, LastConnected, GetState, Turn;
    if s.changeQueue == [] {
      QuiescentIsTold(s, k, p);
    } else {
      TurnKeeps(s);
      WorkerCatchesUp(Turn(s), k, p);
    }
  }

  // ---------- what it does not do ----------

  lemma PopForgetsIff(s: State)
    requires QueueExact(s) && Enabled(s, Pop) && GetState(s, s.changeQueue[0]) == Disconnected
    ensures var p := s.changeQueue[0];
            p !in Step(s, Pop).peers <==> CurState(s, p) != Disconnected
  {
    PopKeepsQueue(s);
  }

  /** What a call makes of a peer's state. */
  function CalledNext(before: ConnState, op: Op, p: PeerId): ConnState {
    match op
    case OnConnected(q) => if q == p then Responsive else before
    case OnDisconnected(q) => if q == p then Disconnected else before
    case OnUnresponsive(q) => if q == p && before == Responsive then Unresponsive else before
    case OnMessage(q) => if q == p && before == Unresponsive then Responsive else before
    case _ => before
  }

  /** The state that the calls among the first `n` steps, without the worker, leave a peer in. */
  function Called(ops: seq<Op>, n: nat, p: PeerId): ConnState
    requires n <= |ops|
  {
    if n == 0 then Disconnected else CalledNext(Called(ops, n - 1, p), ops[n - 1], p)
  }

  ghost predicate TurnOf(s: State, op: Op, p: PeerId) {
    op == Pop && s.changeQueue != [] && s.changeQueue[0] == p
  }

  /** The last turn of the worker for a peer in the first `n` steps. */
  ghost function LastTurn(states: seq<State>, ops: seq<Op>, n: nat, p: PeerId): (r: Option<nat>)
    requires |states| == |ops| + 1 && n <= |ops|
    ensures r.Some? ==> r.value < n
  {
    if n == 0 then None
    else if TurnOf(states[n - 1], ops[n - 1], p) then Some(n - 1)
    else LastTurn(states, ops, n - 1, p)
  }

  /** Only calls change a peer's state, and only its turn lets the worker act on it. */
  lemma StepAt(s: State, op: Op, p: PeerId)
    requires QueueExact(s) && Enabled(s, op)
    ensures GetState(Step(s, op), p) == CalledNext(GetState(s, p), op, p)
    ensures CurState(Step(s, op), p) == if TurnOf(s, op, p) then GetState(s, p) else CurState(s, p)
  {
    hide SetState, Handle, QueueExact;
    match op
    case OnConnected(q) => SetStateAt(s, q, Responsive, p);
    case OnDisconnected(q) => SetStateAt(s, q, Disconnected, p);
    case OnUnresponsive(q) => SetStateAt(s, q, Unresponsive, p);
    case OnMessage(q) => SetStateAt(s, q, Responsive, p);
    case Pop => PopAt(s, p);
    case _ => SameCur(s, Step(s, op));
  }

  lemma SetStateAt(s: State, q: PeerId, newState: ConnState, p: PeerId)
    ensures GetState(SetState(s, q, newState), p) == if p == q then newState else GetState(s, p)
    ensures CurState(SetState(s, q, newState), p) == CurState(s, p)
  {
  }

  lemma PopAt(s: State, p: PeerId)
    requires QueueExact(s) && Enabled(s, Pop)
    ensures GetState(Step(s, Pop), p) == GetState(s, p)
    ensures CurState(Step(s, Pop), p) == if s.changeQueue[0] == p then GetState(s, p) else CurState(s, p)
  {
    hide Distinct;
    PopKeepsQueue(s);
  }

  /** Without its turn, a peer that is not queued is tracked as before, or is queued now. */
  lemma StaysUnlessQueued(s: State, op: Op, p: PeerId)
    requires QueueExact(s) && Enabled(s, op) && !TurnOf(s, op, p)
    ensures p !in Step(s, op).changeQueue ==>
              && p !in s.changeQueue && (p in Step(s, op).peers <==> p in s.peers)
              && CalledNext(GetState(s, p), op, p) == GetState(s, p)
  {
    hide Distinct;
    if op.Pop? {
      assert s.changeQueue == [s.changeQueue[0]] + s.changeQueue[1..];
    }
  }

  /** Calls and turns tell a peer's state and the state that the worker acted on. */
  lemma {:induction false} RunTells(listeners: nat, states: seq<State>, ops: seq<Op>, n: nat, p: PeerId)
    requires IsRun(listeners, states, ops) && n <= |ops|
    ensures GetState(states[n], p) == Called(ops, n, p)
    ensures CurState(states[n], p) == match LastTurn(states, ops, n, p)
                                      case None => Disconnected
                                      case Some(i) => Called(ops, i, p)
  {
    hide Step, Enabled, GetState, CurState, CalledNext, QueueExact, InFlight, Heard;
    if n == 0 {
      InitialAt(listeners, p);
    } else {
      RunTells(listeners, states, ops, n - 1, p);
      RunKeepsInv(listeners, states, ops, n - 1);
      StepAt(states[n - 1], ops[n - 1], p);
    }
  }

  lemma InitialAt(listeners: nat, p: PeerId)
    ensures GetState(Initial(listeners), p) == CurState(Initial(listeners), p) == Disconnected
  {
  }

  /**
   In every run, with nothing of a disconnected peer queued: it is still tracked, if and
   only if the worker had a turn for it, and the turn before the last, if there was one,
   found it disconnected already. So it is kept when it connects and disconnects again
   between two turns.
   */
  lemma {:induction false} TrackedIff(listeners: nat, states: seq<State>, ops: seq<Op>, n: nat, p: PeerId)
    requires IsRun(listeners, states, ops) && n <= |ops|
    requires p !in states[n].changeQueue && Called(ops, n, p) == Disconnected
    ensures p in states[n].peers
            <==> match LastTurn(states, ops, n, p)
                 case None => false
                 case Some(i) => LastTurn(states, ops, i, p).None?
                                 || Called(ops, LastTurn(states, ops, i, p).value, p) == Disconnected
  {
    hide Step, Enabled, GetState, CurState, QueueExact, InFlight, Heard;
    if n > 0 {
      var s, op := states[n - 1], ops[n - 1];
      RunKeepsInv(listeners, states, ops, n - 1);
      RunTells(listeners, states, ops, n - 1, p);
      RunTells(listeners, states, ops, n, p);
      StepAt(s, op, p);
      if TurnOf(s, op, p) {
        PopForgetsIff(s);
      } else {
        StaysUnlessQueued(s, op, p);
        TrackedIff(listeners, states, ops, n - 1, p);
      }
    }
  }

  /** A peer that connects and disconnects before the worker runs stays tracked. */
  lemma QuickDisconnectIsKept(p: PeerId)
    ensures var s1 := Step(Initial(0), OnConnected(p));
            var s2 := Step(s1, OnDisconnected(p));
            Enabled(s2, Pop) && p in Step(s2, Pop).peers && GetState(Step(s2, Pop), p) == Disconnected
            && Step(s2, Pop).changeQueue == []
  {
    var s2 := Step(Step(Initial(0), OnConnected(p)), OnDisconnected(p));
    assert s2.changeQueue == [p];
  }

  // ---------- the manager ----------

  class ConnectEventManager {
    var peers: map<PeerId, PeerState>
    var changeQueue: seq<PeerId>
    var stop: bool
    var worker: Worker
    var heard: seq<seq<Event>>

    ghost function Abs(): State
      reads this
    {
      State(peers, changeQueue, stop, worker, heard)
    }

    constructor (listeners: nat)
      ensures Abs() == Initial(listeners) && Inv(Abs())
    {
      peers, changeQueue, stop, worker := map[], [], false, Waiting;
      heard := seq(listeners, _ => []);
      InitialInv(listeners);
    }

    function CurrentState(p: PeerId): (r: ConnState)
      reads this
      ensures r == GetState(Abs(), p)
    {
      if p in peers then peers[p].newState else Disconnected
    }

    method ChangeState(p: PeerId, newState: ConnState)
      requires Inv(Abs())
      modifies this
      ensures Abs() == SetState(old(Abs()), p, newState) && Inv(Abs())
    {
      hide Inv;
      SetStateKeepsInv(Abs(), p, newState);
      if p !in peers {
        peers := peers[p := PeerState(Disconnected, Disconnected, false)];
      }
      peers := peers[p := peers[p].(newState := newState)];
      if !peers[p].pending && peers[p].newState != peers[p].curState {
        peers := peers[p := peers[p].(pending := true)];
        changeQueue := changeQueue + [p];
      }
    }

    method Connected(p: PeerId)
      requires Inv(Abs())
      modifies this
      ensures Abs() == Step(old(Abs()), OnConnected(p)) && Inv(Abs())
    {
      hide Inv;
      if CurrentState(p) == Responsive {
        return;
      }
      ChangeState(p, Responsive);
    }

    method Disconnect(p: PeerId)
      requires Inv(Abs())
      modifies this
      ensures Abs() == Step(old(Abs()), OnDisconnected(p)) && Inv(Abs())
    {
      hide Inv;
      if CurrentState(p) == Disconnected {
        return;
      }
      ChangeState(p, Disconnected);
    }

    method MarkUnresponsive(p: PeerId)
      requires Inv(Abs())
      modifies this
      ensures Abs() == Step(old(Abs()), OnUnresponsive(p)) && Inv(Abs())
    {
      hide Inv;
      if CurrentState(p) != Responsive {
        return;
      }
      ChangeState(p, Unresponsive);
    }

    /** The second, write-locked part; the read-locked check before it only saves taking this lock. */
    method MessageFrom(p: PeerId)
      requires Inv(Abs())
      modifies this
      ensures Abs() == Step(old(Abs()), OnMessage(p)) && Inv(Abs())
    {
      hide Inv;
      if CurrentState(p) != Unresponsive {
        return;
      }
      ChangeState(p, Responsive);
    }

    method Shutdown()
      requires Inv(Abs())
      modifies this
      ensures Abs() == Step(old(Abs()), Stop) && Inv(Abs())
    {
      hide Inv;
      StopKeepsInv(Abs());
      stop := true;
    }

    /** The worker's locked region; the popped peer is always tracked. */
    method WorkerPop()
      requires Inv(Abs()) && Enabled(Abs(), Pop)
      modifies this
      ensures Abs() == Step(old(Abs()), Pop) && Inv(Abs())
    {
      hide Inv, QueueExact;
      PopKeepsInv(Abs());
      InvQueue(Abs());
      PopKeepsQueue(Abs());
      var pid := changeQueue[0];
      changeQueue := changeQueue[1..];
      var ps := peers[pid].(pending := false);
      peers := peers[pid := ps];
      if ps.curState == ps.newState {
        return;
      }
      var oldState := ps.curState;
      peers := peers[pid := ps.(curState := ps.newState)];
      if ps.newState == Responsive {
        worker := Delivering(Event(pid, true), 0);
      } else {
        if ps.newState == Disconnected {
          peers := peers - {pid};
          assert peers == old(peers) - {pid};
        }
        if oldState == Responsive {
          worker := Delivering(Event(pid, false), 0);
        }
      }
    }

    /** A listener is called without the lock: the state may have changed since the pop. */
    method WorkerDeliver()
      requires Inv(Abs()) && Enabled(Abs(), Deliver)
      modifies this
      ensures Abs() == Step(old(Abs()), Deliver) && Inv(Abs())
    {
      hide Inv;
      DeliverKeepsInv(Abs());
      var k := worker.told;
      heard := heard[k := heard[k] + [worker.event]];
      worker := Delivering(worker.event, k + 1);
    }

    method WorkerResume()
      requires Inv(Abs()) && Enabled(Abs(), Resume)
      modifies this
      ensures Abs() == Step(old(Abs()), Resume) && Inv(Abs())
    {
      hide Inv;
      ResumeKeepsInv(Abs());
      worker := Waiting;
    }
  }

  lemma InvQueue(s: State)
    requires Inv(s)
    ensures QueueExact(s)
  {
  }
}
