/**
 Provider queries: one request for a CID serves many listeners, each with a
 channel of its own. The channels record all that is done to them, so that
 misuse (a second close, a send after the close) would show in the record.
 */
module ProviderQueries {
  import opened Types

  // ---------- channels ----------

  datatype ChanOp = Send(p: PeerId) | Close

  /** A listener's channel: the providers handed over on registration, and all operations since. */
  datatype Chan = Chan(snapshot: seq<PeerId>, history: seq<ChanOp>)

  ghost predicate Open(ch: Chan) {
    Close !in ch.history
  }

  /** Nothing follows a close. */
  ghost predicate WellUsed(ch: Chan) {
    forall i :: 0 <= i < |ch.history| - 1 ==> ch.history[i] != Close
  }

  ghost function Sends(history: seq<ChanOp>): seq<PeerId> {
    if history == [] then []
    else
      var last := history[|history| - 1];
      Sends(history[..|history| - 1]) + if last.Send? then [last.p] else []
  }

  /** All providers the listener learns of. */
  ghost function Seen(ch: Chan): seq<PeerId> {
    ch.snapshot + Sends(ch.history)
  }

  function Do(ch: Chan, op: ChanOp): Chan {
    ch.(history := ch.history + [op])
  }

  lemma DoOne(ch: Chan, op: ChanOp)
    requires Open(ch)
    ensures WellUsed(Do(ch, op)) && (Open(Do(ch, op)) <==> op != Close)
    ensures Seen(Do(ch, op)) == Seen(ch) + if op.Send? then [op.p] else []
  {
    var h := Do(ch, op).history;
    assert h[..|h| - 1] == ch.history;
    forall i | 0 <= i < |h| - 1
      ensures h[i] != Close
    {
      assert h[i] == ch.history[i] && ch.history[i] in ch.history;
    }
    assert h[|h| - 1] == op;
  }

  // ---------- the state machine ----------

  datatype Status = Status(providersSoFar: seq<PeerId>, listeners: set<nat>)

  type Statuses = map<Cid, Status>

  /** Channels are named by the order they were made in. */
  datatype State = State(statuses: Statuses, chans: seq<Chan>, running: bool, cleaned: bool)

  datatype Op =
    | OpNew(k: Cid, dispatched: bool)
    | OpReceived(k: Cid, p: PeerId, reached: set<nat>)
    | OpFinished(k: Cid)
    | OpCancel(k: Cid, id: nat)
    | OpStop
    | OpCleanup

  /** Once the manager is stopped a request may not be dispatched and a provider may not reach every listener. */
  ghost predicate OpOk(s: State, op: Op) {
    && !s.cleaned
    && match op
       case OpNew(_, dispatched) => s.running ==> dispatched
       case OpReceived(k, _, reached) =>
         k in s.statuses ==> reached <= s.statuses[k].listeners && (s.running ==> reached == s.statuses[k].listeners)
       case OpCleanup => !s.running
       case _ => true
  }

  ghost function DoAll(chans: seq<Chan>, ids: set<nat>, op: ChanOp): seq<Chan> {
    seq(|chans|, i requires 0 <= i < |chans| => if i in ids then Do(chans[i], op) else chans[i])
  }

  ghost function AllListeners(statuses: Statuses): set<nat> {
    set k, id | k in statuses && id in statuses[k].listeners :: id
  }

  ghost function Step(s: State, op: Op): State {
    match op
    case OpNew(k, dispatched) =>
      if k !in s.statuses && !dispatched then s.(statuses := s.statuses[k := Status([], {})])
      else
        var status := if k in s.statuses then s.statuses[k] else Status([], {});
        s.(statuses := s.statuses[k := status.(listeners := status.listeners + {|s.chans|})],
           chans := s.chans + [Chan(status.providersSoFar, [])])
    case OpReceived(k, p, reached) =>
      if k !in s.statuses then s
      else s.(statuses := s.statuses[k := s.statuses[k].(providersSoFar := s.statuses[k].providersSoFar + [p])],
              chans := DoAll(s.chans, reached, Send(p)))
    case OpFinished(k) =>
      if k !in s.statuses then s
      else s.(statuses := s.statuses - {k}, chans := DoAll(s.chans, s.statuses[k].listeners, Close))
    case OpCancel(k, id) =>
      if k !in s.statuses || id !in s.statuses[k].listeners then s
      else
        var rest := s.statuses[k].listeners - {id};
        s.(statuses := if rest == {} then s.statuses - {k} else s.statuses[k := s.statuses[k].(listeners := rest)],
           chans := DoAll(s.chans, {id}, Close))
    case OpStop => s.(running := false)
    case OpCleanup => s.(chans := DoAll(s.chans, AllListeners(s.statuses), Close), cleaned := true)
  }

  // ---------- what every step keeps ----------

  /** A listener belongs to one request. */
  ghost predicate OneRequest(statuses: Statuses) {
    forall k, l, id :: k in statuses && l in statuses && id in statuses[k].listeners ==>
                         id in statuses[l].listeners ==> k == l
  }

  /** The open channels are the listeners', until all are closed. */
  ghost predicate OpenExactly(s: State) {
    forall i :: 0 <= i < |s.chans| ==> (Open(s.chans[i]) <==> !s.cleaned && i in AllListeners(s.statuses))
  }

  ghost predicate InUse(s: State) {
    && (forall i :: i in AllListeners(s.statuses) ==> i < |s.chans|)
    && (forall i :: 0 <= i < |s.chans| ==> WellUsed(s.chans[i]))
  }

  /** While the manager runs, every listener has seen all providers found so far. */
  ghost predicate UpToDate(s: State) {
    s.running ==> forall k, id :: k in s.statuses && id in s.statuses[k].listeners && id < |s.chans| ==>
                                    Seen(s.chans[id]) == s.statuses[k].providersSoFar
  }

  ghost predicate Inv(s: State) {
    OneRequest(s.statuses) && InUse(s) && OpenExactly(s) && UpToDate(s)
  }

  lemma ListenersSet(statuses: Statuses, k: Cid, status: Status)
    ensures AllListeners(statuses[k := status]) == AllListeners(statuses - {k}) + status.listeners
  {
    var after := statuses[k := status];
    forall id
      ensures id in AllListeners(after) <==> id in AllListeners(statuses - {k}) || id in status.listeners
    {
      if id in AllListeners(statuses - {k}) {
        var l :| l in statuses - {k} && id in (statuses - {k})[l].listeners;
        assert l in after && id in after[l].listeners;
      }
      if id in status.listeners {
        assert k in after && id in after[k].listeners;
      }
      if id in AllListeners(after) && id !in status.listeners {
        var l :| l in after && id in after[l].listeners;
        assert l in statuses - {k};
      }
    }
  }

  /** The listeners of one request and the others. */
  lemma ListenersWith(statuses: Statuses, k: Cid, status: Status)
    ensures AllListeners(statuses[k := status]) == AllListeners(statuses - {k}) + status.listeners
    ensures k in statuses ==> AllListeners(statuses) == AllListeners(statuses - {k}) + statuses[k].listeners
    ensures k !in statuses ==> AllListeners(statuses) == AllListeners(statuses - {k})
    ensures OneRequest(statuses) && k in statuses ==> AllListeners(statuses - {k}) !! statuses[k].listeners
  {
    ListenersSet(statuses, k, status);
    if k in statuses {
      ListenersSet(statuses, k, statuses[k]);
      assert statuses[k := statuses[k]] == statuses;
    } else {
      assert statuses - {k} == statuses;
    }
  }

  lemma DoAllAt(chans: seq<Chan>, ids: set<nat>, op: ChanOp, i: nat)
    requires i < |chans| && (i in ids ==> Open(chans[i])) && WellUsed(chans[i])
    ensures WellUsed(DoAll(chans, ids, op)[i])
    ensures i !in ids ==> DoAll(chans, ids, op)[i] == chans[i]
    ensures i in ids ==> Open(DoAll(chans, ids, op)[i]) == (op != Close)
                         && Seen(DoAll(chans, ids, op)[i]) == Seen(chans[i]) + if op.Send? then [op.p] else []
  {
    hide WellUsed, Open, Seen, Do;
    if i in ids {
      DoOne(chans[i], op);
    }
  }

  lemma NewKeepsInv(s: State, op: Op)
    requires Inv(s) && OpOk(s, op) && op.OpNew?
    ensures Inv(Step(s, op))
  {
    hide WellUsed, Open, Seen;
    var s' := Step(s, op);
    var n := |s.chans|;
    ListenersWith(s.statuses, op.k, s'.statuses[op.k]);
    if |s'.chans| > n {
      assert n in s'.statuses[op.k].listeners;
      FreshChan(s'.chans[n].snapshot);
    }
    assert forall i :: 0 <= i < n ==> s'.chans[i] == s.chans[i];
  }

  lemma FreshChan(snapshot: seq<PeerId>)
    ensures var ch := Chan(snapshot, []); Open(ch) && WellUsed(ch) && Seen(ch) == snapshot
  {
  }

  lemma ReceivedKeepsInv(s: State, op: Op)
    requires Inv(s) && OpOk(s, op) && op.OpReceived?
    ensures Inv(Step(s, op))
  {
    hide WellUsed, Open, Seen, DoAll;
    if op.k in s.statuses {
      var s' := Step(s, op);
      ListenersWith(s.statuses, op.k, s'.statuses[op.k]);
      AllSame(s.chans, op.reached, Send(op.p));
      forall i | 0 <= i < |s.chans|
        ensures WellUsed(s'.chans[i]) && (Open(s'.chans[i]) <==> Open(s.chans[i]))
        ensures i in op.reached ==> Seen(s'.chans[i]) == Seen(s.chans[i]) + [op.p]
        ensures i !in op.reached ==> s'.chans[i] == s.chans[i]
      {
        DoAllAt(s.chans, op.reached, Send(op.p), i);
      }
    }
  }

  lemma AllSame(chans: seq<Chan>, ids: set<nat>, op: ChanOp)
    ensures |DoAll(chans, ids, op)| == |chans|
  {
  }

  /** Closing the channels of `ids` and forgetting them. */
  lemma ClosingKeepsInv(s: State, s': State, ids: set<nat>)
    requires Inv(s) && !s.cleaned && ids <= AllListeners(s.statuses) && s'.running == s.running
    requires s'.chans == DoAll(s.chans, ids, Close)
    requires if s'.cleaned then s'.statuses == s.statuses && ids == AllListeners(s.statuses) && !s.running
             else AllListeners(s'.statuses) == AllListeners(s.statuses) - ids
    requires forall k :: k in s'.statuses ==>
               k in s.statuses && s'.statuses[k].providersSoFar == s.statuses[k].providersSoFar
               && s'.statuses[k].listeners <= s.statuses[k].listeners
    ensures Inv(s')
  {
    hide WellUsed, Open, Seen, DoAll;
    AllSame(s.chans, ids, Close);
    forall i | 0 <= i < |s.chans|
      ensures WellUsed(s'.chans[i]) && (Open(s'.chans[i]) <==> Open(s.chans[i]) && i !in ids)
      ensures i !in ids ==> s'.chans[i] == s.chans[i]
    {
      DoAllAt(s.chans, ids, Close, i);
    }
  }

  lemma FinishedKeepsInv(s: State, op: Op)
    requires Inv(s) && OpOk(s, op) && op.OpFinished?
    ensures Inv(Step(s, op))
  {
    hide WellUsed, Open, Seen, DoAll;
    if op.k in s.statuses {
      var s' := Step(s, op);
      ListenersWith(s.statuses, op.k, s.statuses[op.k]);
      ClosingKeepsInv(s, s', s.statuses[op.k].listeners);
    }
  }

  lemma CancelKeepsInv(s: State, op: Op)
    requires Inv(s) && OpOk(s, op) && op.OpCancel?
    ensures Inv(Step(s, op))
  {
    hide WellUsed, Open, Seen, DoAll;
    if op.k in s.statuses && op.id in s.statuses[op.k].listeners {
      var s' := Step(s, op);
      ListenersWith(s.statuses, op.k, s.statuses[op.k].(listeners := s.statuses[op.k].listeners - {op.id}));
      ClosingKeepsInv(s, s', {op.id});
    }
  }

  lemma StepKeepsInv(s: State, op: Op)
    requires Inv(s) && OpOk(s, op)
    ensures Inv(Step(s, op))
  {
    hide Inv;
    match op {
      case OpNew(_, _) => NewKeepsInv(s, op);
      case OpReceived(_, _, _) => ReceivedKeepsInv(s, op);
      case OpFinished(_) => FinishedKeepsInv(s, op);
      case OpCancel(_, _) => CancelKeepsInv(s, op);
      case OpStop => StopKeepsInv(s);
      case OpCleanup => ClosingKeepsInv(s, Step(s, op), AllListeners(s.statuses));
    }
  }

  lemma StopKeepsInv(s: State)
    requires Inv(s)
    ensures Inv(s.(running := false))
  {
  }

  const INIT := State(map[], [], true, false)

  ghost predicate IsRun(states: seq<State>, ops: seq<Op>) {
    && |states| == |ops| + 1 && states[0] == INIT
    && forall i :: 0 <= i < |ops| ==> OpOk(states[i], ops[i]) && states[i + 1] == Step(states[i], ops[i])
  }

  lemma {:induction false} RunKeepsInv(states: seq<State>, ops: seq<Op>, n: nat)
    requires IsRun(states, ops) && n <= |ops|
    ensures Inv(states[n])
  {
    hide Inv;
    if n == 0 {
      assert Inv(INIT) by { FirstInv(); }
    } else {
      RunKeepsInv(states, ops, n - 1);
      StepKeepsInv(states[n - 1], ops[n - 1]);
    }
  }

  lemma FirstInv()
    ensures Inv(INIT)
  {
  }

  // ---------- what this means for the listeners ----------

  /** In every run no channel is closed twice or sent to after its close. */
  lemma ChannelsAreWellUsed(states: seq<State>, ops: seq<Op>, n: nat, id: nat)
    requires IsRun(states, ops) && n <= |ops| && id < |states[n].chans|
    ensures WellUsed(states[n].chans[id])
  {
    RunKeepsInv(states, ops, n);
  }

  // ---------- what the listeners see, told by the messages ----------

  /** How many channels the messages made: one for each request that was dispatched or joined another. */
  ghost function Channels(ops: seq<Op>): nat
    decreases |ops|
  {
    if ops == [] then 0
    else
      var init, last := ops[..|ops| - 1], ops[|ops| - 1];
      Channels(init) + if last.OpNew? && (last.dispatched || InProgress(init, last.k).Some?) then 1 else 0
  }

  /** The request for `k`, if there is one, with its providers and listeners: told by the messages alone. */
  ghost function InProgress(ops: seq<Op>, k: Cid): Option<Status>
    decreases |ops|
  {
    if ops == [] then None
    else
      var init := ops[..|ops| - 1];
      var before := InProgress(init, k);
      match ops[|ops| - 1]
      case OpNew(l, dispatched) =>
        if l != k then before
        else if before.Some? then Some(before.value.(listeners := before.value.listeners + {Channels(init)}))
        else Some(Status([], if dispatched then {Channels(init)} else {}))
      case OpReceived(l, p, _) =>
        if l == k && before.Some? then Some(before.value.(providersSoFar := before.value.providersSoFar + [p]))
        else before
      case OpFinished(l) => if l == k then None else before
      case OpCancel(l, id) =>
        if l != k || before.None? || id !in before.value.listeners then before
        else if before.value.listeners == {id} then None
        else Some(before.value.(listeners := before.value.listeners - {id}))
      case _ => before
  }

  /** The state is the one the messages tell. */
  ghost predicate IsTold(s: State, ops: seq<Op>) {
    && |s.chans| == Channels(ops)
    && forall k :: (k in s.statuses <==> InProgress(ops, k).Some?)
                   && (k in s.statuses ==> s.statuses[k] == InProgress(ops, k).value)
  }

  lemma StepIsTold(s: State, ops: seq<Op>, op: Op)
    requires IsTold(s, ops)
    ensures IsTold(Step(s, op), ops + [op])
  {
    hide AllListeners;
    var s', ops' := Step(s, op), ops + [op];
    assert ops'[..|ops|] == ops && ops'[|ops|] == op;
    if op.OpCancel? && op.k in s.statuses && op.id in s.statuses[op.k].listeners {
      OnlyOne(s.statuses[op.k].listeners, op.id);
    }
    if op.OpNew? {
      assert {} + {|s.chans|} == {|s.chans|};
    }
  }

  lemma OnlyOne(ids: set<nat>, id: nat)
    requires id in ids
    ensures ids - {id} == {} <==> ids == {id}
  {
    if ids - {id} == {} {
      assert forall i :: i in ids ==> i in ids - {id} || i == id;
    }
  }

  /** In every run the requests in progress, their providers and their listeners are those that the messages tell. */
  lemma {:induction false} RunIsTold(states: seq<State>, ops: seq<Op>, n: nat)
    requires IsRun(states, ops) && n <= |ops|
    ensures IsTold(states[n], ops[..n])
  {
    hide Step, IsTold, OpOk;
    if n == 0 {
      FirstIsTold();
    } else {
      RunIsTold(states, ops, n - 1);
      StepIsTold(states[n - 1], ops[..n - 1], ops[n - 1]);
      assert ops[..n] == ops[..n - 1] + [ops[n - 1]];
    }
  }

  lemma FirstIsTold()
    ensures IsTold(INIT, [])
  {
  }

  /** The providers received for `k` from step `i` on. */
  function ReceivedSince(ops: seq<Op>, i: nat, k: Cid): seq<PeerId>
    decreases |ops|
  {
    if |ops| <= i then []
    else
      var last := ops[|ops| - 1];
      ReceivedSince(ops[..|ops| - 1], i, k) + if last.OpReceived? && last.k == k then [last.p] else []
  }

  /** The providers of a request are those received since it was made, in the order they came in. */
  lemma {:induction false} ProvidersAre(ops: seq<Op>, k: Cid) returns (i: nat)
    requires InProgress(ops, k).Some?
    ensures i < |ops| && ops[i].OpNew? && ops[i].k == k && InProgress(ops[..i], k).None?
    ensures InProgress(ops, k).value.providersSoFar == ReceivedSince(ops, i, k)
  {
    var n := |ops| - 1;
    if InProgress(ops[..n], k).None? {
      i := n;
      assert ReceivedSince(ops[..n], n, k) == [];
    } else {
      i := ProvidersAre(ops[..n], k);
      assert ops[..n][..i] == ops[..i];
    }
  }

  ghost predicate Listens(ops: seq<Op>, k: Cid, id: nat) {
    InProgress(ops, k).Some? && id in InProgress(ops, k).value.listeners
  }

  /** In every run the open channels are those of the listeners of requests in progress, until the cleanup. */
  lemma OpenIff(states: seq<State>, ops: seq<Op>, n: nat, id: nat)
    requires IsRun(states, ops) && n <= |ops| && id < Channels(ops[..n])
    ensures id < |states[n].chans|
    ensures Open(states[n].chans[id]) <==> !states[n].cleaned && exists k :: Listens(ops[..n], k, id)
  {
    hide Open, WellUsed, Seen, Step, OpOk, InProgress, Channels;
    RunKeepsInv(states, ops, n);
    RunIsTold(states, ops, n);
    var s := states[n];
    assert Open(s.chans[id]) <==> !s.cleaned && id in AllListeners(s.statuses);
    if id in AllListeners(s.statuses) {
      var k :| k in s.statuses && id in s.statuses[k].listeners;
      assert Listens(ops[..n], k, id);
    }
    if k :| Listens(ops[..n], k, id) {
      assert k in s.statuses && id in s.statuses[k].listeners && id in AllListeners(s.statuses);
    }
  }

  /**
   Early and late subscribers to a request see the same providers in the same order: those
   received since the request was made.
   */
  lemma SubscribersAgree(states: seq<State>, ops: seq<Op>, n: nat, k: Cid, a: nat, b: nat)
    requires IsRun(states, ops) && n <= |ops| && states[n].running && InProgress(ops[..n], k).Some?
    requires a in InProgress(ops[..n], k).value.listeners && b in InProgress(ops[..n], k).value.listeners
    ensures a < |states[n].chans| && b < |states[n].chans|
    ensures Seen(states[n].chans[a]) == Seen(states[n].chans[b]) == InProgress(ops[..n], k).value.providersSoFar
  {
    hide Seen, WellUsed, Open, InProgress, Channels, Step, OpOk;
    RunKeepsInv(states, ops, n);
    RunIsTold(states, ops, n);
    assert a in AllListeners(states[n].statuses) && b in AllListeners(states[n].statuses);
  }

  /**
   When a request finishes, each of its listeners has seen every provider received since it was
   made, its channel is closed, and the request is in progress no more.
   */
  lemma FinishedSawAll(states: seq<State>, ops: seq<Op>, n: nat, id: nat)
    requires IsRun(states, ops) && n < |ops| && states[n].running && ops[n].OpFinished?
    requires InProgress(ops[..n], ops[n].k).Some? && id in InProgress(ops[..n], ops[n].k).value.listeners
    ensures id < |states[n + 1].chans| && !Open(states[n + 1].chans[id]) && ops[n].k !in states[n + 1].statuses
    ensures Seen(states[n + 1].chans[id]) == InProgress(ops[..n], ops[n].k).value.providersSoFar
  {
    hide Seen, WellUsed, Open, InProgress, Channels;
    RunKeepsInv(states, ops, n);
    RunIsTold(states, ops, n);
    var s := states[n];
    assert id in AllListeners(s.statuses);
    DoAllAt(s.chans, s.statuses[ops[n].k].listeners, Close, id);
  }

  // ---------- which query a finish message comes from ----------

  /**
   The queries behind the requests: each new request starts one, which runs on until it sends
   its finish message, even when its request was cancelled. Finish messages name the CID only.
   */
  datatype Queries = Queries(current: map<Cid, nat>, active: set<(Cid, nat)>, next: nat)

  const NO_QUERIES := Queries(map[], {}, 0)

  /** `from` is the query a finish message comes from. */
  ghost function NextQueries(s: State, op: Op, q: Queries, from: nat): Queries {
    match op
    case OpNew(k, dispatched) =>
      if k in s.statuses then q
      else Queries(q.current[k := q.next], if dispatched then q.active + {(k, q.next)} else q.active, q.next + 1)
    case OpFinished(k) => q.(current := q.current - {k}, active := q.active - {(k, from)})
    case OpCancel(k, id) =>
      if k in s.statuses && s.statuses[k].listeners == {id} then q.(current := q.current - {k}) else q
    case _ => q
  }

  ghost predicate IsQueryRun(states: seq<State>, ops: seq<Op>, queries: seq<Queries>, from: seq<nat>) {
    && IsRun(states, ops) && |queries| == |states| && |from| == |ops| && queries[0] == NO_QUERIES
    && forall i :: 0 <= i < |ops| ==>
         && queries[i + 1] == NextQueries(states[i], ops[i], queries[i], from[i])
         && (ops[i].OpFinished? ==> (ops[i].k, from[i]) in queries[i].active)
  }

  /** Each request has one query of its own. */
  ghost predicate QueriesOk(s: State, q: Queries) {
    && q.current.Keys == s.statuses.Keys
    && (forall k :: k in q.current ==> q.current[k] < q.next)
    && (forall kb :: kb in q.active ==> kb.1 < q.next)
  }

  /** Only the query of the request itself is running for a requested CID. */
  ghost predicate OwnOnly(q: Queries) {
    forall kb :: kb in q.active && kb.0 in q.current ==> kb.1 == q.current[kb.0]
  }

  /** A CID is requested anew while an earlier query for it is still running. */
  ghost predicate StaleNew(s: State, op: Op, q: Queries) {
    op.OpNew? && op.k !in s.statuses && exists b :: (op.k, b) in q.active
  }

  lemma StepOwnOnlyIff(s: State, op: Op, q: Queries, from: nat)
    requires QueriesOk(s, q) && OpOk(s, op)
    ensures QueriesOk(Step(s, op), NextQueries(s, op, q, from))
    ensures OwnOnly(q) ==> (OwnOnly(NextQueries(s, op, q, from)) <==> !StaleNew(s, op, q))
  {
    hide DoAll, AllListeners;
    var q' := NextQueries(s, op, q, from);
    if op.OpCancel? && op.k in s.statuses && op.id in s.statuses[op.k].listeners {
      assert s.statuses[op.k].listeners - {op.id} == {} <==> s.statuses[op.k].listeners == {op.id};
    }
    if OwnOnly(q) && StaleNew(s, op, q) {
      var b :| (op.k, b) in q.active;
      assert (op.k, b) in q'.active;
    }
  }

  /**
   In every run each running query is that of its CID's request, if and only if no CID is requested
   anew too early.
   */
  lemma {:induction false} RunOwnOnlyIff(states: seq<State>, ops: seq<Op>, queries: seq<Queries>, from: seq<nat>,
                                         n: nat)
    requires IsQueryRun(states, ops, queries, from) && n <= |ops|
    ensures QueriesOk(states[n], queries[n])
    ensures (forall i :: 0 <= i <= n ==> OwnOnly(queries[i]))
            <==> (forall i :: 0 <= i < n ==> !StaleNew(states[i], ops[i], queries[i]))
  {
    hide Step, NextQueries, OwnOnly, StaleNew, OpOk;
    if n == 0 {
      NoneStale();
    } else {
      RunOwnOnlyIff(states, ops, queries, from, n - 1);
      assert states[n] == Step(states[n - 1], ops[n - 1]) && OpOk(states[n - 1], ops[n - 1]);
      assert queries[n] == NextQueries(states[n - 1], ops[n - 1], queries[n - 1], from[n - 1]);
      StepOwnOnlyIff(states[n - 1], ops[n - 1], queries[n - 1], from[n - 1]);
      if forall i :: 0 <= i <= n ==> OwnOnly(queries[i]) {
        assert OwnOnly(queries[n - 1]) && OwnOnly(queries[n]);
      }
      if forall i :: 0 <= i < n ==> !StaleNew(states[i], ops[i], queries[i]) {
        assert !StaleNew(states[n - 1], ops[n - 1], queries[n - 1]) && OwnOnly(queries[n - 1]);
      }
    }
  }

  lemma NoneStale()
    ensures OwnOnly(NO_QUERIES) && QueriesOk(INIT, NO_QUERIES)
  {
  }

  /** Then a finish message ends the request that its own query was started for, or none. */
  lemma FinishIsOwn(states: seq<State>, ops: seq<Op>, queries: seq<Queries>, from: seq<nat>, n: nat)
    requires IsQueryRun(states, ops, queries, from) && n < |ops| && ops[n].OpFinished? && ops[n].k in states[n].statuses
    requires forall i :: 0 <= i < n ==> !StaleNew(states[i], ops[i], queries[i])
    ensures ops[n].k in queries[n].current && from[n] == queries[n].current[ops[n].k]
  {
    hide Step, NextQueries, StaleNew, OpOk;
    RunOwnOnlyIff(states, ops, queries, from, n);
    assert OwnOnly(queries[n]) && (ops[n].k, from[n]) in queries[n].active;
  }

  ghost predicate Makes(s: State, op: Op, k: Cid) {
    op.OpNew? && op.k == k && k !in s.statuses
  }

  /** Every other query that runs for a requested CID was running when the request was made. */
  lemma {:induction false} MadeAt(states: seq<State>, ops: seq<Op>, queries: seq<Queries>, from: seq<nat>, n: nat,
                                  k: Cid) returns (i: nat)
    requires IsQueryRun(states, ops, queries, from) && n <= |ops| && k in queries[n].current
    ensures i < n && Makes(states[i], ops[i], k) && queries[i].next == queries[n].current[k]
    ensures forall b :: (k, b) in queries[n].active && b != queries[n].current[k] ==> (k, b) in queries[i].active
  {
    hide Step, OpOk;
    var s, op := states[n - 1], ops[n - 1];
    assert queries[n] == NextQueries(s, op, queries[n - 1], from[n - 1]);
    if Makes(s, op, k) {
      i := n - 1;
    } else {
      i := MadeAt(states, ops, queries, from, n - 1, k);
    }
  }

  /**
   In every run a finish message ends another query's request, if and only if its own query
   was still running when that request was made.
   */
  lemma FinishIsForeignIff(states: seq<State>, ops: seq<Op>, queries: seq<Queries>, from: seq<nat>, n: nat)
    requires IsQueryRun(states, ops, queries, from) && n < |ops| && ops[n].OpFinished? && ops[n].k in states[n].statuses
    ensures var k := ops[n].k;
            && k in queries[n].current
            && (from[n] != queries[n].current[k]
                <==> exists i :: && 0 <= i < n && Makes(states[i], ops[i], k)
                                 && queries[i].next == queries[n].current[k] && (k, from[n]) in queries[i].active)
  {
    hide Step, NextQueries, StaleNew, OpOk, OwnOnly, Makes;
    var k := ops[n].k;
    RunOwnOnlyIff(states, ops, queries, from, n);
    assert (k, from[n]) in queries[n].active;
    var i := MadeAt(states, ops, queries, from, n, k);
    forall j | 0 <= j < n && queries[j].next == from[n]
      ensures (k, from[n]) !in queries[j].active
    {
      RunOwnOnlyIff(states, ops, queries, from, j);
    }
  }

  /** A CID is requested, cancelled and requested again; the first query's finish message ends the second request. */
  lemma StaleFinishEndsNewRequest(k: Cid)
    returns (states: seq<State>, ops: seq<Op>, queries: seq<Queries>, from: seq<nat>)
    ensures IsQueryRun(states, ops, queries, from) && |ops| == 4 && ops[3] == OpFinished(k) && from[3] == 0
    ensures k in queries[3].current && queries[3].current[k] == 1 && (k, 1) in queries[4].active
    ensures k in states[3].statuses && states[3].statuses[k].listeners == {1}
    ensures |states[4].chans| == 2 && !Open(states[4].chans[1]) && Seen(states[4].chans[1]) == []
  {
    hide Step, NextQueries, OpOk, Open, Seen;
    ops := [OpNew(k, true), OpCancel(k, 0), OpNew(k, true), OpFinished(k)];
    from := [0, 0, 0, 0];
    var s1, s2, s3, s4 := RequestedTwice(k);
    states := [INIT, s1, s2, s3, s4];
    var q1 := Queries(map[k := 0], {(k, 0)}, 1);
    var q2 := Queries(map[], {(k, 0)}, 1);
    var q3 := Queries(map[k := 1], {(k, 0), (k, 1)}, 2);
    var q4 := Queries(map[], {(k, 1)}, 2);
    queries := [NO_QUERIES, q1, q2, q3, q4];
    QueriesTwice(k, s1, s2, s3);
  }

  lemma RequestedTwice(k: Cid) returns (s1: State, s2: State, s3: State, s4: State)
    ensures s1 == Step(INIT, OpNew(k, true)) && s2 == Step(s1, OpCancel(k, 0)) && s3 == Step(s2, OpNew(k, true))
    ensures s4 == Step(s3, OpFinished(k))
    ensures s1.statuses == map[k := Status([], {0})] && s2.statuses == map[] && s3.statuses == map[k := Status([], {1})]
    ensures |s4.chans| == 2 && !Open(s4.chans[1]) && Seen(s4.chans[1]) == []
    ensures OpOk(INIT, OpNew(k, true)) && OpOk(s1, OpCancel(k, 0))
    ensures OpOk(s2, OpNew(k, true)) && OpOk(s3, OpFinished(k))
  {
    hide Open, Seen, Do;
    s1, s2 := Step(INIT, OpNew(k, true)), Step(Step(INIT, OpNew(k, true)), OpCancel(k, 0));
    assert {} + {0} == {0} && {0} - {0} == {};
    assert |s2.chans| == 1 && {} + {|s2.chans|} == {1};
    s3 := Step(s2, OpNew(k, true));
    s4 := Step(s3, OpFinished(k));
    assert s3.chans[1] == Chan([], []) && s4.chans[1] == Do(s3.chans[1], Close);
    FreshChan([]);
    DoOne(s3.chans[1], Close);
  }

  lemma QueriesTwice(k: Cid, s1: State, s2: State, s3: State)
    requires s1.statuses == map[k := Status([], {0})] && s2.statuses == map[] && k in s3.statuses
    ensures NextQueries(INIT, OpNew(k, true), NO_QUERIES, 0) == Queries(map[k := 0], {(k, 0)}, 1)
    ensures NextQueries(s1, OpCancel(k, 0), Queries(map[k := 0], {(k, 0)}, 1), 0) == Queries(map[], {(k, 0)}, 1)
    ensures NextQueries(s2, OpNew(k, true), Queries(map[], {(k, 0)}, 1), 0)
            == Queries(map[k := 1], {(k, 0), (k, 1)}, 2)
    ensures NextQueries(s3, OpFinished(k), Queries(map[k := 1], {(k, 0), (k, 1)}, 2), 0) == Queries(map[], {(k, 1)}, 2)
  {
    assert map[k := 0] - {k} == map[] && map[k := 1] - {k} == map[];
    assert {(k, 0), (k, 1)} - {(k, 0)} == {(k, 1)};
  }

  /** After the cleanup no channel is left open. */
  lemma CleanupClosesAll(states: seq<State>, ops: seq<Op>, n: nat, id: nat)
    requires IsRun(states, ops) && n <= |ops| && states[n].cleaned && id < |states[n].chans|
    ensures !Open(states[n].chans[id])
  {
    RunKeepsInv(states, ops, n);
  }

  // ---------- the manager ----------

  lemma ListenersOpen(s: State, k: Cid)
    requires Inv(s) && !s.cleaned && k in s.statuses
    ensures forall id :: id in s.statuses[k].listeners ==> id < |s.chans| && Open(s.chans[id])
  {
    hide Open, WellUsed;
    assert forall id :: id in s.statuses[k].listeners ==> id in AllListeners(s.statuses);
  }

  lemma NothingDone(chans: seq<Chan>, statuses: Statuses)
    ensures DoAll(chans, {}, Close) == chans && AllListeners(statuses - statuses.Keys) == {}
  {
  }

  /** One more request to clean up: its channels are still open, and then all of them are closed. */
  lemma CloseStep(s: State, closed: set<nat>, todo: set<Cid>, k: Cid)
    requires Inv(s) && !s.cleaned && todo <= s.statuses.Keys && k in todo && closed == AllListeners(s.statuses - todo)
    ensures forall id :: id in s.statuses[k].listeners ==>
              id < |DoAll(s.chans, closed, Close)| && Open(DoAll(s.chans, closed, Close)[id])
    ensures DoAll(DoAll(s.chans, closed, Close), s.statuses[k].listeners, Close)
            == DoAll(s.chans, closed + s.statuses[k].listeners, Close)
    ensures AllListeners(s.statuses - (todo - {k})) == closed + s.statuses[k].listeners
  {
    hide Open, WellUsed;
    ListenersOpen(s, k);
    assert s.statuses - (todo - {k}) == (s.statuses - todo)[k := s.statuses[k]];
    assert s.statuses - todo - {k} == s.statuses - todo;
    ListenersSet(s.statuses - todo, k, s.statuses[k]);
    assert closed !! s.statuses[k].listeners;
  }

  class ProviderQueryManager {
    var statuses: Statuses
    var chans: seq<Chan>
    var ctxDone: bool
    ghost var cleaned: bool

    ghost function Abs(): State
      reads this
    {
      State(statuses, chans, !ctxDone, cleaned)
    }

    ghost predicate Valid()
      reads this
    {
      Inv(Abs())
    }

    constructor ()
      ensures Valid() && Abs() == INIT
    {
      statuses, chans, ctxDone, cleaned := map[], [], false, false;
    }

    /** One operation on an open channel; on a closed one it would panic. */
    method Operate(id: nat, op: ChanOp)
      requires id < |chans| && Open(chans[id])
      modifies this`chans
      ensures chans == old(chans)[id := Do(old(chans)[id], op)]
    {
      chans := chans[id := Do(chans[id], op)];
    }

    method CloseAll(ids: set<nat>)
      requires forall id :: id in ids ==> id < |chans| && Open(chans[id])
      modifies this`chans
      ensures chans == DoAll(old(chans), ids, Close)
    {
      hide Open;
      var todo := ids;
      while todo != {}
        invariant todo <= ids && chans == DoAll(old(chans), ids - todo, Close)
        decreases todo
      {
        var id :| id in todo;
        Operate(id, Close);
        todo := todo - {id};
      }
    }

    /** Sends to the listeners one after the other; a stopped manager may give up at any of them. */
    method SendAll(ids: set<nat>, p: PeerId) returns (ghost reached: set<nat>)
      requires forall id :: id in ids ==> id < |chans| && Open(chans[id])
      modifies this`chans
      ensures reached <= ids && (!ctxDone ==> reached == ids)
      ensures chans == DoAll(old(chans), reached, Send(p))
    {
      hide Open;
      var todo := ids;
      while todo != {}
        invariant todo <= ids && chans == DoAll(old(chans), ids - todo, Send(p))
        decreases todo
      {
        var id :| id in todo;
        if ctxDone {
          if * {
            return ids - todo;
          }
        }
        Operate(id, Send(p));
        todo := todo - {id};
      }
      return ids;
    }

    /** A request for a CID already asked for joins it, with the providers found so far. */
    method HandleNew(k: Cid) returns (registered: Option<nat>, ghost dispatched: bool)
      requires Valid() && !cleaned
      modifies this
      ensures OpOk(old(Abs()), OpNew(k, dispatched)) && Abs() == Step(old(Abs()), OpNew(k, dispatched)) && Valid()
      ensures registered.None? <==> k !in old(statuses) && !dispatched
      ensures registered.Some? ==> registered.value == |old(chans)|
    {
      hide Inv;
      dispatched := true;
      if k !in statuses {
        statuses := statuses[k := Status([], {})];
        if ctxDone {
          if * {
            dispatched := false;
            StepKeepsInv(old(Abs()), OpNew(k, false));
            return None, false;
          }
        }
      }
      var id := |chans|;
      chans := chans + [Chan(statuses[k].providersSoFar, [])];
      statuses := statuses[k := statuses[k].(listeners := statuses[k].listeners + {id})];
      registered := Some(id);
      StepKeepsInv(old(Abs()), OpNew(k, true));
    }

    method HandleReceived(k: Cid, p: PeerId) returns (ghost reached: set<nat>)
      requires Valid() && !cleaned
      modifies this
      ensures OpOk(old(Abs()), OpReceived(k, p, reached))
      ensures Abs() == Step(old(Abs()), OpReceived(k, p, reached)) && Valid()
    {
      hide Inv, DoAll, Open;
      if k !in statuses {
        return {};
      }
      ListenersOpen(Abs(), k);
      statuses := statuses[k := statuses[k].(providersSoFar := statuses[k].providersSoFar + [p])];
      reached := SendAll(statuses[k].listeners, p);
      StepKeepsInv(old(Abs()), OpReceived(k, p, reached));
    }

    method HandleFinished(k: Cid)
      requires Valid() && !cleaned
      modifies this
      ensures Abs() == Step(old(Abs()), OpFinished(k)) && Valid()
    {
      hide Inv, DoAll, Open;
      StepKeepsInv(Abs(), OpFinished(k));
      if k !in statuses {
        return;
      }
      ListenersOpen(Abs(), k);
      CloseAll(statuses[k].listeners);
      statuses := statuses - {k};
    }

    /** A cancel that comes after the request finished, or finished and started anew, does nothing. */
    method HandleCancel(k: Cid, id: nat)
      requires Valid() && !cleaned
      modifies this
      ensures Abs() == Step(old(Abs()), OpCancel(k, id)) && Valid()
    {
      hide Inv, DoAll, Open;
      StepKeepsInv(Abs(), OpCancel(k, id));
      if k !in statuses {
        return;
      }
      if id !in statuses[k].listeners {
        return;
      }
      ListenersOpen(Abs(), k);
      statuses := statuses[k := statuses[k].(listeners := statuses[k].listeners - {id})];
      CloseAll({id});
      if |statuses[k].listeners| == 0 {
        statuses := statuses - {k};
        assert statuses == old(statuses) - {k};
      }
    }

    method Stop()
      requires Valid()
      modifies this
      ensures Abs() == Step(old(Abs()), OpStop) && Valid()
    {
      StopKeepsInv(Abs());
      ctxDone := true;
    }

    /** Runs once, when the loop has ended. */
    method CleanupInProcessRequests()
      requires Valid() && !cleaned && ctxDone
      modifies this
      ensures Abs() == Step(old(Abs()), OpCleanup) && Valid()
    {
      hide Inv, DoAll, Open, AllListeners;
      StepKeepsInv(Abs(), OpCleanup);
      var todo := statuses.Keys;
      ghost var closed: set<nat> := {};
      NothingDone(chans, statuses);
      while todo != {}
        invariant todo <= statuses.Keys && unchanged(`statuses) && unchanged(`ctxDone) && unchanged(`cleaned)
        invariant chans == DoAll(old(chans), closed, Close) && closed == AllListeners(statuses - todo)
        decreases todo
      {
        var k :| k in todo;
        CloseStep(old(Abs()), closed, todo, k);
        CloseAll(statuses[k].listeners);
        closed := closed + statuses[k].listeners;
        todo := todo - {k};
      }
      assert statuses - {} == statuses;
      cleaned := true;
    }
  }

  // ---------- one listener's buffer ----------

  /** What the select of a receiver's loop may choose. */
  datatype Choice = ManagerDone | SessionDone | Incoming(p: PeerId) | IncomingClosed | Deliver

  /** The providers taken from the incoming channel before it was closed. */
  ghost function Taken(choices: seq<Choice>): seq<PeerId> {
    if choices == [] then []
    else
      var last := choices[|choices| - 1];
      var before := Taken(choices[..|choices| - 1]);
      if last.Incoming? && IncomingClosed !in choices then before + [last.p] else before
  }

  /** How many providers wait in a buffer that held `n` at first. */
  ghost function Buffered(n: nat, choices: seq<Choice>): nat {
    if choices == [] then n
    else
      var last := choices[|choices| - 1];
      var before := Buffered(n, choices[..|choices| - 1]);
      if last.Incoming? && IncomingClosed !in choices then before + 1
      else if last.Deliver? && before > 0 then before - 1
      else before
  }

  /**
   Passes providers on from an unbounded buffer, for as long as the choices last.
   What is delivered is a prefix of what came in, and all of it at a normal end.
   */
  method ReceiveProviders(soFar: seq<PeerId>, choices: seq<Choice>)
    returns (delivered: seq<PeerId>, ended: bool, cancelled: bool, used: nat)
    ensures used <= |choices| && delivered <= soFar + Taken(choices[..used])
    ensures |delivered| + Buffered(|soFar|, choices[..used]) == |soFar + Taken(choices[..used])|
    ensures ended <==> Buffered(|soFar|, choices[..used]) == 0 && IncomingClosed in choices[..used]
    ensures cancelled <==> used > 0 && choices[used - 1] == SessionDone && IncomingClosed !in choices[..used]
  {
    hide Taken, Buffered;
    var received, incomingOpen := soFar, true;
    delivered, ended, cancelled, used := [], false, false, 0;
    NothingTaken(|soFar|);
    for i := 0 to |choices|
      invariant used == i && !ended && !cancelled && (i > 0 ==> choices[i - 1] != SessionDone)
      invariant delivered + received == soFar + Taken(choices[..i]) && |received| == Buffered(|soFar|, choices[..i])
      invariant incomingOpen <==> IncomingClosed !in choices[..i]
    {
      if |received| == 0 && !incomingOpen {
        ended := true;
        return;
      }
      TakenStep(choices, i, |soFar|);
      used := i + 1;
      var choice := choices[i];
      if choice.ManagerDone? {
        return;
      } else if choice.SessionDone? {
        cancelled := incomingOpen;
        return;
      } else if choice.IncomingClosed? {
        incomingOpen := false;
      } else if choice.Incoming? {
        if incomingOpen {
          assert delivered + (received + [choice.p]) == (delivered + received) + [choice.p];
          assert soFar + (Taken(choices[..i]) + [choice.p]) == (soFar + Taken(choices[..i])) + [choice.p];
          received := received + [choice.p];
        }
      } else if |received| > 0 {
        assert delivered + received == delivered + [received[0]] + received[1..];
        delivered, received := delivered + [received[0]], received[1..];
      }
    }
    ended := |received| == 0 && !incomingOpen;
  }

  lemma NothingTaken(n: nat)
    ensures Taken([]) == [] && Buffered(n, []) == n
  {
  }

  lemma TakenStep(choices: seq<Choice>, i: nat, n: nat)
    requires i < |choices|
    ensures var before := Buffered(n, choices[..i]);
            Buffered(n, choices[..i + 1])
            == if choices[i].Incoming? && IncomingClosed !in choices[..i] then before + 1
               else if choices[i].Deliver? && before > 0 then before - 1
               else before
    ensures Taken(choices[..i + 1])
            == if choices[i].Incoming? && IncomingClosed !in choices[..i] then Taken(choices[..i]) + [choices[i].p]
               else Taken(choices[..i])
    ensures IncomingClosed in choices[..i + 1] <==> IncomingClosed in choices[..i] || choices[i] == IncomingClosed
    ensures forall c :: c in choices[..i] ==> c in choices[..i + 1]
    ensures choices[i] in choices[..i + 1]
  {
    assert choices[..i + 1] == choices[..i] + [choices[i]];
    assert choices[..i + 1][..i] == choices[..i];
  }
}
