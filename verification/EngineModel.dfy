/**
 The decision engine's ledgers on values: for each peer the wantlist it sent, and an
 inverted index from CIDs to peers that is cleaned lazily. The index covers the
 wantlists after every run, and is exact for what was just looked up.
 */
module EngineModel {
  import opened Types
  import opened Wantlists
  import BitswapMessages
  import Messages

  type MsgEntry = BitswapMessages.Entry

  // ---------- the state and its operations ----------

  datatype State = State(lists: map<PeerId, WantMap>, index: set<(Cid, PeerId)>)

  predicate Wants(s: State, p: PeerId, c: Cid) {
    p in s.lists && c in s.lists[p]
  }

  /** Every want of a wantlist is in the index. */
  ghost predicate Covered(s: State) {
    forall p, c :: Wants(s, p, c) ==> (c, p) in s.index
  }

  /** The index knows exactly who wants `c`. */
  ghost predicate ExactFor(s: State, c: Cid) {
    forall p :: (c, p) in s.index <==> Wants(s, p, c)
  }

  function ListIn(lists: map<PeerId, WantMap>, p: PeerId): WantMap {
    if p in lists then lists[p] else map[]
  }

  function ListOf(s: State, p: PeerId): WantMap {
    ListIn(s.lists, p)
  }

  ghost function CidsOf(es: seq<MsgEntry>): set<Cid> {
    set e | e in es :: e.want.cid
  }

  ghost function PairsOf(ks: set<Cid>, p: PeerId): set<(Cid, PeerId)> {
    set c | c in ks :: (c, p)
  }

  /** The wants added one after the other. */
  ghost function AddAll(m: WantMap, es: seq<MsgEntry>): WantMap {
    if es == [] then m
    else
      var e := es[|es| - 1].want;
      AddTo(AddAll(m, es[..|es| - 1]), e.cid, e.priority, e.wantType)
  }

  /** In the index the cancels come last, in the wantlist they come first. */
  ghost function Receive(s: State, p: PeerId, full: bool, wants: seq<MsgEntry>, cancels: seq<MsgEntry>): State {
    State(s.lists[p := AddAll((if full then map[] else ListOf(s, p)) - CidsOf(cancels), wants)],
          s.index + PairsOf(CidsOf(wants), p) - PairsOf(CidsOf(cancels), p))
  }

  /** A sent block answers any want for it, a HAVE only a want that is not a want-block. */
  ghost function Answered(m: WantMap, blocks: set<Cid>, haves: set<Cid>): WantMap {
    map c | c in m && c !in blocks && (c in haves ==> m[c].wantType == WANT_BLOCK) :: m[c]
  }

  ghost function Sent(s: State, p: PeerId, blocks: set<Cid>, haves: set<Cid>): State {
    s.(lists := s.lists[p := Answered(ListOf(s, p), blocks, haves)])
  }

  /** Stale index entries of the new blocks go. */
  ghost function Notify(s: State, ks: set<Cid>): State {
    s.(index := set cp | cp in s.index && (cp.0 in ks ==> Wants(s, cp.1, cp.0)))
  }

  ghost function Connect(s: State, p: PeerId): State {
    s.(lists := s.lists[p := ListOf(s, p)])
  }

  ghost function Disconnect(s: State, p: PeerId): State {
    State(s.lists - {p}, s.index - PairsOf(ListOf(s, p).Keys, p))
  }

  datatype Op =
    | OpReceive(p: PeerId, full: bool, wants: seq<MsgEntry>, cancels: seq<MsgEntry>)
    | OpSent(p: PeerId, blocks: set<Cid>, haves: set<Cid>)
    | OpNotify(ks: set<Cid>)
    | OpConnect(p: PeerId)
    | OpDisconnect(p: PeerId)

  /** A message has one entry for a CID, so it does not both want and cancel it. */
  ghost predicate OpOk(op: Op) {
    op.OpReceive? ==> CidsOf(op.wants) !! CidsOf(op.cancels)
  }

  ghost function Step(s: State, op: Op): State {
    match op
    case OpReceive(p, full, wants, cancels) => Receive(s, p, full, wants, cancels)
    case OpSent(p, blocks, haves) => Sent(s, p, blocks, haves)
    case OpNotify(ks) => Notify(s, ks)
    case OpConnect(p) => Connect(s, p)
    case OpDisconnect(p) => Disconnect(s, p)
  }

  ghost function Run(ops: seq<Op>): State {
    if ops == [] then State(map[], {}) else Step(Run(ops[..|ops| - 1]), ops[|ops| - 1])
  }

  // ---------- the index covers the wantlists ----------

  lemma CidsOfLast(es: seq<MsgEntry>)
    requires es != []
    ensures CidsOf(es) == CidsOf(es[..|es| - 1]) + {es[|es| - 1].want.cid}
  {
    assert es == es[..|es| - 1] + [es[|es| - 1]];
  }

  lemma {:induction false} AddAllKeys(m: WantMap, es: seq<MsgEntry>)
    ensures AddAll(m, es).Keys == m.Keys + CidsOf(es)
  {
    if es != [] {
      AddAllKeys(m, es[..|es| - 1]);
      CidsOfLast(es);
    }
  }

  /** A message keeps the index covering exactly if it does not both want and cancel a CID. */
  lemma ReceiveKeepsCoveredIff(s: State, p: PeerId, full: bool, wants: seq<MsgEntry>, cancels: seq<MsgEntry>)
    requires Covered(s)
    ensures Covered(Receive(s, p, full, wants, cancels)) <==> CidsOf(wants) !! CidsOf(cancels)
  {
    hide CidsOf, AddAll;
    var m := (if full then map[] else ListOf(s, p)) - CidsOf(cancels);
    AddAllKeys(m, wants);
    var after := Receive(s, p, full, wants, cancels);
    if Covered(after) {
      forall c | c in CidsOf(wants)
        ensures c !in CidsOf(cancels)
      {
        assert Wants(after, p, c);
      }
    }
    if CidsOf(wants) !! CidsOf(cancels) {
      forall q, c | Wants(after, q, c)
        ensures (c, q) in after.index
      {
        assert Wants(s, q, c) || (q == p && c in CidsOf(wants));
      }
    }
  }

  lemma StepKeepsCovered(s: State, op: Op)
    requires Covered(s) && OpOk(op)
    ensures Covered(Step(s, op))
  {
    if op.OpReceive? {
      ReceiveKeepsCoveredIff(s, op.p, op.full, op.wants, op.cancels);
    } else {
      var after := Step(s, op);
      forall p, c | Wants(after, p, c)
        ensures (c, p) in after.index
      {
        assert Wants(s, p, c);
      }
    }
  }

  /** After every run, no want is missing from the index. */
  lemma {:induction false} RunKeepsCovered(ops: seq<Op>)
    requires forall i :: 0 <= i < |ops| ==> OpOk(ops[i])
    ensures Covered(Run(ops))
  {
    if ops != [] {
      RunKeepsCovered(ops[..|ops| - 1]);
      StepKeepsCovered(Run(ops[..|ops| - 1]), ops[|ops| - 1]);
    }
  }

  /** After every run that ends in a notification, the index is exact for the notified CIDs. */
  lemma NotifiedIsExact(ops: seq<Op>, ks: set<Cid>, c: Cid)
    requires (forall i :: 0 <= i < |ops| ==> OpOk(ops[i])) && c in ks
    ensures ExactFor(Notify(Run(ops), ks), c)
  {
    RunKeepsCovered(ops);
    var s := Run(ops);
    forall p
      ensures (c, p) in Notify(s, ks).index <==> Wants(Notify(s, ks), p, c)
    {
      assert Wants(Notify(s, ks), p, c) <==> Wants(s, p, c);
    }
  }

  // ---------- what the wantlists hold, told by the calls ----------

  /** What one message makes of a peer's want for `c`: a want-have replaces nothing, a want-block is not replaced. */
  ghost function AfterWants(before: Option<Wantlists.Entry>, wants: seq<MsgEntry>, c: Cid): Option<Wantlists.Entry> {
    if wants == [] then before
    else
      var now, last := AfterWants(before, wants[..|wants| - 1], c), wants[|wants| - 1].want;
      if last.cid == c && (now.None? || (now.value.wantType != WANT_BLOCK && last.wantType != WANT_HAVE))
      then Some(last) else now
  }

  /**
   The want of `p` for `c` after the calls: what `p` asked for last, unless it cancelled or replaced
   it, was sent the block, was sent a HAVE for a want-have, or disconnected.
   */
  ghost function Outstanding(ops: seq<Op>, p: PeerId, c: Cid): Option<Wantlists.Entry> {
    if ops == [] then None
    else
      var before := Outstanding(ops[..|ops| - 1], p, c);
      match ops[|ops| - 1]
      case OpReceive(q, full, wants, cancels) =>
        if q != p then before
        else AfterWants(if full || exists e :: e in cancels && e.want.cid == c then None else before, wants, c)
      case OpSent(q, blocks, haves) =>
        if q == p && before.Some? && (c in blocks || (c in haves && before.value.wantType != WANT_BLOCK)) then None
        else before
      case OpDisconnect(q) => if q == p then None else before
      case _ => before
  }

  ghost predicate Holds(m: WantMap, c: Cid, want: Option<Wantlists.Entry>) {
    (c in m <==> want.Some?) && (c in m ==> m[c] == want.value)
  }

  lemma {:induction false} AddAllHolds(m: WantMap, wants: seq<MsgEntry>, c: Cid, before: Option<Wantlists.Entry>)
    requires Holds(m, c, before)
    ensures Holds(AddAll(m, wants), c, AfterWants(before, wants, c))
  {
    if wants != [] {
      AddAllHolds(m, wants[..|wants| - 1], c, before);
    }
  }

  /** After every run the wantlist of a peer holds exactly its outstanding wants. */
  lemma {:induction false} RunHolds(ops: seq<Op>, p: PeerId, c: Cid)
    ensures Holds(ListOf(Run(ops), p), c, Outstanding(ops, p, c))
  {
    hide AddAll, AfterWants;
    if ops != [] {
      var before, op := ops[..|ops| - 1], ops[|ops| - 1];
      RunHolds(before, p, c);
      var s := Run(before);
      if op.OpReceive? && op.p == p {
        var gone := op.full || exists e :: e in op.cancels && e.want.cid == c;
        AddAllHolds((if op.full then map[] else ListOf(s, p)) - CidsOf(op.cancels), op.wants, c,
                    if gone then None else Outstanding(before, p, c));
      }
    }
  }

  // ---------- received messages ----------

  /** One entry for each CID. */
  ghost predicate OneEach(es: seq<MsgEntry>) {
    forall e, f :: e in es && f in es && e.want.cid == f.want.cid ==> e == f
  }

  /** The cancels, or the wants, of a message in order. */
  function Entries(es: seq<MsgEntry>, cancel: bool): seq<MsgEntry> {
    if es == [] then []
    else
      var rest, last := Entries(es[..|es| - 1], cancel), es[|es| - 1];
      if last.cancel == cancel then rest + [last] else rest
  }

  predicate Passes(filter: Option<(PeerId, Cid) -> bool>, p: PeerId, c: Cid) {
    filter.None? || filter.value(p, c)
  }

  /** The entries that pass the filter, or those that do not, in order. */
  function Filtered(es: seq<MsgEntry>, filter: Option<(PeerId, Cid) -> bool>, p: PeerId, pass: bool): seq<MsgEntry> {
    if es == [] then []
    else
      var rest, last := Filtered(es[..|es| - 1], filter, p, pass), es[|es| - 1];
      if Passes(filter, p, last.want.cid) == pass then rest + [last] else rest
  }

  /** `from` gives ascending positions below `n`. */
  ghost predicate Ascending(from: seq<nat>, n: nat) {
    && (forall k :: 0 <= k < |from| ==> from[k] < n)
    && forall k, l :: 0 <= k < l < |from| ==> from[k] < from[l]
  }

  lemma AscendingPush(from: seq<nat>, n: nat)
    requires Ascending(from, n)
    ensures Ascending(from, n + 1) && Ascending(from + [n], n + 1) && n !in from
  {
  }

  /** `r` holds the entries to keep, in their order: those at the positions `from`. */
  ghost predicate IsFilter(r: seq<MsgEntry>, es: seq<MsgEntry>, keep: MsgEntry -> bool, from: seq<nat>) {
    && Ascending(from, |es|) && |from| == |r|
    && (forall k :: 0 <= k < |from| ==> r[k] == es[from[k]])
    && (forall i :: 0 <= i < |es| ==> (i in from <==> keep(es[i])))
  }

  lemma FilterPush(r: seq<MsgEntry>, es: seq<MsgEntry>, keep: MsgEntry -> bool, from: seq<nat>, e: MsgEntry)
    requires IsFilter(r, es, keep, from)
    ensures keep(e) ==> IsFilter(r + [e], es + [e], keep, from + [|es|])
    ensures !keep(e) ==> IsFilter(r, es + [e], keep, from)
  {
    AscendingPush(from, |es|);
  }

  lemma FilterHolds(r: seq<MsgEntry>, es: seq<MsgEntry>, keep: MsgEntry -> bool, from: seq<nat>)
    requires IsFilter(r, es, keep, from)
    ensures forall e :: e in r <==> e in es && keep(e)
  {
    forall e | e in es && keep(e)
      ensures e in r
    {
      var i :| 0 <= i < |es| && es[i] == e;
      var k :| 0 <= k < |from| && from[k] == i;
      assert r[k] == e;
    }
  }

  /** The cancels, or the wants, are the entries with that flag, in the order of the message. */
  lemma {:induction false} EntriesAre(es: seq<MsgEntry>, cancel: bool) returns (from: seq<nat>)
    ensures IsFilter(Entries(es, cancel), es, (e: MsgEntry) => e.cancel == cancel, from)
  {
    hide IsFilter;
    var keep := (e: MsgEntry) => e.cancel == cancel;
    if es == [] {
      from := [];
      EmptyFilter(keep);
    } else {
      var n := |es| - 1;
      from := EntriesAre(es[..n], cancel);
      FilterPush(Entries(es[..n], cancel), es[..n], keep, from, es[n]);
      assert es == es[..n] + [es[n]];
      from := if keep(es[n]) then from + [n] else from;
    }
  }

  lemma EmptyFilter(keep: MsgEntry -> bool)
    ensures IsFilter([], [], keep, [])
  {
  }

  /** The wants that pass the filter, or those that do not, in the order of the message. */
  lemma {:induction false} FilteredAre(es: seq<MsgEntry>, filter: Option<(PeerId, Cid) -> bool>, p: PeerId, pass: bool)
    returns (from: seq<nat>)
    ensures IsFilter(Filtered(es, filter, p, pass), es,
                     (e: MsgEntry) => (filter.None? || filter.value(p, e.want.cid)) == pass, from)
  {
    hide IsFilter;
    var keep := (e: MsgEntry) => (filter.None? || filter.value(p, e.want.cid)) == pass;
    if es == [] {
      from := [];
      EmptyFilter(keep);
    } else {
      var n := |es| - 1;
      from := FilteredAre(es[..n], filter, p, pass);
      FilterPush(Filtered(es[..n], filter, p, pass), es[..n], keep, from, es[n]);
      assert es == es[..n] + [es[n]];
      from := if keep(es[n]) then from + [n] else from;
    }
  }

  lemma {:induction false} NoFilter(es: seq<MsgEntry>, p: PeerId)
    ensures Filtered(es, None, p, true) == es && Filtered(es, None, p, false) == []
  {
    if es != [] {
      NoFilter(es[..|es| - 1], p);
      assert es == es[..|es| - 1] + [es[|es| - 1]];
    }
  }

  /** The entries of a consistent message, in whatever order they are listed, have one for each CID. */
  lemma MessageHasOneEach(m: BitswapMessages.Msg, cs: seq<Cid>, es: seq<MsgEntry>)
    requires BitswapMessages.Consistent(m) && IsListing(cs, m.wantlist.Keys)
    requires |es| == |cs| && forall i :: 0 <= i < |cs| ==> cs[i] in m.wantlist && es[i] == m.wantlist[cs[i]]
    ensures OneEach(es)
  {
    forall e | e in es
      ensures e.want.cid in m.wantlist && m.wantlist[e.want.cid] == e
    {
      var i :| 0 <= i < |es| && es[i] == e;
    }
  }

  lemma Separate(entries: seq<MsgEntry>, wants: seq<MsgEntry>, cancels: seq<MsgEntry>)
    requires OneEach(entries)
    requires forall e :: e in wants ==> e in entries && !e.cancel
    requires forall e :: e in cancels ==> e in entries && e.cancel
    ensures CidsOf(wants) !! CidsOf(cancels)
  {
  }

  lemma NoCids(m: WantMap)
    ensures CidsOf([]) == {} && m - {} == m && Distinct<Cid>([])
  {
  }

  lemma CidsStep(es: seq<MsgEntry>, i: nat)
    requires i < |es|
    ensures CidsOf(es[..i + 1]) == CidsOf(es[..i]) + {es[i].want.cid}
  {
    CidsOfLast(es[..i + 1]);
    assert es[..i + 1][..i] == es[..i];
  }

  lemma NoPairs(p: PeerId)
    ensures PairsOf({}, p) == {} && CidsOf([]) == {}
  {
  }

  lemma PairsStep(es: seq<MsgEntry>, i: nat, p: PeerId)
    requires i < |es|
    ensures PairsOf(CidsOf(es[..i + 1]), p) == PairsOf(CidsOf(es[..i]), p) + {(es[i].want.cid, p)}
  {
    hide CidsOf;
    CidsStep(es, i);
  }

  lemma PairsOneMore(ks: set<Cid>, c: Cid, p: PeerId)
    ensures PairsOf(ks + {c}, p) == PairsOf(ks, p) + {(c, p)}
  {
  }

  ghost predicate AllKeyed(lists: map<PeerId, WantMap>) {
    forall p :: p in lists ==> Keyed(lists[p])
  }

  lemma {:induction false} AddAllKeyed(m: WantMap, es: seq<MsgEntry>)
    requires Keyed(m)
    ensures Keyed(AddAll(m, es))
  {
    if es != [] {
      AddAllKeyed(m, es[..|es| - 1]);
    }
  }

  lemma ReceivedKeyed(lists: map<PeerId, WantMap>, p: PeerId, full: bool, wants: seq<MsgEntry>, cancels: seq<MsgEntry>)
    requires AllKeyed(lists)
    ensures AllKeyed(lists[p := AddAll((if full then map[] else ListIn(lists, p)) - CidsOf(cancels), wants)])
  {
    hide AddAll, CidsOf;
    AddAllKeyed((if full then map[] else ListIn(lists, p)) - CidsOf(cancels), wants);
  }

  lemma NewKeyed(lists: map<PeerId, WantMap>, p: PeerId)
    requires AllKeyed(lists)
    ensures AllKeyed(lists[p := ListIn(lists, p)])
  {
  }

  lemma SetTwice(lists: map<PeerId, WantMap>, p: PeerId, m: WantMap, m': WantMap)
    ensures lists[p := m][p := m'] == lists[p := m']
  {
  }

  // ---------- tasks ----------

  datatype Task = Task(topic: Cid, priority: Int32, work: int, blockSize: int, haveBlock: bool, isWantBlock: bool,
                       sendDontHave: bool)

  /** A block presence takes as much space as its encoding. */
  ghost function PresenceSpace(c: Cid): nat {
    |Messages.EncodePresence(Messages.BlockPresence(c, PRESENCE_HAVE))|
  }

  /** What takes space in the answer: the block, or only a block presence. */
  ghost function BlockTask(e: Wantlists.Entry, size: nat, sendDontHave: bool, maxReplace: int): Task {
    var isWantBlock := e.wantType == WANT_BLOCK || size <= maxReplace;
    Task(e.cid, e.priority, if isWantBlock then size else PresenceSpace(e.cid), size, true, isWantBlock, sendDontHave)
  }

  /**
   `t` offers the block that the entry `e` of a wantlist wants: as the block if that is wanted or
   if it is small enough, else as a HAVE, which takes the space of a block presence.
   */
  ghost predicate Offers(t: Task, e: Wantlists.Entry, size: nat, maxReplace: int) {
    && t.haveBlock && t.topic == e.cid && t.priority == e.priority && t.blockSize == size
    && (e.wantType == WANT_BLOCK ==> t.isWantBlock)
    && (e.wantType != WANT_BLOCK ==> (t.isWantBlock <==> size <= maxReplace))
    && (t.isWantBlock ==> t.work == size)
    && (!t.isWantBlock ==> t.work == |Messages.EncodePresence(Messages.BlockPresence(e.cid, PRESENCE_HAVE))|)
  }

  /** `t` tells that the block of the entry is not there. */
  ghost predicate Declines(t: Task, e: Wantlists.Entry) {
    && !t.haveBlock && t.topic == e.cid && t.priority == e.priority && t.blockSize == 0 && t.sendDontHave
    && (t.isWantBlock <==> e.wantType == WANT_BLOCK)
    && t.work == |Messages.EncodePresence(Messages.BlockPresence(e.cid, PRESENCE_HAVE))|
  }

  /**
   The entries are answered in their order: each whose block is there is offered it, each other is
   declined if it asks for that and the engine sends DONT_HAVEs, and nothing else is pushed.
   */
  ghost predicate AnswersInOrder(tasks: seq<Task>, es: seq<MsgEntry>, sizes: map<Cid, nat>, sendDontHaves: bool,
                                 maxReplace: int, from: seq<nat>)
  {
    && Ascending(from, |es|) && |from| == |tasks|
    && (forall i :: 0 <= i < |es| ==>
          (i in from <==> es[i].want.cid in sizes || (sendDontHaves && es[i].sendDontHave)))
    && (forall k :: 0 <= k < |tasks| ==> AnswersOne(tasks[k], es[from[k]], sizes, maxReplace))
  }

  ghost predicate AnswersOne(t: Task, e: MsgEntry, sizes: map<Cid, nat>, maxReplace: int) {
    if e.want.cid in sizes
    then Offers(t, e.want, sizes[e.want.cid], maxReplace) && t.sendDontHave == e.sendDontHave
    else Declines(t, e.want)
  }

  lemma BlockTaskOffers(e: Wantlists.Entry, size: nat, sendDontHave: bool, maxReplace: int)
    ensures Offers(BlockTask(e, size, sendDontHave, maxReplace), e, size, maxReplace)
    ensures BlockTask(e, size, sendDontHave, maxReplace).sendDontHave == sendDontHave
  {
    hide Messages.EncodePresence;
  }

  lemma DontHaveDeclines(e: MsgEntry, sendDontHaves: bool)
    ensures var ts := DontHaveTasks(e, sendDontHaves);
            if sendDontHaves && e.sendDontHave then |ts| == 1 && Declines(ts[0], e.want) else ts == []
  {
    hide Messages.EncodePresence;
  }

  ghost function DontHaveTasks(e: MsgEntry, sendDontHaves: bool): seq<Task> {
    if sendDontHaves && e.sendDontHave then
      [Task(e.want.cid, e.want.priority, PresenceSpace(e.want.cid), 0, false, e.want.wantType == WANT_BLOCK, true)]
    else []
  }

  ghost function DenialTasks(es: seq<MsgEntry>, sendDontHaves: bool): seq<Task> {
    if es == [] then [] else DenialTasks(es[..|es| - 1], sendDontHaves) + DontHaveTasks(es[|es| - 1], sendDontHaves)
  }

  ghost function WantTasks(es: seq<MsgEntry>, sizes: map<Cid, nat>, sendDontHaves: bool, maxReplace: int): seq<Task> {
    if es == [] then []
    else
      var e := es[|es| - 1];
      WantTasks(es[..|es| - 1], sizes, sendDontHaves, maxReplace)
      + if e.want.cid in sizes then [BlockTask(e.want, sizes[e.want.cid], e.sendDontHave, maxReplace)]
        else DontHaveTasks(e, sendDontHaves)
  }

  lemma AnswersPush(tasks: seq<Task>, es: seq<MsgEntry>, sizes: map<Cid, nat>, sendDontHaves: bool, maxReplace: int,
                    from: seq<nat>, e: MsgEntry, more: seq<Task>)
    requires AnswersInOrder(tasks, es, sizes, sendDontHaves, maxReplace, from)
    requires if e.want.cid in sizes || (sendDontHaves && e.sendDontHave)
             then |more| == 1 && AnswersOne(more[0], e, sizes, maxReplace) else more == []
    ensures AnswersInOrder(tasks + more, es + [e], sizes, sendDontHaves, maxReplace,
                           if more == [] then from else from + [|es|])
  {
    hide AnswersOne, Ascending;
    AscendingPush(from, |es|);
    PositionsBelow(from, |es|);
    assert more == [] ==> tasks + more == tasks;
  }

  lemma PositionsBelow(from: seq<nat>, n: nat)
    requires Ascending(from, n)
    ensures forall k :: 0 <= k < |from| ==> from[k] < n
  {
  }

  lemma NoAnswers(sizes: map<Cid, nat>, sendDontHaves: bool, maxReplace: int)
    ensures AnswersInOrder([], [], sizes, sendDontHaves, maxReplace, [])
  {
  }

  lemma {:induction false} WantTasksAnswer(es: seq<MsgEntry>, sizes: map<Cid, nat>, sendDontHaves: bool,
                                           maxReplace: int) returns (from: seq<nat>)
    ensures AnswersInOrder(WantTasks(es, sizes, sendDontHaves, maxReplace), es, sizes, sendDontHaves, maxReplace, from)
  {
    hide AnswersInOrder, BlockTask, DontHaveTasks, Offers, Declines;
    if es == [] {
      from := [];
      NoAnswers(sizes, sendDontHaves, maxReplace);
    } else {
      var n, e := |es| - 1, es[|es| - 1];
      from := WantTasksAnswer(es[..n], sizes, sendDontHaves, maxReplace);
      var more := if e.want.cid in sizes then [BlockTask(e.want, sizes[e.want.cid], e.sendDontHave, maxReplace)]
                  else DontHaveTasks(e, sendDontHaves);
      DontHaveDeclines(e, sendDontHaves);
      if e.want.cid in sizes {
        BlockTaskOffers(e.want, sizes[e.want.cid], e.sendDontHave, maxReplace);
      }
      assert es == es[..n] + [e];
      AnswersPush(WantTasks(es[..n], sizes, sendDontHaves, maxReplace), es[..n], sizes, sendDontHaves, maxReplace, from,
                  e, more);
      from := if more == [] then from else from + [n];
    }
  }

  /** A denied entry is answered as if its block were not there. */
  lemma {:induction false} DenialTasksAnswer(es: seq<MsgEntry>, sendDontHaves: bool, maxReplace: int)
    returns (from: seq<nat>)
    ensures AnswersInOrder(DenialTasks(es, sendDontHaves), es, map[], sendDontHaves, maxReplace, from)
  {
    hide AnswersInOrder, DontHaveTasks, Declines;
    if es == [] {
      from := [];
      NoAnswers(map[], sendDontHaves, maxReplace);
    } else {
      var n, e := |es| - 1, es[|es| - 1];
      from := DenialTasksAnswer(es[..n], sendDontHaves, maxReplace);
      var more := DontHaveTasks(e, sendDontHaves);
      DontHaveDeclines(e, sendDontHaves);
      assert es == es[..n] + [e];
      AnswersPush(DenialTasks(es[..n], sendDontHaves), es[..n], map[], sendDontHaves, maxReplace, from, e, more);
      from := if more == [] then from else from + [n];
    }
  }

  /** The denied entries are answered first, as if their blocks were not there, then the others. */
  ghost predicate AnswersMessage(tasks: seq<Task>, denials: seq<MsgEntry>, wants: seq<MsgEntry>, sizes: map<Cid, nat>,
                                 sendDontHaves: bool, maxReplace: int)
  {
    exists d: nat, from1, from2 ::
      && d <= |tasks|
      && AnswersInOrder(tasks[..d], denials, map[], sendDontHaves, maxReplace, from1)
      && AnswersInOrder(tasks[d..], wants, sizes, sendDontHaves, maxReplace, from2)
  }

  lemma TasksAnswerMessage(denials: seq<MsgEntry>, wants: seq<MsgEntry>, sizes: map<Cid, nat>, sendDontHaves: bool,
                           maxReplace: int)
    ensures AnswersMessage(DenialTasks(denials, sendDontHaves) + WantTasks(wants, sizes, sendDontHaves, maxReplace),
                           denials, wants, sizes, sendDontHaves, maxReplace)
  {
    hide AnswersInOrder, DenialTasks, WantTasks;
    var ds, ws := DenialTasks(denials, sendDontHaves), WantTasks(wants, sizes, sendDontHaves, maxReplace);
    var from1 := DenialTasksAnswer(denials, sendDontHaves, maxReplace);
    var from2 := WantTasksAnswer(wants, sizes, sendDontHaves, maxReplace);
    assert (ds + ws)[..|ds|] == ds && (ds + ws)[|ds|..] == ws;
  }

  lemma SplitParts(es: seq<MsgEntry>, filter: Option<(PeerId, Cid) -> bool>, p: PeerId)
    ensures forall e :: e in Entries(es, true) ==> e in es && e.cancel
    ensures forall e :: e in Filtered(Entries(es, false), filter, p, true) ==> e in es && !e.cancel
  {
    hide IsFilter;
    var wants := Entries(es, false);
    var from1 := EntriesAre(es, true);
    FilterHolds(Entries(es, true), es, (e: MsgEntry) => e.cancel == true, from1);
    var from2 := EntriesAre(es, false);
    FilterHolds(wants, es, (e: MsgEntry) => e.cancel == false, from2);
    var from3 := FilteredAre(wants, filter, p, true);
    FilterHolds(Filtered(wants, filter, p, true), wants,
                (e: MsgEntry) => (filter.None? || filter.value(p, e.want.cid)) == true, from3);
  }

  // ---------- answered wants ----------

  ghost function HavesIn(presences: seq<Messages.BlockPresence>): set<Cid> {
    set bp | bp in presences && bp.presence == PRESENCE_HAVE :: bp.cid
  }

  lemma HavesStep(presences: seq<Messages.BlockPresence>, i: nat)
    requires i < |presences|
    ensures HavesIn(presences[..i + 1])
            == HavesIn(presences[..i]) + (if presences[i].presence == PRESENCE_HAVE then {presences[i].cid} else {})
  {
    assert presences[..i + 1] == presences[..i] + [presences[i]];
  }

  lemma NothingAnswered(m: WantMap)
    ensures Answered(m, {}, {}) == m && HavesIn([]) == {}
  {
  }

  lemma AnswerBlock(m: WantMap, blocks: set<Cid>, c: Cid)
    ensures RemoveTypeFrom(Answered(m, blocks, {}), c, WANT_BLOCK) == Answered(m, blocks + {c}, {})
  {
  }

  lemma AnswerHave(m: WantMap, blocks: set<Cid>, haves: set<Cid>, c: Cid)
    ensures RemoveTypeFrom(Answered(m, blocks, haves), c, WANT_HAVE) == Answered(m, blocks, haves + {c})
    ensures Answered(m, blocks, haves + {}) == Answered(m, blocks, haves)
  {
  }

  lemma AnsweredKeyed(lists: map<PeerId, WantMap>, p: PeerId, blocks: set<Cid>, haves: set<Cid>)
    requires AllKeyed(lists)
    ensures AllKeyed(lists[p := Answered(ListIn(lists, p), blocks, haves)])
  {
  }

  // ---------- looking up a block ----------

  /** The tasks for a block are those of a scan through all wantlists: one for each peer that wants it. */
  ghost predicate FullScan(pushed: seq<(PeerId, Task)>, s: State, k: Cid, size: nat, maxReplace: int) {
    && (forall i, j :: 0 <= i < j < |pushed| ==> pushed[i].0 != pushed[j].0)
    && (forall i :: 0 <= i < |pushed| ==>
          && Wants(s, pushed[i].0, k) && Offers(pushed[i].1, s.lists[pushed[i].0][k], size, maxReplace)
          && pushed[i].1.topic == k && !pushed[i].1.sendDontHave)
    && (forall p :: Wants(s, p, k) ==> exists i :: 0 <= i < |pushed| && pushed[i].0 == p)
  }

  /** The same for some of the peers. */
  ghost predicate Scanned(pushed: seq<(PeerId, Task)>, s: State, k: Cid, size: nat, maxReplace: int,
                          peers: seq<PeerId>)
  {
    && (forall i, j :: 0 <= i < j < |pushed| ==> pushed[i].0 != pushed[j].0)
    && (forall i :: 0 <= i < |pushed| ==>
          && Wants(s, pushed[i].0, k) && Offers(pushed[i].1, s.lists[pushed[i].0][k], size, maxReplace)
          && pushed[i].1.topic == k && !pushed[i].1.sendDontHave && pushed[i].0 in peers)
    && (forall p :: p in peers && Wants(s, p, k) ==> exists i :: 0 <= i < |pushed| && pushed[i].0 == p)
  }

  lemma TopicIs(e: Wantlists.Entry, size: nat, maxReplace: int)
    ensures BlockTask(e, size, false, maxReplace).topic == e.cid
  {
  }

  lemma ScanStep(pushed: seq<(PeerId, Task)>, s: State, k: Cid, size: nat, maxReplace: int, peers: seq<PeerId>, i: nat)
    requires i < |peers| && Distinct(peers) && Scanned(pushed, s, k, size, maxReplace, peers[..i]) && AllKeyed(s.lists)
    ensures !Wants(s, peers[i], k) ==> Scanned(pushed, s, k, size, maxReplace, peers[..i + 1])
    ensures Wants(s, peers[i], k) ==>
              Scanned(pushed + [(peers[i], BlockTask(s.lists[peers[i]][k], size, false, maxReplace))],
                      s, k, size, maxReplace, peers[..i + 1])
  {
    hide BlockTask, Offers;
    var p := peers[i];
    if Wants(s, p, k) {
      assert Keyed(s.lists[p]);
      BlockTaskOffers(s.lists[p][k], size, false, maxReplace);
      TopicIs(s.lists[p][k], size, maxReplace);
    }
    assert p !in peers[..i];
    assert peers[..i + 1] == peers[..i] + [p];
    if Wants(s, p, k) {
      var all := pushed + [(p, BlockTask(s.lists[p][k], size, false, maxReplace))];
      forall q | q in peers[..i + 1] && Wants(s, q, k)
        ensures exists j :: 0 <= j < |all| && all[j].0 == q
      {
        if q == p {
          assert all[|pushed|].0 == q;
        } else {
          var j :| 0 <= j < |pushed| && pushed[j].0 == q;
          assert all[j].0 == q;
        }
      }
    }
  }

  lemma ScanIsFull(pushed: seq<(PeerId, Task)>, s: State, k: Cid, size: nat, maxReplace: int, peers: seq<PeerId>)
    requires Scanned(pushed, s, k, size, maxReplace, peers) && Covered(s)
    requires forall p :: p in peers <==> (k, p) in s.index
    ensures FullScan(pushed, s, k, size, maxReplace)
  {
    hide Offers;
  }

  /** The index entries for `k` that no wantlist backs. */
  ghost function Stale(s: State, k: Cid): set<(Cid, PeerId)> {
    set cp | cp in s.index && cp.0 == k && !Wants(s, cp.1, k)
  }

  ghost function StaleAmong(s: State, k: Cid, peers: seq<PeerId>): set<(Cid, PeerId)> {
    set p | p in peers && !Wants(s, p, k) :: (k, p)
  }

  lemma NoneScanned(s: State, k: Cid, size: nat, maxReplace: int)
    ensures Scanned([], s, k, size, maxReplace, []) && StaleAmong(s, k, []) == {}
  {
  }

  lemma AllStaleFound(s: State, k: Cid, peers: seq<PeerId>)
    requires forall p :: p in peers <==> (k, p) in s.index
    ensures StaleAmong(s, k, peers) == Stale(s, k)
  {
    hide Wants;
  }

  lemma StaleStep(s: State, k: Cid, peers: seq<PeerId>, i: nat)
    requires i < |peers|
    ensures StaleAmong(s, k, peers[..i + 1])
            == StaleAmong(s, k, peers[..i]) + (if Wants(s, peers[i], k) then {} else {(k, peers[i])})
  {
    assert peers[..i + 1] == peers[..i] + [peers[i]];
  }

  ghost function MissingPairs(missing: map<PeerId, seq<Cid>>): set<(Cid, PeerId)> {
    set p, c | p in missing && c in missing[p] :: (c, p)
  }

  lemma MissingMore(missing: map<PeerId, seq<Cid>>, p: PeerId, k: Cid)
    ensures MissingPairs(missing[p := (if p in missing then missing[p] else []) + [k]])
            == MissingPairs(missing) + {(k, p)}
  {
  }

  // ---------- all blocks of a notification ----------

  ghost function KeysOf(blks: seq<BitswapMessages.Block>): set<Cid> {
    set b | b in blks :: b.cid
  }

  /** The size of the last of the blocks with this CID. */
  ghost function LastSize(blks: seq<BitswapMessages.Block>, c: Cid): nat {
    if blks == [] then 0
    else if blks[|blks| - 1].cid == c then |blks[|blks| - 1].data|
    else LastSize(blks[..|blks| - 1], c)
  }

  lemma {:induction false} LastSizeIs(blks: seq<BitswapMessages.Block>, i: nat)
    requires i < |blks| && forall j :: i < j < |blks| ==> blks[j].cid != blks[i].cid
    ensures LastSize(blks, blks[i].cid) == |blks[i].data|
  {
    if i < |blks| - 1 {
      LastSizeIs(blks[..|blks| - 1], i);
    }
  }

  method BlockSizes(blks: seq<BitswapMessages.Block>) returns (sizes: map<Cid, nat>)
    ensures sizes.Keys == KeysOf(blks) && forall c :: c in sizes ==> sizes[c] == LastSize(blks, c)
    ensures forall i :: 0 <= i < |blks| ==> blks[i].cid in sizes
  {
    sizes := map[];
    assert blks[..|blks|] == blks;
    for i := 0 to |blks|
      invariant sizes.Keys == KeysOf(blks[..i]) && forall c :: c in sizes ==> sizes[c] == LastSize(blks[..i], c)
    {
      assert blks[..i + 1] == blks[..i] + [blks[i]] && blks[..i + 1][..i] == blks[..i];
      sizes := sizes[blks[i].cid := |blks[i].data|];
    }
  }

  ghost function AllStale(s: State, blks: seq<BitswapMessages.Block>): set<(Cid, PeerId)> {
    set cp | cp in s.index && cp.0 in KeysOf(blks) && !Wants(s, cp.1, cp.0)
  }

  lemma NoneStale(s: State)
    ensures AllStale(s, []) == {} && MissingPairs(map[]) == {}
  {
  }

  lemma AllStaleStep(s: State, blks: seq<BitswapMessages.Block>, i: nat)
    requires i < |blks|
    ensures AllStale(s, blks[..i + 1]) == AllStale(s, blks[..i]) + Stale(s, blks[i].cid)
  {
    hide Wants;
    assert blks[..i + 1] == blks[..i] + [blks[i]];
    assert KeysOf(blks[..i + 1]) == KeysOf(blks[..i]) + {blks[i].cid};
  }

  ghost function UnwantedOf(lists: map<PeerId, WantMap>, p: PeerId, ks: seq<Cid>): set<(Cid, PeerId)> {
    set c | c in ks && c !in ListIn(lists, p) :: (c, p)
  }

  ghost function Unwanted(lists: map<PeerId, WantMap>, missing: map<PeerId, seq<Cid>>, peers: set<PeerId>)
    : set<(Cid, PeerId)>
  {
    set p, c | p in peers && p in missing && c in missing[p] && c !in ListIn(lists, p) :: (c, p)
  }

  lemma NothingUnwanted(lists: map<PeerId, WantMap>, missing: map<PeerId, seq<Cid>>)
    ensures Unwanted(lists, missing, {}) == {}
  {
  }

  lemma UnwantedMore(lists: map<PeerId, WantMap>, missing: map<PeerId, seq<Cid>>, peers: set<PeerId>, p: PeerId)
    requires p in missing
    ensures Unwanted(lists, missing, peers + {p}) == Unwanted(lists, missing, peers) + UnwantedOf(lists, p, missing[p])
  {
    hide ListIn;
  }

  lemma NotifyExact(s: State, blks: seq<BitswapMessages.Block>)
    requires Covered(s)
    ensures forall i :: 0 <= i < |blks| ==> ExactFor(Notify(s, KeysOf(blks)), blks[i].cid)
    ensures blks == [] ==> Notify(s, KeysOf(blks)) == s
  {
    forall i | 0 <= i < |blks|
      ensures ExactFor(Notify(s, KeysOf(blks)), blks[i].cid)
    {
      assert blks[i].cid in KeysOf(blks);
      forall p
        ensures (blks[i].cid, p) in Notify(s, KeysOf(blks)).index <==> Wants(Notify(s, KeysOf(blks)), p, blks[i].cid)
      {
        assert Wants(Notify(s, KeysOf(blks)), p, blks[i].cid) <==> Wants(s, p, blks[i].cid);
      }
    }
  }

  /** Nothing noted as missing is wanted, so all of it goes. */
  lemma DroppedAll(s: State, missing: map<PeerId, seq<Cid>>, blks: seq<BitswapMessages.Block>)
    requires MissingPairs(missing) == AllStale(s, blks)
    ensures s.index - Unwanted(s.lists, missing, missing.Keys) == Notify(s, KeysOf(blks)).index
    ensures missing == map[] ==> s.index == Notify(s, KeysOf(blks)).index
  {
    hide KeysOf;
    assert Unwanted(s.lists, missing, missing.Keys) == MissingPairs(missing) by {
      forall p, c | p in missing && c in missing[p]
        ensures c !in ListIn(s.lists, p)
      {
        assert (c, p) in MissingPairs(missing);
        assert !Wants(s, p, c);
      }
    }
  }

  lemma ScanKeeps(s: State, blks: seq<BitswapMessages.Block>, pushed: seq<seq<(PeerId, Task)>>, maxReplace: int)
    requires |pushed| == |blks|
    requires forall i :: 0 <= i < |blks| ==>
               FullScan(pushed[i], s, blks[i].cid, LastSize(blks, blks[i].cid), maxReplace)
    ensures var s' := Notify(s, KeysOf(blks));
            forall i :: 0 <= i < |blks| ==>
              FullScan(pushed[i], s', blks[i].cid, LastSize(blks, blks[i].cid), maxReplace)
  {
    hide Offers, KeysOf, LastSize;
    var s' := Notify(s, KeysOf(blks));
    assert forall p, c :: Wants(s', p, c) <==> Wants(s, p, c);
  }
}
