/**
 The decision engine: ledgers and the inverted index, updated in place. New blocks
 are matched through the index instead of scanning all wantlists.
 */
module DecisionEngine {
  import opened Types
  import opened Wantlists
  import opened EngineModel
  import BitswapMessages
  import Messages
  import Marshalling

  class PeerLedger {
    var cids: map<Cid, set<PeerId>>

    ghost predicate Valid()
      reads this
    {
      forall c :: c in cids ==> cids[c] != {}
    }

    ghost function Pairs(): set<(Cid, PeerId)>
      reads this
    {
      set c, p | c in cids && p in cids[c] :: (c, p)
    }

    constructor ()
      ensures Valid() && Pairs() == {}
    {
      cids := map[];
    }

    method Wants(p: PeerId, k: Cid)
      requires Valid()
      modifies this
      ensures Valid() && Pairs() == old(Pairs()) + {(k, p)}
    {
      if k !in cids {
        cids := cids[k := {}];
      }
      cids := cids[k := cids[k] + {p}];
    }

    method CancelWant(p: PeerId, k: Cid)
      requires Valid()
      modifies this
      ensures Valid() && Pairs() == old(Pairs()) - {(k, p)}
    {
      if k !in cids {
        return;
      }
      cids := cids[k := cids[k] - {p}];
      if |cids[k]| == 0 {
        cids := cids - {k};
      }
    }

    method Peers(k: Cid) returns (peers: seq<PeerId>)
      ensures Distinct(peers) && forall p :: p in peers <==> (k, p) in Pairs()
    {
      peers := [];
      if k !in cids {
        return;
      }
      var todo := cids[k];
      while todo != {}
        invariant todo <= cids[k] && Distinct(peers)
        invariant forall p :: p in peers <==> p in cids[k] - todo
        decreases todo
      {
        var p :| p in todo;
        DistinctPush(peers, p);
        peers := peers + [p];
        todo := todo - {p};
      }
    }
  }

  class Ledger {
    const partner: PeerId
    var wantList: WantMap

    constructor (partner: PeerId)
      ensures this.partner == partner && wantList == map[]
    {
      this.partner, wantList := partner, map[];
    }

    method CancelWants(cancels: seq<MsgEntry>) returns (removed: seq<Cid>)
      modifies this
      ensures wantList == old(wantList) - CidsOf(cancels)
      ensures forall c :: c in removed <==> c in CidsOf(cancels) && c in old(wantList)
      ensures Distinct(removed)
    {
      hide CidsOf, Distinct;
      removed := [];
      NoCids(wantList);
      assert cancels[..|cancels|] == cancels;
      for i := 0 to |cancels|
        invariant wantList == old(wantList) - CidsOf(cancels[..i])
        invariant forall c :: c in removed <==> c in CidsOf(cancels[..i]) && c in old(wantList)
        invariant Distinct(removed)
      {
        CidsStep(cancels, i);
        var c := cancels[i].want.cid;
        if c in wantList {
          DistinctPush(removed, c);
          removed := removed + [c];
        }
        wantList := wantList - {c};
      }
    }
  }

  class Engine {
    const sendDontHaves: bool
    const maxReplace: int  // a want-have for a block of at most this size is answered with the block
    const filter: Option<(PeerId, Cid) -> bool>
    const peerLedger: PeerLedger
    var ledgerMap: map<PeerId, Ledger>

    ghost function Lists(): map<PeerId, WantMap>
      reads this, ledgerMap.Values
    {
      map p | p in ledgerMap :: ledgerMap[p].wantList
    }

    ghost function Abs(): State
      reads this, peerLedger, ledgerMap.Values
    {
      State(Lists(), peerLedger.Pairs())
    }

    /** A ledger belongs to its partner only. */
    ghost predicate Owned()
      reads this
    {
      forall p :: p in ledgerMap ==> ledgerMap[p].partner == p
    }

    ghost predicate Valid()
      reads this, peerLedger, ledgerMap.Values
    {
      && peerLedger.Valid()
      && Owned()
      && AllKeyed(Lists())
      && Covered(Abs())
    }

    constructor (sendDontHaves: bool, maxReplace: int, filter: Option<(PeerId, Cid) -> bool>)
      ensures Valid() && Abs() == State(map[], {}) && fresh(peerLedger)
    {
      this.sendDontHaves, this.maxReplace, this.filter := sendDontHaves, maxReplace, filter;
      ledgerMap := map[];
      peerLedger := new PeerLedger();
    }

    // ---------- building tasks ----------

    method MakeBlockTask(e: Wantlists.Entry, size: nat, sendDontHave: bool) returns (t: Task)
      ensures t == BlockTask(e, size, sendDontHave, maxReplace)
      ensures Offers(t, e, size, maxReplace) && t.sendDontHave == sendDontHave
    {
      hide Messages.EncodePresence;
      BlockTaskOffers(e, size, sendDontHave, maxReplace);
      var isWantBlock := e.wantType == WANT_BLOCK || size <= maxReplace;
      var work := size;
      if !isWantBlock {
        work := Marshalling.PresenceSize(Messages.BlockPresence(e.cid, PRESENCE_HAVE));
      }
      t := Task(e.cid, e.priority, work, size, true, isWantBlock, sendDontHave);
    }

    method SendDontHave(e: MsgEntry, tasks: seq<Task>) returns (r: seq<Task>)
      ensures r == tasks + DontHaveTasks(e, sendDontHaves)
    {
      hide Messages.EncodePresence;
      r := tasks;
      if sendDontHaves && e.sendDontHave {
        var work := Marshalling.PresenceSize(Messages.BlockPresence(e.want.cid, PRESENCE_HAVE));
        r := r + [Task(e.want.cid, e.want.priority, work, 0, false, e.want.wantType == WANT_BLOCK, e.sendDontHave)];
      }
    }

    // ---------- messages from a peer ----------

    method SplitWantsCancels(es: seq<MsgEntry>) returns (wants: seq<MsgEntry>, cancels: seq<MsgEntry>)
      ensures wants == Entries(es, false) && cancels == Entries(es, true)
    {
      wants, cancels := [], [];
      assert es[..|es|] == es;
      for i := 0 to |es|
        invariant wants == Entries(es[..i], false) && cancels == Entries(es[..i], true)
      {
        assert es[..i + 1][..i] == es[..i];
        if es[i].cancel {
          cancels := cancels + [es[i]];
        } else {
          wants := wants + [es[i]];
        }
      }
    }

    /** Without a filter nothing is denied. */
    method SplitWantsDenials(p: PeerId, all: seq<MsgEntry>) returns (wants: seq<MsgEntry>, denied: seq<MsgEntry>)
      ensures wants == Filtered(all, filter, p, true) && denied == Filtered(all, filter, p, false)
    {
      if filter.None? {
        NoFilter(all, p);
        return all, [];
      }
      wants, denied := [], [];
      assert all[..|all|] == all;
      for i := 0 to |all|
        invariant wants == Filtered(all[..i], filter, p, true) && denied == Filtered(all[..i], filter, p, false)
      {
        assert all[..i + 1][..i] == all[..i];
        if filter.value(p, all[i].want.cid) {
          wants := wants + [all[i]];
        } else {
          denied := denied + [all[i]];
        }
      }
    }

    method UpdateIndex(p: PeerId, wants: seq<MsgEntry>, cancels: seq<MsgEntry>)
      requires peerLedger.Valid()
      modifies peerLedger
      ensures peerLedger.Valid()
      ensures peerLedger.Pairs() == old(peerLedger.Pairs()) + PairsOf(CidsOf(wants), p) - PairsOf(CidsOf(cancels), p)
    {
      hide CidsOf, PeerLedger.Pairs, PeerLedger.Valid;
      NoPairs(p);
      assert wants[..|wants|] == wants && cancels[..|cancels|] == cancels;
      for i := 0 to |wants|
        invariant peerLedger.Valid()
        invariant peerLedger.Pairs() == old(peerLedger.Pairs()) + PairsOf(CidsOf(wants[..i]), p)
      {
        PairsStep(wants, i, p);
        peerLedger.Wants(p, wants[i].want.cid);
      }
      for i := 0 to |cancels|
        invariant peerLedger.Valid()
        invariant peerLedger.Pairs()
                  == old(peerLedger.Pairs()) + PairsOf(CidsOf(wants), p) - PairsOf(CidsOf(cancels[..i]), p)
      {
        PairsStep(cancels, i, p);
        peerLedger.CancelWant(p, cancels[i].want.cid);
      }
    }

    /** The wants go to the ledger; each found block, and each missing one that asks for it, gets a task. */
    method AddWants(l: Ledger, wants: seq<MsgEntry>, sizes: map<Cid, nat>, tasks0: seq<Task>) returns (tasks: seq<Task>)
      modifies l
      ensures l.wantList == AddAll(old(l.wantList), wants)
      ensures tasks == tasks0 + WantTasks(wants, sizes, sendDontHaves, maxReplace)
    {
      hide BlockTask, DontHaveTasks, AddTo;
      tasks := tasks0;
      assert wants[..|wants|] == wants;
      for i := 0 to |wants|
        invariant l.wantList == AddAll(old(l.wantList), wants[..i])
        invariant tasks == tasks0 + WantTasks(wants[..i], sizes, sendDontHaves, maxReplace)
      {
        var e := wants[i];
        assert wants[..i + 1][..i] == wants[..i];
        l.wantList := AddTo(l.wantList, e.want.cid, e.want.priority, e.want.wantType);
        if e.want.cid !in sizes {
          tasks := SendDontHave(e, tasks);
        } else {
          var t := MakeBlockTask(e.want, sizes[e.want.cid], e.sendDontHave);
          tasks := tasks + [t];
        }
      }
    }

    method Deny(denials: seq<MsgEntry>) returns (tasks: seq<Task>)
      ensures tasks == DenialTasks(denials, sendDontHaves)
    {
      hide DontHaveTasks;
      tasks := [];
      assert denials[..|denials|] == denials;
      for i := 0 to |denials|
        invariant tasks == DenialTasks(denials[..i], sendDontHaves)
      {
        assert denials[..i + 1][..i] == denials[..i];
        tasks := SendDontHave(denials[i], tasks);
      }
    }

    method FindOrCreate(p: PeerId) returns (l: Ledger)
      requires Owned()
      modifies this`ledgerMap
      ensures Owned() && p in ledgerMap && ledgerMap[p] == l
      ensures Lists() == old(Lists())[p := ListIn(old(Lists()), p)]
      ensures p in old(ledgerMap) ==> ledgerMap == old(ledgerMap)
      ensures p !in old(ledgerMap) ==> fresh(l) && ledgerMap == old(ledgerMap)[p := l]
    {
      if p in ledgerMap {
        return ledgerMap[p];
      }
      l := new Ledger(p);
      ledgerMap := ledgerMap[p := l];
    }

    /** Replaces, cancels and adds wants in one ledger. */
    method UpdateLedger(l: Ledger, full: bool, ws: seq<MsgEntry>, cs: seq<MsgEntry>, sizes: map<Cid, nat>,
                        tasks0: seq<Task>)
      returns (removed: seq<Cid>, tasks: seq<Task>)
      requires Owned() && l.partner in ledgerMap && ledgerMap[l.partner] == l
      modifies l
      ensures Lists() == old(Lists())[l.partner := AddAll((if full then map[] else old(l.wantList)) - CidsOf(cs), ws)]
      ensures forall c :: c in removed <==> c in CidsOf(cs) && !full && c in old(l.wantList)
      ensures tasks == tasks0 + WantTasks(ws, sizes, sendDontHaves, maxReplace)
    {
      hide AddAll, CidsOf, WantTasks, Distinct;
      if full {
        l.wantList := map[];
      }
      removed := l.CancelWants(cs);
      tasks := AddWants(l, ws, sizes, tasks0);
    }

    method Record(p: PeerId, full: bool, ws: seq<MsgEntry>, cs: seq<MsgEntry>, ds: seq<MsgEntry>, sizes: map<Cid, nat>)
      returns (removed: seq<Cid>, tasks: seq<Task>)
      requires Valid() && CidsOf(ws) !! CidsOf(cs)
      modifies this`ledgerMap, peerLedger, ledgerMap.Values
      ensures Valid() && Abs() == Receive(old(Abs()), p, full, ws, cs)
      ensures forall c :: c in removed <==> c in CidsOf(cs) && !full && Wants(old(Abs()), p, c)
      ensures tasks == DenialTasks(ds, sendDontHaves) + WantTasks(ws, sizes, sendDontHaves, maxReplace)
    {
      hide AddAll, CidsOf, WantTasks, DenialTasks, Covered, PairsOf, AllKeyed, PeerLedger.Pairs, PeerLedger.Valid,
           Engine.Lists;
      ReceiveKeepsCoveredIff(Abs(), p, full, ws, cs);
      ReceivedKeyed(Lists(), p, full, ws, cs);
      ghost var m := ListIn(Lists(), p);
      UpdateIndex(p, ws, cs);
      var l := FindOrCreate(p);
      OneList(p);
      tasks := Deny(ds);
      removed, tasks := UpdateLedger(l, full, ws, cs, sizes, tasks);
      SetTwice(old(Lists()), p, m, AddAll((if full then map[] else m) - CidsOf(cs), ws));
    }

    lemma OneList(p: PeerId)
      requires p in ledgerMap
      ensures p in Lists() && Lists()[p] == ledgerMap[p].wantList
    {
    }

    /**
     Records a peer's message, unless the block sizes cannot be had. `removed` are the
     cancelled keys to take off the request queue, `tasks` those to push onto it.
     */
    method MessageReceived(p: PeerId, entries: seq<MsgEntry>, full: bool, sizes: Option<map<Cid, nat>>)
      returns (removed: seq<Cid>, tasks: seq<Task>)
      requires Valid() && OneEach(entries)
      modifies this`ledgerMap, peerLedger, ledgerMap.Values
      ensures Valid()
      ensures sizes.None? ==> Abs() == old(Abs()) && removed == [] && tasks == []
      ensures sizes.Some? ==>
                var cancels := Entries(entries, true);
                var wants := Filtered(Entries(entries, false), filter, p, true);
                var denials := Filtered(Entries(entries, false), filter, p, false);
                && Abs() == Receive(old(Abs()), p, full, wants, cancels)
                && (forall c :: c in removed <==> c in CidsOf(cancels) && !full && Wants(old(Abs()), p, c))
                && AnswersMessage(tasks, denials, wants, sizes.value, sendDontHaves, maxReplace)
                && tasks == DenialTasks(denials, sendDontHaves)
                   + WantTasks(wants, sizes.value, sendDontHaves, maxReplace)
    {
      hide OneEach, CidsOf, AnswersMessage, IsFilter, WantTasks, DenialTasks, Covered, Receive, Wants, Engine.Abs,
           Engine.Valid;
      var ws, cs := SplitWantsCancels(entries);
      var ds;
      ws, ds := SplitWantsDenials(p, ws);
      removed, tasks := [], [];
      if sizes.None? {
        return;
      }
      SplitParts(entries, filter, p);
      Separate(entries, ws, cs);
      removed, tasks := Record(p, full, ws, cs, ds, sizes.value);
      TasksAnswerMessage(ds, ws, sizes.value, sendDontHaves, maxReplace);
    }

    // ---------- what was sent ----------

    /** Sent blocks and HAVEs leave the wantlist; the index is left for later. */
    method MessageSent(p: PeerId, blocks: seq<Cid>, presences: seq<Messages.BlockPresence>)
      requires Valid()
      modifies this`ledgerMap, ledgerMap.Values
      ensures Valid() && Abs() == Sent(old(Abs()), p, Elems(blocks), HavesIn(presences))
    {
      hide Answered, Elems, HavesIn, Covered, AllKeyed, PeerLedger.Pairs, PeerLedger.Valid, Engine.Lists;
      StepKeepsCovered(Abs(), OpSent(p, Elems(blocks), HavesIn(presences)));
      AnsweredKeyed(Lists(), p, Elems(blocks), HavesIn(presences));
      ghost var m := ListIn(Lists(), p);
      var l := FindOrCreate(p);
      OneList(p);
      RemoveAnswered(l, blocks, presences);
      SetTwice(old(Lists()), p, m, Answered(m, Elems(blocks), HavesIn(presences)));
    }

    method RemoveAnswered(l: Ledger, blocks: seq<Cid>, presences: seq<Messages.BlockPresence>)
      requires Owned() && l.partner in ledgerMap && ledgerMap[l.partner] == l
      modifies l
      ensures Lists() == old(Lists())[l.partner := Answered(old(l.wantList), Elems(blocks), HavesIn(presences))]
    {
      hide Answered, Elems, HavesIn, RemoveTypeFrom;
      NothingAnswered(l.wantList);
      WholeList(blocks);
      assert presences[..|presences|] == presences;
      for i := 0 to |blocks|
        invariant l.wantList == Answered(old(l.wantList), Elems(blocks[..i]), {})
      {
        ElemsStep(blocks, i);
        AnswerBlock(old(l.wantList), Elems(blocks[..i]), blocks[i]);
        l.wantList := RemoveTypeFrom(l.wantList, blocks[i], WANT_BLOCK);
      }
      for i := 0 to |presences|
        invariant l.wantList == Answered(old(l.wantList), Elems(blocks), HavesIn(presences[..i]))
      {
        HavesStep(presences, i);
        AnswerHave(old(l.wantList), Elems(blocks), HavesIn(presences[..i]), presences[i].cid);
        if presences[i].presence == PRESENCE_HAVE {
          l.wantList := RemoveTypeFrom(l.wantList, presences[i].cid, WANT_HAVE);
        }
      }
    }

    method PeerConnected(p: PeerId)
      requires Valid()
      modifies this`ledgerMap
      ensures Valid() && Abs() == Connect(old(Abs()), p)
    {
      hide Covered, PeerLedger.Pairs, PeerLedger.Valid, Engine.Lists, Keyed;
      StepKeepsCovered(Abs(), OpConnect(p));
      NewKeyed(Lists(), p);
      var _ := FindOrCreate(p);
    }

    method PeerDisconnected(p: PeerId)
      requires Valid()
      modifies this`ledgerMap, peerLedger
      ensures Valid() && Abs() == Disconnect(old(Abs()), p)
    {
      hide Covered, PeerLedger.Pairs, PeerLedger.Valid, PairsOf, Keyed;
      StepKeepsCovered(Abs(), OpDisconnect(p));
      NoPairs(p);
      if p in ledgerMap {
        var keys := ledgerMap[p].wantList.Keys;
        var todo := keys;
        assert keys - todo == {};
        while todo != {}
          invariant todo <= keys && unchanged(this)
          invariant peerLedger.Valid() && peerLedger.Pairs() == old(peerLedger.Pairs()) - PairsOf(keys - todo, p)
          decreases todo
        {
          var c :| c in todo;
          assert keys - (todo - {c}) == keys - todo + {c};
          PairsOneMore(keys - todo, c, p);
          peerLedger.CancelWant(p, c);
          todo := todo - {c};
        }
        assert keys - {} == keys == ListOf(old(Abs()), p).Keys;
      } else {
        assert ListOf(old(Abs()), p).Keys == {};
        assert peerLedger.Pairs() - {} == peerLedger.Pairs();
      }
      ledgerMap := ledgerMap - {p};
      assert Lists() == old(Lists()) - {p};
    }

    // ---------- new blocks ----------

    /** Looks up one block: a task for each peer that wants it, the others are noted as missing. */
    method NotifyBlock(k: Cid, size: nat, missing0: map<PeerId, seq<Cid>>)
      returns (pushed: seq<(PeerId, Task)>, missing: map<PeerId, seq<Cid>>)
      requires Valid()
      ensures FullScan(pushed, Abs(), k, size, maxReplace)
      ensures MissingPairs(missing) == MissingPairs(missing0) + Stale(Abs(), k)
    {
      hide MissingPairs, BlockTask, Distinct, Wants, Scanned, FullScan, Stale, StaleAmong, Covered, AllKeyed,
           PeerLedger.Pairs, PeerLedger.Valid, Engine.Lists;
      pushed, missing := [], missing0;
      var peers := peerLedger.Peers(k);
      NoneScanned(Abs(), k, size, maxReplace);
      assert peers[..|peers|] == peers;
      for i := 0 to |peers|
        invariant Scanned(pushed, Abs(), k, size, maxReplace, peers[..i])
        invariant MissingPairs(missing) == MissingPairs(missing0) + StaleAmong(Abs(), k, peers[..i])
      {
        var p := peers[i];
        WantedBy(p, k);
        ScanStep(pushed, Abs(), k, size, maxReplace, peers, i);
        StaleStep(Abs(), k, peers, i);
        MissingMore(missing, p, k);
        if p !in ledgerMap {
          missing := missing[p := (if p in missing then missing[p] else []) + [k]];
        } else if k !in ledgerMap[p].wantList {
          missing := missing[p := (if p in missing then missing[p] else []) + [k]];
        } else {
          var t := MakeBlockTask(ledgerMap[p].wantList[k], size, false);
          pushed := pushed + [(p, t)];
        }
      }
      ScanIsFull(pushed, Abs(), k, size, maxReplace, peers);
      AllStaleFound(Abs(), k, peers);
    }

    lemma WantedBy(p: PeerId, k: Cid)
      ensures Wants(Abs(), p, k) <==> p in ledgerMap && k in ledgerMap[p].wantList
      ensures Wants(Abs(), p, k) ==> Abs().lists[p] == ledgerMap[p].wantList
    {
    }

    /** Takes the missing wants out of the index, unless the wantlist has them by now. */
    method DropMissing(missing: map<PeerId, seq<Cid>>)
      requires peerLedger.Valid()
      modifies peerLedger
      ensures peerLedger.Valid()
      ensures peerLedger.Pairs() == old(peerLedger.Pairs()) - Unwanted(Lists(), missing, missing.Keys)
    {
      hide PeerLedger.Pairs, PeerLedger.Valid, Unwanted, Engine.Lists;
      NothingUnwanted(Lists(), missing);
      var todo := missing.Keys;
      assert missing.Keys - todo == {};
      while todo != {}
        invariant todo <= missing.Keys && unchanged(this) && unchanged(ledgerMap.Values)
        invariant peerLedger.Valid()
        invariant peerLedger.Pairs() == old(peerLedger.Pairs()) - Unwanted(Lists(), missing, missing.Keys - todo)
        decreases todo
      {
        var p :| p in todo;
        assert missing.Keys - (todo - {p}) == missing.Keys - todo + {p};
        UnwantedMore(Lists(), missing, missing.Keys - todo, p);
        DropMissingOf(p, missing[p]);
        todo := todo - {p};
      }
      assert missing.Keys - {} == missing.Keys;
    }

    method DropMissingOf(p: PeerId, ks: seq<Cid>)
      requires peerLedger.Valid()
      modifies peerLedger
      ensures peerLedger.Valid()
      ensures peerLedger.Pairs() == old(peerLedger.Pairs()) - UnwantedOf(Lists(), p, ks)
    {
      hide PeerLedger.Pairs, PeerLedger.Valid;
      assert ks[..|ks|] == ks;
      for i := 0 to |ks|
        invariant peerLedger.Valid()
        invariant peerLedger.Pairs() == old(peerLedger.Pairs()) - UnwantedOf(Lists(), p, ks[..i])
      {
        assert ks[..i + 1] == ks[..i] + [ks[i]];
        if p in ledgerMap {
          if ks[i] !in ledgerMap[p].wantList {
            peerLedger.CancelWant(p, ks[i]);
          }
        } else {
          peerLedger.CancelWant(p, ks[i]);
        }
      }
    }

    /**
     New blocks: for each, the tasks of a full scan are pushed, and afterwards
     the index is exact for all of them.
     */
    method NotifyNewBlocks(blks: seq<BitswapMessages.Block>) returns (pushed: seq<seq<(PeerId, Task)>>)
      requires Valid()
      modifies peerLedger
      ensures Valid() && Abs() == Notify(old(Abs()), KeysOf(blks))
      ensures |pushed| == |blks|
      ensures forall i :: 0 <= i < |blks| ==>
                FullScan(pushed[i], Abs(), blks[i].cid, LastSize(blks, blks[i].cid), maxReplace)
      ensures forall i :: 0 <= i < |blks| && (forall j :: i < j < |blks| ==> blks[j].cid != blks[i].cid) ==>
                FullScan(pushed[i], Abs(), blks[i].cid, |blks[i].data|, maxReplace)
      ensures forall i :: 0 <= i < |blks| ==> ExactFor(Abs(), blks[i].cid)
    {
      hide FullScan, KeysOf, LastSize, Stale, MissingPairs, Covered, Wants, AllKeyed, PeerLedger.Pairs,
           PeerLedger.Valid, Engine.Lists, Engine.Owned;
      pushed := [];
      ghost var s := Abs();
      StepKeepsCovered(s, OpNotify(KeysOf(blks)));
      NotifyExact(s, blks);
      if |blks| == 0 {
        return;
      }
      var sizes := BlockSizes(blks);
      var missing := map[];
      NoneStale(s);
      for i := 0 to |blks|
        invariant unchanged(this) && unchanged(peerLedger) && |pushed| == i
        invariant forall j :: 0 <= j < i ==>
                    FullScan(pushed[j], s, blks[j].cid, LastSize(blks, blks[j].cid), maxReplace)
        invariant MissingPairs(missing) == AllStale(s, blks[..i])
      {
        AllStaleStep(s, blks, i);
        var ps;
        ps, missing := NotifyBlock(blks[i].cid, sizes[blks[i].cid], missing);
        pushed := pushed + [ps];
      }
      assert blks[..|blks|] == blks;
      if |missing| > 0 {
        DropMissing(missing);
      }
      DroppedAll(s, missing, blks);
      ScanKeeps(s, blks, pushed, maxReplace);
      forall i | 0 <= i < |blks| && (forall j :: i < j < |blks| ==> blks[j].cid != blks[i].cid)
        ensures LastSize(blks, blks[i].cid) == |blks[i].data|
      {
        LastSizeIs(blks, i);
      }
    }
  }
}
