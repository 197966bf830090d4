/**
 The message queue as objects that share memory: two recall wantlists, each
 with a pending and a sent wantlist, whose memoized arrays extraction filters
 and blanks in place. Extraction is two locked parts with an unlocked one
 between them; every locked part keeps every wantlist valid, its memoized array
 included, whatever runs in between.
 */
module MessageQueues {
  import opened Types
  import opened Wantlists
  import opened QueueModel
  import opened SplitExtraction
  import BM = BitswapMessages

  predicate Apart(a: array?<Entry>, b: array?<Entry>) {
    a == null || a != b
  }

  class RecallWantlist {
    const pending: Wantlist
    const sent: Wantlist
    var sentAt: map<Cid, int>

    ghost predicate Valid()
      reads this, pending, sent, pending.cached, sent.cached
    {
      && pending != sent
      && pending.Valid() && sent.Valid()
      && Apart(pending.cached, sent.cached)
      && sentAt.Keys <= sent.wants.Keys
    }

    /** The memoized arrays are dropped or kept, never exchanged. */
    twostate predicate CachesKept()
      reads this, pending, sent
    {
      && (pending.cached == null || pending.cached == old(pending.cached))
      && (sent.cached == null || sent.cached == old(sent.cached))
    }

    constructor ()
      ensures Valid() && fresh(pending) && fresh(sent) && pending.cached == null && sent.cached == null
      ensures pending.wants == map[] && sent.wants == map[]
    {
      pending := new Wantlist();
      sent := new Wantlist();
      sentAt := map[];
    }

    method Add(c: Cid, priority: Int32, wantType: Int32)
      requires Valid()
      modifies pending
      ensures Valid() && CachesKept()
      ensures pending.wants == AddTo(old(pending.wants), c, priority, wantType)
    {
      var _ := pending.Add(c, priority, wantType);
    }

    method Remove(c: Cid)
      requires Valid()
      modifies this, pending, sent
      ensures Valid() && CachesKept()
      ensures pending.wants == old(pending.wants) - {c} && sent.wants == old(sent.wants) - {c}
      ensures sentAt == old(sentAt) - {c}
    {
      var _ := pending.Remove(c);
      var _ := sent.Remove(c);
      sentAt := sentAt - {c};
    }

    method RemoveType(c: Cid, wantType: Int32)
      requires Valid()
      modifies this, pending, sent
      ensures Valid() && CachesKept()
      ensures pending.wants == RemoveTypeFrom(old(pending.wants), c, wantType)
      ensures sent.wants == RemoveTypeFrom(old(sent.wants), c, wantType)
      ensures Removable(old(pending.wants), c, wantType) ==> pending.cached == null
      ensures pending.cached == null || pending.cached == old(pending.cached)
      ensures sentAt == if c in sent.wants then old(sentAt) else old(sentAt) - {c}
    {
      var _ := pending.RemoveType(c, wantType);
      var _ := sent.RemoveType(c, wantType);
      if c !in sent.wants {
        sentAt := sentAt - {c};
      }
    }

    /** Moves a want from pending to sent, unless it changed since `e` was read. */
    method MarkSent(e: Entry) returns (marked: bool)
      requires Valid()
      modifies pending, sent
      ensures Valid() && CachesKept()
      ensures marked <==> Removable(old(pending.wants), e.cid, e.wantType)
      ensures pending.wants == RemoveTypeFrom(old(pending.wants), e.cid, e.wantType)
      ensures sent.wants == if marked then AddTo(old(sent.wants), e.cid, e.priority, e.wantType) else old(sent.wants)
      ensures pending.cached == if marked then null else old(pending.cached)
      ensures sent.cached == null || sent.cached == old(sent.cached)
    {
      marked := pending.RemoveType(e.cid, e.wantType);
      if marked {
        var _ := sent.Add(e.cid, e.priority, e.wantType);
      }
    }

    /** The want may have been cancelled before the time is recorded; the first time is kept. */
    method RecordSentAt(c: Cid, at: int)
      requires Valid()
      modifies this`sentAt
      ensures Valid()
      ensures sentAt == if c in sent.wants && c !in old(sentAt) then old(sentAt)[c := at] else old(sentAt)
    {
      if c in sent.wants && c !in sentAt {
        sentAt := sentAt[c := at];
      }
    }
  }

  // ---------- dropping want-haves, entry by entry ----------

  function DropEach(pending: WantMap, sent: WantMap, es: seq<Entry>): (WantMap, WantMap) {
    if es == [] then (pending, sent)
    else
      var b, e := DropEach(pending, sent, es[..|es| - 1]), es[|es| - 1];
      if e.wantType == WANT_HAVE then
        (RemoveTypeFrom(b.0, e.cid, WANT_HAVE), RemoveTypeFrom(b.1, e.cid, WANT_HAVE))
      else b
  }

  ghost function HaveCids(es: seq<Entry>): set<Cid> {
    set e | e in es && e.wantType == WANT_HAVE :: e.cid
  }

  ghost function WithoutPending(pending: WantMap, dropped: set<Cid>): WantMap {
    map c | c in pending && c !in dropped :: pending[c]
  }

  ghost function WithoutSent(sent: WantMap, dropped: set<Cid>): WantMap {
    map c | c in sent && !(c in dropped && sent[c].wantType != WANT_BLOCK) :: sent[c]
  }

  lemma DropOneMore(pending: WantMap, sent: WantMap, dropped: set<Cid>, e: Entry)
    requires e.cid in pending && pending[e.cid] == e && e.wantType == WANT_HAVE && e.cid !in dropped
    ensures RemoveTypeFrom(WithoutPending(pending, dropped), e.cid, WANT_HAVE)
            == WithoutPending(pending, dropped + {e.cid})
    ensures RemoveTypeFrom(WithoutSent(sent, dropped), e.cid, WANT_HAVE) == WithoutSent(sent, dropped + {e.cid})
  {
  }

  lemma HaveCidsStep(es: seq<Entry>, n: nat)
    requires n < |es| && CidsDistinct(es)
    ensures HaveCids(es[..n + 1])
            == if es[n].wantType == WANT_HAVE then HaveCids(es[..n]) + {es[n].cid} else HaveCids(es[..n])
    ensures es[n].cid !in HaveCids(es[..n])
  {
    assert es[..n + 1] == es[..n] + [es[n]];
  }

  lemma {:induction false} DropEachIs(pending: WantMap, sent: WantMap, es: seq<Entry>, n: nat)
    requires ListsMap(es, pending) && n <= |es|
    ensures DropEach(pending, sent, es[..n])
            == (WithoutPending(pending, HaveCids(es[..n])), WithoutSent(sent, HaveCids(es[..n])))
  {
    if n == 0 {
      assert HaveCids(es[..0]) == {};
      assert WithoutPending(pending, {}) == pending && WithoutSent(sent, {}) == sent;
    } else {
      hide WithoutPending, WithoutSent, HaveCids;
      DropEachIs(pending, sent, es, n - 1);
      HaveCidsStep(es, n - 1);
      assert es[..n][..n - 1] == es[..n - 1];
      if es[n - 1].wantType == WANT_HAVE {
        DropOneMore(pending, sent, HaveCids(es[..n - 1]), es[n - 1]);
      }
    }
  }

  lemma DropEachAll(q: Q, es: seq<Entry>)
    requires SortedListing(es, q.peerPending) && Keyed(q.peerPending)
    ensures DropHaves(q) == q.(peerPending := DropEach(q.peerPending, q.peerSent, es).0,
                               peerSent := DropEach(q.peerPending, q.peerSent, es).1)
  {
    hide DropEach;
    DropEachIs(q.peerPending, q.peerSent, es, |es|);
    assert es[..|es|] == es;
    forall c
      ensures c in HaveCids(es) <==> c in q.peerPending && q.peerPending[c].wantType == WANT_HAVE
    {
      if e :| e in es && e.wantType == WANT_HAVE && e.cid == c {
        var i :| 0 <= i < |es| && es[i] == e;
      }
      if c in q.peerPending {
        assert q.peerPending[c] in es;
      }
    }
    assert WithoutPending(q.peerPending, HaveCids(es)) == DropHaves(q).peerPending;
    assert WithoutSent(q.peerSent, HaveCids(es)) == DropHaves(q).peerSent;
  }

  /** The next entry is still pending: only other keys were dropped. */
  lemma NextStillPending(pending: WantMap, sent: WantMap, es: seq<Entry>, n: nat)
    requires ListsMap(es, pending) && n < |es|
    ensures var b := DropEach(pending, sent, es[..n]);
            es[n].cid in b.0 && b.0[es[n].cid] == es[n]
  {
    DropEachIs(pending, sent, es, n);
  }

  lemma BlocksOnlyStep(es: seq<Entry>, i: nat)
    requires i < |es|
    ensures BlocksOnly(es[..i + 1])
            == if es[i].wantType == WANT_HAVE then BlocksOnly(es[..i]) else BlocksOnly(es[..i]) + [es[i]]
    ensures |BlocksOnly(es[..i])| <= i
  {
    assert es[..i + 1][..i] == es[..i];
    BlocksOnlyShorter(es[..i]);
  }

  lemma {:induction false} BlocksOnlyShorter(es: seq<Entry>)
    ensures |BlocksOnly(es)| <= |es|
    ensures forall e :: e in BlocksOnly(es) <==> e in es && e.wantType != WANT_HAVE
  {
    if es != [] {
      BlocksOnlyShorter(es[..|es| - 1]);
      assert es == es[..|es| - 1] + [es[|es| - 1]];
    }
  }

  lemma {:induction false} BlocksOnlyOrdered(es: seq<Entry>)
    requires CidsDistinct(es) && Descending(es)
    ensures CidsDistinct(BlocksOnly(es)) && Descending(BlocksOnly(es))
  {
    if es != [] {
      var init, last := es[..|es| - 1], es[|es| - 1];
      BlocksOnlyOrdered(init);
      BlocksOnlyShorter(init);
      assert forall e :: e in init ==> e.cid != last.cid && e.priority >= last.priority;
      OrderedPush(BlocksOnly(init), last);
    }
  }

  lemma OrderedPush(es: seq<Entry>, e: Entry)
    requires CidsDistinct(es) && Descending(es)
    ensures (forall x :: x in es ==> x.cid != e.cid && x.priority >= e.priority) ==>
              CidsDistinct(es + [e]) && Descending(es + [e])
  {
    if forall x :: x in es ==> x.cid != e.cid && x.priority >= e.priority {
      assert forall i :: 0 <= i < |es| ==> es[i] in es;
    }
  }

  /** The filtered list is a sorted listing of what is left pending. */
  lemma BlocksOnlyLists(q: Q, es: seq<Entry>)
    requires SortedListing(es, q.peerPending)
    ensures SortedListing(BlocksOnly(es), DropHaves(q).peerPending)
  {
    hide BlocksOnly;
    BlocksOnlyShorter(es);
    BlocksOnlyOrdered(es);
    var r := BlocksOnly(es);
    forall i | 0 <= i < |r|
      ensures r[i].cid in DropHaves(q).peerPending && DropHaves(q).peerPending[r[i].cid] == r[i]
    {
      assert r[i] in r;
    }
  }

  // ---------- building the message ----------

  /** `k` items have been put into the message; `full` says that the limit is reached. */
  ghost predicate Building(items: seq<Item>, supportsHave: bool, max: int, k: nat, msg: MsgWants, size: int,
                           full: bool)
  {
    && k <= |items|
    && msg == MsgOf(items[..k], supportsHave)
    && size == SizeOf(items[..k], supportsHave)
    && (forall j :: 0 < j < k ==> SizeOf(items[..j], supportsHave) < max)
    && (full <==> k > 0 && size >= max)
  }

  method PutItemInto(m: BM.BitswapMessage, item: Item, supportsHave: bool) returns (size: nat)
    requires BM.Consistent(m.Abs())
    modifies m`wantlist
    ensures BM.Consistent(m.Abs())
    ensures m.wantlist == PutItem(old(m.wantlist), item, supportsHave)
    ensures size == if item.Key() in old(m.wantlist) then 0 else BM.WireSize(item.Wire(supportsHave))
  {
    hide BM.Consistent, BM.WireSize, BM.PutEntry;
    match item
    case CancelItem(c) =>
      size := m.AddEntry(c, 0, true, WANT_BLOCK, false);
    case PeerItem(e) =>
      size := m.AddEntry(e.cid, e.priority, false, e.wantType, true);
    case BcstItem(e) =>
      var wantType := if supportsHave then WANT_HAVE else WANT_BLOCK;
      size := m.AddEntry(e.cid, e.priority, false, wantType, false);
  }

  /** Puts items into the message from `start` to `end`, stopping when the limit is reached. */
  method PutItems(m: BM.BitswapMessage, items: seq<Item>, supportsHave: bool, max: int, start: nat, end: nat,
                  msgSize: int, isFull: bool)
    returns (n: nat, size: int, full: bool)
    requires BM.Consistent(m.Abs()) && start <= end <= |items|
    requires Building(items, supportsHave, max, start, m.wantlist, msgSize, isFull)
    modifies m`wantlist
    ensures BM.Consistent(m.Abs()) && start <= n <= end
    ensures Building(items, supportsHave, max, n, m.wantlist, size, full)
    ensures !full ==> n == end
    ensures isFull ==> n == start && full
  {
    hide BM.Consistent, BM.WireSize, PutItem, Item.Wire;
    n, size, full := start, msgSize, isFull;
    while n < end && !full
      invariant BM.Consistent(m.Abs()) && start <= n <= end
      invariant Building(items, supportsHave, max, n, m.wantlist, size, full)
      invariant isFull ==> n == start && full
      decreases end - n
    {
      assert items[..n + 1][..n] == items[..n];
      var added := PutItemInto(m, items[n], supportsHave);
      size := size + added;
      n := n + 1;
      full := size >= max;
    }
  }

  /** Cancels first, then peer wants, then broadcast wants, until the size limit is reached. */
  method BuildMessage(supportsHave: bool, cancels: seq<Cid>, peers: seq<Entry>, bcsts: seq<Entry>, max: int)
    returns (msg: MsgWants, cut: Cut)
    ensures cut.supportsHave == supportsHave && cut.cancels == cancels && cut.peers == peers && cut.bcsts == bcsts
    ensures IsCut(cut.Items(), supportsHave, max, cut.n)
    ensures msg == Message(cut)
  {
    hide BM.Consistent, MsgOf, SizeOf, Cancels, Peers, Bcsts;
    cut := Cut(supportsHave, cancels, peers, bcsts, 0);
    var items := cut.Items();
    ItemCount(cut);
    var m := new BM.BitswapMessage(false);
    NothingBuilt(items, supportsHave);
    var n, size, full := PutItems(m, items, supportsHave, max, 0, |cancels|, 0, false);
    if !full {
      n, size, full := PutItems(m, items, supportsHave, max, n, |cancels| + |peers|, size, full);
    }
    if !full {
      n, size, full := PutItems(m, items, supportsHave, max, n, |items|, size, full);
    }
    cut := cut.(n := n);
    assert cut.Items() == items;
    msg := m.wantlist;
  }

  lemma ItemCount(cut: Cut)
    ensures |cut.Items()| == |cut.cancels| + |cut.peers| + |cut.bcsts|
  {
  }

  lemma NothingBuilt(items: seq<Item>, supportsHave: bool)
    ensures MsgOf(items[..0], supportsHave) == map[] && SizeOf(items[..0], supportsHave) == 0
  {
  }

  // ---------- the second locked part, one list ----------

  /**
   Marks the first `n` entries of the array as sent. An entry that changed in the
   meantime is taken out of the message and blanked in the array, which may still
   be the memoized array of the list: it is only if nothing changed, and then no
   entry is blanked.
   */
  method MarkEntries(r: RecallWantlist, entries: array<Entry>, n: nat, msg: MsgWants) returns (msg': MsgWants)
    requires r.Valid() && n <= entries.Length && Apart(entries, r.sent.cached)
    modifies r.pending, r.sent, entries
    ensures r.Valid() && r.CachesKept()
    ensures MarkAll(Marking(old(r.pending.wants), old(r.sent.wants), msg), old(entries[..n]))
            == Marking(r.pending.wants, r.sent.wants, msg')
    ensures entries[..n] == Blanked(Marking(old(r.pending.wants), old(r.sent.wants), msg), old(entries[..n]))
  {
    hide Descending, AddTo, CidsDistinct;
    msg' := msg;
    ghost var listed := entries[..n];
    ghost var start := Marking(r.pending.wants, r.sent.wants, msg);
    for i := 0 to n
      invariant r.Valid() && r.CachesKept() && Apart(entries, r.sent.cached)
      invariant r.pending.cached == entries ==> i == 0
      invariant forall k :: i <= k < n ==> entries[k] == listed[k]
      invariant entries[..i] == Blanked(start, listed[..i])
      invariant MarkAll(start, listed[..i]) == Marking(r.pending.wants, r.sent.wants, msg')
    {
      assert listed[..i + 1][..i] == listed[..i];
      var e := entries[i];
      var marked := r.MarkSent(e);
      if !marked {
        msg' := msg' - {e.cid};
        entries[i] := e.(cid := UNDEF);
      }
    }
    assert listed[..n] == listed;
  }

  // ---------- the queue ----------

  class MessageQueue {
    const bcstWants: RecallWantlist
    const peerWants: RecallWantlist
    var cancels: set<Cid>
    var priority: Int32
    const maxMessageSize: int

    ghost function Lists(): set<object>
    {
      {bcstWants, peerWants, bcstWants.pending, bcstWants.sent, peerWants.pending, peerWants.sent}
    }

    twostate predicate CachesKept()
      reads Lists()
    {
      bcstWants.CachesKept() && peerWants.CachesKept()
    }

    /** The lists and their memoized arrays are separate objects. */
    ghost predicate Separate()
      reads Lists()
    {
      && bcstWants != peerWants
      && bcstWants.pending != peerWants.pending && bcstWants.pending != peerWants.sent
      && bcstWants.sent != peerWants.pending && bcstWants.sent != peerWants.sent
      && Apart(bcstWants.pending.cached, peerWants.pending.cached)
      && Apart(bcstWants.pending.cached, peerWants.sent.cached)
      && Apart(bcstWants.sent.cached, peerWants.pending.cached)
      && Apart(bcstWants.sent.cached, peerWants.sent.cached)
    }

    ghost predicate Valid()
      reads this, Lists(), bcstWants.pending.cached, bcstWants.sent.cached,
            peerWants.pending.cached, peerWants.sent.cached
    {
      Separate() && bcstWants.Valid() && peerWants.Valid() && Inv(Abs())
    }

    ghost function Abs(): Q
      reads this, Lists()
    {
      Q(peerWants.pending.wants, peerWants.sent.wants, bcstWants.pending.wants, bcstWants.sent.wants, cancels, priority)
    }

    constructor (maxMessageSize: int)
      ensures Valid() && Abs() == EMPTY && this.maxMessageSize == maxMessageSize
      ensures fresh(Lists())
    {
      bcstWants := new RecallWantlist();
      peerWants := new RecallWantlist();
      cancels, priority := {}, MAX_PRIORITY;
      this.maxMessageSize := maxMessageSize;
    }

    method AddBroadcastWantHaves(wantHaves: seq<Cid>)
      requires Valid()
      modifies this, bcstWants.pending
      ensures Valid() && Abs() == AddBroadcastWants(old(Abs()), wantHaves)
      ensures CachesKept()
    {
      hide Inv, Wantlist.Valid, RecallWantlist.Valid;
      for i := 0 to |wantHaves|
        invariant Valid() && Abs() == AddBroadcastWants(old(Abs()), wantHaves[..i])
        invariant CachesKept()
      {
        assert wantHaves[..i + 1][..i] == wantHaves[..i];
        BroadcastKeepsInv(Abs(), wantHaves[i]);
        bcstWants.Add(wantHaves[i], priority, WANT_HAVE);
        priority := NextPriority(priority);
        cancels := cancels - {wantHaves[i]};
      }
      assert wantHaves[..|wantHaves|] == wantHaves;
    }

    method AddWants(wantBlocks: seq<Cid>, wantHaves: seq<Cid>)
      requires Valid()
      modifies this, peerWants.pending
      ensures Valid()
      ensures Abs() == AddPeerWants(AddPeerWants(old(Abs()), wantHaves, WANT_HAVE), wantBlocks, WANT_BLOCK)
      ensures CachesKept()
    {
      hide AddPeerWants;
      AddWantsOf(wantHaves, WANT_HAVE);
      AddWantsOf(wantBlocks, WANT_BLOCK);
    }

    method AddWantsOf(ks: seq<Cid>, wantType: Int32)
      requires Valid() && (wantType == WANT_BLOCK || wantType == WANT_HAVE)
      modifies this, peerWants.pending
      ensures Valid() && Abs() == AddPeerWants(old(Abs()), ks, wantType)
      ensures CachesKept()
    {
      hide Inv, Wantlist.Valid, RecallWantlist.Valid;
      for i := 0 to |ks|
        invariant Valid() && Abs() == AddPeerWants(old(Abs()), ks[..i], wantType)
        invariant CachesKept()
      {
        assert ks[..i + 1][..i] == ks[..i];
        PeerWantKeepsInv(Abs(), ks[i], wantType);
        peerWants.Add(ks[i], priority, wantType);
        priority := NextPriority(priority);
        cancels := cancels - {ks[i]};
      }
      assert ks[..|ks|] == ks;
    }

    /** Removes the key from all lists; a cancel is due if it was sent. */
    method CancelOne(c: Cid) returns (wasSent: bool)
      requires Valid()
      modifies this, Lists()
      ensures Valid() && Abs() == AddCancel(old(Abs()), c)
      ensures CachesKept()
      ensures wasSent <==> c in old(Abs()).bcstSent || c in old(Abs()).peerSent
    {
      hide Inv, Wantlist.Valid, RecallWantlist.Valid, AddTo;
      CancelKeepsInv(Abs(), c);
      var wasSentBcst := c in bcstWants.sent.wants;
      var wasSentPeer := c in peerWants.sent.wants;
      bcstWants.Remove(c);
      peerWants.Remove(c);
      wasSent := wasSentBcst || wasSentPeer;
      if wasSent {
        cancels := cancels + {c};
      }
    }

    method AddCancels(cancelKs: seq<Cid>) returns (workReady: bool)
      requires Valid()
      modifies this, Lists()
      ensures Valid() && Abs() == AddCancelAll(old(Abs()), cancelKs)
      ensures CachesKept()
      ensures workReady <==> Elems(cancelKs) * SentKeys(old(Abs())) != {}
    {
      hide Inv, Wantlist.Valid, RecallWantlist.Valid;
      workReady := false;
      for i := 0 to |cancelKs|
        invariant Valid() && Abs() == AddCancelAll(old(Abs()), cancelKs[..i])
        invariant CachesKept()
        invariant workReady <==> Elems(cancelKs[..i]) * SentKeys(old(Abs())) != {}
      {
        assert cancelKs[..i + 1][..i] == cancelKs[..i];
        AnotherSent(old(Abs()), cancelKs, i);
        var wasSent := CancelOne(cancelKs[i]);
        workReady := workReady || wasSent;
      }
      assert cancelKs[..|cancelKs|] == cancelKs;
    }

    /** Copies the sent wants back into the pending lists. */
    method TransferRebroadcastWants() returns (transferred: bool)
      requires Valid()
      modifies this, Lists()
      ensures Valid() && Abs() == Rebroadcast(old(Abs()))
      ensures transferred <==> |old(Abs()).bcstSent| != 0 || |old(Abs()).peerSent| != 0
    {
      hide Inv, Wantlist.Valid, Absorbed, Keyed;
      RebroadcastKeepsInv(Abs());
      if bcstWants.sent.Len() == 0 && peerWants.sent.Len() == 0 {
        NothingSent(Abs());
        return false;
      }
      bcstWants.pending.Absorb(bcstWants.sent);
      peerWants.pending.Absorb(peerWants.sent);
      return true;
    }

    /** Filters the want-haves out of the shared array, in place, and drops them from the lists. */
    method FilterHaves(peerEntries: array<Entry>) returns (n: nat)
      requires Valid() && peerWants.pending.cached == peerEntries
      modifies peerWants, peerWants.pending, peerWants.sent, peerEntries
      ensures Valid() && CachesKept()
      ensures Abs() == DropHaves(old(Abs()))
      ensures n <= peerEntries.Length && peerEntries[..n] == BlocksOnly(old(peerEntries[..]))
    {
      hide Inv, DropEach, BlocksOnly, DropHaves, Descending, CidsDistinct;
      ghost var q0 := Abs();
      ghost var listed := peerEntries[..];
      DropEachAll(q0, listed);
      DropKeepsInv(q0);
      n := 0;
      NothingDropped(q0.peerPending, q0.peerSent);
      for i := 0 to peerEntries.Length
        invariant Separate() && bcstWants.Valid() && peerWants.Valid() && CachesKept()
        invariant Abs() == q0.(peerPending := DropEach(q0.peerPending, q0.peerSent, listed[..i]).0,
                               peerSent := DropEach(q0.peerPending, q0.peerSent, listed[..i]).1)
        invariant 0 <= n <= i && peerEntries[..n] == BlocksOnly(listed[..i])
        invariant forall k :: i <= k < peerEntries.Length ==> peerEntries[k] == listed[k]
        invariant peerWants.pending.cached == peerEntries ==> n == i && peerEntries[..] == listed
      {
        BlocksOnlyStep(listed, i);
        NextStillPending(q0.peerPending, q0.peerSent, listed, i);
        DropStep(q0.peerPending, q0.peerSent, listed, i);
        var e := peerEntries[i];
        if e.wantType == WANT_HAVE {
          peerWants.RemoveType(e.cid, WANT_HAVE);
        } else {
          peerEntries[n] := e;
          n := n + 1;
        }
      }
      assert listed[..peerEntries.Length] == listed;
    }

    /** The first locked part: what to send, and for old peers what to drop. */
    method BeginExtract(supportsHave: bool)
      returns (peerEntries: array<Entry>, nPeers: nat, bcstEntries: array<Entry>, cs: seq<Cid>)
      requires Valid()
      modifies Lists(), peerWants.pending.cached
      ensures Valid() && Abs() == Prepared(old(Abs()), supportsHave)
      ensures nPeers <= peerEntries.Length
      ensures SortedListing(peerEntries[..nPeers], Abs().peerPending)
      ensures SortedListing(bcstEntries[..], Abs().bcstPending)
      ensures IsListing(cs, cancels)
      ensures peerEntries != bcstEntries
      ensures peerEntries == old(peerWants.pending.cached) || fresh(peerEntries)
      ensures bcstEntries == old(bcstWants.pending.cached) || fresh(bcstEntries)
      ensures Apart(peerEntries, peerWants.sent.cached)
      ensures Apart(peerEntries, bcstWants.pending.cached) && Apart(peerEntries, bcstWants.sent.cached)
      ensures Apart(bcstEntries, bcstWants.sent.cached)
      ensures Apart(bcstEntries, peerWants.pending.cached) && Apart(bcstEntries, peerWants.sent.cached)
    {
      hide Inv, SortedListing, Keyed, DropHaves;
      peerEntries := peerWants.pending.Entries();
      bcstEntries := bcstWants.pending.Entries();
      cs := ListCancels(cancels);
      nPeers := peerEntries.Length;
      assert peerEntries[..nPeers] == peerEntries[..];
      if !supportsHave {
        BlocksOnlyLists(Abs(), peerEntries[..]);
        nPeers := FilterHaves(peerEntries);
      }
    }

    /**
     The second locked part. The entries were read in the first part; wants may
     have been added, cancelled or upgraded since, and arrays forgotten.
     */
    method FinishExtract(peerEntries: array<Entry>, nPeers: nat, bcstEntries: array<Entry>, nBcsts: nat,
                         cs: seq<Cid>, msg: MsgWants) returns (msg': MsgWants)
      requires Valid() && nPeers <= peerEntries.Length && nBcsts <= bcstEntries.Length
      requires forall k :: 0 <= k < nPeers ==>
                 peerEntries[k].wantType == WANT_BLOCK || peerEntries[k].wantType == WANT_HAVE
      requires forall k :: 0 <= k < nBcsts ==> bcstEntries[k].wantType == WANT_HAVE
      requires peerEntries != bcstEntries
      requires Apart(peerEntries, peerWants.sent.cached)
      requires Apart(peerEntries, bcstWants.pending.cached) && Apart(peerEntries, bcstWants.sent.cached)
      requires Apart(bcstEntries, bcstWants.sent.cached)
      requires Apart(bcstEntries, peerWants.pending.cached) && Apart(bcstEntries, peerWants.sent.cached)
      modifies this`cancels, Lists(), peerEntries, bcstEntries
      ensures Valid() && CachesKept()
      ensures Finished(old(Abs()), msg, old(peerEntries[..nPeers]), old(bcstEntries[..nBcsts]), cs) == (Abs(), msg')
    {
      hide Inv, MarkAll, Blanked, ClearAll, Wantlist.Valid;
      FinishKeepsInv(Abs(), msg, peerEntries[..nPeers], bcstEntries[..nBcsts], cs);
      msg' := MarkEntries(peerWants, peerEntries, nPeers, msg);
      msg' := MarkEntries(bcstWants, bcstEntries, nBcsts, msg');
      msg' := ClearCancels(cs, msg');
    }

    /** Cancels in the message are cleared; one that is no longer wanted is taken out of it. */
    method ClearCancels(cs: seq<Cid>, msg: MsgWants) returns (msg': MsgWants)
      modifies this`cancels
      ensures (cancels, msg') == ClearAll(old(cancels), msg, cs)
    {
      msg' := msg;
      for i := 0 to |cs|
        invariant (cancels, msg') == ClearAll(old(cancels), msg, cs[..i])
      {
        assert cs[..i + 1][..i] == cs[..i];
        if cs[i] !in cancels {
          msg' := msg' - {cs[i]};
        } else {
          cancels := cancels - {cs[i]};
        }
      }
      assert cs[..|cs|] == cs;
    }

    /** Extraction with nothing running in between: one send step of the model. */
    method ExtractOutgoingMessage(supportsHave: bool) returns (msg: MsgWants, cut: Cut)
      requires Valid()
      modifies this, Lists(), peerWants.pending.cached, bcstWants.pending.cached
      ensures Valid() && CutOf(old(Abs()), cut, maxMessageSize) && cut.supportsHave == supportsHave
      ensures Abs() == Extracted(old(Abs()), cut) && msg == Message(cut)
    {
      hide Inv, SortedListing, IsCut, Message, Extracted, Finished, Wantlist.Valid, RecallWantlist.Valid, Prepared,
           Elems;
      ghost var q0 := Abs();
      var peerEntries, nPeers, bcstEntries, cs := BeginExtract(supportsHave);
      PreparedRest(q0, supportsHave);
      msg, cut := BuildMessage(supportsHave, cs, peerEntries[..nPeers], bcstEntries[..], maxMessageSize);
      AtomicFinish(q0, cut, maxMessageSize);
      ListedTypes(Abs(), peerEntries[..nPeers], bcstEntries[..]);
      assert peerEntries[..cut.SentPeers()] == cut.peers[..cut.SentPeers()];
      assert bcstEntries[..cut.SentBcsts()] == cut.bcsts[..cut.SentBcsts()];
      msg := FinishExtract(peerEntries, cut.SentPeers(), bcstEntries, cut.SentBcsts(), cs[..cut.SentCancels()], msg);
    }

    function PendingWorkCount(): (n: nat)
      reads this, Lists()
      ensures n == WorkCount(Abs())
    {
      bcstWants.pending.Len() + peerWants.pending.Len() + |cancels|
    }
  }

  lemma ListedTypes(q: Q, peers: seq<Entry>, bcsts: seq<Entry>)
    requires Inv(q) && SortedListing(peers, q.peerPending) && SortedListing(bcsts, q.bcstPending)
    ensures forall k :: 0 <= k < |peers| ==> peers[k].wantType == WANT_BLOCK || peers[k].wantType == WANT_HAVE
    ensures forall k :: 0 <= k < |bcsts| ==> bcsts[k].wantType == WANT_HAVE
  {
  }

  lemma NothingDropped(pending: WantMap, sent: WantMap)
    ensures DropEach(pending, sent, []) == (pending, sent) && BlocksOnly([]) == []
  {
  }

  lemma DropStep(pending: WantMap, sent: WantMap, es: seq<Entry>, i: nat)
    requires i < |es|
    ensures var b := DropEach(pending, sent, es[..i]);
            DropEach(pending, sent, es[..i + 1])
            == if es[i].wantType == WANT_HAVE then
                 (RemoveTypeFrom(b.0, es[i].cid, WANT_HAVE), RemoveTypeFrom(b.1, es[i].cid, WANT_HAVE))
               else b
  {
    assert es[..i + 1][..i] == es[..i];
  }

  lemma DropKeepsInv(q: Q)
    requires Inv(q)
    ensures Inv(DropHaves(q))
  {
    PreparedKeeps(q, false);
  }

  method ListCancels(s: set<Cid>) returns (order: seq<Cid>)
    ensures IsListing(order, s)
  {
    hide Elems, Distinct;
    order := [];
    BM.NothingListed();
    var todo := s;
    while todo != {}
      invariant todo <= s && IsListing(order, s - todo)
      decreases todo
    {
      var c :| c in todo;
      BM.ListedOneMore(order, s, todo, c);
      order, todo := order + [c], todo - {c};
    }
    assert s - {} == s;
  }

  lemma AnotherSent(q: Q, ks: seq<Cid>, i: nat)
    requires i < |ks|
    ensures var q' := AddCancelAll(q, ks[..i]);
            Elems(ks[..i + 1]) * SentKeys(q) != {}
            <==> Elems(ks[..i]) * SentKeys(q) != {} || ks[i] in q'.bcstSent || ks[i] in q'.peerSent
  {
    hide AddCancelAll;
    CancelAllIs(q, ks[..i]);
    ElemsStep(ks, i);
    var before, sent := Elems(ks[..i]), SentKeys(q);
    if ks[i] in sent {
      assert ks[i] in (before + {ks[i]}) * sent;
      if ks[i] in before {
        assert ks[i] in before * sent;
      }
    } else {
      assert (before + {ks[i]}) * sent == before * sent;
    }
  }

  lemma BroadcastKeepsInv(q: Q, c: Cid)
    requires Inv(q)
    ensures Inv(AddBroadcastWant(q, c))
  {
  }

  lemma PeerWantKeepsInv(q: Q, c: Cid, wantType: Int32)
    requires Inv(q) && (wantType == WANT_BLOCK || wantType == WANT_HAVE)
    ensures Inv(AddPeerWant(q, c, wantType))
  {
  }

  lemma CancelKeepsInv(q: Q, c: Cid)
    requires Inv(q)
    ensures Inv(AddCancel(q, c))
  {
  }

  lemma RebroadcastKeepsInv(q: Q)
    requires Inv(q)
    ensures Inv(Rebroadcast(q))
  {
  }

  lemma NothingSent(q: Q)
    requires |q.bcstSent| == 0 && |q.peerSent| == 0
    ensures Rebroadcast(q) == q
  {
    assert q.bcstSent == map[] && q.peerSent == map[];
    AbsorbNothing(q.bcstPending);
    AbsorbNothing(q.peerPending);
  }
}
