/**
 The message queue of one peer, on values: pending and sent wants, pending
 cancels, and the extraction of one message of limited size. A remote wantlist
 that applies every message is the reference: it must hold every want the
 queue records as sent.
 */
module QueueModel {
  import opened Types
  import opened Wantlists
  import BM = BitswapMessages

  datatype Q = Q(peerPending: WantMap, peerSent: WantMap, bcstPending: WantMap, bcstSent: WantMap,
                 cancels: set<Cid>, priority: Int32)

  type MsgWants = map<Cid, BM.Entry>

  const MAX_PRIORITY: Int32 := 0x7fff_ffff

  const EMPTY := Q(map[], map[], map[], map[], {}, MAX_PRIORITY)

  /** Priorities count down, wrapping around as an int32. */
  function NextPriority(x: Int32): Int32 {
    if x == -0x8000_0000 then MAX_PRIORITY else x - 1
  }

  // ---------- recording wants and cancels ----------

  function AddPeerWant(q: Q, c: Cid, wantType: Int32): Q {
    q.(peerPending := AddTo(q.peerPending, c, q.priority, wantType),
       priority := NextPriority(q.priority),
       cancels := q.cancels - {c})
  }

  function AddPeerWants(q: Q, ks: seq<Cid>, wantType: Int32): Q {
    if ks == [] then q else AddPeerWant(AddPeerWants(q, ks[..|ks| - 1], wantType), ks[|ks| - 1], wantType)
  }

  function AddBroadcastWant(q: Q, c: Cid): Q {
    q.(bcstPending := AddTo(q.bcstPending, c, q.priority, WANT_HAVE),
       priority := NextPriority(q.priority),
       cancels := q.cancels - {c})
  }

  function AddBroadcastWants(q: Q, ks: seq<Cid>): Q {
    if ks == [] then q else AddBroadcastWant(AddBroadcastWants(q, ks[..|ks| - 1]), ks[|ks| - 1])
  }

  /** A cancel is sent only for a want that was sent. */
  function AddCancel(q: Q, c: Cid): Q {
    Q(q.peerPending - {c}, q.peerSent - {c}, q.bcstPending - {c}, q.bcstSent - {c},
      if c in q.peerSent || c in q.bcstSent then q.cancels + {c} else q.cancels, q.priority)
  }

  function AddCancelAll(q: Q, ks: seq<Cid>): Q {
    if ks == [] then q else AddCancel(AddCancelAll(q, ks[..|ks| - 1]), ks[|ks| - 1])
  }

  ghost function SentKeys(q: Q): set<Cid> {
    q.peerSent.Keys + q.bcstSent.Keys
  }

  /** The given wants are gone, and exactly those that were sent are to be cancelled at the remote. */
  ghost function Without(q: Q, gone: set<Cid>): Q {
    Q(q.peerPending - gone, q.peerSent - gone, q.bcstPending - gone, q.bcstSent - gone,
      q.cancels + gone * SentKeys(q), q.priority)
  }

  lemma WithoutNone(q: Q)
    ensures Without(q, {}) == q
  {
  }

  lemma WithoutOneMore(q: Q, gone: set<Cid>, c: Cid)
    ensures AddCancel(Without(q, gone), c) == Without(q, gone + {c})
  {
    assert forall m: WantMap :: m - gone - {c} == m - (gone + {c});
    var sent := SentKeys(q);
    assert (gone + {c}) * sent == gone * sent + (if c in sent then {c} else {});
    assert c in (q.peerSent - gone).Keys + (q.bcstSent - gone).Keys <==> c in sent && c !in gone;
  }

  lemma {:induction false} CancelAllIs(q: Q, ks: seq<Cid>)
    ensures AddCancelAll(q, ks) == Without(q, Elems(ks))
  {
    hide AddCancel, Without;
    if ks == [] {
      WithoutNone(q);
      assert Elems(ks) == {};
    } else {
      var init, c := ks[..|ks| - 1], ks[|ks| - 1];
      CancelAllIs(q, init);
      WithoutOneMore(q, Elems(init), c);
      assert ks == init + [c];
      assert Elems(ks) == Elems(init) + {c};
    }
  }

  ghost function Rebroadcast(q: Q): Q {
    q.(bcstPending := Absorbed(q.bcstPending, q.bcstSent), peerPending := Absorbed(q.peerPending, q.peerSent))
  }

  // ---------- extraction ----------

  /** What goes into a message, in the order it is considered. */
  datatype Item = CancelItem(c: Cid) | PeerItem(e: Entry) | BcstItem(e: Entry) {
    function Key(): Cid {
      if CancelItem? then c else e.cid
    }

    /** The message entry for this item alone; old peers are sent want-blocks for broadcasts. */
    function Wire(supportsHave: bool): BM.Entry {
      match this
      case CancelItem(c) => BM.NewEntry(c, 0, true, WANT_BLOCK, false)
      case PeerItem(e) => BM.NewEntry(e.cid, e.priority, false, e.wantType, true)
      case BcstItem(e) =>
        BM.NewEntry(e.cid, e.priority, false, if supportsHave then WANT_HAVE else WANT_BLOCK, false)
    }
  }

  function PutItem(wl: MsgWants, item: Item, supportsHave: bool): MsgWants {
    var w := item.Wire(supportsHave);
    BM.PutEntry(wl, item.Key(), w.want.priority, w.cancel, w.want.wantType, w.sendDontHave)
  }

  function MsgOf(items: seq<Item>, supportsHave: bool): MsgWants {
    if items == [] then map[]
    else PutItem(MsgOf(items[..|items| - 1], supportsHave), items[|items| - 1], supportsHave)
  }

  /** The size accounted for the items: a key counts once, with the entry it first got. */
  ghost function SizeOf(items: seq<Item>, supportsHave: bool): nat {
    if items == [] then 0
    else
      var n, last := |items| - 1, items[|items| - 1];
      SizeOf(items[..n], supportsHave)
      + if last.Key() in MsgOf(items[..n], supportsHave) then 0 else BM.WireSize(last.Wire(supportsHave))
  }

  /** `n` items are taken: one after the other, until the size limit is reached. */
  ghost predicate IsCut(items: seq<Item>, supportsHave: bool, max: int, n: nat) {
    && n <= |items|
    && (forall k :: 0 < k < n ==> SizeOf(items[..k], supportsHave) < max)
    && (n < |items| ==> n > 0 && SizeOf(items[..n], supportsHave) >= max)
  }

  function Cancels(cs: seq<Cid>): seq<Item> {
    seq(|cs|, i requires 0 <= i < |cs| => CancelItem(cs[i]))
  }

  function Peers(es: seq<Entry>): seq<Item> {
    seq(|es|, i requires 0 <= i < |es| => PeerItem(es[i]))
  }

  function Bcsts(es: seq<Entry>): seq<Item> {
    seq(|es|, i requires 0 <= i < |es| => BcstItem(es[i]))
  }

  function BlocksOnly(es: seq<Entry>): seq<Entry> {
    if es == [] then []
    else
      var rest, last := BlocksOnly(es[..|es| - 1]), es[|es| - 1];
      if last.wantType == WANT_HAVE then rest else rest + [last]
  }

  /** For an old peer, the want-haves are dropped from the peer's wants, pending and sent. */
  ghost function DropHaves(q: Q): Q {
    q.(peerPending := map c | c in q.peerPending && q.peerPending[c].wantType != WANT_HAVE :: q.peerPending[c],
       peerSent := map c | c in q.peerSent && !(c in q.peerPending && q.peerPending[c].wantType == WANT_HAVE
                                               && q.peerSent[c].wantType != WANT_BLOCK) :: q.peerSent[c])
  }

  function CidsOf(es: seq<Entry>): set<Cid> {
    set e | e in es :: e.cid
  }

  /** Entries moved from pending to sent. */
  ghost function MoveToSent(q: Q, peers: seq<Entry>, bcsts: seq<Entry>, cancels: seq<Cid>): Q {
    Q(q.peerPending - CidsOf(peers), AbsorbedFrom(q.peerSent, peers),
      q.bcstPending - CidsOf(bcsts), AbsorbedFrom(q.bcstSent, bcsts),
      q.cancels - Elems(cancels), q.priority)
  }

  /** The lists one extraction works through, and how many items it takes. */
  datatype Cut = Cut(supportsHave: bool, cancels: seq<Cid>, peers: seq<Entry>, bcsts: seq<Entry>, n: nat) {
    function Items(): seq<Item> {
      Cancels(cancels) + (Peers(peers) + Bcsts(bcsts))
    }

    function SentCancels(): (k: nat)
      ensures k <= |cancels|
    {
      if n <= |cancels| then n else |cancels|
    }

    function SentPeers(): (k: nat)
      ensures k <= |peers|
    {
      if n <= |cancels| then 0 else if n <= |cancels| + |peers| then n - |cancels| else |peers|
    }

    function SentBcsts(): (k: nat)
      ensures k <= |bcsts|
    {
      if n <= |cancels| + |peers| then 0
      else if n <= |cancels| + |peers| + |bcsts| then n - |cancels| - |peers| else |bcsts|
    }
  }

  ghost function Prepared(q: Q, supportsHave: bool): Q {
    if supportsHave then q else DropHaves(q)
  }

  /** The lists that an extraction may find, the maps listed in any order that respects priority. */
  ghost predicate CutOf(q: Q, cut: Cut, max: int) {
    && IsListing(cut.cancels, q.cancels)
    && SortedListing(cut.peers, Prepared(q, cut.supportsHave).peerPending)
    && SortedListing(cut.bcsts, q.bcstPending)
    && IsCut(cut.Items(), cut.supportsHave, max, cut.n)
  }

  ghost function Extracted(q: Q, cut: Cut): Q
  {
    MoveToSent(Prepared(q, cut.supportsHave), cut.peers[..cut.SentPeers()], cut.bcsts[..cut.SentBcsts()],
               cut.cancels[..cut.SentCancels()])
  }

  ghost function Message(cut: Cut): MsgWants
    requires cut.n <= |cut.Items()|
  {
    MsgOf(cut.Items()[..cut.n], cut.supportsHave)
  }

  // ---------- the remote side ----------

  /** The remote wantlist after a message: cancelled keys removed, the others added. */
  ghost function Applied(remote: WantMap, msg: MsgWants): WantMap {
    map c | c in remote.Keys + msg.Keys && !(c in msg && msg[c].cancel) ::
      if c in msg then AddTo(remote, c, msg[c].want.priority, msg[c].want.wantType)[c] else remote[c]
  }

  /** Every want recorded as sent is at the remote, as a want-block if it was sent as one. */
  ghost predicate Covers(remote: WantMap, sent: WantMap) {
    forall c :: c in sent ==> c in remote && (sent[c].wantType == WANT_BLOCK ==> remote[c].wantType == WANT_BLOCK)
  }

  ghost predicate HavesOnly(m: WantMap) {
    forall c :: c in m ==> m[c].wantType == WANT_HAVE
  }

  ghost predicate KnownTypes(m: WantMap) {
    forall c :: c in m ==> m[c].wantType == WANT_BLOCK || m[c].wantType == WANT_HAVE
  }

  /** Keys are consistent, and no key is both to be cancelled and wanted. */
  ghost predicate Inv(q: Q) {
    && Keyed(q.peerPending) && Keyed(q.peerSent) && Keyed(q.bcstPending) && Keyed(q.bcstSent)
    && KnownTypes(q.peerPending) && KnownTypes(q.peerSent)
    && HavesOnly(q.bcstPending) && HavesOnly(q.bcstSent)
    && q.cancels !! q.peerPending.Keys + q.peerSent.Keys + q.bcstPending.Keys + q.bcstSent.Keys
  }

  ghost predicate Synced(q: Q, remote: WantMap) {
    Inv(q) && Covers(remote, q.peerSent) && Covers(remote, q.bcstSent)
  }

  // ---------- recording keeps the invariant ----------

  lemma {:induction false} AddPeerWantsKeeps(q: Q, ks: seq<Cid>, wantType: Int32, remote: WantMap)
    requires Synced(q, remote) && (wantType == WANT_BLOCK || wantType == WANT_HAVE)
    ensures Synced(AddPeerWants(q, ks, wantType), remote)
  {
    if ks != [] {
      AddPeerWantsKeeps(q, ks[..|ks| - 1], wantType, remote);
    }
  }

  lemma {:induction false} AddBroadcastWantsKeeps(q: Q, ks: seq<Cid>, remote: WantMap)
    requires Synced(q, remote)
    ensures Synced(AddBroadcastWants(q, ks), remote)
  {
    if ks != [] {
      AddBroadcastWantsKeeps(q, ks[..|ks| - 1], remote);
    }
  }

  lemma {:induction false} AddCancelAllKeeps(q: Q, ks: seq<Cid>, remote: WantMap)
    requires Synced(q, remote)
    ensures Synced(AddCancelAll(q, ks), remote)
  {
    if ks != [] {
      AddCancelAllKeeps(q, ks[..|ks| - 1], remote);
    }
  }

  lemma RebroadcastKeeps(q: Q, remote: WantMap)
    requires Synced(q, remote)
    ensures Synced(Rebroadcast(q), remote)
  {
  }

  // ---------- what a message holds ----------

  /** The keys of a message are those of its items; cancels and wants do not mix. */
  lemma {:induction false} MsgKeys(items: seq<Item>, supportsHave: bool)
    ensures forall c :: c in MsgOf(items, supportsHave) <==> exists k :: 0 <= k < |items| && items[k].Key() == c
    ensures forall c :: c in MsgOf(items, supportsHave) ==> MsgOf(items, supportsHave)[c].want.cid == c
  {
    if items != [] {
      var n := |items| - 1;
      MsgKeys(items[..n], supportsHave);
      forall c
        ensures c in MsgOf(items, supportsHave) <==> exists k :: 0 <= k < |items| && items[k].Key() == c
      {
        if c in MsgOf(items[..n], supportsHave) {
          var k :| 0 <= k < n && items[..n][k].Key() == c;
          assert items[k].Key() == c;
        }
        if k :| 0 <= k < |items| && items[k].Key() == c {
          if k < n {
            assert items[..n][k].Key() == c;
          }
        }
      }
    }
  }

  lemma {:induction false} MsgCancels(items: seq<Item>, supportsHave: bool, c: Cid)
    requires c in MsgOf(items, supportsHave)
    ensures MsgOf(items, supportsHave)[c].cancel <==> exists k :: 0 <= k < |items| && items[k] == CancelItem(c)
  {
    var n := |items| - 1;
    var before := MsgOf(items[..n], supportsHave);
    if c in before {
      MsgCancels(items[..n], supportsHave, c);
      if before[c].cancel {
        var k :| 0 <= k < n && items[..n][k] == CancelItem(c);
        assert items[k] == CancelItem(c);
      }
    } else {
      MsgKeys(items[..n], supportsHave);
    }
    if k :| 0 <= k < |items| && items[k] == CancelItem(c) {
      if k < n {
        assert items[..n][k] == CancelItem(c) && items[..n][k].Key() == c;
      }
    }
  }

  /** A key with a want-block among its items has a want-block in the message. */
  lemma {:induction false} MsgBlocks(items: seq<Item>, supportsHave: bool, k: nat)
    requires k < |items| && items[k].Wire(supportsHave).want.wantType == WANT_BLOCK
    requires forall j :: 0 <= j < |items| && items[j].Key() == items[k].Key() ==>
                           items[j].Wire(supportsHave).want.wantType == WANT_BLOCK
                           || items[j].Wire(supportsHave).want.wantType == WANT_HAVE
    ensures items[k].Key() in MsgOf(items, supportsHave)
    ensures MsgOf(items, supportsHave)[items[k].Key()].want.wantType == WANT_BLOCK
  {
    var n, c := |items| - 1, items[k].Key();
    var before := MsgOf(items[..n], supportsHave);
    assert forall j :: 0 <= j < n ==> items[..n][j] == items[j];
    if k < n {
      MsgBlocks(items[..n], supportsHave, k);
    } else {
      MsgTypes(items[..n], supportsHave, c);
    }
  }

  /** An entry has one of the types of its items. */
  lemma {:induction false} MsgTypes(items: seq<Item>, supportsHave: bool, c: Cid)
    requires forall j :: 0 <= j < |items| && items[j].Key() == c ==>
                           items[j].Wire(supportsHave).want.wantType == WANT_BLOCK
                           || items[j].Wire(supportsHave).want.wantType == WANT_HAVE
    ensures c in MsgOf(items, supportsHave) ==>
              MsgOf(items, supportsHave)[c].want.wantType == WANT_BLOCK
              || MsgOf(items, supportsHave)[c].want.wantType == WANT_HAVE
  {
    if items != [] {
      assert forall j :: 0 <= j < |items| - 1 ==> items[..|items| - 1][j] == items[j];
      MsgTypes(items[..|items| - 1], supportsHave, c);
    }
  }

  // ---------- which items are taken ----------

  lemma TakenCancel(cut: Cut, k: nat)
    requires cut.n <= |cut.Items()| && k < cut.SentCancels()
    ensures k < cut.n && cut.Items()[..cut.n][k] == CancelItem(cut.cancels[k])
  {
  }

  lemma TakenPeer(cut: Cut, k: nat)
    requires cut.n <= |cut.Items()| && k < cut.SentPeers()
    ensures var i := |cut.cancels| + k;
            i < cut.n && cut.Items()[..cut.n][i] == PeerItem(cut.peers[k])
  {
  }

  lemma TakenBcst(cut: Cut, k: nat)
    requires cut.n <= |cut.Items()| && k < cut.SentBcsts()
    ensures var i := |cut.cancels| + |cut.peers| + k;
            i < cut.n && cut.Items()[..cut.n][i] == BcstItem(cut.bcsts[k])
  {
  }

  /** A taken item is a taken cancel, a taken peer want or a taken broadcast want. */
  lemma TakenIs(cut: Cut, i: nat)
    requires cut.n <= |cut.Items()| && i < cut.n
    ensures var item := cut.Items()[..cut.n][i];
            var c, p := |cut.cancels|, |cut.peers|;
            if i < c then i < cut.SentCancels() && item == CancelItem(cut.cancels[i])
            else if i < c + p then i - c < cut.SentPeers() && item == PeerItem(cut.peers[i - c])
            else i - c - p < cut.SentBcsts() && item == BcstItem(cut.bcsts[i - c - p])
  {
  }

  // ---------- extraction keeps the remote in step ----------

  lemma {:induction false} AbsorbedFromAt(m: WantMap, es: seq<Entry>, c: Cid)
    ensures c in AbsorbedFrom(m, es) <==> c in m || exists k :: 0 <= k < |es| && es[k].cid == c
    ensures c in AbsorbedFrom(m, es) ==>
              var e := AbsorbedFrom(m, es)[c];
              (c in m && e == m[c]) || exists k :: 0 <= k < |es| && es[k].cid == c && es[k] == e
  {
    if es != [] {
      var n := |es| - 1;
      AbsorbedFromAt(m, es[..n], c);
      assert forall k :: 0 <= k < n ==> es[..n][k] == es[k];
      if es[n].cid == c {
        assert es[n] == Entry(c, es[n].priority, es[n].wantType);
      }
    }
  }

  lemma PreparedKeeps(q: Q, supportsHave: bool)
    requires Inv(q)
    ensures var p := Prepared(q, supportsHave);
            && Inv(p) && p.bcstPending == q.bcstPending && p.bcstSent == q.bcstSent && p.cancels == q.cancels
            && (forall c :: c in p.peerPending ==> c in q.peerPending && p.peerPending[c] == q.peerPending[c])
            && (forall c :: c in p.peerSent ==> c in q.peerSent && p.peerSent[c] == q.peerSent[c])
  {
  }

  /** Moving entries that are pending to the sent list keeps what both lists promise. */
  lemma MovedKeeps(pending: WantMap, sent: WantMap, es: seq<Entry>, cancels: set<Cid>)
    requires Keyed(pending) && Keyed(sent) && KnownTypes(pending) && KnownTypes(sent)
    requires forall k :: 0 <= k < |es| ==> es[k].cid in pending && pending[es[k].cid] == es[k]
    requires cancels !! pending.Keys + sent.Keys
    ensures var sent' := AbsorbedFrom(sent, es);
            && Keyed(sent') && KnownTypes(sent') && cancels !! sent'.Keys
            && (HavesOnly(pending) && HavesOnly(sent) ==> HavesOnly(sent'))
  {
    hide AbsorbedFrom;
    var sent' := AbsorbedFrom(sent, es);
    forall c | c in sent'
      ensures sent'[c].cid == c && c !in cancels
      ensures sent'[c].wantType == WANT_BLOCK || sent'[c].wantType == WANT_HAVE
      ensures HavesOnly(pending) && HavesOnly(sent) ==> sent'[c].wantType == WANT_HAVE
    {
      AbsorbedFromAt(sent, es, c);
    }
  }

  lemma ListedArePending(es: seq<Entry>, m: WantMap, n: nat)
    requires SortedListing(es, m) && n <= |es|
    ensures forall k :: 0 <= k < n ==> es[..n][k].cid in m && m[es[..n][k].cid] == es[..n][k]
  {
  }

  lemma ExtractionKeepsInv(q: Q, cut: Cut, max: int)
    requires Inv(q) && CutOf(q, cut, max)
    ensures Inv(Extracted(q, cut))
  {
    hide SortedListing, IsCut, Prepared, AbsorbedFrom, IsListing, Elems, CidsOf, Cut.Items;
    var p := Prepared(q, cut.supportsHave);
    PreparedKeeps(q, cut.supportsHave);
    ListedArePending(cut.peers, p.peerPending, cut.SentPeers());
    ListedArePending(cut.bcsts, p.bcstPending, cut.SentBcsts());
    HavesAreKnown(p.bcstPending);
    HavesAreKnown(p.bcstSent);
    MovedKeeps(p.peerPending, p.peerSent, cut.peers[..cut.SentPeers()], p.cancels);
    MovedKeeps(p.bcstPending, p.bcstSent, cut.bcsts[..cut.SentBcsts()], p.cancels);
  }

  lemma HavesAreKnown(m: WantMap)
    requires HavesOnly(m)
    ensures KnownTypes(m)
  {
  }

  /** No key that is wanted is cancelled by the message. */
  lemma WantedIsNotCancelled(q: Q, cut: Cut, c: Cid)
    requires IsListing(cut.cancels, q.cancels) && cut.n <= |cut.Items()|
    requires c !in q.cancels && c in Message(cut)
    ensures !Message(cut)[c].cancel
  {
    hide MsgOf, Cut.Items;
    var items := cut.Items()[..cut.n];
    MsgCancels(items, cut.supportsHave, c);
    if k :| 0 <= k < |items| && items[k] == CancelItem(c) {
      TakenIs(cut, k);
    }
  }

  lemma ItemTypes(q: Q, cut: Cut)
    requires Inv(q) && cut.n <= |cut.Items()|
    requires SortedListing(cut.peers, Prepared(q, cut.supportsHave).peerPending)
    ensures forall j :: 0 <= j < cut.n ==>
                          var t := cut.Items()[..cut.n][j].Wire(cut.supportsHave).want.wantType;
                          t == WANT_BLOCK || t == WANT_HAVE
  {
    hide Cut.Items, Descending;
    PreparedKeeps(q, cut.supportsHave);
    forall j | 0 <= j < cut.n
      ensures var t := cut.Items()[..cut.n][j].Wire(cut.supportsHave).want.wantType;
              t == WANT_BLOCK || t == WANT_HAVE
    {
      TakenIs(cut, j);
    }
  }

  /** A key that stays or becomes sent is at the remote after the message, with its type. */
  lemma CoveredAfter(q: Q, cut: Cut, remote: WantMap, c: Cid, isBlock: bool, j: nat)
    requires Inv(q) && cut.n <= |cut.Items()| && IsListing(cut.cancels, q.cancels)
    requires SortedListing(cut.peers, Prepared(q, cut.supportsHave).peerPending)
    requires c !in q.cancels
    requires || (c in remote && (isBlock ==> remote[c].wantType == WANT_BLOCK))
             || (j < cut.n && cut.Items()[..cut.n][j].Key() == c
                 && (isBlock ==> cut.Items()[..cut.n][j].Wire(cut.supportsHave).want.wantType == WANT_BLOCK))
    ensures var r := Applied(remote, Message(cut));
            c in r && (isBlock ==> r[c].wantType == WANT_BLOCK)
  {
    hide Cut.Items, MsgOf, SortedListing, Prepared, Inv, IsListing;
    var items := cut.Items()[..cut.n];
    MsgKeys(items, cut.supportsHave);
    ItemTypes(q, cut);
    if c in Message(cut) {
      WantedIsNotCancelled(q, cut, c);
    }
    if !(c in remote && (isBlock ==> remote[c].wantType == WANT_BLOCK)) {
      assert items[j].Key() == c;
      if isBlock {
        MsgBlocks(items, cut.supportsHave, j);
      }
    }
  }

  /**
   After one message, delivered, every want recorded as sent is still at the
   remote with at least its type, and no wanted key is pending cancellation.
   */
  lemma ExtractionKeepsSynced(q: Q, cut: Cut, max: int, remote: WantMap)
    requires Synced(q, remote) && CutOf(q, cut, max)
    ensures Synced(Extracted(q, cut), Applied(remote, Message(cut)))
  {
    hide SortedListing, Prepared, AbsorbedFrom, IsListing, Elems, CidsOf, Cut.Items, Applied, Inv;
    var p, q', r := Prepared(q, cut.supportsHave), Extracted(q, cut), Applied(remote, Message(cut));
    ExtractionKeepsInv(q, cut, max);
    PreparedKeeps(q, cut.supportsHave);
    forall c | c in q'.peerSent
      ensures c in r && (q'.peerSent[c].wantType == WANT_BLOCK ==> r[c].wantType == WANT_BLOCK)
    {
      var isBlock := q'.peerSent[c].wantType == WANT_BLOCK;
      var es := cut.peers[..cut.SentPeers()];
      AbsorbedFromAt(p.peerSent, es, c);
      PreparedApart(q, cut, c);
      if c in p.peerSent && q'.peerSent[c] == p.peerSent[c] {
        CoveredAfter(q, cut, remote, c, isBlock, 0);
      } else {
        var k :| 0 <= k < |es| && es[k].cid == c && es[k] == q'.peerSent[c];
        TakenPeer(cut, k);
        CoveredAfter(q, cut, remote, c, isBlock, |cut.cancels| + k);
      }
    }
    forall c | c in q'.bcstSent
      ensures c in r && (q'.bcstSent[c].wantType == WANT_BLOCK ==> r[c].wantType == WANT_BLOCK)
    {
      var es := cut.bcsts[..cut.SentBcsts()];
      AbsorbedFromAt(p.bcstSent, es, c);
      PreparedApart(q, cut, c);
      SentBcstIsHave(q', c);
      if c in p.bcstSent {
        CoveredAfter(q, cut, remote, c, false, 0);
      } else {
        var k :| 0 <= k < |es| && es[k].cid == c && es[k] == q'.bcstSent[c];
        TakenBcst(cut, k);
        CoveredAfter(q, cut, remote, c, false, |cut.cancels| + |cut.peers| + k);
      }
    }
  }

  lemma SentBcstIsHave(q: Q, c: Cid)
    requires Inv(q) && c in q.bcstSent
    ensures q.bcstSent[c].wantType == WANT_HAVE
  {
  }

  /** A sent key, or one of a taken want, is not pending cancellation. */
  lemma PreparedApart(q: Q, cut: Cut, c: Cid)
    requires Inv(q) && Inv(Extracted(q, cut))
    requires IsListing(cut.cancels, q.cancels)
    requires SortedListing(cut.peers, Prepared(q, cut.supportsHave).peerPending)
             && SortedListing(cut.bcsts, q.bcstPending)
    requires c in Extracted(q, cut).peerSent || c in Extracted(q, cut).bcstSent
    ensures c !in q.cancels
  {
    hide AbsorbedFrom, IsListing, Elems, CidsOf, Prepared, Descending;
    var p := Prepared(q, cut.supportsHave);
    PreparedKeeps(q, cut.supportsHave);
    AbsorbedFromAt(p.peerSent, cut.peers[..cut.SentPeers()], c);
    AbsorbedFromAt(p.bcstSent, cut.bcsts[..cut.SentBcsts()], c);
  }

  // ---------- runs ----------

  datatype Op =
    | OpWants(blocks: seq<Cid>, haves: seq<Cid>)
    | OpBroadcast(ks: seq<Cid>)
    | OpCancels(ks: seq<Cid>)
    | OpRebroadcast
    | OpSend(cut: Cut)

  datatype World = World(q: Q, remote: WantMap)

  ghost predicate Enabled(w: World, op: Op, max: int) {
    op.OpSend? ==> CutOf(w.q, op.cut, max)
  }

  ghost function Step(w: World, op: Op, max: int): World
    requires Enabled(w, op, max)
  {
    match op
    case OpWants(bs, hs) => w.(q := AddPeerWants(AddPeerWants(w.q, hs, WANT_HAVE), bs, WANT_BLOCK))
    case OpBroadcast(ks) => w.(q := AddBroadcastWants(w.q, ks))
    case OpCancels(ks) => w.(q := AddCancelAll(w.q, ks))
    case OpRebroadcast => w.(q := Rebroadcast(w.q))
    case OpSend(cut) => World(Extracted(w.q, cut), Applied(w.remote, Message(cut)))
  }

  lemma StepKeepsSynced(w: World, op: Op, max: int)
    requires Synced(w.q, w.remote) && Enabled(w, op, max)
    ensures Synced(Step(w, op, max).q, Step(w, op, max).remote)
  {
    hide Synced, Extracted, Applied, AddPeerWants, AddBroadcastWants, AddCancelAll, Rebroadcast;
    match op
    case OpWants(bs, hs) =>
      AddPeerWantsKeeps(w.q, hs, WANT_HAVE, w.remote);
      AddPeerWantsKeeps(AddPeerWants(w.q, hs, WANT_HAVE), bs, WANT_BLOCK, w.remote);
    case OpBroadcast(ks) => AddBroadcastWantsKeeps(w.q, ks, w.remote);
    case OpCancels(ks) => AddCancelAllKeeps(w.q, ks, w.remote);
    case OpRebroadcast => RebroadcastKeeps(w.q, w.remote);
    case OpSend(cut) => ExtractionKeepsSynced(w.q, cut, max, w.remote);
  }

  ghost predicate IsRun(worlds: seq<World>, ops: seq<Op>, max: int) {
    && |worlds| == |ops| + 1
    && worlds[0] == World(EMPTY, map[])
    && forall i :: 0 <= i < |ops| ==> Enabled(worlds[i], ops[i], max) && worlds[i + 1] == Step(worlds[i], ops[i], max)
  }

  /**
   Over every run with each send atomic, across new wants, upgrades, cancels and
   rebroadcasts: the remote holds every want recorded as sent, with at least the
   type it was sent with, and pending cancels are apart from all wants.
   */
  lemma {:induction false} RunKeepsSynced(worlds: seq<World>, ops: seq<Op>, max: int, i: nat)
    requires IsRun(worlds, ops, max) && i < |worlds|
    ensures Synced(worlds[i].q, worlds[i].remote)
  {
    hide Step, Enabled;
    if i != 0 {
      RunKeepsSynced(worlds, ops, max, i - 1);
      StepKeepsSynced(worlds[i - 1], ops[i - 1], max);
    }
  }

  // ---------- extraction conserves and drains ----------

  /** `c` went into the message as a want and moved from pending to sent. */
  ghost predicate MovedWant(pending: WantMap, pending': WantMap, sent': WantMap, msg: MsgWants, c: Cid) {
    c in pending && c !in pending' && c in sent' && c in msg && !msg[c].cancel
  }

  ghost predicate StillPending(pending: WantMap, pending': WantMap, c: Cid) {
    c in pending && c in pending' && pending'[c] == pending[c]
  }

  /**
   Every pending peer want is sent and recorded as sent, or still pending as it
   was, or a want-have dropped for an old peer; nothing else becomes pending.
   */
  lemma PeerWantsConserved(q: Q, cut: Cut, max: int, c: Cid)
    requires Inv(q) && CutOf(q, cut, max)
    ensures var q' := Extracted(q, cut);
            && (c in q.peerPending ==>
                  || MovedWant(q.peerPending, q'.peerPending, q'.peerSent, Message(cut), c)
                  || StillPending(q.peerPending, q'.peerPending, c)
                  || (!cut.supportsHave && q.peerPending[c].wantType == WANT_HAVE && c !in q'.peerPending))
            && (c in q'.peerPending ==> StillPending(q.peerPending, q'.peerPending, c))
  {
    hide Cut.Items, MsgOf, AbsorbedFrom, IsCut, Elems, Distinct, Descending;
    var p, es := Prepared(q, cut.supportsHave), cut.peers[..cut.SentPeers()];
    PreparedKeeps(q, cut.supportsHave);
    if e :| e in es && e.cid == c {
      var k :| 0 <= k < |es| && es[k] == e;
      IsCutBound(cut, max);
      AbsorbedFromAt(p.peerSent, es, c);
      TakenPeer(cut, k);
      MsgKeys(cut.Items()[..cut.n], cut.supportsHave);
      assert cut.Items()[..cut.n][|cut.cancels| + k].Key() == c;
      WantedIsNotCancelled(q, cut, c);
    }
  }

  lemma IsCutBound(cut: Cut, max: int)
    requires IsCut(cut.Items(), cut.supportsHave, max, cut.n)
    ensures cut.n <= |cut.Items()|
  {
  }

  lemma BcstWantsConserved(q: Q, cut: Cut, max: int, c: Cid)
    requires Inv(q) && CutOf(q, cut, max)
    ensures var q' := Extracted(q, cut);
            && (c in q.bcstPending ==>
                  || MovedWant(q.bcstPending, q'.bcstPending, q'.bcstSent, Message(cut), c)
                  || StillPending(q.bcstPending, q'.bcstPending, c))
            && (c in q'.bcstPending ==> StillPending(q.bcstPending, q'.bcstPending, c))
  {
    hide Cut.Items, MsgOf, AbsorbedFrom, IsCut, Elems, Distinct, Descending;
    var p, es := Prepared(q, cut.supportsHave), cut.bcsts[..cut.SentBcsts()];
    PreparedKeeps(q, cut.supportsHave);
    if e :| e in es && e.cid == c {
      var k :| 0 <= k < |es| && es[k] == e;
      IsCutBound(cut, max);
      AbsorbedFromAt(p.bcstSent, es, c);
      TakenBcst(cut, k);
      MsgKeys(cut.Items()[..cut.n], cut.supportsHave);
      assert cut.Items()[..cut.n][|cut.cancels| + |cut.peers| + k].Key() == c;
      WantedIsNotCancelled(q, cut, c);
    }
  }

  /** A pending cancel is in the message and cleared, or still pending; no cancel appears. */
  lemma CancelsConserved(q: Q, cut: Cut, max: int, c: Cid)
    requires Inv(q) && CutOf(q, cut, max)
    ensures var q' := Extracted(q, cut);
            && (c in q.cancels && c !in q'.cancels ==> c in Message(cut) && Message(cut)[c].cancel)
            && (c in q'.cancels ==> c in q.cancels)
            && (c in Message(cut) && Message(cut)[c].cancel ==> c in q.cancels && c !in q'.cancels)
  {
    hide Cut.Items, MsgOf, AbsorbedFrom, IsCut, SortedListing, CidsOf;
    IsCutBound(cut, max);
    PreparedKeeps(q, cut.supportsHave);
    var items, taken := cut.Items()[..cut.n], cut.cancels[..cut.SentCancels()];
    MsgKeys(items, cut.supportsHave);
    if c in taken {
      var k :| 0 <= k < |taken| && taken[k] == c;
      TakenCancel(cut, k);
      assert items[k].Key() == c;
      MsgCancels(items, cut.supportsHave, c);
    }
    if c in Message(cut) && Message(cut)[c].cancel {
      MsgCancels(items, cut.supportsHave, c);
      var k :| 0 <= k < |items| && items[k] == CancelItem(c);
      TakenIs(cut, k);
      assert taken[k] == c && c in Elems(cut.cancels);
    }
  }

  /** Nothing is in the message but what was pending. */
  lemma MessageIsFromPending(q: Q, cut: Cut, max: int, c: Cid)
    requires Inv(q) && CutOf(q, cut, max) && c in Message(cut)
    ensures c in q.cancels || c in q.peerPending || c in q.bcstPending
  {
    hide Cut.Items, MsgOf, IsCut, Descending;
    IsCutBound(cut, max);
    PreparedKeeps(q, cut.supportsHave);
    var items := cut.Items()[..cut.n];
    MsgKeys(items, cut.supportsHave);
    var k :| 0 <= k < |items| && items[k].Key() == c;
    TakenIs(cut, k);
    if k < |cut.cancels| {
      assert c in Elems(cut.cancels);
    }
  }

  /** While a cancel is left behind, the message holds cancels only and no want has moved. */
  lemma CancelsGoFirst(q: Q, cut: Cut, max: int, c: Cid)
    requires Inv(q) && CutOf(q, cut, max) && c in Extracted(q, cut).cancels
    ensures forall d :: d in Message(cut) ==> Message(cut)[d].cancel
    ensures Extracted(q, cut).peerPending == Prepared(q, cut.supportsHave).peerPending
    ensures Extracted(q, cut).bcstPending == q.bcstPending
  {
    hide Cut.Items, MsgOf, AbsorbedFrom, SortedListing, Prepared, IsCut;
    IsCutBound(cut, max);
    PreparedKeeps(q, cut.supportsHave);
    NotAllTaken(cut.cancels, q.cancels, cut.SentCancels(), c);
    assert CidsOf([]) == {} && cut.peers[..0] == [] && cut.bcsts[..0] == [];
    var items := cut.Items()[..cut.n];
    forall d | d in Message(cut)
      ensures Message(cut)[d].cancel
    {
      MsgKeys(items, cut.supportsHave);
      var k :| 0 <= k < |items| && items[k].Key() == d;
      TakenIs(cut, k);
      MsgCancels(items, cut.supportsHave, d);
    }
  }

  lemma NotAllTaken(cs: seq<Cid>, s: set<Cid>, n: nat, c: Cid)
    requires IsListing(cs, s) && n <= |cs| && c in s - Elems(cs[..n])
    ensures n < |cs|
  {
    assert cs[..|cs|] == cs;
  }

  /**
   While a peer want is left behind, no broadcast want has moved, and no peer want of lower
   priority has.
   */
  lemma PeerWantsGoByPriority(q: Q, cut: Cut, max: int, c: Cid, d: Cid)
    requires Inv(q) && CutOf(q, cut, max)
    requires var p, q' := Prepared(q, cut.supportsHave), Extracted(q, cut);
             c in q'.peerPending && d in p.peerPending && d !in q'.peerPending
    ensures Extracted(q, cut).bcstPending == q.bcstPending
    ensures q.peerPending[d].priority >= q.peerPending[c].priority
  {
    hide Cut.Items, MsgOf, AbsorbedFrom, Prepared, IsCut, IsListing;
    var p, n := Prepared(q, cut.supportsHave), cut.SentPeers();
    PreparedKeeps(q, cut.supportsHave);
    LeftBehind(cut.peers, p.peerPending, n, c, d);
    assert CidsOf([]) == {} && cut.bcsts[..0] == [];
  }

  /** While a broadcast want is left behind, none of lower priority has moved. */
  lemma BcstWantsGoByPriority(q: Q, cut: Cut, max: int, c: Cid, d: Cid)
    requires Inv(q) && CutOf(q, cut, max)
    requires c in Extracted(q, cut).bcstPending && d in q.bcstPending && d !in Extracted(q, cut).bcstPending
    ensures q.bcstPending[d].priority >= q.bcstPending[c].priority
  {
    hide Cut.Items, MsgOf, AbsorbedFrom, Prepared, IsCut, IsListing, Descending, ListsMap;
    PreparedKeeps(q, cut.supportsHave);
    LeftBehind(cut.bcsts, q.bcstPending, cut.SentBcsts(), c, d);
  }

  lemma FirstOnesListed(es: seq<Entry>, n: nat)
    requires n <= |es|
    ensures forall i :: 0 <= i < n ==> es[i].cid in CidsOf(es[..n])
  {
    assert forall i :: 0 <= i < n ==> es[i] in es[..n];
  }

  lemma LeftBehind(es: seq<Entry>, m: WantMap, n: nat, c: Cid, d: Cid)
    requires SortedListing(es, m) && Keyed(m) && n <= |es|
    requires c in m - CidsOf(es[..n]) && d in m && d in CidsOf(es[..n])
    ensures n < |es| && m[d].priority >= m[c].priority
  {
    FirstOnesListed(es, n);
    var i :| 0 <= i < |es| && es[i] == m[c];
    var e :| e in es[..n] && e.cid == d;
    var j :| 0 <= j < n && es[j] == e;
  }

  ghost function WorkCount(q: Q): nat {
    |q.bcstPending| + |q.peerPending| + |q.cancels|
  }

  lemma SubsetSizes<T>(a: set<T>, b: set<T>, x: T)
    requires a <= b
    ensures |a| <= |b|
    ensures x in b && x !in a ==> |a| < |b|
  {
    assert b == a + (b - a);
    if x in b && x !in a {
      assert x in b - a;
    }
  }

  /** As long as there is work, every extraction reduces it. */
  lemma ExtractionDrains(q: Q, cut: Cut, max: int)
    requires Inv(q) && CutOf(q, cut, max) && WorkCount(q) > 0
    ensures WorkCount(Extracted(q, cut)) < WorkCount(q)
  {
    hide Extracted, Message, Cut.Items, Inv, IsCut, SortedListing, IsListing, Prepared, AddTo;
    var q' := Extracted(q, cut);
    WorkOnlyShrinks(q, cut, max);
    var c := SomethingGoes(q, cut, max);
    SubsetSizes(q'.peerPending.Keys, q.peerPending.Keys, c);
    SubsetSizes(q'.bcstPending.Keys, q.bcstPending.Keys, c);
    SubsetSizes(q'.cancels, q.cancels, c);
    SizeIsKeys(q.peerPending);
    SizeIsKeys(q'.peerPending);
    SizeIsKeys(q.bcstPending);
    SizeIsKeys(q'.bcstPending);
  }

  lemma SizeIsKeys(m: WantMap)
    ensures |m| == |m.Keys|
  {
  }

  lemma WorkOnlyShrinks(q: Q, cut: Cut, max: int)
    requires Inv(q) && CutOf(q, cut, max)
    ensures var q' := Extracted(q, cut);
            q'.peerPending.Keys <= q.peerPending.Keys && q'.bcstPending.Keys <= q.bcstPending.Keys
            && q'.cancels <= q.cancels
  {
    hide AbsorbedFrom, Cut.Items, IsCut, SortedListing, IsListing, Elems, CidsOf, Prepared;
    PreparedKeeps(q, cut.supportsHave);
  }

  /** Some key of pending work is taken or dropped. */
  lemma SomethingGoes(q: Q, cut: Cut, max: int) returns (c: Cid)
    requires Inv(q) && CutOf(q, cut, max) && WorkCount(q) > 0
    ensures var q' := Extracted(q, cut);
            || (c in q.peerPending && c !in q'.peerPending)
            || (c in q.bcstPending && c !in q'.bcstPending)
            || (c in q.cancels && c !in q'.cancels)
  {
    hide AbsorbedFrom, Cut.Items, IsCut, Inv, Prepared, SortedListing, IsListing, CidsOf, Elems, WorkCount;
    PreparedKeeps(q, cut.supportsHave);
    FirstIsTaken(cut, max);
    if |cut.cancels| > 0 {
      c := cut.cancels[0];
      FirstListed(cut.cancels, q.cancels, cut.SentCancels());
    } else if |cut.peers| > 0 {
      c := cut.peers[0].cid;
      FirstEntry(cut.peers, Prepared(q, cut.supportsHave).peerPending, cut.SentPeers());
    } else if |cut.bcsts| > 0 {
      c := cut.bcsts[0].cid;
      FirstEntry(cut.bcsts, q.bcstPending, cut.SentBcsts());
    } else {
      c := OnlyHavesLeft(q, cut);
    }
  }

  lemma FirstIsTaken(cut: Cut, max: int)
    requires IsCut(cut.Items(), cut.supportsHave, max, cut.n)
    ensures |cut.cancels| + |cut.peers| + |cut.bcsts| > 0 ==> cut.n > 0
  {
    hide SizeOf;
  }

  lemma FirstListed(cs: seq<Cid>, s: set<Cid>, n: nat)
    requires IsListing(cs, s) && 0 < n <= |cs|
    ensures cs[0] in s && cs[0] in Elems(cs[..n])
  {
    assert cs[..n][0] == cs[0] && cs[0] in Elems(cs);
  }

  lemma FirstEntry(es: seq<Entry>, m: WantMap, n: nat)
    requires SortedListing(es, m) && 0 < n <= |es|
    ensures es[0].cid in m && es[0].cid in CidsOf(es[..n])
  {
    assert es[..n][0] == es[0];
  }

  lemma OnlyHavesLeft(q: Q, cut: Cut) returns (c: Cid)
    requires WorkCount(q) > 0 && cut.cancels == [] && cut.peers == [] && cut.bcsts == []
    requires IsListing(cut.cancels, q.cancels)
    requires SortedListing(cut.peers, Prepared(q, cut.supportsHave).peerPending)
             && SortedListing(cut.bcsts, q.bcstPending)
    ensures c in q.peerPending && c !in Prepared(q, cut.supportsHave).peerPending
    ensures Extracted(q, cut).peerPending.Keys <= Prepared(q, cut.supportsHave).peerPending.Keys
  {
    hide AbsorbedFrom, Descending;
    assert q.cancels == {} && q.bcstPending == map[] && Prepared(q, cut.supportsHave).peerPending == map[];
    assert q.peerPending.Keys != {};
    c :| c in q.peerPending.Keys;
  }
}
