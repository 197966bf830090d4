/**
 What the message queue of one peer puts on the wire, entry by entry, and what recording wants
 makes pending: stated from the lists of wants, without the functions that build them.
 */
module QueueMessages {
  import opened Types
  import opened Wantlists
  import opened QueueModel
  import BM = BitswapMessages

  // ---------- the entries of a message ----------

  /** Items for other keys leave the entry of a key alone. */
  lemma {:induction false} OthersLeaveAlone(items: seq<Item>, supportsHave: bool, k: nat, c: Cid)
    requires k <= |items| && forall j :: k <= j < |items| ==> items[j].Key() != c
    ensures c in MsgOf(items, supportsHave) <==> c in MsgOf(items[..k], supportsHave)
    ensures c in MsgOf(items, supportsHave) ==> MsgOf(items, supportsHave)[c] == MsgOf(items[..k], supportsHave)[c]
  {
    if k < |items| {
      var n := |items| - 1;
      OthersLeaveAlone(items[..n], supportsHave, k, c);
      assert items[..n][..k] == items[..k];
    } else {
      assert items[..k] == items;
    }
  }

  lemma NoItemNoEntry(items: seq<Item>, supportsHave: bool, c: Cid)
    requires forall j :: 0 <= j < |items| ==> items[j].Key() != c
    ensures c !in MsgOf(items, supportsHave)
  {
    OthersLeaveAlone(items, supportsHave, 0, c);
    assert items[..0] == [];
  }

  /** The only item for a key. */
  lemma OneItem(items: seq<Item>, supportsHave: bool, i: nat)
    requires i < |items| && forall j :: 0 <= j < |items| && j != i ==> items[j].Key() != items[i].Key()
    ensures items[i].Key() in MsgOf(items, supportsHave)
    ensures MsgOf(items, supportsHave)[items[i].Key()] == items[i].Wire(supportsHave)
  {
    var c := items[i].Key();
    NoItemNoEntry(items[..i], supportsHave, c);
    OthersLeaveAlone(items, supportsHave, i + 1, c);
    assert items[..i + 1][..i] == items[..i] && items[..i + 1][i] == items[i];
  }

  /** The only two items for a key. */
  lemma TwoItems(items: seq<Item>, supportsHave: bool, i: nat, j: nat)
    requires i < j < |items| && items[i].Key() == items[j].Key()
    requires forall k :: 0 <= k < |items| && k != i && k != j ==> items[k].Key() != items[i].Key()
    ensures items[i].Key() in MsgOf(items, supportsHave)
    ensures var w := items[j].Wire(supportsHave);
            MsgOf(items, supportsHave)[items[i].Key()]
            == BM.MergeEntry(items[i].Wire(supportsHave), w.want.priority, w.cancel, w.want.wantType, w.sendDontHave)
  {
    var c := items[i].Key();
    forall k | 0 <= k < j && k != i
      ensures items[..j][k].Key() != c
    {
    }
    OneItem(items[..j], supportsHave, i);
    OthersLeaveAlone(items, supportsHave, j + 1, c);
    assert items[..j + 1][..j] == items[..j] && items[..j + 1][j] == items[j];
  }

  /** The taken wants of a list are those that are pending no more. */
  lemma TakenAt(es: seq<Entry>, m: WantMap, n: nat, c: Cid) returns (i: nat)
    requires SortedListing(es, m) && Keyed(m) && n <= |es| && c in m
    ensures i < |es| && es[i] == m[c] && es[i].cid == c && (i < n <==> c !in m - CidsOf(es[..n]))
    ensures forall j :: 0 <= j < |es| && j != i ==> es[j].cid != c
  {
    hide Descending;
    i :| 0 <= i < |es| && es[i] == m[c];
    if i < n {
      assert es[i] in es[..n];
    } else {
      forall e | e in es[..n]
        ensures e.cid != c
      {
        var j :| 0 <= j < n && es[j] == e;
      }
    }
  }

  /** Which items of a cut have a given key. */
  lemma ItemsFor(q: Q, cut: Cut, max: int, c: Cid, k: nat)
    requires Inv(q) && CutOf(q, cut, max) && cut.n <= |cut.Items()| && k < cut.n && cut.Items()[..cut.n][k].Key() == c
    ensures var nc, np := |cut.cancels|, |cut.peers|;
            if k < nc then cut.cancels[k] == c && c in q.cancels
            else if k < nc + np then
              k - nc < cut.SentPeers() && cut.peers[k - nc].cid == c && c in Prepared(q, cut.supportsHave).peerPending
            else k - nc - np < cut.SentBcsts() && cut.bcsts[k - nc - np].cid == c && c in q.bcstPending
  {
    hide Cut.Items, MsgOf, IsCut, Descending, Prepared;
    TakenIs(cut, k);
    if k < |cut.cancels| {
      assert c in Elems(cut.cancels);
    }
  }

  /** The entry of a want that is taken from the peer's list alone. */
  lemma PeerEntry(q: Q, cut: Cut, max: int, c: Cid, i: nat)
    requires Inv(q) && CutOf(q, cut, max) && cut.n <= |cut.Items()|
    requires i < cut.SentPeers() && cut.peers[i].cid == c
    requires forall j :: 0 <= j < cut.SentBcsts() ==> cut.bcsts[j].cid != c
    ensures c in Message(cut) && Message(cut)[c] == PeerItem(cut.peers[i]).Wire(cut.supportsHave)
  {
    hide MsgOf, Item.Wire, Cut.Items, IsCut, Prepared;
    TakenPeer(cut, i);
    var items := cut.Items()[..cut.n];
    PreparedKeeps(q, cut.supportsHave);
    forall k | 0 <= k < |items| && k != |cut.cancels| + i
      ensures items[k].Key() != c
    {
      if items[k].Key() == c {
        ItemsFor(q, cut, max, c, k);
      }
    }
    OneItem(items, cut.supportsHave, |cut.cancels| + i);
  }

  /** The entry of a want that is taken from the broadcast list alone. */
  lemma BcstEntry(q: Q, cut: Cut, max: int, c: Cid, j: nat)
    requires Inv(q) && CutOf(q, cut, max) && cut.n <= |cut.Items()|
    requires j < cut.SentBcsts() && cut.bcsts[j].cid == c
    requires forall i :: 0 <= i < cut.SentPeers() ==> cut.peers[i].cid != c
    ensures c in Message(cut) && Message(cut)[c] == BcstItem(cut.bcsts[j]).Wire(cut.supportsHave)
  {
    hide MsgOf, Item.Wire, Cut.Items, IsCut, Prepared;
    TakenBcst(cut, j);
    var items := cut.Items()[..cut.n];
    PreparedKeeps(q, cut.supportsHave);
    forall k | 0 <= k < |items| && k != |cut.cancels| + |cut.peers| + j
      ensures items[k].Key() != c
    {
      if items[k].Key() == c {
        ItemsFor(q, cut, max, c, k);
      }
    }
    OneItem(items, cut.supportsHave, |cut.cancels| + |cut.peers| + j);
  }

  /** The entry of a want that is taken from both lists. */
  lemma MergedEntry(q: Q, cut: Cut, max: int, c: Cid, i: nat, j: nat)
    requires Inv(q) && CutOf(q, cut, max) && cut.n <= |cut.Items()|
    requires i < cut.SentPeers() && cut.peers[i].cid == c && j < cut.SentBcsts() && cut.bcsts[j].cid == c
    ensures c in Message(cut)
    ensures var w := BcstItem(cut.bcsts[j]).Wire(cut.supportsHave);
            Message(cut)[c] == BM.MergeEntry(PeerItem(cut.peers[i]).Wire(cut.supportsHave), w.want.priority, w.cancel,
                                             w.want.wantType, w.sendDontHave)
  {
    hide MsgOf, Item.Wire, Cut.Items, IsCut, Prepared, BM.MergeEntry;
    TakenPeer(cut, i);
    TakenBcst(cut, j);
    var items := cut.Items()[..cut.n];
    var a, b := |cut.cancels| + i, |cut.cancels| + |cut.peers| + j;
    PreparedKeeps(q, cut.supportsHave);
    forall k | 0 <= k < |items| && k != a && k != b
      ensures items[k].Key() != c
    {
      if items[k].Key() == c {
        ItemsFor(q, cut, max, c, k);
      }
    }
    TwoItems(items, cut.supportsHave, a, b);
  }

  /** The entry of a cancel. */
  lemma CancelEntry(q: Q, cut: Cut, max: int, c: Cid, i: nat)
    requires Inv(q) && CutOf(q, cut, max) && cut.n <= |cut.Items()| && i < cut.SentCancels() && cut.cancels[i] == c
    ensures c in Message(cut) && Message(cut)[c] == CancelItem(c).Wire(cut.supportsHave)
  {
    hide MsgOf, Item.Wire, Cut.Items, IsCut, Prepared, Descending;
    TakenCancel(cut, i);
    var items := cut.Items()[..cut.n];
    PreparedKeeps(q, cut.supportsHave);
    assert c in Elems(cut.cancels);
    forall k | 0 <= k < |items| && k != i
      ensures items[k].Key() != c
    {
      if items[k].Key() == c {
        ItemsFor(q, cut, max, c, k);
      }
    }
    OneItem(items, cut.supportsHave, i);
  }

  /** What the extraction takes of a key. */
  datatype Taken = Taken(cancelled: bool, fromPeer: bool, fromBcst: bool)

  ghost function TakenOf(q: Q, cut: Cut, c: Cid): Taken {
    var q' := Extracted(q, cut);
    Taken(c in q.cancels && c !in q'.cancels,
          c in q.peerPending && c !in q'.peerPending && (cut.supportsHave || q.peerPending[c].wantType != WANT_HAVE),
          c in q.bcstPending && c !in q'.bcstPending)
  }

  lemma TakenCancelAt(q: Q, cut: Cut, max: int, c: Cid) returns (i: nat)
    requires Inv(q) && CutOf(q, cut, max) && TakenOf(q, cut, c).cancelled
    ensures i < cut.SentCancels() && cut.cancels[i] == c
  {
    hide Cut.Items, IsCut, SortedListing, Prepared, Distinct, AbsorbedFrom, CidsOf;
    PreparedKeeps(q, cut.supportsHave);
    var taken := cut.cancels[..cut.SentCancels()];
    assert c in Elems(taken);
    i :| 0 <= i < |taken| && taken[i] == c;
  }

  lemma TakenPeerAt(q: Q, cut: Cut, max: int, c: Cid) returns (i: nat)
    requires Inv(q) && CutOf(q, cut, max) && c in q.peerPending
    requires cut.supportsHave || q.peerPending[c].wantType != WANT_HAVE
    ensures i < |cut.peers| && cut.peers[i] == q.peerPending[c] && cut.peers[i].cid == c
    ensures i < cut.SentPeers() <==> TakenOf(q, cut, c).fromPeer
    ensures forall j :: 0 <= j < |cut.peers| && j != i ==> cut.peers[j].cid != c
  {
    hide Cut.Items, IsCut, SortedListing, AbsorbedFrom, CidsOf, IsListing;
    PreparedKeeps(q, cut.supportsHave);
    i := TakenAt(cut.peers, Prepared(q, cut.supportsHave).peerPending, cut.SentPeers(), c);
  }

  lemma TakenBcstAt(q: Q, cut: Cut, max: int, c: Cid) returns (j: nat)
    requires Inv(q) && CutOf(q, cut, max) && c in q.bcstPending
    ensures j < |cut.bcsts| && cut.bcsts[j] == q.bcstPending[c] && cut.bcsts[j].cid == c
    ensures j < cut.SentBcsts() <==> TakenOf(q, cut, c).fromBcst
    ensures forall i :: 0 <= i < |cut.bcsts| && i != j ==> cut.bcsts[i].cid != c
  {
    hide Cut.Items, IsCut, SortedListing, AbsorbedFrom, CidsOf, IsListing, Prepared;
    PreparedKeeps(q, cut.supportsHave);
    j := TakenAt(cut.bcsts, q.bcstPending, cut.SentBcsts(), c);
  }

  lemma NotTakenFromPeer(q: Q, cut: Cut, max: int, c: Cid)
    requires Inv(q) && CutOf(q, cut, max) && !TakenOf(q, cut, c).fromPeer
    ensures forall i :: 0 <= i < cut.SentPeers() ==> cut.peers[i].cid != c
  {
    hide Cut.Items, IsCut, AbsorbedFrom, IsListing, Descending;
    FirstOnesListed(cut.peers, cut.SentPeers());
  }

  lemma NotTakenFromBcst(q: Q, cut: Cut, max: int, c: Cid)
    requires Inv(q) && CutOf(q, cut, max) && !TakenOf(q, cut, c).fromBcst
    ensures forall j :: 0 <= j < cut.SentBcsts() ==> cut.bcsts[j].cid != c
  {
    hide Cut.Items, IsCut, AbsorbedFrom, IsListing, Descending, Prepared;
    PreparedKeeps(q, cut.supportsHave);
    FirstOnesListed(cut.bcsts, cut.SentBcsts());
  }

  /**
   The entry of every key that an extraction takes, from the pending lists: a cancel; a peer want with
   its priority and type, asking for a DONT_HAVE; a broadcast want with its priority, as a want-have, or
   as a want-block for an old peer, not asking for a DONT_HAVE. A key in both lists keeps the peer want,
   with the priority of the broadcast if both are of one type.
   */
  lemma EntryOfTaken(q: Q, cut: Cut, max: int, c: Cid)
    requires Inv(q) && CutOf(q, cut, max)
    ensures cut.n <= |cut.Items()|
    ensures var t := TakenOf(q, cut, c);
            var bcstType := if cut.supportsHave then WANT_HAVE else WANT_BLOCK;
            && (t.cancelled ==>
                  c in Message(cut) && Message(cut)[c] == BM.Entry(Entry(c, 0, WANT_BLOCK), true, false))
            && (t.fromPeer && !t.fromBcst ==>
                  var e := q.peerPending[c];
                  c in Message(cut) && Message(cut)[c] == BM.Entry(Entry(c, e.priority, e.wantType), false, true))
            && (t.fromBcst && !t.fromPeer ==>
                  var e := q.bcstPending[c];
                  c in Message(cut) && Message(cut)[c] == BM.Entry(Entry(c, e.priority, bcstType), false, false))
            && (t.fromPeer && t.fromBcst ==>
                  var e := q.peerPending[c];
                  var priority := if e.wantType == bcstType then q.bcstPending[c].priority else e.priority;
                  c in Message(cut) && Message(cut)[c] == BM.Entry(Entry(c, priority, e.wantType), false, true))
  {
    hide MsgOf, Cut.Items, IsCut, Prepared, SortedListing, IsListing, Extracted, Message, TakenOf;
    IsCutBound(cut, max);
    var t := TakenOf(q, cut, c);
    if t.cancelled {
      var k := TakenCancelAt(q, cut, max, c);
      CancelEntry(q, cut, max, c, k);
    }
    if t.fromPeer && t.fromBcst {
      PendingAre(q, cut, c);
      var i := TakenPeerAt(q, cut, max, c);
      var j := TakenBcstAt(q, cut, max, c);
      MergedEntry(q, cut, max, c, i, j);
    } else if t.fromPeer {
      PendingAre(q, cut, c);
      var i := TakenPeerAt(q, cut, max, c);
      NotTakenFromBcst(q, cut, max, c);
      PeerEntry(q, cut, max, c, i);
    } else if t.fromBcst {
      PendingAre(q, cut, c);
      var j := TakenBcstAt(q, cut, max, c);
      NotTakenFromPeer(q, cut, max, c);
      BcstEntry(q, cut, max, c, j);
    }
  }

  lemma PendingAre(q: Q, cut: Cut, c: Cid)
    requires Inv(q)
    ensures var t := TakenOf(q, cut, c);
            && (t.fromPeer ==> c in q.peerPending && (cut.supportsHave || q.peerPending[c].wantType != WANT_HAVE)
                               && (q.peerPending[c].wantType == WANT_BLOCK || q.peerPending[c].wantType == WANT_HAVE))
            && (t.fromBcst ==> c in q.bcstPending)
  {
    hide Extracted;
  }

  /** Nothing else is in the message, so an old peer is sent no want-haves. */
  lemma OnlyTakenAreEntries(q: Q, cut: Cut, max: int, c: Cid)
    requires Inv(q) && CutOf(q, cut, max)
    ensures cut.n <= |cut.Items()|
    ensures var t := TakenOf(q, cut, c);
            c in Message(cut) <==> t.cancelled || t.fromPeer || t.fromBcst
    ensures c in Message(cut) && !cut.supportsHave ==> Message(cut)[c].want.wantType == WANT_BLOCK
  {
    hide MsgOf, Cut.Items, IsCut, Prepared, SortedListing, IsListing, Extracted, TakenOf;
    EntryOfTaken(q, cut, max, c);
    PendingAre(q, cut, c);
    var items := cut.Items()[..cut.n];
    MsgKeys(items, cut.supportsHave);
    if c in Message(cut) {
      var k :| 0 <= k < |items| && items[k].Key() == c;
      ItemsFor(q, cut, max, c, k);
      ItemIsTaken(q, cut, max, c, k);
    }
  }

  lemma ItemIsTaken(q: Q, cut: Cut, max: int, c: Cid, k: nat)
    requires Inv(q) && CutOf(q, cut, max) && cut.n <= |cut.Items()| && k < cut.n && cut.Items()[..cut.n][k].Key() == c
    ensures var t := TakenOf(q, cut, c);
            t.cancelled || t.fromPeer || t.fromBcst
  {
    hide MsgOf, Cut.Items, IsCut, AbsorbedFrom, Descending;
    ItemsFor(q, cut, max, c, k);
    PreparedKeeps(q, cut.supportsHave);
    TakenIs(cut, k);
    FirstOnesListed(cut.peers, cut.SentPeers());
    FirstOnesListed(cut.bcsts, cut.SentBcsts());
    if k < |cut.cancels| {
      assert cut.cancels[..cut.SentCancels()][k] == c;
    }
  }

  // ---------- what is recorded as sent ----------

  lemma {:induction false} AbsorbedOne(m: WantMap, es: seq<Entry>, i: nat)
    requires CidsDistinct(es) && i < |es|
    ensures var e := es[i];
            && e.cid in AbsorbedFrom(m, es)
            && AbsorbedFrom(m, es)[e.cid]
               == if e.cid in m && (m[e.cid].wantType == WANT_BLOCK || e.wantType == WANT_HAVE) then m[e.cid] else e
  {
    var n := |es| - 1;
    if i < n {
      AbsorbedOne(m, es[..n], i);
    } else {
      AbsorbedFromAt(m, es[..n], es[n].cid);
      AbsorbedOther(m, es[..n], es[n].cid);
    }
  }

  lemma {:induction false} AbsorbedOther(m: WantMap, es: seq<Entry>, c: Cid)
    requires forall i :: 0 <= i < |es| ==> es[i].cid != c
    ensures c in AbsorbedFrom(m, es) <==> c in m
    ensures c in m ==> AbsorbedFrom(m, es)[c] == m[c]
  {
    if es != [] {
      AbsorbedOther(m, es[..|es| - 1], c);
    }
  }

  lemma DistinctPart(es: seq<Entry>, m: WantMap, n: nat)
    requires SortedListing(es, m) && n <= |es|
    ensures CidsDistinct(es[..n])
  {
  }

  /** A peer want that is taken is recorded as sent as it was pending, unless it was sent in as strong a form. */
  lemma PeerSentAs(q: Q, cut: Cut, max: int, c: Cid)
    requires Inv(q) && CutOf(q, cut, max)
    ensures var q' := Extracted(q, cut);
            var before := c in q.peerSent && (|| cut.supportsHave || q.peerSent[c].wantType == WANT_BLOCK
                                              || !(c in q.peerPending && q.peerPending[c].wantType == WANT_HAVE));
            if TakenOf(q, cut, c).fromPeer then
              var e := q.peerPending[c];
              && c in q'.peerSent
              && q'.peerSent[c] == if before && (q.peerSent[c].wantType == WANT_BLOCK || e.wantType == WANT_HAVE)
                                   then q.peerSent[c] else e
            else (c in q'.peerSent <==> before) && (before ==> q'.peerSent[c] == q.peerSent[c])
  {
    hide Cut.Items, IsCut, AbsorbedFrom, IsListing, SortedListing, CidsOf;
    var p, es := Prepared(q, cut.supportsHave), cut.peers[..cut.SentPeers()];
    PreparedKeeps(q, cut.supportsHave);
    if TakenOf(q, cut, c).fromPeer {
      var i := TakenPeerAt(q, cut, max, c);
      DistinctPart(cut.peers, p.peerPending, cut.SentPeers());
      AbsorbedOne(p.peerSent, es, i);
    } else {
      NotTakenFromPeer(q, cut, max, c);
      AbsorbedOther(p.peerSent, es, c);
    }
  }

  /** A broadcast want that is taken is recorded as sent as it was pending, unless it was sent before. */
  lemma BcstSentAs(q: Q, cut: Cut, max: int, c: Cid)
    requires Inv(q) && CutOf(q, cut, max)
    ensures var q' := Extracted(q, cut);
            if TakenOf(q, cut, c).fromBcst then
              c in q'.bcstSent && q'.bcstSent[c] == if c in q.bcstSent then q.bcstSent[c] else q.bcstPending[c]
            else (c in q'.bcstSent <==> c in q.bcstSent) && (c in q.bcstSent ==> q'.bcstSent[c] == q.bcstSent[c])
  {
    hide Cut.Items, IsCut, AbsorbedFrom, IsListing, SortedListing, CidsOf, Prepared;
    var es := cut.bcsts[..cut.SentBcsts()];
    PreparedKeeps(q, cut.supportsHave);
    if TakenOf(q, cut, c).fromBcst {
      var j := TakenBcstAt(q, cut, max, c);
      DistinctPart(cut.bcsts, q.bcstPending, cut.SentBcsts());
      AbsorbedOne(q.bcstSent, es, j);
    } else {
      NotTakenFromBcst(q, cut, max, c);
      AbsorbedOther(q.bcstSent, es, c);
    }
  }

  // ---------- what recording wants makes pending ----------

  /** The `k`-th priority from `x` on, counting down and wrapping around as an int32. */
  function Down(x: Int32, k: nat): Int32 {
    (x + 0x8000_0000 - k) % 0x1_0000_0000 - 0x8000_0000
  }

  lemma DownNext(x: Int32, k: nat)
    ensures NextPriority(Down(x, k)) == Down(x, k + 1) && Down(x, 0) == x
  {
    var y := x + 0x8000_0000 - k;
    assert (y - 1) % 0x1_0000_0000 == if y % 0x1_0000_0000 == 0 then 0xffff_ffff else y % 0x1_0000_0000 - 1;
  }

  /** The position of the first `c`. */
  function FirstAt(ks: seq<Cid>, c: Cid): (i: nat)
    requires c in ks
    ensures i < |ks| && ks[i] == c && c !in ks[..i]
  {
    if ks[0] == c then 0
    else
      assert ks == [ks[0]] + ks[1..];
      var i := FirstAt(ks[1..], c);
      assert ks[..1 + i] == [ks[0]] + ks[1..][..i];
      1 + i
  }

  lemma FirstAtIs(ks: seq<Cid>, c: Cid, i: nat)
    requires i < |ks| && ks[i] == c && c !in ks[..i]
    ensures c in ks && FirstAt(ks, c) == i
  {
    var j := FirstAt(ks, c);
    assert ks[j] == c;
  }

  /** The entry of `c` when the keys are wanted one after the other, with falling priorities. */
  ghost function WantedEntry(before: WantMap, ks: seq<Cid>, wantType: Int32, priority: Int32, c: Cid): Option<Entry> {
    if c in before && (c !in ks || before[c].wantType == WANT_BLOCK || wantType == WANT_HAVE) then Some(before[c])
    else if c in ks then Some(Entry(c, Down(priority, FirstAt(ks, c)), wantType))
    else None
  }

  ghost predicate Holds(m: WantMap, c: Cid, want: Option<Entry>) {
    (c in m <==> want.Some?) && (c in m ==> m[c] == want.value)
  }

  lemma AddToHolds(before: WantMap, m: WantMap, ks: seq<Cid>, k: Cid, wantType: Int32, priority: Int32, c: Cid)
    requires Holds(m, c, WantedEntry(before, ks, wantType, priority, c))
    requires wantType == WANT_BLOCK || wantType == WANT_HAVE
    ensures Holds(AddTo(m, k, Down(priority, |ks|), wantType), c,
                  WantedEntry(before, ks + [k], wantType, priority, c))
  {
    hide Down;
    if c in ks {
      assert (ks + [k])[..FirstAt(ks, c)] == ks[..FirstAt(ks, c)];
      FirstAtIs(ks + [k], c, FirstAt(ks, c));
    } else if c == k {
      assert (ks + [k])[..|ks|] == ks;
      FirstAtIs(ks + [k], c, |ks|);
    }
  }

  lemma {:induction false} PeerWantsHold(q: Q, ks: seq<Cid>, wantType: Int32, c: Cid)
    requires wantType == WANT_BLOCK || wantType == WANT_HAVE
    ensures var r := AddPeerWants(q, ks, wantType);
            && r.priority == Down(q.priority, |ks|) && r.cancels == q.cancels - Elems(ks)
            && r.peerSent == q.peerSent && r.bcstPending == q.bcstPending && r.bcstSent == q.bcstSent
            && Holds(r.peerPending, c, WantedEntry(q.peerPending, ks, wantType, q.priority, c))
  {
    hide Down, AddTo, WantedEntry, Holds, NextPriority;
    if ks == [] {
      DownNext(q.priority, 0);
      NothingAdded(q.peerPending, wantType, q.priority, c);
    } else {
      var init, k := ks[..|ks| - 1], ks[|ks| - 1];
      PeerWantsHold(q, init, wantType, c);
      DownNext(q.priority, |init|);
      assert ks == init + [k] && Elems(ks) == Elems(init) + {k};
      AddToHolds(q.peerPending, AddPeerWants(q, init, wantType).peerPending, init, k, wantType, q.priority, c);
    }
  }

  lemma NothingAdded(m: WantMap, wantType: Int32, priority: Int32, c: Cid)
    ensures Holds(m, c, WantedEntry(m, [], wantType, priority, c))
  {
  }

  lemma {:induction false} BroadcastsHold(q: Q, ks: seq<Cid>, c: Cid)
    ensures var r := AddBroadcastWants(q, ks);
            && r.priority == Down(q.priority, |ks|) && r.cancels == q.cancels - Elems(ks)
            && r.bcstSent == q.bcstSent && r.peerPending == q.peerPending && r.peerSent == q.peerSent
            && Holds(r.bcstPending, c, WantedEntry(q.bcstPending, ks, WANT_HAVE, q.priority, c))
  {
    hide Down, AddTo, WantedEntry, Holds, NextPriority;
    if ks == [] {
      DownNext(q.priority, 0);
      NothingAdded(q.bcstPending, WANT_HAVE, q.priority, c);
    } else {
      var init, k := ks[..|ks| - 1], ks[|ks| - 1];
      BroadcastsHold(q, init, c);
      DownNext(q.priority, |init|);
      assert ks == init + [k] && Elems(ks) == Elems(init) + {k};
      AddToHolds(q.bcstPending, AddBroadcastWants(q, init).bcstPending, init, k, WANT_HAVE, q.priority, c);
    }
  }

  /**
   Recording want-blocks and want-haves: the given keys are pending, a key of `bs` as a want-block, a key
   of `hs` alone as a want-have unless it was pending already. A new entry has the next priority: the
   want-haves first, then the want-blocks. Cancels of the keys are withdrawn, and nothing else changes.
   */
  lemma WantsArePending(w: World, bs: seq<Cid>, hs: seq<Cid>, max: int, c: Cid)
    ensures var q, r := w.q, Step(w, OpWants(bs, hs), max).q;
            && r.peerSent == q.peerSent && r.bcstPending == q.bcstPending && r.bcstSent == q.bcstSent
            && r.cancels == q.cancels - Elems(hs) - Elems(bs) && r.priority == Down(q.priority, |hs| + |bs|)
            && (c in r.peerPending <==> c in q.peerPending || c in hs || c in bs)
            && (c in bs ==>
                  r.peerPending[c] == if c in q.peerPending && q.peerPending[c].wantType == WANT_BLOCK
                                      then q.peerPending[c]
                                      else Entry(c, Down(q.priority, |hs| + FirstAt(bs, c)), WANT_BLOCK))
            && (c in hs && c !in bs ==>
                  r.peerPending[c] == if c in q.peerPending then q.peerPending[c]
                                      else Entry(c, Down(q.priority, FirstAt(hs, c)), WANT_HAVE))
            && (c in q.peerPending && c !in hs && c !in bs ==> r.peerPending[c] == q.peerPending[c])
  {
    hide Down, AddPeerWants;
    var m := AddPeerWants(w.q, hs, WANT_HAVE);
    PeerWantsHold(w.q, hs, WANT_HAVE, c);
    PeerWantsHold(m, bs, WANT_BLOCK, c);
    DownTwice(w.q.priority, |hs|, |bs|);
    if c in bs {
      DownTwice(w.q.priority, |hs|, FirstAt(bs, c));
    }
  }

  lemma DownTwice(x: Int32, j: nat, k: nat)
    ensures Down(Down(x, j), k) == Down(x, j + k)
  {
    var y := x + 0x8000_0000 - j;
    ModMinus(y, k);
  }

  lemma ModMinus(y: int, k: int)
    ensures (y % 0x1_0000_0000 - k) % 0x1_0000_0000 == (y - k) % 0x1_0000_0000
  {
    var d := y / 0x1_0000_0000;
    assert y - k == (y % 0x1_0000_0000 - k) + d * 0x1_0000_0000;
    ModShift(y % 0x1_0000_0000 - k, d);
  }

  lemma {:induction false} ModShift(x: int, d: int)
    ensures (x + d * 0x1_0000_0000) % 0x1_0000_0000 == x % 0x1_0000_0000
    decreases if d < 0 then -d else d
  {
    if d > 0 {
      ModShift(x, d - 1);
    } else if d < 0 {
      ModShift(x, d + 1);
    }
  }

  /** Recording broadcast wants: the given keys are pending as want-haves, new ones with falling priorities. */
  lemma BroadcastsArePending(w: World, ks: seq<Cid>, max: int, c: Cid)
    ensures var q, r := w.q, Step(w, OpBroadcast(ks), max).q;
            && r.bcstSent == q.bcstSent && r.peerPending == q.peerPending && r.peerSent == q.peerSent
            && r.cancels == q.cancels - Elems(ks) && r.priority == Down(q.priority, |ks|)
            && (c in r.bcstPending <==> c in q.bcstPending || c in ks)
            && (c in q.bcstPending ==> r.bcstPending[c] == q.bcstPending[c])
            && (c in ks && c !in q.bcstPending ==>
                  r.bcstPending[c] == Entry(c, Down(q.priority, FirstAt(ks, c)), WANT_HAVE))
  {
    hide Down, AddBroadcastWants;
    BroadcastsHold(w.q, ks, c);
  }
}
