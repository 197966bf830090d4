/**
 The two locked parts of an extraction, on values. The first part lists what is
 pending; the message is built from the lists without the lock; the second part marks as
 sent what is still pending, and takes out of the message what changed in between. Runs
 may do anything between the two parts.
 */
module SplitExtraction {
  import opened Types
  import opened Wantlists
  import opened QueueModel
  import BM = BitswapMessages

  /** What marking a list of entries as sent does to the two maps and to the message. */
  datatype Marking = Marking(pending: WantMap, sent: WantMap, msg: MsgWants)

  function MarkAll(m: Marking, es: seq<Entry>): Marking {
    if es == [] then m
    else
      var b, e := MarkAll(m, es[..|es| - 1]), es[|es| - 1];
      if Removable(b.pending, e.cid, e.wantType) then
        b.(pending := b.pending - {e.cid}, sent := AddTo(b.sent, e.cid, e.priority, e.wantType))
      else b.(msg := b.msg - {e.cid})
  }

  /** The entries that were no longer pending are blanked. */
  ghost function Blanked(m: Marking, es: seq<Entry>): seq<Entry> {
    if es == [] then []
    else
      var init, e := es[..|es| - 1], es[|es| - 1];
      Blanked(m, init) + [if Removable(MarkAll(m, init).pending, e.cid, e.wantType) then e else e.(cid := UNDEF)]
  }

  function ClearAll(cancels: set<Cid>, msg: MsgWants, cs: seq<Cid>): (set<Cid>, MsgWants) {
    if cs == [] then (cancels, msg)
    else
      var b, c := ClearAll(cancels, msg, cs[..|cs| - 1]), cs[|cs| - 1];
      if c in b.0 then (b.0 - {c}, b.1) else (b.0, b.1 - {c})
  }

  /** The second locked part on values. */
  function Finished(q: Q, msg: MsgWants, peers: seq<Entry>, bcsts: seq<Entry>, cs: seq<Cid>): (Q, MsgWants) {
    var p := MarkAll(Marking(q.peerPending, q.peerSent, msg), peers);
    var b := MarkAll(Marking(q.bcstPending, q.bcstSent, p.msg), bcsts);
    var c := ClearAll(q.cancels, b.msg, cs);
    (Q(p.pending, p.sent, b.pending, b.sent, c.0, q.priority), c.1)
  }

  // ---------- the second part, when nothing ran in between ----------

  lemma {:induction false} MarkAllPending(m: Marking, es: seq<Entry>)
    requires forall k :: 0 <= k < |es| ==> es[k].cid in m.pending && m.pending[es[k].cid] == es[k]
    requires CidsDistinct(es)
    ensures MarkAll(m, es) == Marking(m.pending - CidsOf(es), AbsorbedFrom(m.sent, es), m.msg)
  {
    if es == [] {
      assert m.pending - CidsOf([]) == m.pending;
    } else {
      var n := |es| - 1;
      var e := es[n];
      assert forall k :: 0 <= k < n ==> es[..n][k] == es[k];
      MarkAllPending(m, es[..n]);
      assert e.cid !in CidsOf(es[..n]);
      assert CidsOf(es) == CidsOf(es[..n]) + {e.cid};
      assert m.pending - CidsOf(es[..n]) - {e.cid} == m.pending - CidsOf(es);
    }
  }

  lemma {:induction false} ClearAllPending(cancels: set<Cid>, msg: MsgWants, cs: seq<Cid>)
    requires Distinct(cs) && Elems(cs) <= cancels
    ensures ClearAll(cancels, msg, cs) == (cancels - Elems(cs), msg)
  {
    if cs == [] {
      assert cancels - Elems([]) == cancels;
    } else {
      var n := |cs| - 1;
      ElemsStep(cs, n);
      assert cs[..n + 1] == cs;
      ClearAllPending(cancels, msg, cs[..n]);
      assert cs[n] !in Elems(cs[..n]) && cs[n] in Elems(cs);
      assert cancels - Elems(cs[..n]) - {cs[n]} == cancels - Elems(cs);
    }
  }

  /** With each call atomic, no entry has changed: all are moved, and the message is kept whole. */
  lemma AtomicFinish(q: Q, cut: Cut, max: int)
    requires CutOf(q, cut, max)
    ensures Finished(Prepared(q, cut.supportsHave), Message(cut), cut.peers[..cut.SentPeers()],
                     cut.bcsts[..cut.SentBcsts()], cut.cancels[..cut.SentCancels()])
            == (Extracted(q, cut), Message(cut))
  {
    hide MarkAll, ClearAll, MsgOf, AbsorbedFrom, Cut.Items, IsCut, Descending, Prepared, CidsOf;
    IsCutBound(cut, max);
    PreparedRest(q, cut.supportsHave);
    var p, msg := Prepared(q, cut.supportsHave), Message(cut);
    MarkAllPending(Marking(p.peerPending, p.peerSent, msg), cut.peers[..cut.SentPeers()]);
    MarkAllPending(Marking(p.bcstPending, p.bcstSent, msg), cut.bcsts[..cut.SentBcsts()]);
    PrefixListing(cut.cancels, q.cancels, cut.SentCancels());
    ClearAllPending(p.cancels, msg, cut.cancels[..cut.SentCancels()]);
  }

  lemma PreparedRest(q: Q, supportsHave: bool)
    ensures var p := Prepared(q, supportsHave);
            && p.bcstPending == q.bcstPending && p.bcstSent == q.bcstSent
            && p.cancels == q.cancels && p.priority == q.priority
  {
  }

  lemma PrefixListing(cs: seq<Cid>, s: set<Cid>, n: nat)
    requires IsListing(cs, s) && n <= |cs|
    ensures Distinct(cs[..n]) && Elems(cs[..n]) <= s
  {
    assert forall c :: c in cs[..n] ==> c in Elems(cs);
  }

  /** Whatever changed in between, the second part keeps pending cancels apart from all wants. */
  lemma {:induction false} MarkAllKeeps(m: Marking, es: seq<Entry>, cancels: set<Cid>)
    requires Keyed(m.pending) && Keyed(m.sent) && KnownTypes(m.pending) && KnownTypes(m.sent)
    requires forall k :: 0 <= k < |es| ==> es[k].wantType == WANT_BLOCK || es[k].wantType == WANT_HAVE
    requires cancels !! m.pending.Keys + m.sent.Keys
    ensures var r := MarkAll(m, es);
            && Keyed(r.pending) && Keyed(r.sent) && KnownTypes(r.pending) && KnownTypes(r.sent)
            && cancels !! r.pending.Keys + r.sent.Keys
            && (HavesOnly(m.pending) && HavesOnly(m.sent) && (forall k :: 0 <= k < |es| ==> es[k].wantType == WANT_HAVE)
                ==> HavesOnly(r.pending) && HavesOnly(r.sent))
  {
    if es != [] {
      assert forall k :: 0 <= k < |es| - 1 ==> es[..|es| - 1][k] == es[k];
      MarkAllKeeps(m, es[..|es| - 1], cancels);
    }
  }

  lemma {:induction false} ClearAllShrinks(cancels: set<Cid>, msg: MsgWants, cs: seq<Cid>)
    ensures ClearAll(cancels, msg, cs).0 <= cancels
  {
    if cs != [] {
      ClearAllShrinks(cancels, msg, cs[..|cs| - 1]);
    }
  }

  lemma FinishKeepsInv(q: Q, msg: MsgWants, peers: seq<Entry>, bcsts: seq<Entry>, cs: seq<Cid>)
    requires Inv(q)
    requires forall k :: 0 <= k < |peers| ==> peers[k].wantType == WANT_BLOCK || peers[k].wantType == WANT_HAVE
    requires forall k :: 0 <= k < |bcsts| ==> bcsts[k].wantType == WANT_HAVE
    ensures Inv(Finished(q, msg, peers, bcsts, cs).0)
  {
    hide MarkAll, ClearAll;
    HavesAreKnown(q.bcstPending);
    HavesAreKnown(q.bcstSent);
    var p := MarkAll(Marking(q.peerPending, q.peerSent, msg), peers);
    var b := MarkAll(Marking(q.bcstPending, q.bcstSent, p.msg), bcsts);
    MarkAllKeeps(Marking(q.peerPending, q.peerSent, msg), peers, q.cancels);
    MarkAllKeeps(Marking(q.bcstPending, q.bcstSent, p.msg), bcsts, q.cancels);
    ClearAllShrinks(q.cancels, b.msg, cs);
  }

  // ---------- the second part, whatever ran in between ----------

  /** The listed keys that are still pending as listed or better. */
  ghost function Marked(pending: WantMap, es: seq<Entry>): set<Cid> {
    set e | e in es && Removable(pending, e.cid, e.wantType) :: e.cid
  }

  /** The listed keys that changed. */
  ghost function Changed(pending: WantMap, es: seq<Entry>): set<Cid> {
    set e | e in es && !Removable(pending, e.cid, e.wantType) :: e.cid
  }

  lemma ListedOnce(pending: WantMap, es: seq<Entry>)
    requires CidsDistinct(es)
    ensures Marked(pending, es) !! Changed(pending, es) && Marked(pending, es) + Changed(pending, es) == CidsOf(es)
    ensures forall e, e' :: e in es && e' in es && e.cid == e'.cid ==> e == e'
  {
  }

  lemma ListOneMore(pending: WantMap, es: seq<Entry>)
    requires CidsDistinct(es) && es != []
    ensures var init, e := es[..|es| - 1], es[|es| - 1];
            && CidsDistinct(init) && e.cid !in CidsOf(init)
            && Marked(pending, es)
               == Marked(pending, init) + (if Removable(pending, e.cid, e.wantType) then {e.cid} else {})
            && Changed(pending, es)
               == Changed(pending, init) + (if Removable(pending, e.cid, e.wantType) then {} else {e.cid})
  {
    assert es == es[..|es| - 1] + [es[|es| - 1]];
  }

  /** What the sent list then holds for an entry. */
  ghost function SentAs(sent: WantMap, e: Entry): Entry {
    AddTo(sent, e.cid, e.priority, e.wantType)[e.cid]
  }

  /** What is still pending moves to the sent list, what changed leaves the message. */
  lemma {:induction false} MarkAllIs(m: Marking, es: seq<Entry>)
    requires CidsDistinct(es)
    ensures var r, marked := MarkAll(m, es), Marked(m.pending, es);
            && r.pending == m.pending - marked && r.msg == m.msg - Changed(m.pending, es)
            && r.sent.Keys == m.sent.Keys + marked
            && (forall c :: c in m.sent && c !in marked ==> r.sent[c] == m.sent[c])
            && (forall e :: e in es && e.cid in marked ==> r.sent[e.cid] == SentAs(m.sent, e))
  {
    hide AddTo, SentAs, Marked, Changed, CidsOf, CidsDistinct, Removable;
    if es == [] {
      assert Marked(m.pending, []) == {} && Changed(m.pending, []) == {} by { NothingListed(m.pending); }
      assert m.pending - {} == m.pending && m.msg - {} == m.msg;
    } else {
      var init, e := es[..|es| - 1], es[|es| - 1];
      ListOneMore(m.pending, es);
      MarkAllIs(m, init);
      MarkedAreListed(m.pending, init);
      StillRemovable(m.pending, Marked(m.pending, init), e);
      AddedAt(m.sent, MarkAll(m, init).sent, e);
      forall x | x in es && x.cid in Marked(m.pending, es)
        ensures MarkAll(m, es).sent[x.cid] == SentAs(m.sent, x)
      {
        if x.cid == e.cid {
          ListedOnce(m.pending, es);
        } else {
          assert x in init;
        }
      }
    }
  }

  /** An entry is blanked exactly if its want is gone by then, or was upgraded since it was listed. */
  lemma {:induction false} BlankedIs(m: Marking, es: seq<Entry>, i: nat)
    requires CidsDistinct(es) && i < |es|
    ensures |Blanked(m, es)| == |es|
    ensures var c := es[i].cid;
            Blanked(m, es)[i]
            == if c in m.pending && !(m.pending[c].wantType == WANT_BLOCK && es[i].wantType == WANT_HAVE) then es[i]
               else es[i].(cid := UNDEF)
  {
    hide MarkAll;
    var n := |es| - 1;
    BlankedLength(m, es);
    BlankedLength(m, es[..n]);
    if i < n {
      BlankedIs(m, es[..n], i);
    } else {
      MarkAllIs(m, es[..n]);
      assert forall e :: e in es[..n] ==> e.cid != es[n].cid;
    }
  }

  lemma {:induction false} BlankedLength(m: Marking, es: seq<Entry>)
    ensures |Blanked(m, es)| == |es|
  {
    if es != [] {
      BlankedLength(m, es[..|es| - 1]);
    }
  }

  lemma StillRemovable(pending: WantMap, gone: set<Cid>, e: Entry)
    requires e.cid !in gone
    ensures Removable(pending - gone, e.cid, e.wantType) <==> Removable(pending, e.cid, e.wantType)
  {
  }

  lemma NothingListed(pending: WantMap)
    ensures Marked(pending, []) == {} && Changed(pending, []) == {}
  {
  }

  lemma MarkedAreListed(pending: WantMap, es: seq<Entry>)
    ensures Marked(pending, es) <= CidsOf(es) && Changed(pending, es) <= CidsOf(es)
    ensures forall e :: e in es ==> e.cid in CidsOf(es)
  {
  }

  lemma AddedAt(sent: WantMap, sent': WantMap, e: Entry)
    requires e.cid in sent <==> e.cid in sent'
    requires e.cid in sent ==> sent'[e.cid] == sent[e.cid]
    ensures var r := AddTo(sent', e.cid, e.priority, e.wantType);
            && r.Keys == sent'.Keys + {e.cid} && r[e.cid] == SentAs(sent, e)
            && forall c :: c in sent' && c != e.cid ==> r[c] == sent'[c]
  {
  }

  lemma {:induction false} ClearAllIs(cancels: set<Cid>, msg: MsgWants, cs: seq<Cid>)
    requires Distinct(cs)
    ensures ClearAll(cancels, msg, cs) == (cancels - Elems(cs), msg - (Elems(cs) - cancels))
  {
    if cs == [] {
      assert cancels - Elems([]) == cancels && msg - (Elems([]) - cancels) == msg;
    } else {
      var n := |cs| - 1;
      ElemsStep(cs, n);
      assert cs[..n + 1] == cs;
      ClearAllIs(cancels, msg, cs[..n]);
      var done := Elems(cs[..n]);
      assert cs[n] !in done;
      assert cancels - done - {cs[n]} == cancels - Elems(cs);
      if cs[n] in cancels {
        assert Elems(cs) - cancels == done - cancels;
      } else {
        assert cancels - done == cancels - Elems(cs);
        assert msg - (done - cancels) - {cs[n]} == msg - (Elems(cs) - cancels);
      }
    }
  }

  // ---------- a message on its way ----------

  /** What the first part and the building of the message leave for the second part. */
  datatype Flight = Flight(msg: MsgWants, peers: seq<Entry>, bcsts: seq<Entry>, cs: seq<Cid>)

  ghost function FlightOf(cut: Cut): Flight
    requires cut.n <= |cut.Items()|
  {
    Flight(Message(cut), cut.peers[..cut.SentPeers()], cut.bcsts[..cut.SentBcsts()], cut.cancels[..cut.SentCancels()])
  }

  /** The message holds exactly what is listed; a key is listed to be cancelled or to be wanted, not both. */
  ghost predicate FlightOk(f: Flight) {
    && CidsDistinct(f.peers) && CidsDistinct(f.bcsts) && Distinct(f.cs)
    && (forall e :: e in f.peers ==> e.wantType == WANT_BLOCK || e.wantType == WANT_HAVE)
    && (forall e :: e in f.bcsts ==> e.wantType == WANT_HAVE)
    && (forall c :: c in f.cs ==> c !in CidsOf(f.peers) && c !in CidsOf(f.bcsts))
    && (forall c :: c in f.msg <==> c in CidsOf(f.peers) || c in CidsOf(f.bcsts) || c in f.cs)
    && (forall c :: c in f.msg ==> (f.msg[c].cancel <==> c in f.cs))
    && (forall e :: e in f.peers && e.wantType == WANT_BLOCK ==> f.msg[e.cid].want.wantType == WANT_BLOCK)
  }

  ghost function Finish(q: Q, f: Flight): (Q, MsgWants) {
    Finished(q, f.msg, f.peers, f.bcsts, f.cs)
  }

  /** The keys listed twice of which one entry is marked as sent and the other takes the key out of the message. */
  ghost function LostKeys(q: Q, f: Flight): set<Cid> {
    Marked(q.peerPending, f.peers) * Changed(q.bcstPending, f.bcsts)
    + Marked(q.bcstPending, f.bcsts) * Changed(q.peerPending, f.peers)
  }

  /** A key listed both as a peer want and as a broadcast is still pending as both, or as neither. */
  ghost predicate Agree(q: Q, f: Flight) {
    forall c :: c in CidsOf(f.peers) && c in CidsOf(f.bcsts) ==>
                  (c in Marked(q.peerPending, f.peers) <==> c in Marked(q.bcstPending, f.bcsts))
  }

  lemma AgreeIff(q: Q, f: Flight)
    requires FlightOk(f)
    ensures Agree(q, f) <==> LostKeys(q, f) == {}
  {
    hide Marked, Changed, CidsOf;
    ListedOnce(q.peerPending, f.peers);
    ListedOnce(q.bcstPending, f.bcsts);
    if LostKeys(q, f) == {} {
      forall c | c in CidsOf(f.peers) && c in CidsOf(f.bcsts)
        ensures c in Marked(q.peerPending, f.peers) <==> c in Marked(q.bcstPending, f.bcsts)
      {
        assert c !in LostKeys(q, f);
      }
    }
  }

  lemma FinishIs(q: Q, f: Flight)
    requires FlightOk(f)
    ensures var (q', msg') := Finish(q, f);
            && q'.peerSent == MarkAll(Marking(q.peerPending, q.peerSent, f.msg), f.peers).sent
            && q'.bcstSent.Keys == q.bcstSent.Keys + Marked(q.bcstPending, f.bcsts)
            && msg' == f.msg - Changed(q.peerPending, f.peers) - Changed(q.bcstPending, f.bcsts)
               - (Elems(f.cs) - q.cancels)
  {
    hide MarkAll, ClearAll, Marked, Changed, CidsOf, Elems;
    var p := MarkAll(Marking(q.peerPending, q.peerSent, f.msg), f.peers);
    MarkAllIs(Marking(q.peerPending, q.peerSent, f.msg), f.peers);
    MarkAllIs(Marking(q.bcstPending, q.bcstSent, p.msg), f.bcsts);
    ClearAllIs(q.cancels, MarkAll(Marking(q.bcstPending, q.bcstSent, p.msg), f.bcsts).msg, f.cs);
  }

  /**
   Everything marked as sent is in the message that goes out, if and only if the two lists agree on
   the keys in both.
   */
  lemma MarkedAreSentIff(q: Q, f: Flight)
    requires FlightOk(f)
    ensures Marked(q.peerPending, f.peers) + Marked(q.bcstPending, f.bcsts) <= Finish(q, f).1.Keys <==> Agree(q, f)
  {
    hide Marked, Changed, CidsOf, Finish, Agree;
    FinishIs(q, f);
    AgreeIff(q, f);
    ListedOnce(q.peerPending, f.peers);
    ListedOnce(q.bcstPending, f.bcsts);
    forall c | c in Marked(q.peerPending, f.peers) + Marked(q.bcstPending, f.bcsts)
      ensures c in Finish(q, f).1 <==> c !in LostKeys(q, f)
    {
    }
  }

  /** The lists and the message of a cut fit together. */
  lemma CutFlightOk(q: Q, cut: Cut, max: int)
    requires Inv(q) && CutOf(q, cut, max)
    ensures cut.n <= |cut.Items()| && FlightOk(FlightOf(cut))
  {
    hide Cut.Items, MsgOf, IsCut, Descending, Prepared, CidsOf, FlightOk;
    IsCutBound(cut, max);
    var f, p := FlightOf(cut), Prepared(q, cut.supportsHave);
    PreparedKeeps(q, cut.supportsHave);
    PrefixListing(cut.cancels, q.cancels, cut.SentCancels());
    FlightTypes(cut.peers, p.peerPending, cut.SentPeers());
    FlightTypes(cut.bcsts, p.bcstPending, cut.SentBcsts());
    forall c
      ensures c in f.msg <==> c in CidsOf(f.peers) || c in CidsOf(f.bcsts) || c in f.cs
    {
      FlightKey(cut, c);
    }
    forall c | c in f.msg
      ensures f.msg[c].cancel <==> c in f.cs
    {
      FlightCancel(cut, c);
    }
    forall e | e in f.peers && e.wantType == WANT_BLOCK
      ensures e.cid in f.msg && f.msg[e.cid].want.wantType == WANT_BLOCK
    {
      FlightBlock(q, cut, e);
    }
    forall c | c in f.cs
      ensures c !in CidsOf(f.peers) && c !in CidsOf(f.bcsts)
    {
      assert c in Elems(f.cs);
      KeysListed(f.peers, p.peerPending, c);
      KeysListed(f.bcsts, p.bcstPending, c);
    }
    FlightIsOk(f);
  }

  lemma FlightIsOk(f: Flight)
    requires CidsDistinct(f.peers) && CidsDistinct(f.bcsts) && Distinct(f.cs)
    requires forall e :: e in f.peers ==> e.wantType == WANT_BLOCK || e.wantType == WANT_HAVE
    requires forall e :: e in f.bcsts ==> e.wantType == WANT_HAVE
    requires forall c :: c in f.cs ==> c !in CidsOf(f.peers) && c !in CidsOf(f.bcsts)
    requires forall c :: c in f.msg <==> c in CidsOf(f.peers) || c in CidsOf(f.bcsts) || c in f.cs
    requires forall c :: c in f.msg ==> (f.msg[c].cancel <==> c in f.cs)
    requires forall e :: e in f.peers && e.wantType == WANT_BLOCK ==>
               e.cid in f.msg && f.msg[e.cid].want.wantType == WANT_BLOCK
    ensures FlightOk(f)
  {
    hide CidsOf, CidsDistinct, Distinct;
  }

  lemma FlightTypes(es: seq<Entry>, m: WantMap, n: nat)
    requires SortedListing(es, m) && n <= |es|
    ensures CidsDistinct(es[..n])
    ensures forall e :: e in es[..n] ==> e.cid in m && m[e.cid] == e
  {
    hide Descending;
  }

  lemma KeysListed(es: seq<Entry>, m: WantMap, c: Cid)
    requires (forall e :: e in es ==> e.cid in m) && c !in m
    ensures c !in CidsOf(es)
  {
  }

  lemma FlightKey(cut: Cut, c: Cid)
    requires cut.n <= |cut.Items()|
    ensures var f := FlightOf(cut);
            c in f.msg <==> c in CidsOf(f.peers) || c in CidsOf(f.bcsts) || c in f.cs
  {
    hide Cut.Items, MsgOf;
    var f, items := FlightOf(cut), cut.Items()[..cut.n];
    MsgKeys(items, cut.supportsHave);
    if c in f.msg {
      var k :| 0 <= k < |items| && items[k].Key() == c;
      TakenIs(cut, k);
      var n, m := |cut.cancels|, |cut.cancels| + |cut.peers|;
      if k < n {
        assert f.cs[k] == c;
      } else if k < m {
        assert f.peers[k - n].cid == c && f.peers[k - n] in f.peers;
      } else {
        assert f.bcsts[k - m].cid == c && f.bcsts[k - m] in f.bcsts;
      }
    }
    if c in f.cs {
      var k :| 0 <= k < |f.cs| && f.cs[k] == c;
      TakenCancel(cut, k);
      assert items[k].Key() == c;
    }
    if e :| e in f.peers && e.cid == c {
      var k :| 0 <= k < |f.peers| && f.peers[k] == e;
      TakenPeer(cut, k);
      assert items[|cut.cancels| + k].Key() == c;
    }
    if e :| e in f.bcsts && e.cid == c {
      var k :| 0 <= k < |f.bcsts| && f.bcsts[k] == e;
      TakenBcst(cut, k);
      assert items[|cut.cancels| + |cut.peers| + k].Key() == c;
    }
  }

  lemma FlightCancel(cut: Cut, c: Cid)
    requires cut.n <= |cut.Items()| && c in Message(cut)
    ensures Message(cut)[c].cancel <==> c in FlightOf(cut).cs
  {
    hide Cut.Items, MsgOf;
    var f, items := FlightOf(cut), cut.Items()[..cut.n];
    MsgCancels(items, cut.supportsHave, c);
    if k :| 0 <= k < |items| && items[k] == CancelItem(c) {
      TakenIs(cut, k);
      assert f.cs[k] == c;
    }
    if k :| 0 <= k < |f.cs| && f.cs[k] == c {
      TakenCancel(cut, k);
      assert items[k] == CancelItem(c);
    }
  }

  lemma FlightBlock(q: Q, cut: Cut, e: Entry)
    requires Inv(q) && cut.n <= |cut.Items()| && SortedListing(cut.peers, Prepared(q, cut.supportsHave).peerPending)
    requires e in FlightOf(cut).peers && e.wantType == WANT_BLOCK
    ensures e.cid in Message(cut) && Message(cut)[e.cid].want.wantType == WANT_BLOCK
  {
    hide Cut.Items, MsgOf, Inv, SortedListing, Prepared;
    var f, items := FlightOf(cut), cut.Items()[..cut.n];
    var k :| 0 <= k < |f.peers| && f.peers[k] == e;
    TakenPeer(cut, k);
    ItemTypes(q, cut);
    MsgBlocks(items, cut.supportsHave, |cut.cancels| + k);
  }

  // ---------- the remote after the second part ----------

  ghost predicate KeyCovered(sent: WantMap, remote: WantMap, c: Cid) {
    c in sent ==> c in remote && (sent[c].wantType == WANT_BLOCK ==> remote[c].wantType == WANT_BLOCK)
  }

  /** What one key is at the remote after a message. */
  lemma AppliedAt(remote: WantMap, msg: MsgWants, c: Cid)
    ensures var r := Applied(remote, msg);
            && (c !in msg ==> (c in r <==> c in remote) && (c in remote ==> r[c] == remote[c]))
            && (c in msg && !msg[c].cancel ==> c in r)
            && (c in msg && !msg[c].cancel && msg[c].want.wantType == WANT_BLOCK ==> r[c].wantType == WANT_BLOCK)
            && (c in remote && (c in msg ==> !msg[c].cancel) && remote[c].wantType == WANT_BLOCK ==>
                  r[c].wantType == WANT_BLOCK)
  {
  }

  /** What is lost from the message is at the remote already, with its type. */
  ghost predicate NothingLost(q: Q, remote: WantMap, f: Flight) {
    && (forall e :: e in f.peers && e.cid in LostKeys(q, f) && e.cid in Marked(q.peerPending, f.peers) ==>
          e.cid in remote && (e.wantType == WANT_BLOCK ==> remote[e.cid].wantType == WANT_BLOCK))
    && (forall c :: c in LostKeys(q, f) ==> c in remote)
  }

  /** A key that is sent is not cancelled by the message, and is in it unless it is lost or was sent before. */
  lemma SentKeyInMessage(q: Q, f: Flight, c: Cid)
    requires Inv(q) && FlightOk(f)
    ensures var (q', msg') := Finish(q, f);
            && (c in q'.peerSent || c in q'.bcstSent ==>
                  (c in msg' ==> c in f.msg && !msg'[c].cancel && msg'[c] == f.msg[c]))
            && (c in Marked(q.peerPending, f.peers) || c in Marked(q.bcstPending, f.bcsts) ==>
                  (c in msg' <==> c !in LostKeys(q, f)))
  {
    hide MarkAll, Marked, Changed, CidsOf, Finish;
    FinishIs(q, f);
    MarkAllIs(Marking(q.peerPending, q.peerSent, f.msg), f.peers);
    ListedOnce(q.peerPending, f.peers);
    ListedOnce(q.bcstPending, f.bcsts);
  }

  lemma PeerKeyCovered(q: Q, remote: WantMap, f: Flight, c: Cid)
    requires Synced(q, remote) && FlightOk(f)
    ensures var (q', msg') := Finish(q, f);
            KeyCovered(q'.peerSent, Applied(remote, msg'), c)
            <==> (forall e :: e in f.peers && e.cid == c && c in LostKeys(q, f) * Marked(q.peerPending, f.peers) ==>
                    c in remote && (e.wantType == WANT_BLOCK ==> remote[c].wantType == WANT_BLOCK))
  {
    hide MarkAll, Marked, Changed, CidsOf, Finish, Applied, LostKeys, FlightOk, SentAs;
    var (q', msg') := Finish(q, f);
    FinishIs(q, f);
    SentKeyInMessage(q, f, c);
    AppliedAt(remote, msg', c);
    PeersAreMarked(q, f);
    if c in Marked(q.peerPending, f.peers) {
      var e := MarkedEntry(q.peerPending, f.peers, c);
      SentAsIs(q.peerSent, e);
      ListedApart(f);
      FlightBlocks(f, e);
    }
  }

  lemma PeersAreMarked(q: Q, f: Flight)
    requires FlightOk(f)
    ensures var sent := MarkAll(Marking(q.peerPending, q.peerSent, f.msg), f.peers).sent;
            && sent.Keys == q.peerSent.Keys + Marked(q.peerPending, f.peers)
            && (forall c :: c in q.peerSent && c !in Marked(q.peerPending, f.peers) ==> sent[c] == q.peerSent[c])
            && (forall e :: e in f.peers && e.cid in Marked(q.peerPending, f.peers) ==>
                  sent[e.cid] == SentAs(q.peerSent, e))
  {
    MarkAllIs(Marking(q.peerPending, q.peerSent, f.msg), f.peers);
  }

  lemma MarkedEntry(pending: WantMap, es: seq<Entry>, c: Cid) returns (e: Entry)
    requires c in Marked(pending, es)
    ensures e in es && e.cid == c && Removable(pending, c, e.wantType)
  {
    e :| e in es && Removable(pending, e.cid, e.wantType) && e.cid == c;
  }

  lemma SentAsIs(sent: WantMap, e: Entry)
    ensures SentAs(sent, e).wantType == WANT_BLOCK
            <==> e.wantType == WANT_BLOCK || (e.cid in sent && sent[e.cid].wantType == WANT_BLOCK)
  {
  }

  lemma ListedApart(f: Flight)
    requires FlightOk(f)
    ensures forall e, e' :: e in f.peers && e' in f.peers && e.cid == e'.cid ==> e == e'
  {
  }

  lemma FlightBlocks(f: Flight, e: Entry)
    requires FlightOk(f) && e in f.peers
    ensures e.cid in f.msg && (e.wantType == WANT_BLOCK ==> f.msg[e.cid].want.wantType == WANT_BLOCK)
  {
    assert e.cid in CidsOf(f.peers);
  }

  lemma BcstKeyCovered(q: Q, remote: WantMap, f: Flight, c: Cid)
    requires Synced(q, remote) && FlightOk(f)
    ensures var (q', msg') := Finish(q, f);
            KeyCovered(q'.bcstSent, Applied(remote, msg'), c)
            <==> (c in LostKeys(q, f) && c in Marked(q.bcstPending, f.bcsts) ==> c in remote)
  {
    hide MarkAll, Marked, Changed, CidsOf, Finish, Applied, LostKeys, FlightOk;
    var (q', msg') := Finish(q, f);
    FinishIs(q, f);
    FinishInv(q, f);
    SentKeyInMessage(q, f, c);
    AppliedAt(remote, msg', c);
  }

  lemma FinishInv(q: Q, f: Flight)
    requires Inv(q) && FlightOk(f)
    ensures Inv(Finish(q, f).0)
  {
    hide Inv;
    FinishKeepsInv(q, f.msg, f.peers, f.bcsts, f.cs);
  }

  /**
   After the second part and the delivery of its message, every want recorded as sent is
   at the remote, if and only if what was lost from the message is there already.
   */
  lemma FinishKeepsSyncedIff(q: Q, remote: WantMap, f: Flight)
    requires Synced(q, remote) && FlightOk(f)
    ensures var (q', msg') := Finish(q, f);
            Synced(q', Applied(remote, msg')) <==> NothingLost(q, remote, f)
  {
    hide Marked, Changed, Finish, Applied, FlightOk, Inv;
    var (q', msg') := Finish(q, f);
    var r := Applied(remote, msg');
    FinishInv(q, f);
    forall c
      ensures KeyCovered(q'.peerSent, r, c)
              <==> (forall e :: e in f.peers && e.cid == c && c in LostKeys(q, f) * Marked(q.peerPending, f.peers) ==>
                      c in remote && (e.wantType == WANT_BLOCK ==> remote[c].wantType == WANT_BLOCK))
    {
      PeerKeyCovered(q, remote, f, c);
    }
    forall c
      ensures KeyCovered(q'.bcstSent, r, c)
              <==> (c in LostKeys(q, f) && c in Marked(q.bcstPending, f.bcsts) ==> c in remote)
    {
      BcstKeyCovered(q, remote, f, c);
    }
    CoversByKey(r, q'.peerSent);
    CoversByKey(r, q'.bcstSent);
    LostEntries(q, f);
    if NothingLost(q, remote, f) {
      assert forall c :: KeyCovered(q'.peerSent, r, c) && KeyCovered(q'.bcstSent, r, c);
    }
    if Synced(q', r) {
      forall e | e in f.peers && e.cid in LostKeys(q, f) && e.cid in Marked(q.peerPending, f.peers)
        ensures e.cid in remote && (e.wantType == WANT_BLOCK ==> remote[e.cid].wantType == WANT_BLOCK)
      {
        assert KeyCovered(q'.peerSent, r, e.cid);
      }
      forall c | c in LostKeys(q, f)
        ensures c in remote
      {
        assert KeyCovered(q'.peerSent, r, c) && KeyCovered(q'.bcstSent, r, c);
      }
    }
  }

  lemma CoversByKey(remote: WantMap, sent: WantMap)
    ensures Covers(remote, sent) <==> forall c :: KeyCovered(sent, remote, c)
  {
    if forall c :: KeyCovered(sent, remote, c) {
      forall c | c in sent
        ensures c in remote && (sent[c].wantType == WANT_BLOCK ==> remote[c].wantType == WANT_BLOCK)
      {
        assert KeyCovered(sent, remote, c);
      }
    }
  }

  lemma LostEntries(q: Q, f: Flight)
    ensures forall c :: c in LostKeys(q, f) ==>
              || c in Marked(q.bcstPending, f.bcsts)
              || (c in Marked(q.peerPending, f.peers) && exists e :: e in f.peers && e.cid == c)
  {
  }
}
