/**
 The small objects a session's want sender works with: who has which block, who
 is in the session, who was first with blocks, and who was sent want-blocks.
 */
module SessionTrackers {
  import opened Types

  /** HAVE (true) and DONT_HAVE (false) answers, by key and peer. */
  type Presences = map<Cid, map<PeerId, bool>>

  predicate HasBlock(presence: Presences, p: PeerId, c: Cid) {
    c in presence && p in presence[c] && presence[c][p]
  }

  predicate LacksBlock(presence: Presences, p: PeerId, c: Cid) {
    c in presence && p in presence[c] && !presence[c][p]
  }

  /** All of the peers answered DONT_HAVE; a key nobody answered for does not count, even without peers. */
  predicate AllLack(presence: Presences, peers: set<PeerId>, c: Cid) {
    c in presence && forall p :: p in peers ==> LacksBlock(presence, p, c)
  }

  class BlockPresenceManager {
    var presence: Presences

    constructor ()
      ensures presence == map[]
    {
      presence := map[];
    }

    /** A HAVE is never taken back by a DONT_HAVE. */
    method UpdateBlockPresence(p: PeerId, c: Cid, present: bool)
      modifies this
      ensures HasBlock(presence, p, c) <==> present || HasBlock(old(presence), p, c)
      ensures LacksBlock(presence, p, c) <==> !present && !HasBlock(old(presence), p, c)
      ensures var known := old(presence);
              && presence.Keys == known.Keys + {c} && (forall d :: d in known && d != c ==> presence[d] == known[d])
              && presence[c] == (if c in known then known[c] else map[])
                                [p := present || (c in known && p in known[c] && known[c][p])]
      ensures forall q, d :: (q, d) != (p, c) ==>
                && (HasBlock(presence, q, d) <==> HasBlock(old(presence), q, d))
                && (LacksBlock(presence, q, d) <==> LacksBlock(old(presence), q, d))
    {
      if c !in presence {
        presence := presence[c := map[]];
      }
      if p in presence[c] && presence[c][p] {
        assert presence[c][p := true] == presence[c];
        return;
      }
      presence := presence[c := presence[c][p := present]];
    }

    method ReceiveFrom(p: PeerId, haves: seq<Cid>, dontHaves: seq<Cid>)
      modifies this
      ensures forall q, c :: HasBlock(presence, q, c) <==> HasBlock(old(presence), q, c) || (q == p && c in haves)
      ensures forall q, c :: LacksBlock(presence, q, c) <==>
                               && !HasBlock(presence, q, c)
                               && (LacksBlock(old(presence), q, c) || (q == p && c in dontHaves))
    {
      hide HasBlock, LacksBlock;
      HasOrLacks(presence);
      for i := 0 to |haves|
        invariant forall q, c :: HasBlock(presence, q, c)
                                 <==> HasBlock(old(presence), q, c) || (q == p && c in haves[..i])
        invariant forall q, c :: LacksBlock(presence, q, c)
                                 <==> !HasBlock(presence, q, c) && LacksBlock(old(presence), q, c)
      {
        assert haves[..i + 1] == haves[..i] + [haves[i]];
        UpdateBlockPresence(p, haves[i], true);
      }
      assert haves[..|haves|] == haves;
      for i := 0 to |dontHaves|
        invariant forall q, c :: HasBlock(presence, q, c) <==> HasBlock(old(presence), q, c) || (q == p && c in haves)
        invariant forall q, c :: LacksBlock(presence, q, c) <==>
                                   && !HasBlock(presence, q, c)
                                   && (LacksBlock(old(presence), q, c) || (q == p && c in dontHaves[..i]))
      {
        assert dontHaves[..i + 1] == dontHaves[..i] + [dontHaves[i]];
        UpdateBlockPresence(p, dontHaves[i], false);
      }
      assert dontHaves[..|dontHaves|] == dontHaves;
    }

    /** The keys for which all the given peers answered DONT_HAVE, in order. */
    method AllPeersDoNotHaveBlock(peers: set<PeerId>, ks: seq<Cid>) returns (res: seq<Cid>)
      ensures forall c :: c in res <==> c in ks && AllLack(presence, peers, c)
    {
      hide AllLack;
      res := [];
      for i := 0 to |ks|
        invariant forall c :: c in res <==> c in ks[..i] && AllLack(presence, peers, c)
      {
        assert ks[..i + 1] == ks[..i] + [ks[i]];
        var all := AllDontHave(peers, ks[i]);
        if all {
          res := res + [ks[i]];
        }
      }
      assert ks[..|ks|] == ks;
    }

    method AllDontHave(peers: set<PeerId>, c: Cid) returns (all: bool)
      ensures all <==> AllLack(presence, peers, c)
      ensures all <==> c in presence && forall p :: p in peers ==> p in presence[c] && !presence[c][p]
    {
      if c !in presence {
        return false;
      }
      var ps := presence[c];
      var todo := peers;
      while todo != {}
        invariant todo <= peers
        invariant forall p :: p in peers - todo ==> LacksBlock(presence, p, c)
        decreases todo
      {
        var p :| p in todo;
        if p !in ps || ps[p] {
          assert !LacksBlock(presence, p, c);
          return false;
        }
        todo := todo - {p};
      }
      return true;
    }

    method RemoveKeys(ks: seq<Cid>)
      modifies this
      ensures presence == old(presence) - Elems(ks)
    {
      hide Elems;
      WholeList(ks);
      assert presence - {} == presence;
      for i := 0 to |ks|
        invariant presence == old(presence) - Elems(ks[..i])
      {
        ElemsStep(ks, i);
        presence := presence - {ks[i]};
      }
    }
  }

  lemma HasOrLacks(presence: Presences)
    ensures forall p, c :: LacksBlock(presence, p, c) ==> !HasBlock(presence, p, c)
  {
  }

  class SessionPeerManager {
    var peers: set<PeerId>
    var peersDiscovered: bool

    constructor ()
      ensures peers == {} && !peersDiscovered
    {
      peers, peersDiscovered := {}, false;
    }

    method AddPeer(p: PeerId) returns (isNew: bool)
      modifies this
      ensures peers == old(peers) + {p} && (isNew <==> p !in old(peers))
      ensures peersDiscovered == (old(peersDiscovered) || isNew)
    {
      if p in peers {
        return false;
      }
      peers := peers + {p};
      peersDiscovered := true;
      return true;
    }

    method RemovePeer(p: PeerId) returns (existed: bool)
      modifies this
      ensures peers == old(peers) - {p} && (existed <==> p in old(peers))
      ensures peersDiscovered == old(peersDiscovered)
    {
      if p !in peers {
        return false;
      }
      peers := peers - {p};
      return true;
    }
  }

  class SentWantBlocksTracker {
    var sentWantBlocks: map<PeerId, set<Cid>>

    constructor ()
      ensures sentWantBlocks == map[]
    {
      sentWantBlocks := map[];
    }

    predicate HaveSentWantBlockTo(p: PeerId, c: Cid)
      reads this
    {
      p in sentWantBlocks && c in sentWantBlocks[p]
    }

    method AddSentWantBlocksTo(p: PeerId, ks: set<Cid>)
      modifies this
      ensures sentWantBlocks == old(sentWantBlocks)[p := SentOf(old(sentWantBlocks), p) + ks]
    {
      if p !in sentWantBlocks {
        sentWantBlocks := sentWantBlocks[p := {}];
      }
      sentWantBlocks := sentWantBlocks[p := sentWantBlocks[p] + ks];
    }
  }

  function SentOf(sent: map<PeerId, set<Cid>>, p: PeerId): set<Cid> {
    if p in sent then sent[p] else {}
  }

  // ---------- choosing among candidates ----------

  function CountOf(firstResponder: map<PeerId, nat>, p: PeerId): nat {
    if p in firstResponder then firstResponder[p] else 1
  }

  /** How many blocks the first `k` candidates were first with. */
  function CountUpTo(firstResponder: map<PeerId, nat>, peers: seq<PeerId>, k: nat): nat
    requires k <= |peers|
  {
    if k == 0 then 0 else CountUpTo(firstResponder, peers, k - 1) + CountOf(firstResponder, peers[k - 1])
  }

  lemma {:induction false} CountUpToGrows(firstResponder: map<PeerId, nat>, peers: seq<PeerId>, j: nat, k: nat)
    requires j <= k <= |peers|
    requires forall p :: p in firstResponder ==> firstResponder[p] >= 1
    ensures CountUpTo(firstResponder, peers, j) + (k - j) <= CountUpTo(firstResponder, peers, k)
    decreases k
  {
    if j < k {
      CountUpToGrows(firstResponder, peers, j, k - 1);
    }
  }

  class PeerResponseTracker {
    var firstResponder: map<PeerId, nat>

    ghost predicate Valid()
      reads this
    {
      forall p :: p in firstResponder ==> firstResponder[p] >= 1
    }

    constructor ()
      ensures Valid() && firstResponder == map[]
    {
      firstResponder := map[];
    }

    method ReceivedBlockFrom(from: PeerId)
      requires Valid()
      modifies this
      ensures Valid()
      ensures var before := old(firstResponder);
              firstResponder == before[from := if from in before then before[from] + 1 else 1]
    {
      firstResponder := firstResponder[from := if from in firstResponder then firstResponder[from] + 1 else 1];
    }

    /**
     The candidate whose share of the total contains the draw `rnd`, so that each
     is chosen with a chance proportional to its count. In exact arithmetic the
     fallback to the last candidate is not reached.
     */
    method Choose(peers: seq<PeerId>, rnd: real) returns (p: PeerId, ghost k: nat)
      requires Valid() && 0.0 <= rnd < 1.0
      ensures peers == [] ==> p == NO_PEER
      ensures peers != [] ==> k < |peers| && p == peers[k] && DrawFalls(firstResponder, peers, rnd, k)
      ensures peers != [] ==>
                var total := CountUpTo(firstResponder, peers, |peers|) as real;
                CountUpTo(firstResponder, peers, k) as real <= rnd * total
                < CountUpTo(firstResponder, peers, k + 1) as real
    {
      hide CountUpTo, CountOf, Share, DrawFalls;
      if |peers| == 0 {
        return NO_PEER, 0;
      }
      var total := 0;
      NoneCounted(firstResponder, peers, rnd);
      for i := 0 to |peers|
        invariant total == CountUpTo(firstResponder, peers, i)
      {
        CountStep(firstResponder, peers, i);
        total := total + CountOf(firstResponder, peers[i]);
      }
      CountUpToGrows(firstResponder, peers, 0, |peers|);
      var counted := 0.0;
      NothingShared(total);
      p, k := peers[|peers| - 1], |peers| - 1;
      for i := 0 to |peers|
        invariant Share(counted, CountUpTo(firstResponder, peers, i), total)
        invariant counted <= rnd
      {
        CountStep(firstResponder, peers, i);
        ghost var before := counted;
        counted := counted + CountOf(firstResponder, peers[i]) as real / total as real;
        ShareAdds(before, CountUpTo(firstResponder, peers, i), CountOf(firstResponder, peers[i]), total);
        if counted > rnd {
          DrawFound(firstResponder, peers, rnd, i, before, counted);
          return peers[i], i;
        }
      }
      NotAWholeShare(counted, rnd, total);
      assert false;
    }
  }

  /** The draw falls into the share of candidate `k`. */
  ghost predicate DrawFalls(firstResponder: map<PeerId, nat>, peers: seq<PeerId>, rnd: real, k: nat)
    requires k < |peers|
  {
    Between(rnd, CountUpTo(firstResponder, peers, k), CountUpTo(firstResponder, peers, k + 1),
            CountUpTo(firstResponder, peers, |peers|))
  }

  ghost predicate Between(rnd: real, low: nat, high: nat, total: nat) {
    low as real <= rnd * total as real < high as real
  }

  /** The fraction `x` of `total` is `part`. */
  ghost predicate Share(x: real, part: nat, total: nat) {
    x * total as real == part as real
  }

  lemma NoneCounted(firstResponder: map<PeerId, nat>, peers: seq<PeerId>, rnd: real)
    ensures CountUpTo(firstResponder, peers, 0) == 0
  {
  }

  lemma NothingShared(total: nat)
    ensures Share(0.0, 0, total)
  {
  }

  /** The share of a candidate is the number of blocks it was first with; one that never was counts as one block. */
  lemma CountStep(firstResponder: map<PeerId, nat>, peers: seq<PeerId>, i: nat)
    requires i < |peers|
    ensures CountUpTo(firstResponder, peers, i + 1)
            == CountUpTo(firstResponder, peers, i) + CountOf(firstResponder, peers[i])
    ensures CountOf(firstResponder, peers[i]) == if peers[i] in firstResponder then firstResponder[peers[i]] else 1
  {
  }

  lemma ShareAdds(x: real, part: nat, count: nat, total: nat)
    requires total > 0 && Share(x, part, total)
    ensures Share(x + count as real / total as real, part + count, total)
  {
    var share := count as real / total as real;
    assert share * total as real == count as real;
    assert (x + share) * total as real == x * total as real + share * total as real;
  }

  lemma DrawFound(firstResponder: map<PeerId, nat>, peers: seq<PeerId>, rnd: real, k: nat, x: real, y: real)
    requires k < |peers| && x <= rnd < y
    requires var total := CountUpTo(firstResponder, peers, |peers|);
             && total > 0
             && Share(x, CountUpTo(firstResponder, peers, k), total)
             && Share(y, CountUpTo(firstResponder, peers, k + 1), total)
    ensures DrawFalls(firstResponder, peers, rnd, k)
    ensures var total := CountUpTo(firstResponder, peers, |peers|) as real;
            CountUpTo(firstResponder, peers, k) as real <= rnd * total < CountUpTo(firstResponder, peers, k + 1) as real
  {
    hide CountUpTo, Share;
    Scaled(x, rnd, y, CountUpTo(firstResponder, peers, k), CountUpTo(firstResponder, peers, k + 1),
           CountUpTo(firstResponder, peers, |peers|));
  }

  lemma Scaled(x: real, rnd: real, y: real, low: nat, high: nat, total: nat)
    requires total > 0 && x <= rnd < y && Share(x, low, total) && Share(y, high, total)
    ensures Between(rnd, low, high, total)
  {
    var t := total as real;
    assert x * t <= rnd * t;
    assert rnd * t < y * t;
  }

  /** Every candidate is chosen by some draw. */
  lemma EveryCandidateCanBeDrawn(firstResponder: map<PeerId, nat>, peers: seq<PeerId>, k: nat) returns (rnd: real)
    requires k < |peers| && forall p :: p in firstResponder ==> firstResponder[p] >= 1
    ensures 0.0 <= rnd < 1.0 && DrawFalls(firstResponder, peers, rnd, k)
  {
    hide CountUpTo;
    CountUpToGrows(firstResponder, peers, k, k + 1);
    CountUpToGrows(firstResponder, peers, k + 1, |peers|);
    rnd := ShareOf(CountUpTo(firstResponder, peers, k), CountUpTo(firstResponder, peers, |peers|));
  }

  lemma ShareOf(part: nat, total: nat) returns (x: real)
    requires part < total
    ensures 0.0 <= x < 1.0 && x * total as real == part as real
  {
    x := part as real / total as real;
    assert x * total as real == part as real;
  }

  /** A part of the total that is at most `rnd` is not all of it. */
  lemma NotAWholeShare(x: real, rnd: real, total: nat)
    requires total > 0 && x <= rnd < 1.0
    ensures !Share(x, total, total)
  {
    assert x * total as real < 1.0 * total as real;
  }
}
