/**
 The peer want manager: per-peer want sets, the reverse index over them and the
 two gauges, updated in place. Every method is proved to make one step of the
 state machine in `PeerWants`, to keep the index exact, and to move the gauges
 by exactly as much as the sets they count.
 */
module PeerWantManagement {
  import opened Types
  import opened PeerWants

  // ---------- what the index and the gauges stand for ----------

  type Index = map<Cid, set<PeerId>>

  ghost function Targeted(peers: map<PeerId, PeerWant>): set<Cid> {
    set p, c | p in peers && c in peers[p].Wants() :: c
  }

  ghost function BlockTargeted(peers: map<PeerId, PeerWant>): set<Cid> {
    set p, c | p in peers && c in peers[p].wantBlocks :: c
  }

  ghost function Wanted(s: State): set<Cid> {
    Targeted(s.peers) + s.broadcast
  }

  ghost function WantCount(s: State): nat {
    |Wanted(s)|
  }

  ghost function BlockCount(peers: map<PeerId, PeerWant>): nat {
    |BlockTargeted(peers)|
  }

  ghost predicate IndexExact(index: Index, peers: map<PeerId, PeerWant>) {
    && (forall c :: c in index ==> index[c] != {})
    && (forall c, p :: c in index && p in index[c] ==> p in peers && c in peers[p].Wants())
    && (forall p, c :: p in peers && c in peers[p].Wants() ==> c in index && p in index[c])
  }

  /** No key is recorded both as a want-block and as a want-have. */
  ghost predicate KindsApart(pw: PeerWant) {
    pw.wantBlocks !! pw.wantHaves
  }

  function PeersOf(index: Index, c: Cid): set<PeerId> {
    if c in index then index[c] else {}
  }

  function IndexAdd(index: Index, c: Cid, p: PeerId): Index {
    index[c := PeersOf(index, c) + {p}]
  }

  function IndexRemove(index: Index, c: Cid, p: PeerId): Index {
    if c !in index then index
    else if index[c] - {p} == {} then index - {c}
    else index[c := index[c] - {p}]
  }

  // ---------- lemmas on values ----------

  /** Two sets that differ at most at `c`. */
  lemma SizesApart<T>(a: set<T>, b: set<T>, c: T)
    requires a - {c} == b - {c}
    ensures |a| - (if c in a then 1 else 0) == |b| - (if c in b then 1 else 0)
  {
    assert |a - {c}| == |a| - (if c in a then 1 else 0);
    assert |b - {c}| == |b| - (if c in b then 1 else 0);
  }

  lemma OneFewer<T>(s: set<T>, todo: set<T>, x: T)
    requires x in todo
    ensures |s - (todo - {x})| == |s - todo| + if x in s then 1 else 0
  {
    if x in s {
      assert s - (todo - {x}) == (s - todo) + {x};
    } else {
      assert s - (todo - {x}) == s - todo;
    }
  }

  /** The records of `p` change at most at `c`. */
  ghost predicate DiffersAt(before: PeerWant, after: PeerWant, c: Cid) {
    && before.Wants() - {c} == after.Wants() - {c}
    && before.wantBlocks - {c} == after.wantBlocks - {c}
  }

  /** Peers without wants, and calls on queues, do not matter for what is wanted. */
  lemma SameWants(index: Index, peers: map<PeerId, PeerWant>, peers': map<PeerId, PeerWant>, broadcast: set<Cid>)
    requires forall p :: p in peers ==> p in peers' && peers'[p].wantBlocks == peers[p].wantBlocks
                                        && peers'[p].wantHaves == peers[p].wantHaves
    requires forall p :: p in peers' && p !in peers ==> peers'[p].Wants() == {}
    ensures WantCount(State(peers, broadcast)) == WantCount(State(peers', broadcast))
    ensures BlockCount(peers') == BlockCount(peers)
    ensures IndexExact(index, peers) <==> IndexExact(index, peers')
  {
    hide IndexExact, Targeted, BlockTargeted;
    SameTargets(peers, peers');
    SameIndexed(index, peers, peers');
  }

  lemma SameIndexed(index: Index, peers: map<PeerId, PeerWant>, peers': map<PeerId, PeerWant>)
    requires forall p :: p in peers ==> p in peers' && peers'[p].wantBlocks == peers[p].wantBlocks
                                        && peers'[p].wantHaves == peers[p].wantHaves
    requires forall p :: p in peers' && p !in peers ==> peers'[p].Wants() == {}
    ensures IndexExact(index, peers) <==> IndexExact(index, peers')
  {
    assert forall p :: p in peers ==> peers'[p].Wants() == peers[p].Wants();
    assert forall p, c :: p in peers && c in peers[p].Wants() <==> p in peers' && c in peers'[p].Wants();
  }

  lemma SameTargets(peers: map<PeerId, PeerWant>, peers': map<PeerId, PeerWant>)
    requires forall p :: p in peers ==> p in peers' && peers'[p].wantBlocks == peers[p].wantBlocks
                                        && peers'[p].wantHaves == peers[p].wantHaves
    requires forall p :: p in peers' && p !in peers ==> peers'[p].Wants() == {}
    ensures Targeted(peers') == Targeted(peers) && BlockTargeted(peers') == BlockTargeted(peers)
  {
    forall c | c in Targeted(peers)
      ensures c in Targeted(peers')
    {
      var p :| p in peers && c in peers[p].Wants();
      assert c in peers'[p].Wants();
    }
    forall c | c in BlockTargeted(peers)
      ensures c in BlockTargeted(peers')
    {
      var p :| p in peers && c in peers[p].wantBlocks;
      assert c in peers'[p].wantBlocks;
    }
    forall c | c in BlockTargeted(peers')
      ensures c in BlockTargeted(peers)
    {
      var p :| p in peers' && c in peers'[p].wantBlocks;
      assert c in peers'[p].Wants();
    }
    forall c | c in Targeted(peers')
      ensures c in Targeted(peers)
    {
      var p :| p in peers' && c in peers'[p].Wants();
      assert c in peers[p].Wants();
    }
  }

  lemma TargetedKept(peers: map<PeerId, PeerWant>, peers': map<PeerId, PeerWant>, p: PeerId, c: Cid)
    requires p in peers && p in peers' && DiffersAt(peers[p], peers'[p], c) && peers' == peers[p := peers'[p]]
    ensures Targeted(peers) - {c} <= Targeted(peers')
    ensures BlockTargeted(peers) - {c} <= BlockTargeted(peers')
  {
    forall x | x in Targeted(peers) - {c}
      ensures x in Targeted(peers')
    {
      var q :| q in peers && x in peers[q].Wants();
      assert x in peers[q].Wants() - {c};
      assert q in peers' && x in peers'[q].Wants();
    }
    forall x | x in BlockTargeted(peers) - {c}
      ensures x in BlockTargeted(peers')
    {
      var q :| q in peers && x in peers[q].wantBlocks;
      assert x in peers[q].wantBlocks - {c};
      assert q in peers' && x in peers'[q].wantBlocks;
    }
  }

  lemma CountsAfterOneKey(s: State, p: PeerId, pw: PeerWant, c: Cid)
    requires p in s.peers && DiffersAt(s.peers[p], pw, c)
    ensures var s' := s.(peers := s.peers[p := pw]);
            && WantCount(s') - WantCount(s) == (if c in Wanted(s') then 1 else 0) - (if c in Wanted(s) then 1 else 0)
            && BlockCount(s'.peers) - BlockCount(s.peers)
               == (if c in BlockTargeted(s'.peers) then 1 else 0) - (if c in BlockTargeted(s.peers) then 1 else 0)
  {
    var s' := s.(peers := s.peers[p := pw]);
    TargetedKept(s.peers, s'.peers, p, c);
    assert s'.peers[p := s.peers[p]] == s.peers;
    TargetedKept(s'.peers, s.peers, p, c);
    SizesApart(Wanted(s'), Wanted(s), c);
    SizesApart(BlockTargeted(s'.peers), BlockTargeted(s.peers), c);
  }

  /** `p` gets a want for `c`, as a block or without changing its want-blocks. */
  lemma WantAdded(index: Index, s: State, p: PeerId, pw: PeerWant, c: Cid)
    requires IndexExact(index, s.peers) && p in s.peers
    requires pw.Wants() == s.peers[p].Wants() + {c}
    requires pw.wantBlocks == s.peers[p].wantBlocks || pw.wantBlocks == s.peers[p].wantBlocks + {c}
    ensures IndexExact(IndexAdd(index, c, p), s.peers[p := pw])
    ensures WantCount(s.(peers := s.peers[p := pw])) == WantCount(s) + if c in Wanted(s) then 0 else 1
    ensures BlockCount(s.peers[p := pw])
            == BlockCount(s.peers) + if c in pw.wantBlocks && c !in BlockTargeted(s.peers) then 1 else 0
  {
    hide IndexExact, WantCount, BlockCount;
    CountsAfterOneKey(s, p, pw, c);
    IndexAddExact(index, s.peers, p, pw, c);
    var peers' := s.peers[p := pw];
    assert c in peers'[p].Wants();
    if c in pw.wantBlocks {
      assert c in peers'[p].wantBlocks;
    } else {
      assert forall q :: q in s.peers ==> peers'[q].wantBlocks == s.peers[q].wantBlocks;
    }
  }

  /** `p` loses its want for `c`. */
  lemma WantDropped(index: Index, s: State, p: PeerId, pw: PeerWant, c: Cid)
    requires IndexExact(index, s.peers) && p in s.peers
    requires c in s.peers[p].Wants() && pw.Wants() == s.peers[p].Wants() - {c}
    requires pw.wantBlocks == s.peers[p].wantBlocks - {c}
    ensures var s' := s.(peers := s.peers[p := pw]);
            && WantCount(s') == WantCount(s) - (if c in Wanted(s') then 0 else 1)
            && BlockCount(s'.peers) == BlockCount(s.peers)
               - if c in s.peers[p].wantBlocks && c !in BlockTargeted(s'.peers) then 1 else 0
  {
    hide IndexExact, WantCount, BlockCount;
    CountsAfterOneKey(s, p, pw, c);
    var peers' := s.peers[p := pw];
    if c !in s.peers[p].wantBlocks {
      assert forall q :: q in s.peers ==> peers'[q].wantBlocks == s.peers[q].wantBlocks;
    }
  }

  lemma IndexKeysAreTargeted(index: Index, peers: map<PeerId, PeerWant>)
    requires IndexExact(index, peers)
    ensures index.Keys == Targeted(peers)
  {
    forall c | c in index
      ensures c in Targeted(peers)
    {
      var p :| p in index[c];
      assert p in peers && c in peers[p].Wants();
    }
  }

  lemma IndexAddExact(index: Index, peers: map<PeerId, PeerWant>, p: PeerId, pw: PeerWant, c: Cid)
    requires IndexExact(index, peers) && p in peers && pw.Wants() == peers[p].Wants() + {c}
    ensures IndexExact(IndexAdd(index, c, p), peers[p := pw])
  {
  }

  lemma IndexRemoveExact(index: Index, peers: map<PeerId, PeerWant>, p: PeerId, pw: PeerWant, c: Cid)
    requires IndexExact(index, peers) && p in peers && pw.Wants() == peers[p].Wants() - {c}
    ensures IndexExact(IndexRemove(index, c, p), peers[p := pw])
    ensures forall q :: q in PeersOf(IndexRemove(index, c, p), c) ==> q in peers && q != p
  {
    var after, peers' := IndexRemove(index, c, p), peers[p := pw];
    forall d | d in after
      ensures after[d] != {}
    {
      assert d in index && (d != c ==> after[d] == index[d]);
    }
    forall d, q | d in after && q in after[d]
      ensures q in peers' && d in peers'[q].Wants()
    {
      assert q in index[d] && d in peers[q].Wants();
    }
    forall q, d | q in peers' && d in peers'[q].Wants()
      ensures d in after && q in after[d]
    {
      assert d in peers[q].Wants() && q in index[d];
      if d == c {
        assert q in index[c] - {p};
      }
    }
  }

  /** Repeated keys are counted each time they occur. */
  lemma {:induction false} KeepCounts(ks: seq<Cid>, s: set<Cid>)
    ensures |Keep(ks, s)| >= |Elems(ks) * s|
    ensures |Keep(ks, s)| == |Elems(ks) * s| <==> Distinct(Keep(ks, s))
  {
    hide Keep, Elems;
    if ks == [] {
      KeepNone(s);
      assert {} * s == {};
    } else {
      var n := |ks| - 1;
      WholeList(ks);
      KeepCounts(ks[..n], s);
      KeepElems(ks[..n], s);
      KeepStep(ks, n, s);
      DistinctPush(Keep(ks[..n], s), ks[n]);
      OneMoreCommon(Elems(ks[..n]), s, ks[n]);
    }
  }

  lemma OneMoreCommon(a: set<Cid>, s: set<Cid>, c: Cid)
    ensures |(a + {c}) * s| == |a * s| + if c in s && c !in a then 1 else 0
  {
    if c in s && c !in a {
      assert (a + {c}) * s == a * s + {c};
    } else {
      assert (a + {c}) * s == a * s;
    }
  }

  lemma WantedAfterCancel(s: State, ks: seq<Cid>)
    ensures Wanted(Step(s, Cancel(ks))) == Wanted(s) - Elems(ks)
    ensures BlockTargeted(Step(s, Cancel(ks)).peers) == BlockTargeted(s.peers) - Elems(ks)
  {
    var s' := Step(s, Cancel(ks));
    forall c | c in Wanted(s) && c !in Elems(ks)
      ensures c in Wanted(s')
    {
      if c in Targeted(s.peers) {
        var p :| p in s.peers && c in s.peers[p].Wants();
        assert c in s'.peers[p].Wants();
      }
    }
    forall c | c in BlockTargeted(s.peers) && c !in Elems(ks)
      ensures c in BlockTargeted(s'.peers)
    {
      var p :| p in s.peers && c in s.peers[p].wantBlocks;
      assert c in s'.peers[p].wantBlocks;
    }
  }

  lemma IndexedAt(index: Index, peers: map<PeerId, PeerWant>, p: PeerId, c: Cid)
    requires IndexExact(index, peers) && p in peers && c in peers[p].Wants()
    ensures p in PeersOf(index, c)
  {
  }

  /** With no broadcast want cancelled, a peer outside the index entries is not affected. */
  lemma UntouchedByCancel(index: Index, s: State, ks: seq<Cid>, q: PeerId)
    requires IndexExact(index, s.peers) && q in s.peers
    requires Keep(ks, s.broadcast) == []
    requires forall k :: 0 <= k < |ks| ==> q !in PeersOf(index, ks[k])
    ensures PeerCancel(s.peers[q], s.broadcast, ks) == s.peers[q]
  {
    KeepElems(ks, s.broadcast);
    var pw := s.peers[q];
    forall c | c in Elems(ks)
      ensures c !in pw.Wants() + s.broadcast
    {
      var k :| 0 <= k < |ks| && ks[k] == c;
      assert c in s.broadcast ==> c in Elems(ks) * s.broadcast;
      if c in pw.Wants() {
        IndexedAt(index, s.peers, q, c);
      }
    }
    assert Elems(ks) * (pw.Wants() + s.broadcast) == {};
    CancelsForElems(pw, s.broadcast, ks);
    assert pw.wantBlocks - Elems(ks) == pw.wantBlocks && pw.wantHaves - Elems(ks) == pw.wantHaves;
  }

  lemma NoKinds(pw: PeerWant)
    requires pw.Wants() == {}
    ensures KindsApart(pw)
  {
  }

  lemma SameKinds(pw: PeerWant, pw': PeerWant)
    requires pw.wantBlocks == pw'.wantBlocks && pw.wantHaves == pw'.wantHaves
    ensures KindsApart(pw) <==> KindsApart(pw')
  {
  }

  lemma UpgradeKeepsKinds(pw: PeerWant, c: Cid)
    requires KindsApart(pw)
    ensures KindsApart(PeerWant(pw.wantBlocks + {c}, pw.wantHaves - {c}, pw.queue))
  {
  }

  lemma NewHaveKeepsKinds(pw: PeerWant, c: Cid)
    requires KindsApart(pw) && c !in pw.wantBlocks
    ensures KindsApart(PeerWant(pw.wantBlocks, pw.wantHaves + {c}, pw.queue))
  {
  }

  lemma BroadcastAdded(index: Index, s: State, c: Cid)
    requires IndexExact(index, s.peers) && c !in s.broadcast
    ensures WantCount(s.(broadcast := s.broadcast + {c})) == WantCount(s) + if c in index then 0 else 1
  {
    IndexKeysAreTargeted(index, s.peers);
    var s' := s.(broadcast := s.broadcast + {c});
    if c in index {
      assert Wanted(s') == Wanted(s);
    } else {
      assert Wanted(s') == Wanted(s) + {c};
    }
  }

  /** A broadcast step, peer by peer, from the keys that are new as broadcast wants. */
  lemma BroadcastPerPeer(s: State, ks: seq<Cid>)
    ensures var s', unsent := Step(s, Broadcast(ks)), FirstNew(ks, s.broadcast);
            && s'.broadcast == s.broadcast + Elems(ks)
            && s'.peers.Keys == s.peers.Keys
            && (unsent == [] ==> s'.peers == s.peers)
            && forall q :: q in s.peers ==>
                 && (KindsApart(s.peers[q]) ==> KindsApart(s'.peers[q]))
                 && s'.peers[q].wantBlocks == s.peers[q].wantBlocks
                 && s'.peers[q].wantHaves == s.peers[q].wantHaves
                 && s'.peers[q] == ToldOf(s.peers[q], FirstNew(unsent, s.peers[q].Wants()))
  {
    hide FirstNew, Elems;
    var s', unsent := Step(s, Broadcast(ks)), FirstNew(ks, s.broadcast);
    forall q | q in s.peers
      ensures s'.peers[q] == ToldOf(s.peers[q], FirstNew(unsent, s.peers[q].Wants()))
      ensures unsent == [] ==> s'.peers[q] == s.peers[q]
    {
      FirstNewTwice(ks, s.broadcast, s.peers[q].Wants());
      FirstNewNone(s.peers[q].Wants());
    }
  }

  function ToldOf(pw: PeerWant, told: seq<Cid>): PeerWant {
    if told == [] then pw else pw.(queue := pw.queue + [AddBroadcastWantHaves(told)])
  }

  lemma NothingToCancel(s: State, ks: seq<Cid>)
    requires ks == []
    ensures Step(s, Cancel(ks)) == s
    ensures Keep(ks, Wanted(s)) == [] && Keep(ks, BlockTargeted(s.peers)) == []
  {
    forall p | p in s.peers
      ensures PeerCancel(s.peers[p], s.broadcast, ks) == s.peers[p]
    {
      assert s.peers[p].wantBlocks - {} == s.peers[p].wantBlocks && s.peers[p].wantHaves - {} == s.peers[p].wantHaves;
    }
    assert s.broadcast - Elems(ks) == s.broadcast;
  }

  /** Dropping the cancelled keys from the index leaves it exact, and the kinds apart. */
  lemma IndexAfterCancel(index: Index, s: State, ks: seq<Cid>)
    requires IndexExact(index, s.peers)
    requires forall p :: p in s.peers ==> KindsApart(s.peers[p])
    ensures IndexExact(index - Elems(ks), Step(s, Cancel(ks)).peers)
    ensures forall p :: p in s.peers ==> KindsApart(Step(s, Cancel(ks)).peers[p])
  {
    hide FirstIn, Keep, CancelsFor, Elems, IndexExact;
    var peers' := Step(s, Cancel(ks)).peers;
    forall p | p in s.peers
      ensures peers'[p].Wants() == s.peers[p].Wants() - Elems(ks)
    {
    }
    IndexMinus(index, s.peers, peers', Elems(ks));
  }

  lemma IndexMinus(index: Index, peers: map<PeerId, PeerWant>, peers': map<PeerId, PeerWant>, gone: set<Cid>)
    requires IndexExact(index, peers)
    requires peers'.Keys == peers.Keys
    requires forall p :: p in peers ==> peers'[p].Wants() == peers[p].Wants() - gone
    ensures IndexExact(index - gone, peers')
  {
    var index' := index - gone;
    forall p, c | p in peers' && c in peers'[p].Wants()
      ensures c in index' && p in index'[c]
    {
      assert c in peers[p].Wants();
    }
    forall c, p | c in index' && p in index'[c]
      ensures p in peers' && c in peers'[p].Wants()
    {
      assert c in index && p in index[c];
    }
  }

  lemma EmptyListing(order: seq<Cid>, s: set<Cid>)
    requires IsListing(order, s)
    ensures order == [] <==> |s| == 0
  {
    assert order != [] ==> order[0] in Elems(order);
  }

  lemma ListOneMore(order: seq<Cid>, s: set<Cid>, c: Cid)
    requires IsListing(order, s) && c !in s
    ensures IsListing(order + [c], s + {c})
  {
    assert c !in order by { assert c in order ==> c in Elems(order); }
    assert Elems(order + [c]) == Elems(order) + {c};
  }

  // ---------- the manager ----------

  /** How many peers have a pending want for a key, by kind. */
  datatype WantPeerCnts = WantPeerCnts(wantBlock: nat, wantHave: nat, isBroadcast: bool) {
    predicate Wanted() {
      wantBlock > 0 || wantHave > 0 || isBroadcast
    }
  }

  class PeerWantManager {
    var peerWants: map<PeerId, PeerWant>
    var wantPeers: Index
    var broadcastWants: set<Cid>
    var wantGauge: int
    var wantBlockGauge: int

    ghost function Abs(): State
      reads this
    {
      State(peerWants, broadcastWants)
    }

    ghost predicate Valid()
      reads this
    {
      && IndexExact(wantPeers, peerWants)
      && forall p :: p in peerWants ==> KindsApart(peerWants[p])
    }

    /** How far the gauge of wants is from the number of wanted keys. */
    ghost function Drift(): int
      reads this
    {
      wantGauge - WantCount(Abs())
    }

    /** How far the gauge of want-blocks is from the number of keys with a want-block. */
    ghost function BlockDrift(): int
      reads this
    {
      wantBlockGauge - BlockCount(peerWants)
    }

    constructor ()
      ensures Valid() && Abs() == INIT && Drift() == 0 && BlockDrift() == 0
    {
      peerWants, wantPeers, broadcastWants := map[], map[], {};
      wantGauge, wantBlockGauge := 0, 0;
    }

    ghost function BlockHolders(c: Cid): set<PeerId>
      reads this
    {
      set p | p in PeersOf(wantPeers, c) && p in peerWants && c in peerWants[p].wantBlocks
    }

    ghost function HaveHolders(c: Cid): set<PeerId>
      reads this
    {
      set p | p in PeersOf(wantPeers, c) && p in peerWants
              && c !in peerWants[p].wantBlocks && c in peerWants[p].wantHaves
    }

    /** Counts through the reverse index; an index entry for an unknown peer is skipped. */
    method WantPeerCounts(c: Cid) returns (r: WantPeerCnts)
      ensures r == WantPeerCnts(|BlockHolders(c)|, |HaveHolders(c)|, c in broadcastWants)
    {
      var blockCount, haveCount := 0, 0;
      var todo := PeersOf(wantPeers, c);
      while todo != {}
        invariant todo <= PeersOf(wantPeers, c)
        invariant blockCount == |BlockHolders(c) - todo|
        invariant haveCount == |HaveHolders(c) - todo|
        decreases todo
      {
        var q :| q in todo;
        OneFewer(BlockHolders(c), todo, q);
        OneFewer(HaveHolders(c), todo, q);
        todo := todo - {q};
        if q in peerWants {
          var pws := peerWants[q];
          if c in pws.wantBlocks {
            blockCount := blockCount + 1;
          } else if c in pws.wantHaves {
            haveCount := haveCount + 1;
          }
        }
      }
      assert BlockHolders(c) - {} == BlockHolders(c) && HaveHolders(c) - {} == HaveHolders(c);
      r := WantPeerCnts(blockCount, haveCount, c in broadcastWants);
    }

    /**
     Counting through an index that is exact for `peers` tells whether `c` is
     wanted in `peers`, provided `peers` and the records agree at the indexed peers.
     */
    lemma CountsTell(peers: map<PeerId, PeerWant>, c: Cid)
      requires IndexExact(wantPeers, peers)
      requires forall p :: p in PeersOf(wantPeers, c) && p in peers ==> p in peerWants && peers[p] == peerWants[p]
      ensures |BlockHolders(c)| > 0 <==> c in BlockTargeted(peers)
      ensures |BlockHolders(c)| > 0 || |HaveHolders(c)| > 0 || c in broadcastWants
              <==> c in Wanted(State(peers, broadcastWants))
    {
      if c in BlockTargeted(peers) {
        var p :| p in peers && c in peers[p].wantBlocks;
        assert c in peers[p].Wants();
        assert p in BlockHolders(c);
      }
      if c in Targeted(peers) {
        var p :| p in peers && c in peers[p].Wants();
        assert p in BlockHolders(c) || p in HaveHolders(c);
      }
      if |BlockHolders(c)| > 0 {
        var p :| p in BlockHolders(c);
        assert p in peers && c in peers[p].wantBlocks && c in peers[p].Wants();
      }
      if |HaveHolders(c)| > 0 {
        var p :| p in HaveHolders(c);
        assert p in peers && c in peers[p].Wants();
      }
    }

    method ReverseIndexAdd(c: Cid, p: PeerId) returns (isNew: bool)
      modifies this`wantPeers
      ensures wantPeers == IndexAdd(old(wantPeers), c, p)
      ensures isNew <==> c !in old(wantPeers)
    {
      isNew := c !in wantPeers;
      if isNew {
        wantPeers := wantPeers[c := {}];
      }
      wantPeers := wantPeers[c := wantPeers[c] + {p}];
    }

    method ReverseIndexRemove(c: Cid, p: PeerId)
      modifies this`wantPeers
      ensures wantPeers == IndexRemove(old(wantPeers), c, p)
    {
      if c in wantPeers {
        wantPeers := wantPeers[c := wantPeers[c] - {p}];
        if wantPeers[c] == {} {
          wantPeers := wantPeers - {c};
        }
      }
    }

    /** `queue` holds the calls already made on the queue of a newly connected peer, that is, none. */
    method AddPeer(queue: seq<Call>, p: PeerId) returns (ghost order: seq<Cid>)
      requires Valid()
      requires p !in peerWants ==> queue == []
      modifies this`peerWants
      ensures Valid() && Drift() == old(Drift()) && BlockDrift() == old(BlockDrift())
      ensures Enabled(old(Abs()), Connect(p, order)) && Abs() == Step(old(Abs()), Connect(p, order))
    {
      hide IndexExact, WantCount, BlockCount, Targeted, KindsApart, Elems, Distinct;
      var keys := Listing(broadcastWants);
      order := keys;
      if p in peerWants {
        return;
      }
      var pws := PeerWant({}, {}, queue);
      if |broadcastWants| > 0 {
        pws := pws.(queue := queue + [AddBroadcastWantHaves(keys)]);
      }
      EmptyListing(keys, broadcastWants);
      assert queue + [AddBroadcastWantHaves(keys)] == [AddBroadcastWantHaves(keys)];
      NoKinds(pws);
      ghost var before := peerWants;
      peerWants := peerWants[p := pws];
      SameWants(wantPeers, before, peerWants, broadcastWants);
    }

    /** Takes one key of `p` out of the index, which is exact for `rest`, and lowers the gauges if it was the last. */
    method Unindex(p: PeerId, c: Cid, isBlock: bool, ghost rest: map<PeerId, PeerWant>, ghost less: PeerWant)
      requires IndexExact(wantPeers, rest)
      requires p in rest && rest == peerWants[p := rest[p]]
      requires c in rest[p].Wants() && less.Wants() == rest[p].Wants() - {c}
      requires less.wantBlocks == rest[p].wantBlocks - {c} && isBlock == (c in rest[p].wantBlocks)
      modifies this`wantPeers, this`wantGauge, this`wantBlockGauge
      ensures IndexExact(wantPeers, rest[p := less])
      ensures wantGauge - WantCount(State(rest[p := less], broadcastWants))
              == old(wantGauge) - WantCount(State(rest, broadcastWants))
      ensures wantBlockGauge - BlockCount(rest[p := less]) == old(wantBlockGauge) - BlockCount(rest)
    {
      hide IndexExact, WantCount, BlockCount, Wanted, BlockTargeted, IndexRemove, PeersOf, BlockHolders, HaveHolders;
      ghost var rest' := rest[p := less];
      IndexRemoveExact(wantPeers, rest, p, less, c);
      WantDropped(wantPeers, State(rest, broadcastWants), p, less, c);
      ReverseIndexRemove(c, p);
      var peerCounts := WantPeerCounts(c);
      CountsTell(rest', c);
      if isBlock && peerCounts.wantBlock == 0 {
        wantBlockGauge := wantBlockGauge - 1;
      }
      if !peerCounts.Wanted() {
        wantGauge := wantGauge - 1;
      }
    }

    /** Forgets the peer's records, cleaning the index and the gauges key by key. */
    method RemovePeer(p: PeerId)
      requires Valid()
      modifies this
      ensures Valid() && Drift() == old(Drift()) && BlockDrift() == old(BlockDrift())
      ensures Abs() == Step(old(Abs()), Disconnect(p))
    {
      hide IndexExact, WantCount, BlockCount, Targeted;
      if p !in peerWants {
        assert peerWants - {p} == peerWants;
        return;
      }
      var pws := peerWants[p];
      // The records that the partly cleaned index is exact for.
      ghost var rest := peerWants;

      var todo := pws.wantBlocks;
      while todo != {}
        invariant todo <= pws.wantBlocks
        invariant unchanged(`peerWants) && unchanged(`broadcastWants)
        invariant rest == peerWants[p := PeerWant(todo, pws.wantHaves, pws.queue)]
        invariant IndexExact(wantPeers, rest)
        invariant wantGauge - WantCount(State(rest, broadcastWants)) == old(Drift())
        invariant wantBlockGauge - BlockCount(rest) == old(BlockDrift())
        decreases todo
      {
        var c :| c in todo;
        ghost var less := PeerWant(todo - {c}, pws.wantHaves, pws.queue);
        Unindex(p, c, true, rest, less);
        rest := rest[p := less];
        todo := todo - {c};
      }

      todo := pws.wantHaves;
      while todo != {}
        invariant todo <= pws.wantHaves
        invariant unchanged(`peerWants) && unchanged(`broadcastWants)
        invariant rest == peerWants[p := PeerWant({}, todo, pws.queue)]
        invariant IndexExact(wantPeers, rest)
        invariant wantGauge - WantCount(State(rest, broadcastWants)) == old(Drift())
        invariant wantBlockGauge - BlockCount(rest) == old(BlockDrift())
        decreases todo
      {
        var c :| c in todo;
        ghost var less := PeerWant({}, todo - {c}, pws.queue);
        Unindex(p, c, false, rest, less);
        rest := rest[p := less];
        todo := todo - {c};
      }

      peerWants := peerWants - {p};
      SameWants(wantPeers, peerWants, rest, broadcastWants);
    }

    /** Records the new broadcast wants, in order, and counts those no peer had a want for. */
    method RecordBroadcasts(wantHaves: seq<Cid>) returns (unsent: seq<Cid>)
      requires Valid()
      modifies this`broadcastWants, this`wantGauge
      ensures broadcastWants == old(broadcastWants) + Elems(wantHaves)
      ensures unsent == FirstNew(wantHaves, old(broadcastWants))
      ensures Drift() == old(Drift())
    {
      hide IndexExact, WantCount, Wanted, Targeted, FirstNew, Elems;
      WholeList(wantHaves);
      unsent := [];
      FirstNewNone(old(broadcastWants));
      assert broadcastWants == broadcastWants + {};
      for i := 0 to |wantHaves|
        invariant broadcastWants == old(broadcastWants) + Elems(wantHaves[..i])
        invariant unsent == FirstNew(wantHaves[..i], old(broadcastWants))
        invariant Drift() == old(Drift())
      {
        var c := wantHaves[i];
        FirstNewStep(wantHaves, i, old(broadcastWants));
        if c !in broadcastWants {
          BroadcastAdded(wantPeers, Abs(), c);
          broadcastWants := broadcastWants + {c};
          unsent := unsent + [c];
          if c !in wantPeers {
            wantGauge := wantGauge + 1;
          }
        }
      }
    }

    /** Tells each peer the want-haves it has not yet been told of. */
    method BroadcastWantHaves(wantHaves: seq<Cid>)
      requires Valid()
      modifies this
      ensures Valid() && Drift() == old(Drift()) && BlockDrift() == old(BlockDrift())
      ensures Abs() == Step(old(Abs()), Broadcast(wantHaves))
    {
      hide IndexExact, WantCount, BlockCount, KindsApart, FirstNew, Elems, Distinct, Step, PeerWant.Wants;
      ghost var before := Abs();
      ghost var after := Step(before, Broadcast(wantHaves));
      var unsent := RecordBroadcasts(wantHaves);
      FirstNewElems(wantHaves, before.broadcast);
      BroadcastPerPeer(before, wantHaves);
      if |unsent| == 0 {
        assert peerWants == after.peers;
        return;
      }
      ghost var gauges := (wantGauge, wantBlockGauge);
      var todo := peerWants.Keys;
      while todo != {}
        invariant todo <= before.peers.Keys == peerWants.Keys
        invariant forall q :: q in before.peers ==>
                                peerWants[q] == if q in todo then before.peers[q] else after.peers[q]
        invariant unchanged(`wantPeers) && broadcastWants == after.broadcast
        invariant (wantGauge, wantBlockGauge) == gauges
        decreases todo
      {
        var q :| q in todo;
        todo := todo - {q};
        var pws := peerWants[q];
        var peerUnsent := FilterUnsent(unsent, pws);
        if |peerUnsent| > 0 {
          pws := pws.(queue := pws.queue + [AddBroadcastWantHaves(peerUnsent)]);
        }
        peerWants := peerWants[q := pws];
      }
      assert peerWants == after.peers;
      SameWants(wantPeers, before.peers, peerWants, broadcastWants);
    }

    /** Records a want-block that has not been sent to the peer. */
    method RecordWantBlock(p: PeerId, c: Cid)
      requires Valid() && p in peerWants && c !in peerWants[p].wantBlocks
      modifies this
      ensures Valid() && Drift() == old(Drift()) && BlockDrift() == old(BlockDrift())
      ensures broadcastWants == old(broadcastWants)
      ensures var pw := old(peerWants)[p];
              peerWants == old(peerWants)[p := PeerWant(pw.wantBlocks + {c}, pw.wantHaves - {c}, pw.queue)]
    {
      hide IndexExact, WantCount, BlockCount, Wanted, BlockTargeted, IndexAdd, KindsApart, PeersOf, BlockHolders,
           HaveHolders;
      var peerCounts := WantPeerCounts(c);
      CountsTell(peerWants, c);
      if peerCounts.wantBlock == 0 {
        wantBlockGauge := wantBlockGauge + 1;
      }
      if !peerCounts.Wanted() {
        wantGauge := wantGauge + 1;
      }
      var pws := peerWants[p];
      pws := pws.(wantHaves := pws.wantHaves - {c});
      pws := pws.(wantBlocks := pws.wantBlocks + {c});
      UpgradeKeepsKinds(peerWants[p], c);
      WantAdded(wantPeers, Abs(), p, pws, c);
      peerWants := peerWants[p := pws];
      var _ := ReverseIndexAdd(c, p);
    }

    /** Records a want-have for a key the peer has no want for. */
    method RecordWantHave(p: PeerId, c: Cid)
      requires Valid() && p in peerWants && c !in peerWants[p].Wants()
      modifies this
      ensures Valid() && Drift() == old(Drift()) && BlockDrift() == old(BlockDrift())
      ensures broadcastWants == old(broadcastWants)
      ensures var pw := old(peerWants)[p];
              peerWants == old(peerWants)[p := PeerWant(pw.wantBlocks, pw.wantHaves + {c}, pw.queue)]
    {
      hide IndexExact, WantCount, BlockCount, Wanted, BlockTargeted, IndexAdd, KindsApart, PeersOf, BlockHolders,
           HaveHolders;
      var peerCounts := WantPeerCounts(c);
      CountsTell(peerWants, c);
      if !peerCounts.Wanted() {
        wantGauge := wantGauge + 1;
      }
      var pws := peerWants[p];
      pws := pws.(wantHaves := pws.wantHaves + {c});
      NewHaveKeepsKinds(peerWants[p], c);
      WantAdded(wantPeers, Abs(), p, pws, c);
      peerWants := peerWants[p := pws];
      var _ := ReverseIndexAdd(c, p);
    }

    /** Tells the peer the want-blocks and want-haves it has not yet been told of. */
    method SendWants(p: PeerId, wantBlocks: seq<Cid>, wantHaves: seq<Cid>)
      requires Valid()
      modifies this
      ensures Valid() && Drift() == old(Drift()) && BlockDrift() == old(BlockDrift())
      ensures Abs() == Step(old(Abs()), Send(p, wantBlocks, wantHaves))
    {
      hide IndexExact, WantCount, BlockCount, Targeted, KindsApart, FirstNew, Elems;
      if p !in peerWants {
        return;
      }
      ghost var pw0 := peerWants[p];
      WholeList(wantBlocks);
      WholeList(wantHaves);
      FirstNewNone(pw0.wantBlocks);
      assert PeerWant(pw0.wantBlocks + {}, pw0.wantHaves - {}, pw0.queue) == pw0;
      var fltWantBlks: seq<Cid> := [];
      for i := 0 to |wantBlocks|
        invariant Valid() && Drift() == old(Drift()) && BlockDrift() == old(BlockDrift()) && unchanged(`broadcastWants)
        invariant fltWantBlks == FirstNew(wantBlocks[..i], pw0.wantBlocks)
        invariant peerWants == old(peerWants)[p := PeerWant(pw0.wantBlocks + Elems(fltWantBlks),
                                                            pw0.wantHaves - Elems(fltWantBlks), pw0.queue)]
      {
        var c := wantBlocks[i];
        FirstNewStep(wantBlocks, i, pw0.wantBlocks);
        if c !in peerWants[p].wantBlocks {
          RecordWantBlock(p, c);
          ElemsPush(fltWantBlks, c);
          assert pw0.wantBlocks + Elems(fltWantBlks) + {c} == pw0.wantBlocks + Elems(fltWantBlks + [c]);
          assert pw0.wantHaves - Elems(fltWantBlks) - {c} == pw0.wantHaves - Elems(fltWantBlks + [c]);
          fltWantBlks := fltWantBlks + [c];
        }
      }

      ghost var pw1 := peerWants[p];
      ghost var known := broadcastWants + pw1.wantBlocks + pw1.wantHaves;
      FirstNewNone(known);
      assert pw1.wantHaves + {} == pw1.wantHaves;
      var fltWantHvs: seq<Cid> := [];
      for i := 0 to |wantHaves|
        invariant Valid() && Drift() == old(Drift()) && BlockDrift() == old(BlockDrift()) && unchanged(`broadcastWants)
        invariant fltWantHvs == FirstNew(wantHaves[..i], known)
        invariant peerWants == old(peerWants)[p := pw1.(wantHaves := pw1.wantHaves + Elems(fltWantHvs))]
      {
        var c := wantHaves[i];
        FirstNewStep(wantHaves, i, known);
        if c in broadcastWants {
        } else if c !in peerWants[p].wantBlocks && c !in peerWants[p].wantHaves {
          RecordWantHave(p, c);
          ElemsPush(fltWantHvs, c);
          assert pw1.wantHaves + Elems(fltWantHvs) + {c} == pw1.wantHaves + Elems(fltWantHvs + [c]);
          fltWantHvs := fltWantHvs + [c];
        }
      }
      AppendCall(p, AddWants(fltWantBlks, fltWantHvs));
    }

    /** One call on the queue of `p`. */
    method AppendCall(p: PeerId, call: Call)
      requires Valid() && p in peerWants
      modifies this`peerWants
      ensures Valid() && Drift() == old(Drift()) && BlockDrift() == old(BlockDrift())
      ensures var pw := old(peerWants)[p];
              peerWants == old(peerWants)[p := pw.(queue := pw.queue + [call])]
    {
      hide IndexExact, WantCount, BlockCount, Targeted, KindsApart;
      ghost var before := peerWants;
      var pws := peerWants[p];
      SameKinds(pws, pws.(queue := pws.queue + [call]));
      peerWants := peerWants[p := pws.(queue := pws.queue + [call])];
      SameWants(wantPeers, before, peerWants, broadcastWants);
    }

    /** Sends cancels to one peer, starting from the cancelled broadcast wants. */
    method SendCancelsTo(p: PeerId, cancelKs: seq<Cid>, broadcastCancels: seq<Cid>)
      requires p in peerWants
      requires broadcastCancels == Keep(cancelKs, broadcastWants)
      modifies this`peerWants
      ensures peerWants == old(peerWants)[p := PeerCancel(old(peerWants)[p], broadcastWants, cancelKs)]
    {
      hide FirstIn, Elems, Keep;
      var pws := peerWants[p];
      ghost var pw0 := pws;
      ghost var own := pw0.Wants() - broadcastWants;
      WholeList(cancelKs);
      FirstInNone(own);
      assert PeerWant(pw0.wantBlocks - {}, pw0.wantHaves - {}, pw0.queue) == pw0;
      var toCancel := broadcastCancels;
      for i := 0 to |cancelKs|
        invariant peerWants == old(peerWants)
        invariant pws == PeerWant(pw0.wantBlocks - Elems(cancelKs[..i]), pw0.wantHaves - Elems(cancelKs[..i]),
                                  pw0.queue)
        invariant toCancel == broadcastCancels + FirstIn(cancelKs[..i], own)
      {
        var c := cancelKs[i];
        FirstInStep(cancelKs, i, own);
        if c in pws.wantBlocks || c in pws.wantHaves {
          pws := pws.(wantBlocks := pws.wantBlocks - {c}, wantHaves := pws.wantHaves - {c});
          if c !in broadcastWants {
            toCancel := toCancel + [c];
          }
        }
      }
      if |toCancel| > 0 {
        pws := pws.(queue := pws.queue + [AddCancels(toCancel)]);
      }
      peerWants := peerWants[p := pws];
    }

    /** Whether each key to be cancelled is wanted now, and which of them are broadcast wants. */
    method BeforeCancel(cancelKs: seq<Cid>)
      returns (peerCounts: map<Cid, WantPeerCnts>, broadcastCancels: seq<Cid>)
      requires Valid()
      ensures peerCounts.Keys == Elems(cancelKs)
      ensures forall c :: c in peerCounts ==>
                            && (peerCounts[c].wantBlock > 0 <==> c in BlockTargeted(peerWants))
                            && (peerCounts[c].Wanted() <==> c in Wanted(Abs()))
      ensures broadcastCancels == Keep(cancelKs, broadcastWants)
    {
      hide IndexExact, Wanted, BlockTargeted, Elems, Keep, PeersOf, BlockHolders, HaveHolders, KindsApart;
      WholeList(cancelKs);
      KeepNone(broadcastWants);
      peerCounts, broadcastCancels := map[], [];
      for i := 0 to |cancelKs|
        invariant peerCounts.Keys == Elems(cancelKs[..i])
        invariant forall c :: c in peerCounts ==>
                                && (peerCounts[c].wantBlock > 0 <==> c in BlockTargeted(peerWants))
                                && (peerCounts[c].Wanted() <==> c in Wanted(Abs()))
        invariant broadcastCancels == Keep(cancelKs[..i], broadcastWants)
      {
        KeepStep(cancelKs, i, broadcastWants);
        var cnts := WantPeerCounts(cancelKs[i]);
        CountsTell(peerWants, cancelKs[i]);
        peerCounts := peerCounts[cancelKs[i] := cnts];
        if cancelKs[i] in broadcastWants {
          broadcastCancels := broadcastCancels + [cancelKs[i]];
        }
      }
    }

    /** Sends the cancels: to every peer if a broadcast want is cancelled, else to the peers in the index. */
    method SendCancelsToPeers(cancelKs: seq<Cid>, broadcastCancels: seq<Cid>)
      requires IndexExact(wantPeers, peerWants)
      requires broadcastCancels == Keep(cancelKs, broadcastWants)
      modifies this`peerWants
      ensures peerWants == Step(old(Abs()), Cancel(cancelKs)).peers
    {
      hide IndexExact, Keep, PeersOf, Elems, FirstIn, CancelsFor;
      ghost var before := Abs();
      ghost var after := Step(before, Cancel(cancelKs));
      var todo: set<PeerId> := {};
      if |broadcastCancels| > 0 {
        todo := peerWants.Keys;
      } else {
        todo := PeersToCancel(cancelKs);
        forall q | q in peerWants && q !in todo
          ensures after.peers[q] == before.peers[q]
        {
          UntouchedByCancel(wantPeers, before, cancelKs, q);
        }
      }
      while todo != {}
        invariant todo <= before.peers.Keys == peerWants.Keys
        invariant forall q :: q in before.peers ==>
                    peerWants[q] == if q in todo then before.peers[q] else after.peers[q]
        decreases todo
      {
        var p :| p in todo;
        todo := todo - {p};
        SendCancelsTo(p, cancelKs, broadcastCancels);
      }
      assert peerWants == after.peers;
    }

    /** The peers the index lists for some cancelled key; all of them are known. */
    method PeersToCancel(cancelKs: seq<Cid>) returns (peers: set<PeerId>)
      requires IndexExact(wantPeers, peerWants)
      ensures forall p, k :: 0 <= k < |cancelKs| && p in PeersOf(wantPeers, cancelKs[k]) ==> p in peers
      ensures peers <= peerWants.Keys
    {
      peers := {};
      for i := 0 to |cancelKs|
        invariant forall p, k :: 0 <= k < i && p in PeersOf(wantPeers, cancelKs[k]) ==> p in peers
        invariant peers <= peerWants.Keys
      {
        peers := peers + PeersOf(wantPeers, cancelKs[i]);
      }
    }

    /** Lowers the gauges once per listed key that was counted. */
    method LowerGauges(cancelKs: seq<Cid>, peerCounts: map<Cid, WantPeerCnts>,
                       ghost wanted: set<Cid>, ghost blocks: set<Cid>)
      requires peerCounts.Keys == Elems(cancelKs)
      requires forall c :: c in peerCounts ==>
                             && (peerCounts[c].wantBlock > 0 <==> c in blocks)
                             && (peerCounts[c].Wanted() <==> c in wanted)
      modifies this`wantGauge, this`wantBlockGauge
      ensures wantGauge == old(wantGauge) - |Keep(cancelKs, wanted)|
      ensures wantBlockGauge == old(wantBlockGauge) - |Keep(cancelKs, blocks)|
    {
      hide Keep;
      WholeList(cancelKs);
      KeepNone(wanted);
      KeepNone(blocks);
      for i := 0 to |cancelKs|
        invariant wantGauge == old(wantGauge) - |Keep(cancelKs[..i], wanted)|
        invariant wantBlockGauge == old(wantBlockGauge) - |Keep(cancelKs[..i], blocks)|
      {
        KeepStep(cancelKs, i, wanted);
        KeepStep(cancelKs, i, blocks);
        var peerCnts := peerCounts[cancelKs[i]];
        if peerCnts.wantBlock > 0 {
          wantBlockGauge := wantBlockGauge - 1;
        }
        if peerCnts.Wanted() {
          wantGauge := wantGauge - 1;
        }
      }
    }

    /**
     Cancels the keys everywhere. Each gauge goes down once per listed key that
     was counted, so a repeated key is subtracted repeatedly.
     */
    method SendCancels(cancelKs: seq<Cid>)
      requires Valid()
      modifies this
      ensures Valid()
      ensures Abs() == Step(old(Abs()), Cancel(cancelKs))
      ensures wantGauge == old(wantGauge) - |Keep(cancelKs, Wanted(old(Abs())))|
      ensures wantBlockGauge == old(wantBlockGauge) - |Keep(cancelKs, BlockTargeted(old(peerWants)))|
    {
      hide IndexExact, Wanted, BlockTargeted, Elems, Keep, PeerCancel, KindsApart;
      ghost var before := Abs();
      if |cancelKs| == 0 {
        NothingToCancel(before, cancelKs);
        return;
      }
      var peerCounts, broadcastCancels := BeforeCancel(cancelKs);
      SendCancelsToPeers(cancelKs, broadcastCancels);
      LowerGauges(cancelKs, peerCounts, Wanted(before), BlockTargeted(before.peers));

      WholeList(broadcastCancels);
      WholeList(cancelKs);
      KeepElems(cancelKs, broadcastWants);
      assert broadcastWants - {} == broadcastWants && wantPeers - {} == wantPeers;
      for i := 0 to |broadcastCancels|
        invariant unchanged(`wantPeers) && peerWants == Step(before, Cancel(cancelKs)).peers
        invariant wantGauge == old(wantGauge) - |Keep(cancelKs, Wanted(before))|
        invariant wantBlockGauge == old(wantBlockGauge) - |Keep(cancelKs, BlockTargeted(before.peers))|
        invariant broadcastWants == before.broadcast - Elems(broadcastCancels[..i])
      {
        ElemsStep(broadcastCancels, i);
        broadcastWants := broadcastWants - {broadcastCancels[i]};
      }
      assert broadcastWants == before.broadcast - Elems(cancelKs);

      for i := 0 to |cancelKs|
        invariant peerWants == Step(before, Cancel(cancelKs)).peers
        invariant wantGauge == old(wantGauge) - |Keep(cancelKs, Wanted(before))|
        invariant wantBlockGauge == old(wantBlockGauge) - |Keep(cancelKs, BlockTargeted(before.peers))|
        invariant broadcastWants == before.broadcast - Elems(cancelKs)
        invariant wantPeers == old(wantPeers) - Elems(cancelKs[..i])
      {
        ElemsStep(cancelKs, i);
        wantPeers := wantPeers - {cancelKs[i]};
      }
      IndexAfterCancel(old(wantPeers), before, cancelKs);
    }

    /** Every wanted key, once. */
    method GetWants() returns (res: seq<Cid>)
      requires Valid()
      ensures IsListing(res, Wanted(Abs()))
    {
      hide IndexExact, Targeted, Elems, Distinct;
      res := Listing(broadcastWants);
      IndexKeysAreTargeted(wantPeers, peerWants);
      var todo := wantPeers.Keys;
      assert broadcastWants + (wantPeers.Keys - todo) == broadcastWants;
      while todo != {}
        invariant todo <= wantPeers.Keys
        invariant IsListing(res, broadcastWants + (wantPeers.Keys - todo))
        decreases todo
      {
        var c :| c in todo;
        ghost var listed := broadcastWants + (wantPeers.Keys - todo);
        todo := todo - {c};
        assert broadcastWants + (wantPeers.Keys - todo) == listed + {c};
        if c !in broadcastWants {
          ListOneMore(res, listed, c);
          res := res + [c];
        } else {
          assert listed + {c} == listed;
        }
      }
      assert broadcastWants + (wantPeers.Keys - {}) == Wanted(Abs());
    }
  }

  /** The keys of `unsent` that the peer has no want for. */
  method FilterUnsent(unsent: seq<Cid>, pws: PeerWant) returns (r: seq<Cid>)
    requires Distinct(unsent)
    ensures r == FirstNew(unsent, pws.Wants())
  {
    r := [];
    for i := 0 to |unsent|
      invariant r == FirstNew(unsent[..i], pws.Wants())
    {
      FirstNewStep(unsent, i, pws.Wants());
      if unsent[i] !in pws.wantBlocks && unsent[i] !in pws.wantHaves {
        r := r + [unsent[i]];
      }
    }
    assert unsent[..|unsent|] == unsent;
  }

  /** Lists a set in whatever order it yields its elements. */
  method Listing(s: set<Cid>) returns (order: seq<Cid>)
    ensures IsListing(order, s)
  {
    order := [];
    var todo := s;
    while todo != {}
      invariant todo <= s && IsListing(order, s - todo)
      decreases todo
    {
      var c :| c in todo;
      ListOneMore(order, s - todo, c);
      assert s - (todo - {c}) == (s - todo) + {c};
      order := order + [c];
      todo := todo - {c};
    }
    assert s - {} == s;
  }

  // ---------- when the gauges are exact ----------

  /**
   Cancelling keeps an exact gauge exact if and only if no wanted key is repeated
   in the list of cancelled keys. Otherwise the gauge ends too low, by the number
   of repetitions.
   */
  lemma CancelKeepsGaugeExact(s: State, ks: seq<Cid>, gauge: int)
    requires gauge == |Wanted(s)|
    ensures var gauge' := gauge - |Keep(ks, Wanted(s))|;
            && gauge' <= |Wanted(Step(s, Cancel(ks)))|
            && (gauge' == |Wanted(Step(s, Cancel(ks)))| <==> Distinct(Keep(ks, Wanted(s))))
  {
    WantedAfterCancel(s, ks);
    KeepCounts(ks, Wanted(s));
    assert Wanted(s) - Elems(ks) == Wanted(s) - Elems(ks) * Wanted(s);
  }

  /** The same for the gauge of want-blocks. */
  lemma CancelKeepsBlockGaugeExact(s: State, ks: seq<Cid>, gauge: int)
    requires gauge == |BlockTargeted(s.peers)|
    ensures var gauge' := gauge - |Keep(ks, BlockTargeted(s.peers))|;
            && gauge' <= |BlockTargeted(Step(s, Cancel(ks)).peers)|
            && (gauge' == |BlockTargeted(Step(s, Cancel(ks)).peers)| <==> Distinct(Keep(ks, BlockTargeted(s.peers))))
  {
    WantedAfterCancel(s, ks);
    KeepCounts(ks, BlockTargeted(s.peers));
    assert BlockTargeted(s.peers) - Elems(ks) == BlockTargeted(s.peers) - Elems(ks) * BlockTargeted(s.peers);
  }

  /**
   One call and what it does to a gauge: cancels lower it per occurrence, all others move it by
   what changed. The methods of `PeerWantManager` ensure this with `Drift` and `BlockDrift`.
   */
  ghost predicate GaugeMoves(s: State, op: Op, gauge: int, gauge': int) {
    if op.Cancel? then gauge' == gauge - |Keep(op.ks, Wanted(s))|
    else gauge' - |Wanted(Step(s, op))| == gauge - |Wanted(s)|
  }

  ghost predicate BlockGaugeMoves(s: State, op: Op, gauge: int, gauge': int) {
    if op.Cancel? then gauge' == gauge - |Keep(op.ks, BlockTargeted(s.peers))|
    else gauge' - |BlockTargeted(Step(s, op).peers)| == gauge - |BlockTargeted(s.peers)|
  }

  /**
   Over every run the want gauge is the number of wanted CIDs all along, if and only if no
   cancel list repeats a wanted CID. That each call moves the gauge as `GaugeMoves` says is
   what the methods ensure about `Drift`.
   */
  lemma {:induction false} RunGaugeExactIff(states: seq<State>, ops: seq<Op>, gauges: seq<int>, n: nat)
    requires IsRun(states, ops) && |gauges| == |states| && gauges[0] == 0 && n <= |ops|
    requires forall i :: 0 <= i < |ops| ==> GaugeMoves(states[i], ops[i], gauges[i], gauges[i + 1])
    ensures (forall i :: 0 <= i <= n ==> gauges[i] == |Wanted(states[i])|)
            <==> (forall i :: 0 <= i < n && ops[i].Cancel? ==> Distinct(Keep(ops[i].ks, Wanted(states[i]))))
  {
    hide Step, Wanted, Keep, Distinct, Enabled;
    if n == 0 {
      NothingWanted();
    } else {
      RunGaugeExactIff(states, ops, gauges, n - 1);
      assert states[n] == Step(states[n - 1], ops[n - 1]);
      assert GaugeMoves(states[n - 1], ops[n - 1], gauges[n - 1], gauges[n]);
      if gauges[n - 1] == |Wanted(states[n - 1])| && ops[n - 1].Cancel? {
        CancelKeepsGaugeExact(states[n - 1], ops[n - 1].ks, gauges[n - 1]);
      }
    }
  }

  /** The same for the want-block gauge and the CIDs with a want-block at some peer. */
  lemma {:induction false} RunBlockGaugeExactIff(states: seq<State>, ops: seq<Op>, gauges: seq<int>, n: nat)
    requires IsRun(states, ops) && |gauges| == |states| && gauges[0] == 0 && n <= |ops|
    requires forall i :: 0 <= i < |ops| ==> BlockGaugeMoves(states[i], ops[i], gauges[i], gauges[i + 1])
    ensures (forall i :: 0 <= i <= n ==> gauges[i] == |BlockTargeted(states[i].peers)|)
            <==> (forall i :: 0 <= i < n && ops[i].Cancel? ==>
                    Distinct(Keep(ops[i].ks, BlockTargeted(states[i].peers))))
  {
    hide Step, BlockTargeted, Keep, Distinct, Enabled;
    if n == 0 {
      NothingWanted();
    } else {
      RunBlockGaugeExactIff(states, ops, gauges, n - 1);
      assert states[n] == Step(states[n - 1], ops[n - 1]);
      assert BlockGaugeMoves(states[n - 1], ops[n - 1], gauges[n - 1], gauges[n]);
      if gauges[n - 1] == |BlockTargeted(states[n - 1].peers)| && ops[n - 1].Cancel? {
        CancelKeepsBlockGaugeExact(states[n - 1], ops[n - 1].ks, gauges[n - 1]);
      }
    }
  }

  lemma NothingWanted()
    ensures Wanted(INIT) == {} && BlockTargeted(INIT.peers) == {}
  {
  }

  /** In every run the wanted CIDs, which the gauges count, are those asked for and not cancelled since. */
  lemma RunWantedIsAsked(states: seq<State>, ops: seq<Op>, asked: seq<Asked>, i: nat, c: Cid)
    requires IsRun(states, ops) && IsAsked(ops, asked) && i < |states|
    ensures c in Wanted(states[i])
            <==> c in asked[i].broadcast || exists p :: p in asked[i].peers && c in asked[i].peers[p].all
    ensures c in BlockTargeted(states[i].peers)
            <==> exists p :: p in asked[i].peers && c in asked[i].peers[p].blocks
  {
    hide Told, NoWaste, Step, AskedNext;
    RunSynced(states, ops, i);
    RunTellsAsked(states, ops, asked, i);
    var s, a := states[i], asked[i];
    forall p | p in s.peers
      ensures c in s.peers[p].Wants() + s.broadcast <==> c in a.peers[p].all + a.broadcast
      ensures c in s.peers[p].wantBlocks <==> c in a.peers[p].blocks
    {
      assert PeerSynced(s.peers[p], s.broadcast);
    }
  }

  /** A key broadcast and then cancelled twice in one list leaves the gauge at -1. */
  lemma RepeatedCancelBreaksGauge(c: Cid)
    ensures var s := Step(INIT, Broadcast([c]));
            && |Wanted(s)| == 1
            && 1 - |Keep([c, c], Wanted(s))| == -1
            && |Wanted(Step(s, Cancel([c, c])))| == 0
  {
    var s := Step(INIT, Broadcast([c]));
    assert Elems([c]) == {c};
    assert Wanted(s) == {c};
    assert [c, c][..1] == [c] && [c][..0] == [];
    assert Keep([c], {c}) == [c];
    assert Keep([c, c], {c}) == [c, c];
    WantedAfterCancel(s, [c, c]);
    assert Wanted(Step(s, Cancel([c, c]))) == {};
  }

  // ---------- the peer manager around it ----------

  class PeerManager {
    var peerQueues: set<PeerId>
    const pwm: PeerWantManager

    ghost predicate Valid()
      reads this, pwm
    {
      && pwm.Valid()
      && Synced(pwm.Abs())
      && peerQueues == pwm.peerWants.Keys
    }

    constructor ()
      ensures Valid() && fresh(pwm) && pwm.Abs() == INIT && pwm.Drift() == 0 && pwm.BlockDrift() == 0
    {
      pwm := new PeerWantManager();
      peerQueues := {};
    }

    /** A new peer gets a fresh queue; a known one keeps its queue and its records. */
    method Connected(p: PeerId) returns (ghost order: seq<Cid>)
      requires Valid()
      modifies this, pwm
      ensures Valid() && pwm.Drift() == old(pwm.Drift()) && pwm.BlockDrift() == old(pwm.BlockDrift())
      ensures Enabled(old(pwm.Abs()), Connect(p, order)) && pwm.Abs() == Step(old(pwm.Abs()), Connect(p, order))
    {
      hide Synced, IndexExact, KindsApart, WantCount, BlockCount, Wanted, BlockTargeted, Keep, Told;
      ghost var before := pwm.Abs();
      var queue: seq<Call> := if p in peerQueues then pwm.peerWants[p].queue else [];
      peerQueues := peerQueues + {p};
      order := pwm.AddPeer(queue, p);
      StepSynced(before, Connect(p, order));
    }

    method Disconnected(p: PeerId)
      requires Valid()
      modifies this, pwm
      ensures Valid() && pwm.Drift() == old(pwm.Drift()) && pwm.BlockDrift() == old(pwm.BlockDrift())
      ensures pwm.Abs() == Step(old(pwm.Abs()), Disconnect(p))
    {
      hide Synced, IndexExact, KindsApart, WantCount, BlockCount, Wanted, BlockTargeted, Keep, Told;
      if p !in peerQueues {
        assert pwm.peerWants - {p} == pwm.peerWants;
        return;
      }
      StepSynced(pwm.Abs(), Disconnect(p));
      peerQueues := peerQueues - {p};
      pwm.RemovePeer(p);
    }

    method SendWants(p: PeerId, wantBlocks: seq<Cid>, wantHaves: seq<Cid>)
      requires Valid()
      modifies pwm
      ensures Valid() && pwm.Drift() == old(pwm.Drift()) && pwm.BlockDrift() == old(pwm.BlockDrift())
      ensures pwm.Abs() == Step(old(pwm.Abs()), Send(p, wantBlocks, wantHaves))
    {
      hide Synced, IndexExact, KindsApart, WantCount, BlockCount, Wanted, BlockTargeted, Keep, Told;
      if p in peerQueues {
        StepSynced(pwm.Abs(), Send(p, wantBlocks, wantHaves));
        pwm.SendWants(p, wantBlocks, wantHaves);
      }
    }

    method BroadcastWantHaves(wantHaves: seq<Cid>)
      requires Valid()
      modifies pwm
      ensures Valid() && pwm.Drift() == old(pwm.Drift()) && pwm.BlockDrift() == old(pwm.BlockDrift())
      ensures pwm.Abs() == Step(old(pwm.Abs()), Broadcast(wantHaves))
    {
      hide Synced, IndexExact, KindsApart, WantCount, BlockCount, Wanted, BlockTargeted, Keep, Told;
      StepSynced(pwm.Abs(), Broadcast(wantHaves));
      pwm.BroadcastWantHaves(wantHaves);
    }

    method SendCancels(cancelKs: seq<Cid>)
      requires Valid()
      modifies pwm
      ensures Valid()
      ensures pwm.Abs() == Step(old(pwm.Abs()), Cancel(cancelKs))
      ensures pwm.wantGauge == old(pwm.wantGauge) - |Keep(cancelKs, Wanted(old(pwm.Abs())))|
      ensures pwm.wantBlockGauge == old(pwm.wantBlockGauge) - |Keep(cancelKs, BlockTargeted(old(pwm.peerWants)))|
    {
      hide Synced, IndexExact, KindsApart, WantCount, BlockCount, Wanted, BlockTargeted, Keep, Told;
      StepSynced(pwm.Abs(), Cancel(cancelKs));
      pwm.SendCancels(cancelKs);
    }
  }
}
