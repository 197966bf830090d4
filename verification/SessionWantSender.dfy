/**
 The want sender of a session: a batch of changes is applied to the wants, then
 what is due is sent. The ghost log records what happens to the wants; every
 event in it is justified by the batch, and it satisfies the discipline of
 `SessionModel` after every step.
 */
module SessionSender {
  import opened Types
  import opened SessionTrackers
  import opened SessionModel
  import opened SessionBatches
  import opened SessionRuns

  class SessionWantSender {
    var wants: Wants
    var inARow: map<PeerId, nat>
    const swbt: SentWantBlocksTracker
    const tracker: PeerResponseTracker
    const spm: SessionPeerManager
    const bpm: BlockPresenceManager
    ghost var log: seq<Event>

    /** All that holds between steps, with the given peers recorded everywhere. */
    ghost predicate Core(peers: set<PeerId>)
      reads this, swbt, tracker, spm
    {
      && tracker.Valid()
      && NO_PEER !in spm.peers
      && WantsOk(wants, peers)
      && LogOk(log, wants)
      && SentOk(wants, swbt.sentWantBlocks)
      && RowsOk(inARow)
    }

    ghost predicate Valid()
      reads this, swbt, tracker, spm
    {
      Core(spm.peers)
    }

    constructor (bpm: BlockPresenceManager)
      ensures Valid() && wants == map[] && log == [] && spm.peers == {} && this.bpm == bpm
      ensures fresh(swbt) && fresh(tracker) && fresh(spm)
    {
      wants, inARow, log := map[], map[], [];
      swbt := new SentWantBlocksTracker();
      tracker := new PeerResponseTracker();
      spm := new SessionPeerManager();
      this.bpm := bpm;
    }

    /** The best peer for a presence map, the draw `rnd` deciding among equals. */
    method CalculateBestPeer(bp: map<PeerId, Presence>, rnd: real) returns (best: PeerId)
      requires tracker.Valid() && NO_PEER !in bp && 0.0 <= rnd < 1.0
      ensures IsBest(bp, best)
      ensures best == NO_PEER <==> forall p :: p in bp ==> bp[p] == DontHave
      ensures best != NO_PEER ==> best in bp && bp[best] != DontHave
      ensures best != NO_PEER && bp[best] != Have ==> forall p :: p in bp ==> bp[p] != Have
      ensures best != NO_PEER ==> Drawn(tracker.firstResponder, bp, rnd, best)
    {
      hide Drawn, DrawFalls, IsListing, CountUpTo, PeersAt, IsBest, Presence.Rank;
      var bestBP, countWithBest;
      best, bestBP, countWithBest := FirstBest(bp);
      BestMeans(bp, best);
      if best == NO_PEER {
        return;
      }
      if countWithBest <= 1 {
        OnlyOneIsDrawn(tracker.firstResponder, bp, rnd, best);
        return;
      }
      var peersWithBest := PeersWith(bp, bestBP);
      ListedAreTied(peersWithBest, bp, bestBP, best);
      ghost var first, k := best, 0;
      best, k := tracker.Choose(peersWithBest, rnd);
      ListedAreTied(peersWithBest, bp, bestBP, best);
      TiedIsBest(bp, first, best);
      BestMeans(bp, best);
      DrawnIs(tracker.firstResponder, bp, rnd, best, peersWithBest, k);
    }

    /** A peer of the best presence, and how many share it. */
    method FirstBest(bp: map<PeerId, Presence>) returns (best: PeerId, bestBP: Presence, countWithBest: nat)
      requires NO_PEER !in bp
      ensures IsBest(bp, best)
      ensures best != NO_PEER ==> best in bp && bp[best] == bestBP && countWithBest == |PeersAt(bp, bestBP)|
    {
      hide PeersAt, IsBest, BestSoFar, Presence.Rank;
      bestBP, best, countWithBest := DontHave, NO_PEER, 0;
      var todo := bp.Keys;
      NoneSeen(bp);
      while todo != {}
        invariant todo <= bp.Keys && BestSoFar(bp, todo, best, bestBP)
        invariant best != NO_PEER ==> countWithBest == |PeersAt(bp, bestBP) - todo|
        decreases todo
      {
        var p :| p in todo;
        OneMoreSeen(bp, best, bestBP, todo, p);
        todo := todo - {p};
        if bp[p].Rank() > bestBP.Rank() {
          bestBP, best, countWithBest := bp[p], p, 1;
        } else if bp[p] == bestBP {
          countWithBest := countWithBest + 1;
        }
      }
      AllSeen(bp, best, bestBP);
    }

    method SetPeerBlockPresence(c: Cid, p: PeerId, bp: Presence, ghost peers: set<PeerId>, ghost src: Source)
      requires Core(peers) && c in wants && p != NO_PEER
      requires bp == Have ==> HasBlock(src.presence, p, c)
      modifies this
      ensures Core(peers)
      ensures RecordedAt(old(wants), wants, c, p, bp) && inARow == old(inARow)
      ensures InfoOk(wants[c], peers + {p})
      ensures Extends(old(log), log, src)
    {
      hide IsBest, Project, After, Fits, Honest, Disciplined, Replay;
      var wi := wants[c];
      var blockPresence := wi.blockPresence[p := bp];
      var rnd: real :| 0.0 <= rnd < 1.0;
      var best := CalculateBestPeer(blockPresence, rnd);
      var wi' := WantInfo(blockPresence, wi.sentTo, best, wi.exhausted && bp != Have);
      InfoAfterRecord(wi, peers, p, bp, best, wi'.exhausted);
      ProjectAt(wants, c, wi');
      if bp == Have {
        HaveEvent(log, wants, c, p, wi', src);
        log := log + [GotHave(c, p)];
      }
      wants := wants[c := wi'];
    }

    /** Records what is known about `p` and `c`, if `c` is tracked. */
    method UpdateWantBlockPresence(c: Cid, p: PeerId, ghost peers: set<PeerId>, ghost src: Source)
      requires Core(peers) && p != NO_PEER && src.presence == bpm.presence
      modifies this
      ensures Core(peers)
      ensures RecordedAt(old(wants), wants, c, p, PresenceOf(bpm.presence, p, c)) && inARow == old(inARow)
      ensures c in wants ==> p in wants[c].blockPresence && KnownAs(wants[c].blockPresence[p], bpm.presence, p, c)
      ensures c in wants ==> InfoOk(wants[c], peers + {p})
      ensures Extends(old(log), log, src)
    {
      hide WantsOk, LogOk, SentOk, InfoOk, HasBlock, LacksBlock, KnownAs;
      PresenceIsKnown(bpm.presence, p, c);
      if c !in wants {
        return;
      }
      if HasBlock(bpm.presence, p, c) {
        SetPeerBlockPresence(c, p, Have, peers, src);
      } else if LacksBlock(bpm.presence, p, c) {
        SetPeerBlockPresence(c, p, DontHave, peers, src);
      } else {
        SetPeerBlockPresence(c, p, Unknown, peers, src);
      }
    }

    /** Starts tracking a want, with what is known about the session's peers. */
    method TrackWant(c: Cid, ghost src: Source)
      requires Valid() && c in src.adds && src.presence == bpm.presence
      modifies this
      ensures Valid() && inARow == old(inARow) && Extends(old(log), log, src)
      ensures wants.Keys == old(wants).Keys + {c}
      ensures forall d :: d in old(wants) ==> wants[d] == old(wants)[d]
      ensures c !in old(wants) ==>
                && wants[c].sentTo == NO_PEER && !wants[c].exhausted
                && wants[c].blockPresence == KnownAbout(bpm.presence, spm.peers, c)
                && wants[c].blockPresence.Keys == spm.peers
                && forall p :: p in spm.peers ==> KnownAs(wants[c].blockPresence[p], bpm.presence, p, c)
    {
      hide LogOk, SentOk, InfoOk, WantsOk, PresenceOf, KnownAbout, Extends, KnownAs;
      AllAreKnown(bpm.presence, spm.peers, c);
      ExtendsNothing(log, src);
      if c in wants {
        return;
      }
      TrackEvent(log, wants, c, src);
      NewWantOk(wants, spm.peers, swbt.sentWantBlocks, c);
      log := log + [Tracked(c)];
      wants := wants[c := NEW_WANT];
      var todo := spm.peers;
      assert spm.peers - todo == {};
      NothingKnown(bpm.presence, c);
      while todo != {}
        invariant todo <= spm.peers
        invariant Core({}) && c in wants && wants.Keys == old(wants).Keys + {c}
        invariant forall d :: d in old(wants) ==> wants[d] == old(wants)[d]
        invariant InfoOk(wants[c], spm.peers - todo)
        invariant wants[c].sentTo == NO_PEER && !wants[c].exhausted
        invariant wants[c].blockPresence == KnownAbout(bpm.presence, spm.peers - todo, c)
        invariant inARow == old(inARow) && Extends(old(log), log, src)
        decreases todo
      {
        var p :| p in todo;
        ghost var log0, info0 := log, wants[c];
        UpdateWantBlockPresence(c, p, {}, src);
        ExtendsTrans(old(log), log0, log, src);
        assert {} + {p} == {p};
        KnownMore(bpm.presence, spm.peers - todo, c, p);
        MoreRecorded(info0, wants[c], spm.peers - todo, p);
        assert spm.peers - (todo - {p}) == spm.peers - todo + {p};
        todo := todo - {p};
      }
      assert spm.peers - {} == spm.peers;
      AllWantsOk(old(wants), wants, spm.peers, c);
    }

    method UntrackWant(c: Cid, ghost src: Source)
      requires Valid() && c in src.drops
      modifies this
      ensures Valid() && wants == old(wants) - {c} && inARow == old(inARow) && Extends(old(log), log, src)
    {
      hide InfoOk;
      UntrackEvent(log, wants, c, src);
      wants := wants - {c};
      log := log + [Untracked(c)];
    }

    /** A peer joined: what is known about it is recorded in every want. */
    method PeerJoined(p: PeerId, ghost src: Source)
      requires Core(spm.peers - {p}) && p in spm.peers && src.presence == bpm.presence
      modifies this
      ensures Valid() && wants.Keys == old(wants).Keys && inARow == old(inARow) && Extends(old(log), log, src)
      ensures forall c :: c in wants ==>
                RecordedAt(old(wants), old(wants)[c := wants[c]], c, p, PresenceOf(bpm.presence, p, c))
    {
      hide LogOk, SentOk, InfoOk, PresenceOf, RecordedAt, Extends;
      ExtendsNothing(log, src);
      var todo := wants.Keys;
      while todo != {}
        invariant todo <= wants.Keys == old(wants).Keys
        invariant Core(spm.peers - {p})
        invariant forall c :: c in wants.Keys - todo ==> InfoOk(wants[c], spm.peers)
        invariant forall c :: c in wants ==>
                    if c in todo then wants[c] == old(wants)[c]
                    else RecordedAt(old(wants), old(wants)[c := wants[c]], c, p, PresenceOf(bpm.presence, p, c))
        invariant inARow == old(inARow) && Extends(old(log), log, src)
        decreases todo
      {
        var c :| c in todo;
        ghost var log0, before := log, wants;
        UpdateWantBlockPresence(c, p, spm.peers - {p}, src);
        RecordedAlone(old(wants), before, wants, c, p, PresenceOf(bpm.presence, p, c));
        assert spm.peers - {p} + {p} == spm.peers;
        ExtendsTrans(old(log), log0, log, src);
        todo := todo - {c};
      }
    }

    /** A peer left: it is forgotten in every want, and no want waits for it any more. */
    method PeerLeft(p: PeerId, ghost src: Source)
      requires Core(spm.peers) && p !in spm.peers && p != NO_PEER && p in src.lefts
      modifies this
      ensures Valid() && wants.Keys == old(wants).Keys && inARow == old(inARow) && Extends(old(log), log, src)
      ensures forall c :: c in wants ==> Forgot(old(wants)[c], wants[c], p)
    {
      hide LogOk, SentOk, IsBest, Forgot;
      var ws := wants;
      var todo := wants.Keys;
      while todo != {}
        invariant todo <= wants.Keys == ws.Keys && unchanged(this) && unchanged(tracker) && unchanged(spm)
        invariant forall c :: c in ws && c in todo ==> ws[c] == wants[c]
        invariant forall c :: c in ws && c !in todo ==> InfoOk(ws[c], spm.peers) && Forgot(wants[c], ws[c], p)
        decreases todo
      {
        var c :| c in todo;
        var wi := ws[c];
        var sentTo := if p == wi.sentTo then NO_PEER else wi.sentTo;
        var rnd: real :| 0.0 <= rnd < 1.0;
        var best := CalculateBestPeer(wi.blockPresence - {p}, rnd);
        InfoAfterRemove(wi, spm.peers, p, best, sentTo);
        assert spm.peers - {p} == spm.peers;
        ws := ws[c := WantInfo(wi.blockPresence - {p}, sentTo, best, wi.exhausted)];
        todo := todo - {c};
      }
      LeftEvent(log, wants, ws, p, swbt.sentWantBlocks, src);
      wants := ws;
      log := log + [Left(p)];
    }

    method SetAvailability(p: PeerId, available: bool, ghost src: Source) returns (changed: bool)
      requires Valid() && p != NO_PEER && src.presence == bpm.presence && (!available ==> p in src.lefts)
      modifies this, spm
      ensures Valid() && wants.Keys == old(wants).Keys && Extends(old(log), log, src)
      ensures changed == ((p in old(spm.peers)) != available)
      ensures spm.peers == if available then old(spm.peers) + {p} else old(spm.peers) - {p}
      ensures inARow == if changed then old(inARow) - {p} else old(inARow)
      ensures !changed ==> wants == old(wants)
      ensures changed ==> forall c :: c in wants ==>
                if available then RecordedAt(old(wants), old(wants)[c := wants[c]], c, p,
                                             PresenceOf(bpm.presence, p, c))
                else Forgot(old(wants)[c], wants[c], p)
    {
      hide LogOk, SentOk, InfoOk, WantsOk, PresenceOf, RecordedAt, Forgot, Extends;
      ExtendsNothing(log, src);
      if available {
        changed := spm.AddPeer(p);
        if changed {
          assert spm.peers - {p} == old(spm.peers);
          PeerJoined(p, src);
        }
      } else {
        changed := spm.RemovePeer(p);
        if changed {
          FewerPeers(wants, old(spm.peers), spm.peers);
          PeerLeft(p, src);
        }
      }
      if changed {
        inARow := inARow - {p};
      } else {
        assert spm.peers == old(spm.peers);
      }
    }

    /** Peers join and leave; a peer whose state changed starts its count of DONT_HAVEs anew. */
    method ProcessAvailability(availability: map<PeerId, bool>, ghost src: Source)
      returns (newlyAvailable: set<PeerId>, newlyUnavailable: set<PeerId>)
      requires Valid() && NO_PEER !in availability && src.presence == bpm.presence
      requires forall p :: p in availability && !availability[p] ==> p in src.lefts
      modifies this, spm
      ensures Valid() && wants.Keys == old(wants).Keys && Extends(old(log), log, src)
      ensures newlyAvailable == (set p | p in availability && availability[p] && p !in old(spm.peers))
      ensures newlyUnavailable == (set p | p in availability && !availability[p] && p in old(spm.peers))
      ensures spm.peers == old(spm.peers) + newlyAvailable - newlyUnavailable
      ensures inARow == old(inARow) - (newlyAvailable + newlyUnavailable)
      ensures Moved(old(wants), wants, bpm.presence, newlyAvailable, newlyUnavailable)
    {
      hide LogOk, SentOk, InfoOk, WantsOk, PresenceOf, RecordedAt, Forgot, Moved, Extends;
      newlyAvailable, newlyUnavailable := {}, {};
      NoneMoved(wants, bpm.presence);
      ExtendsNothing(log, src);
      var todo := availability.Keys;
      while todo != {}
        invariant todo <= availability.Keys
        invariant Valid() && wants.Keys == old(wants).Keys && Extends(old(log), log, src)
        invariant newlyAvailable == (set p | p in availability && p !in todo && availability[p] && p !in old(spm.peers))
        invariant newlyUnavailable
                  == (set p | p in availability && p !in todo && !availability[p] && p in old(spm.peers))
        invariant spm.peers == old(spm.peers) + newlyAvailable - newlyUnavailable
        invariant inARow == old(inARow) - (newlyAvailable + newlyUnavailable)
        invariant Moved(old(wants), wants, bpm.presence, newlyAvailable, newlyUnavailable)
        decreases todo
      {
        var p :| p in todo;
        ghost var log0, wants0 := log, wants;
        var changed := SetAvailability(p, availability[p], src);
        ExtendsTrans(old(log), log0, log, src);
        if changed {
          OneMoved(old(wants), wants0, wants, bpm.presence, newlyAvailable, newlyUnavailable, p, availability[p]);
          if availability[p] {
            newlyAvailable := newlyAvailable + {p};
          } else {
            newlyUnavailable := newlyUnavailable + {p};
          }
        }
        todo := todo - {p};
      }
    }

    // ---------- received blocks, HAVEs and DONT_HAVEs ----------

    method ReceiveBlock(from: PeerId, c: Cid, ghost src: Source)
      requires Valid() && c in src.drops
      modifies this, tracker
      ensures Valid() && Extends(old(log), log, src)
      ensures wants == old(wants) - {c} && inARow == old(inARow) - {from}
      ensures var fr := old(tracker.firstResponder);
              tracker.firstResponder
              == if c in old(wants) then fr[from := if from in fr then fr[from] + 1 else 1] else fr
    {
      hide LogOk, SentOk, InfoOk, WantsOk, Honest;
      var removed := c in wants;
      UntrackWant(c, src);
      if removed {
        tracker.ReceivedBlockFrom(from);
      }
      inARow := inARow - {from};
    }

    /** A block ends its want; its sender is credited for each want it was the first to satisfy. */
    method ReceiveBlocks(from: PeerId, ks: seq<Cid>, ghost src: Source)
      requires Valid() && forall c :: c in ks ==> c in src.drops
      modifies this, tracker
      ensures Valid() && Extends(old(log), log, src)
      ensures wants == old(wants) - Elems(ks)
      ensures inARow == (if ks == [] then old(inARow) else old(inARow) - {from})
      ensures tracker.firstResponder == Credited(old(tracker.firstResponder), from, |Elems(ks) * old(wants).Keys|)
    {
      hide LogOk, SentOk, InfoOk, WantsOk, Elems, Credited, Extends;
      WholeList(ks);
      ExtendsNothing(log, src);
      NoCredit(tracker.firstResponder, from, wants.Keys);
      assert wants - {} == wants;
      for i := 0 to |ks|
        invariant Valid() && Extends(old(log), log, src)
        invariant wants == old(wants) - Elems(ks[..i])
        invariant inARow == (if i == 0 then old(inARow) else old(inARow) - {from})
        invariant tracker.firstResponder
                  == Credited(old(tracker.firstResponder), from, |Elems(ks[..i]) * old(wants).Keys|)
      {
        ElemsStep(ks, i);
        ghost var log0 := log;
        OneMoreCredit(old(tracker.firstResponder), from, Elems(ks[..i]), old(wants).Keys, ks[i]);
        OneFewer(old(wants), Elems(ks[..i]), ks[i]);
        ReceiveBlock(from, ks[i], src);
        ExtendsTrans(old(log), log0, log, src);
      }
    }

    /** The peer a want is out to does not have the block: it may go to another peer. */
    method Decline(c: Cid, from: PeerId, ghost src: Source)
      requires Valid() && from != NO_PEER && (c, from) in src.dontHaves
      modifies this
      ensures Valid() && wants == Declined(old(wants), c, from) && inARow == old(inARow) && Extends(old(log), log, src)
    {
      hide IsBest, Disciplined, Replay, After, Fits, Project;
      DeclineEvent(log, wants, c, from, src);
      log := log + [GotDontHave(c, from)];
      if swbt.HaveSentWantBlockTo(from, c) {
        if c in wants && wants[c].sentTo == from {
          wants := wants[c := wants[c].(sentTo := NO_PEER)];
        }
      }
    }

    method ReceiveDontHaves(u: Update, blkCids: set<Cid>, dontHaves0: set<Cid>, prune0: set<PeerId>, ghost src: Source)
      returns (dontHaves: set<Cid>, prune: set<PeerId>)
      requires Valid() && u.from != NO_PEER && src.presence == bpm.presence && wants.Keys !! blkCids
      requires Pairs(u.dontHaves, u.from) <= src.dontHaves
      modifies this
      ensures Valid() && Extends(old(log), log, src)
      ensures Told(old(wants), wants, bpm.presence, Pairs(u.dontHaves, u.from), Pairs(u.dontHaves, u.from))
      ensures Counts(inARow, prune) == CountMany(Counts(old(inARow), prune0), u.from, |u.dontHaves|)
      ensures dontHaves == dontHaves0 + (Elems(u.dontHaves) - blkCids)
    {
      hide LogOk, SentOk, InfoOk, WantsOk, Elems, CountMany, CountOne, Told, Pairs, RecordedAt, PresenceOf, Declined,
           Honest;
      dontHaves, prune := dontHaves0, prune0;
      var ks := u.dontHaves;
      WholeList(ks);
      NothingTold(wants, bpm.presence, u.from);
      CountNone(Counts(inARow, prune), u.from);
      for i := 0 to |ks|
        invariant Valid() && Extends(old(log), log, src) && wants.Keys == old(wants).Keys
        invariant Told(old(wants), wants, bpm.presence, Pairs(ks[..i], u.from), Pairs(ks[..i], u.from))
        invariant Counts(inARow, prune) == CountMany(Counts(old(inARow), prune0), u.from, i)
        invariant dontHaves == dontHaves0 + (Elems(ks[..i]) - blkCids)
      {
        var c := ks[i];
        ElemsStep(ks, i);
        PairsStep(ks, i, u.from);
        CountNext(Counts(old(inARow), prune0), u.from, i, Counts(inARow, prune));
        if u.from in inARow && inARow[u.from] == DONT_HAVE_LIMIT {
          prune := prune + {u.from};
        } else {
          inARow := inARow[u.from := if u.from in inARow then inARow[u.from] + 1 else 1];
        }
        if c in blkCids {
          ToldUntracked(old(wants), wants, bpm.presence, Pairs(ks[..i], u.from), Pairs(ks[..i], u.from), c, u.from);
        } else {
          dontHaves := dontHaves + {c};
          ghost var log0, wants0 := log, wants;
          UpdateWantBlockPresence(c, u.from, spm.peers, src);
          ExtendsTrans(old(log), log0, log, src);
          ToldRecord(old(wants), wants0, wants, bpm.presence, Pairs(ks[..i], u.from), Pairs(ks[..i], u.from), c,
                     u.from);
          ghost var log1, wants1 := log, wants;
          Decline(c, u.from, src);
          ExtendsTrans(old(log), log1, log, src);
          ToldDecline(old(wants), wants1, wants, bpm.presence, Pairs(ks[..i + 1], u.from), Pairs(ks[..i], u.from), c,
                      u.from);
        }
      }
    }

    method ReceiveHaves(u: Update, blkCids: set<Cid>, prune0: set<PeerId>, ghost src: Source)
      returns (prune: set<PeerId>)
      requires Valid() && u.from != NO_PEER && src.presence == bpm.presence && wants.Keys !! blkCids
      modifies this
      ensures Valid() && Extends(old(log), log, src)
      ensures Told(old(wants), wants, bpm.presence, Pairs(u.haves, u.from), {})
      ensures inARow == (if u.haves == [] then old(inARow) else old(inARow) - {u.from})
      ensures prune == (if u.haves == [] then prune0 else prune0 - {u.from})
    {
      hide LogOk, SentOk, InfoOk, WantsOk, Told, Pairs, RecordedAt, PresenceOf, Honest;
      prune := prune0;
      var ks := u.haves;
      WholeList(ks);
      NothingTold(wants, bpm.presence, u.from);
      for i := 0 to |ks|
        invariant Valid() && Extends(old(log), log, src) && wants.Keys == old(wants).Keys
        invariant Told(old(wants), wants, bpm.presence, Pairs(ks[..i], u.from), {})
        invariant inARow == (if i == 0 then old(inARow) else old(inARow) - {u.from})
        invariant prune == (if i == 0 then prune0 else prune0 - {u.from})
      {
        var c := ks[i];
        PairsStep(ks, i, u.from);
        if c in blkCids {
          HeldUntracked(old(wants), wants, bpm.presence, Pairs(ks[..i], u.from), {}, c, u.from);
        } else {
          ghost var log0, wants0 := log, wants;
          UpdateWantBlockPresence(c, u.from, spm.peers, src);
          ExtendsTrans(old(log), log0, log, src);
          ToldRecord(old(wants), wants0, wants, bpm.presence, Pairs(ks[..i], u.from), {}, c, u.from);
        }
        inARow := inARow - {u.from};
        prune := prune - {u.from};
      }
    }

    method BlocksPhase(updates: seq<Update>, ghost src: Source) returns (blkCids: set<Cid>)
      requires Valid() && forall u :: u in updates ==> UpdateOk(u, src)
      modifies this, tracker
      ensures Valid() && Extends(old(log), log, src)
      ensures blkCids == Delivered(updates) && wants == old(wants) - blkCids
      ensures inARow == old(inARow) - Deliverers(updates)
      ensures tracker.firstResponder == CreditAll(old(tracker.firstResponder), updates, old(wants).Keys)
    {
      hide LogOk, SentOk, InfoOk, WantsOk, Delivered, Deliverers, Extends, Elems, Credited, CreditAll;
      blkCids := {};
      NoUpdates(wants, inARow);
      NoCredits(tracker.firstResponder, wants.Keys);
      ExtendsNothing(log, src);
      assert updates[..|updates|] == updates;
      for i := 0 to |updates|
        invariant Valid() && Extends(old(log), log, src)
        invariant blkCids == Delivered(updates[..i]) && wants == old(wants) - blkCids
        invariant inARow == old(inARow) - Deliverers(updates[..i])
        invariant tracker.firstResponder == CreditAll(old(tracker.firstResponder), updates[..i], old(wants).Keys)
      {
        var u := updates[i];
        assert UpdateOk(u, src);
        DeliveryStep(updates, i, old(wants), old(inARow));
        CreditStep(old(tracker.firstResponder), updates, i, old(wants).Keys);
        assert wants.Keys == old(wants).Keys - Delivered(updates[..i]);
        ghost var log0 := log;
        ReceiveBlocks(u.from, u.ks, src);
        ExtendsTrans(old(log), log0, log, src);
        blkCids := blkCids + Elems(u.ks);
      }
    }

    method DontHavesPhase(updates: seq<Update>, blkCids: set<Cid>, ghost src: Source)
      returns (dontHaves: set<Cid>, prune: set<PeerId>)
      requires Valid() && src.presence == bpm.presence && wants.Keys !! blkCids
      requires forall u :: u in updates ==> UpdateOk(u, src)
      modifies this
      ensures Valid() && Extends(old(log), log, src)
      ensures Told(old(wants), wants, bpm.presence, DontHavePairs(updates), DontHavePairs(updates))
      ensures Counts(inARow, prune) == CountUpdates(Counts(old(inARow), {}), updates)
      ensures dontHaves == DontHaveKeys(updates) - blkCids
    {
      hide LogOk, SentOk, InfoOk, WantsOk, ToldWant, DontHavePairs, DontHaveKeys, CountUpdates, CountMany, Extends,
           Pairs, Elems;
      dontHaves, prune := {}, {};
      NothingTold(wants, bpm.presence, NO_PEER);
      NoDontHaves(Counts(inARow, {}));
      ExtendsNothing(log, src);
      assert updates[..|updates|] == updates;
      for i := 0 to |updates|
        invariant Valid() && Extends(old(log), log, src)
        invariant Told(old(wants), wants, bpm.presence, DontHavePairs(updates[..i]), DontHavePairs(updates[..i]))
        invariant Counts(inARow, prune) == CountUpdates(Counts(old(inARow), {}), updates[..i])
        invariant dontHaves == DontHaveKeys(updates[..i]) - blkCids
      {
        var u := updates[i];
        assert UpdateOk(u, src);
        DontHaveStep(updates, i, Counts(old(inARow), {}));
        ghost var log0, wants0 := log, wants;
        dontHaves, prune := ReceiveDontHaves(u, blkCids, dontHaves, prune, src);
        ExtendsTrans(old(log), log0, log, src);
        ToldTwice(old(wants), wants0, wants, bpm.presence, DontHavePairs(updates[..i]), DontHavePairs(updates[..i]),
                  Pairs(u.dontHaves, u.from), Pairs(u.dontHaves, u.from));
      }
    }

    method HavesPhase(updates: seq<Update>, blkCids: set<Cid>, prune0: set<PeerId>, ghost src: Source)
      returns (prune: set<PeerId>)
      requires Valid() && src.presence == bpm.presence && wants.Keys !! blkCids
      requires forall u :: u in updates ==> UpdateOk(u, src)
      modifies this
      ensures Valid() && Extends(old(log), log, src)
      ensures Told(old(wants), wants, bpm.presence, HavePairs(updates), {})
      ensures inARow == old(inARow) - Havers(updates) && prune == prune0 - Havers(updates)
    {
      hide LogOk, SentOk, InfoOk, WantsOk, ToldWant, HavePairs, Havers, Extends, Pairs;
      prune := prune0;
      NothingTold(wants, bpm.presence, NO_PEER);
      NoHaves(inARow, prune);
      ExtendsNothing(log, src);
      assert updates[..|updates|] == updates;
      for i := 0 to |updates|
        invariant Valid() && Extends(old(log), log, src)
        invariant Told(old(wants), wants, bpm.presence, HavePairs(updates[..i]), {})
        invariant inARow == old(inARow) - Havers(updates[..i]) && prune == prune0 - Havers(updates[..i])
      {
        var u := updates[i];
        assert UpdateOk(u, src);
        HaveStep(updates, i, old(inARow), prune0);
        ghost var none: set<(Cid, PeerId)> := {};
        assert none + none == none;
        ghost var log0, wants0 := log, wants;
        prune := ReceiveHaves(u, blkCids, prune, src);
        ExtendsTrans(old(log), log0, log, src);
        ToldTwice(old(wants), wants0, wants, bpm.presence, HavePairs(updates[..i]), none, Pairs(u.haves, u.from), none);
      }
    }

    /** A peer that has a block we want stays in the session, however many DONT_HAVEs it sent. */
    method KeepUseful(prune0: set<PeerId>) returns (prune: set<PeerId>)
      ensures prune == (set p | p in prune0 && !Useful(wants.Keys, bpm.presence, p))
    {
      hide HasBlock;
      prune := prune0;
      var todo := prune0;
      while todo != {}
        invariant todo <= prune0
        invariant prune == (set p | p in prune0 && (p in todo || !Useful(wants.Keys, bpm.presence, p)))
        decreases todo
      {
        var p :| p in todo;
        todo := todo - {p};
        var keys := wants.Keys;
        var useful := false;
        while keys != {} && !useful
          invariant keys <= wants.Keys
          invariant useful ==> Useful(wants.Keys, bpm.presence, p)
          invariant !useful ==> forall c :: c in wants.Keys - keys ==> !HasBlock(bpm.presence, p, c)
          decreases keys
        {
          var c :| c in keys;
          useful := HasBlock(bpm.presence, p, c);
          keys := keys - {c};
        }
        if useful {
          prune := prune - {p};
        }
      }
    }

    /** Blocks, then DONT_HAVEs, then HAVEs; what is left to prune are peers of no use. */
    method ProcessUpdates(updates: seq<Update>, ghost src: Source) returns (dontHaves: set<Cid>, prune: set<PeerId>)
      requires Valid() && src.presence == bpm.presence && forall u :: u in updates ==> UpdateOk(u, src)
      modifies this, tracker
      ensures Valid() && Extends(old(log), log, src)
      ensures Told(old(wants) - Delivered(updates), wants, bpm.presence,
                   DontHavePairs(updates) + HavePairs(updates), DontHavePairs(updates))
      ensures dontHaves == DontHaveKeys(updates) - Delivered(updates)
      ensures var counts := CountUpdates(Counts(old(inARow) - Deliverers(updates), {}), updates);
              && inARow == counts.inARow - Havers(updates)
              && prune == (set p | p in counts.prune - Havers(updates) && !Useful(wants.Keys, bpm.presence, p))
      ensures tracker.firstResponder == CreditAll(old(tracker.firstResponder), updates, old(wants).Keys)
    {
      hide LogOk, SentOk, InfoOk, WantsOk, ToldWant, UpdateOk, DontHavePairs, HavePairs, Havers, Delivered, Deliverers,
           DontHaveKeys, CountUpdates, Useful, Extends, CreditAll;
      var blkCids := BlocksPhase(updates, src);
      ghost var log1, wants1 := log, wants;
      dontHaves, prune := DontHavesPhase(updates, blkCids, src);
      ghost var log2, wants2 := log, wants;
      ExtendsTrans(old(log), log1, log2, src);
      prune := HavesPhase(updates, blkCids, prune, src);
      ExtendsTrans(old(log), log2, log, src);
      ToldTwice(wants1, wants2, wants, bpm.presence, DontHavePairs(updates), DontHavePairs(updates),
                HavePairs(updates), {});
      assert DontHavePairs(updates) + {} == DontHavePairs(updates);
      prune := KeepUseful(prune);
    }

    // ---------- wants that no session peer has ----------

    /** Marks the wants among `ks` that were not reported before, and reports them. */
    method ProcessExhaustedWants(ks: seq<Cid>) returns (res: seq<Cid>)
      requires Valid() && forall c, p :: c in ks && p in spm.peers ==> LacksBlock(bpm.presence, p, c)
      modifies this
      ensures Valid() && inARow == old(inARow)
      ensures forall c :: c in res <==> c in ks && c in old(wants) && !old(wants)[c].exhausted
      ensures Distinct(res) && wants == MarkExhausted(old(wants), res)
      ensures log == if res == [] then old(log) else old(log) + [Exhausted(res, spm.peers, bpm.presence)]
    {
      hide LogOk, SentOk, WantsOk, LacksBlock, Distinct;
      res := [];
      var ws := wants;
      NoneMarked(wants);
      assert ks[..|ks|] == ks;
      for i := 0 to |ks|
        invariant unchanged(this) && Distinct(res)
        invariant forall c :: c in res <==> c in ks[..i] && c in wants && !wants[c].exhausted
        invariant ws == MarkExhausted(wants, res)
      {
        var c := ks[i];
        assert ks[..i + 1] == ks[..i] + [c];
        if c in ws && !ws[c].exhausted {
          DistinctPush(res, c);
          MarkOneMore(wants, res, c);
          res := res + [c];
          ws := ws[c := ws[c].(exhausted := true)];
        }
      }
      MarkedOk(wants, spm.peers, swbt.sentWantBlocks, res);
      if res != [] {
        ExhaustedEvent(log, wants, res, spm.peers, bpm.presence);
        log := log + [Exhausted(res, spm.peers, bpm.presence)];
      }
      wants := ws;
    }

    /** When DONT_HAVEs came in or peers left, the wants that every session peer lacks now. */
    method CheckForExhaustedWants(dontHaves: set<Cid>, newlyUnavailable: set<PeerId>) returns (res: seq<Cid>)
      requires Valid()
      modifies this
      ensures Valid() && inARow == old(inARow)
      ensures forall c :: c in res <==>
                && c in old(wants) && !old(wants)[c].exhausted
                && (c in dontHaves || newlyUnavailable != {})
                && (AllLack(bpm.presence, spm.peers, c) || (newlyUnavailable != {} && spm.peers == {}))
      ensures Distinct(res) && wants == MarkExhausted(old(wants), res)
      ensures log == if res == [] then old(log) else old(log) + [Exhausted(res, spm.peers, bpm.presence)]
    {
      hide LogOk, SentOk, WantsOk, InfoOk, LacksBlock, Distinct;
      NoneMarked(wants);
      if dontHaves == {} && newlyUnavailable == {} {
        return [];
      }
      var ks := ListKeys([], dontHaves);
      if newlyUnavailable != {} {
        ks := ListKeys(seq(|wants|, _ => UNDEF), wants.Keys);
        if spm.peers == {} {
          res := ProcessExhaustedWants(ks);
          return;
        }
      }
      res := [];
      if |ks| > 0 {
        var exhausted := bpm.AllPeersDoNotHaveBlock(spm.peers, ks);
        res := ProcessExhaustedWants(exhausted);
      }
    }

    // ---------- sending ----------

    /** Collects what goes to whom, and records whom each due want-block goes to. */
    method CollectSends(newlyAvailable: set<PeerId>) returns (toSend: map<PeerId, WantSets>)
      requires Valid()
      modifies this
      ensures wants == MarkSentTo(old(wants)) && inARow == old(inARow)
      ensures Collected(toSend, old(wants), spm.peers, newlyAvailable)
      ensures LogOk(log, wants) && SentLog(old(log), log, old(wants))
    {
      hide LogOk, SentOk, WantsOk, Collected, SentLog, MarkSentTo;
      toSend := map[];
      var todo := wants.Keys;
      ghost var done: Wants := map[];
      NothingSent(wants, log, spm.peers, newlyAvailable);
      while todo != {}
        invariant todo <= wants.Keys == old(wants).Keys && inARow == old(inARow)
        invariant done == map c | c in old(wants) && c !in todo :: old(wants)[c]
        invariant wants == old(wants) + MarkSentTo(done)
        invariant Collected(toSend, done, spm.peers, newlyAvailable)
        invariant LogOk(log, wants) && SentLog(old(log), log, done)
        decreases todo
      {
        var c :| c in todo;
        var wi := wants[c];
        KeptUntilDone(old(wants), done, c);
        toSend := AddWant(toSend, c, wi, spm.peers, newlyAvailable, done);
        if wi.sentTo == NO_PEER && wi.bestPeer != NO_PEER {
          SendEvent(log, wants, c);
          SentOneMore(old(log), log, done, c, wi);
          log := log + [SentBlock(c, wi.bestPeer)];
          wants := wants[c := wi.(sentTo := wi.bestPeer)];
        } else {
          SentNoMore(old(log), log, done, c, wi);
        }
        MarkStep(old(wants), done, c, wi);
        todo := todo - {c};
        done := done[c := wi];
      }
      assert done == old(wants);
      AllMarked(old(wants));
    }

    method GetPiggybackWantHaves(p: PeerId, wantBlocks: set<Cid>) returns (whs: set<Cid>)
      ensures whs == Piggyback(wants, wantBlocks, SentOf(swbt.sentWantBlocks, p))
    {
      whs := {};
      var todo := wants.Keys;
      while todo != {}
        invariant todo <= wants.Keys
        invariant whs == Piggyback(wants, wantBlocks, SentOf(swbt.sentWantBlocks, p)) - todo
        decreases todo
      {
        var c :| c in todo;
        todo := todo - {c};
        if c !in wantBlocks && !swbt.HaveSentWantBlockTo(p, c) {
          whs := whs + {c};
        }
      }
    }

    /** Adds the piggybacked want-haves to each peer's wants, and records the want-blocks sent. */
    method SendWants(sends: map<PeerId, WantSets>) returns (sent: map<PeerId, WantSets>)
      modifies swbt
      ensures sent.Keys == sends.Keys
      ensures forall p :: p in sends ==>
                && sent[p].wantBlocks == sends[p].wantBlocks
                && sent[p].wantHaves == sends[p].wantHaves
                   + Piggyback(wants, sends[p].wantBlocks, SentOf(old(swbt.sentWantBlocks), p))
      ensures BlocksRecorded(old(swbt.sentWantBlocks), swbt.sentWantBlocks, sends, sends.Keys)
    {
      hide Piggyback, SentOf, BlocksRecorded;
      sent := map[];
      var todo := sends.Keys;
      NoneRecorded(swbt.sentWantBlocks, sends);
      assert sends.Keys - todo == {};
      while todo != {}
        invariant todo <= sends.Keys && sent.Keys == sends.Keys - todo
        invariant forall p :: p in sent ==>
                    && sent[p].wantBlocks == sends[p].wantBlocks
                    && sent[p].wantHaves == sends[p].wantHaves
                       + Piggyback(wants, sends[p].wantBlocks, SentOf(old(swbt.sentWantBlocks), p))
        invariant BlocksRecorded(old(swbt.sentWantBlocks), swbt.sentWantBlocks, sends, sends.Keys - todo)
        decreases todo
      {
        var p :| p in todo;
        var snd := sends[p];
        var piggyback := GetPiggybackWantHaves(p, snd.wantBlocks);
        sent := sent[p := snd.(wantHaves := snd.wantHaves + piggyback)];
        OneMoreRecorded(old(swbt.sentWantBlocks), swbt.sentWantBlocks, sends, sends.Keys - todo, p);
        assert sends.Keys - (todo - {p}) == (sends.Keys - todo) + {p};
        swbt.AddSentWantBlocksTo(p, snd.wantBlocks);
        todo := todo - {p};
      }
      assert sends.Keys - {} == sends.Keys;
    }

    /** One send round. */
    method SendNextWants(newlyAvailable: set<PeerId>) returns (sent: map<PeerId, WantSets>)
      requires Valid()
      modifies this, swbt
      ensures Valid() && wants == MarkSentTo(old(wants)) && inARow == old(inARow)
      ensures SentLog(old(log), log, old(wants))
      ensures forall p :: p in sent <==>
                BlocksFor(old(wants), p) != {} || BaseHavesFor(old(wants), spm.peers, newlyAvailable, p) != {}
      ensures forall p :: p in sent ==>
                && sent[p].wantBlocks == BlocksFor(old(wants), p)
                && sent[p].wantHaves == HavesFor(old(wants), spm.peers, newlyAvailable, old(swbt.sentWantBlocks), p)
      ensures forall p :: SentOf(swbt.sentWantBlocks, p)
                          == SentOf(old(swbt.sentWantBlocks), p) + BlocksFor(old(wants), p)
    {
      hide LogOk, SentOk, WantsOk, Due, SentLog, BlocksFor, BaseHavesFor, MarkSentTo;
      var toSend := CollectSends(newlyAvailable);
      MarkedKeys(wants, old(wants), spm.peers);
      sent := SendWants(toSend);
      SentAgain(old(wants), old(swbt.sentWantBlocks), swbt.sentWantBlocks);
    }

    // ---------- a batch of changes ----------

    method ApplyWants(ch: Change, ghost src: Source)
      requires Valid() && src.presence == bpm.presence
      requires (forall c :: c in ch.add ==> c in src.adds) && (forall c :: c in ch.cancel ==> c in src.drops)
      modifies this
      ensures Valid() && inARow == old(inARow) && Extends(old(log), log, src)
      ensures wants.Keys == old(wants).Keys + Elems(ch.add) - Elems(ch.cancel)
      ensures forall c :: c in wants ==>
                if c in old(wants) then wants[c] == old(wants)[c] else IsFresh(wants[c], spm.peers, bpm.presence, c)
    {
      hide LogOk, SentOk, InfoOk, WantsOk, Elems, Extends, PresenceOf, KnownAbout;
      WholeList(ch.add);
      WholeList(ch.cancel);
      ExtendsNothing(log, src);
      for i := 0 to |ch.add|
        invariant Valid() && inARow == old(inARow) && Extends(old(log), log, src)
        invariant wants.Keys == old(wants).Keys + Elems(ch.add[..i])
        invariant forall c :: c in wants ==>
                    if c in old(wants) then wants[c] == old(wants)[c] else IsFresh(wants[c], spm.peers, bpm.presence, c)
      {
        ElemsStep(ch.add, i);
        ghost var log0 := log;
        TrackWant(ch.add[i], src);
        ExtendsTrans(old(log), log0, log, src);
      }
      for i := 0 to |ch.cancel|
        invariant Valid() && inARow == old(inARow) && Extends(old(log), log, src)
        invariant wants.Keys == old(wants).Keys + Elems(ch.add) - Elems(ch.cancel[..i])
        invariant forall c :: c in wants ==>
                    if c in old(wants) then wants[c] == old(wants)[c] else IsFresh(wants[c], spm.peers, bpm.presence, c)
      {
        ElemsStep(ch.cancel, i);
        ghost var log0 := log;
        UntrackWant(ch.cancel[i], src);
        ExtendsTrans(old(log), log0, log, src);
      }
    }

    /** Tracks and untracks wants change by change, and collects cancels, updates and availability. */
    method CollectChanges(changes: seq<Change>, ghost src: Source)
      returns (availability: map<PeerId, bool>, cancels: seq<Cid>, updates: seq<Update>)
      requires Valid() && src == SourceOf(changes, bpm.presence)
      modifies this
      ensures Valid() && inARow == old(inARow) && Extends(old(log), log, src)
      ensures Batch(availability, cancels, updates, wants.Keys) == BatchOf(changes, old(wants).Keys)
      ensures Begun(old(wants), wants, cancels, spm.peers, bpm.presence)
    {
      hide LogOk, SentOk, InfoOk, WantsOk, Extends, SourceOf, BatchOf, After, IsFresh;
      availability, cancels, updates := map[], [], [];
      SourceKnows(changes, bpm.presence);
      ExtendsNothing(log, src);
      NoChanges(wants.Keys);
      assert changes[..|changes|] == changes;
      for i := 0 to |changes|
        invariant Valid() && inARow == old(inARow) && Extends(old(log), log, src)
        invariant Batch(availability, cancels, updates, wants.Keys) == BatchOf(changes[..i], old(wants).Keys)
        invariant Begun(old(wants), wants, cancels, spm.peers, bpm.presence)
      {
        var ch := changes[i];
        ChangeStep(changes, i, old(wants).Keys);
        ChangeOk(changes, i, bpm.presence);
        ghost var log0 := log;
        ApplyWants(ch, src);
        ExtendsTrans(old(log), log0, log, src);
        cancels := cancels + ch.cancel;
        if ch.update.from != NO_PEER {
          if |ch.update.ks| > 0 || |ch.update.haves| > 0 {
            availability := availability[ch.update.from := true];
          }
          updates := updates + [ch.update];
        }
        if ch.target != NO_PEER {
          availability := availability[ch.target := ch.available];
        }
      }
    }

    /** All of a batch but the send round. */
    method ApplyChanges(changes: seq<Change>, ghost src: Source)
      returns (cancels: seq<Cid>, prune: set<PeerId>, exhausted: seq<Cid>, newlyAvailable: set<PeerId>)
      requires Valid() && src == SourceOf(changes, bpm.presence)
      modifies this, spm, tracker
      ensures Valid()
      ensures var b := BatchOf(changes, old(wants).Keys);
              && BatchApplied(b, old(spm.peers), cancels, wants.Keys, spm.peers)
              && Counted(b.updates, old(spm.peers), spm.peers, old(inARow), inARow, prune, wants.Keys, bpm.presence)
              && AnswersNoted(b.updates, wants, bpm.presence)
              && NoneWaits(b.updates, old(spm.peers) - spm.peers, wants)
              && NoneOverlooked(b.updates, old(spm.peers), spm.peers, wants, bpm.presence)
              && BatchEffect(old(wants), old(spm.peers), b, spm.peers, bpm.presence, exhausted, wants)
              && tracker.firstResponder == CreditAll(old(tracker.firstResponder), b.updates, b.keys)
      ensures newlyAvailable == spm.peers - old(spm.peers)
      ensures AllNoted(old(wants), old(spm.peers), changes, spm.peers, wants, bpm.presence)
      ensures Reported(old(log), log, src, exhausted, spm.peers, bpm.presence)
    {
      hide LogOk, SentOk, InfoOk, WantsOk, SourceOf, BatchOf, Delivered, Deliverers, Havers, DontHavePairs, HavePairs,
           DontHaveKeys, CountUpdates, ToldWant, MovedWant, AllLack, Distinct, Honest, UpdateOk, Useful, Extends,
           AnswersNoted, NoneWaits, Begun, BatchEffect, AllNoted, CreditAll;
      SourceKnows(changes, bpm.presence);
      var availability, updates;
      availability, cancels, updates := CollectChanges(changes, src);
      BatchOk(changes, old(wants).Keys, bpm.presence);
      ghost var log1, wants1 := log, wants;
      var newlyUnavailable;
      newlyAvailable, newlyUnavailable := ProcessAvailability(availability, src);
      assert newlyUnavailable == old(spm.peers) - spm.peers && newlyAvailable == spm.peers - old(spm.peers);
      ghost var log2, wants2 := log, wants;
      ExtendsTrans(old(log), log1, log2, src);
      var dontHaves;
      dontHaves, prune := ProcessUpdates(updates, src);
      ghost var log3, wants3 := log, wants;
      ExtendsTrans(old(log), log2, log3, src);
      exhausted := CheckForExhaustedWants(dontHaves, newlyUnavailable);
      WaitsNoMore(wants1, wants2, wants3, updates, src, bpm.presence, newlyAvailable, newlyUnavailable, exhausted);
      EffectIs(old(wants), wants1, wants2, wants3, old(spm.peers), BatchOf(changes, old(wants).Keys), spm.peers,
               bpm.presence, exhausted);
      EffectIsNoted(Session(old(wants), old(spm.peers)), changes, spm.peers, bpm.presence, exhausted, wants);
      TellsAll(wants2 - Delivered(updates), wants3, updates, bpm.presence, exhausted);
      assert Extends(old(log), log3, src);
      assert log == if exhausted == [] then log3 else log3 + [Exhausted(exhausted, spm.peers, bpm.presence)];
    }

    /**
     Processes a batch: wants, availability, updates, exhaustion, then a send round on
     the wants `due` that the batch leaves. All that is logged is justified by the
     batch, by the report or by what is sent.
     */
    method OnChange(changes: seq<Change>)
      returns (cancels: seq<Cid>, prune: set<PeerId>, exhausted: seq<Cid>, sent: map<PeerId, WantSets>,
               ghost due: Wants)
      requires Valid()
      modifies this, spm, tracker, swbt
      ensures Valid()
      ensures spm.peers != {} ==> forall c :: c in wants ==> OutOrHopeless(wants[c])
      ensures var b := BatchOf(changes, old(wants).Keys);
              && BatchApplied(b, old(spm.peers), cancels, wants.Keys, spm.peers)
              && Counted(b.updates, old(spm.peers), spm.peers, old(inARow), inARow, prune, wants.Keys, bpm.presence)
              && AnswersNoted(b.updates, due, bpm.presence)
              && NoneWaits(b.updates, old(spm.peers) - spm.peers, due)
              && NoneOverlooked(b.updates, old(spm.peers), spm.peers, due, bpm.presence)
              && tracker.firstResponder == CreditAll(old(tracker.firstResponder), b.updates, b.keys)
      ensures IsTurn(Session(old(wants), old(spm.peers)), Turn(changes, bpm.presence, exhausted, due),
                     Session(wants, spm.peers))
      ensures if spm.peers == {} then sent == map[]
              else RoundSent(due, spm.peers, spm.peers - old(spm.peers), old(swbt.sentWantBlocks), sent)
      ensures spm.peers != {} ==>
                forall p :: SentOf(swbt.sentWantBlocks, p) == SentOf(old(swbt.sentWantBlocks), p) + BlocksFor(due, p)
      ensures AllNoted(old(wants), old(spm.peers), changes, spm.peers, due, bpm.presence)
      ensures forall p, c :: p in sent && c in sent[p].wantBlocks && Answered(changes, c, p) ==>
                c in bpm.presence && p in bpm.presence[c] ==> bpm.presence[c][p]
      ensures exists log' :: Reported(old(log), log', SourceOf(changes, bpm.presence), exhausted, spm.peers,
                                      bpm.presence)
                             && SentFrom(log', log, sent)
    {
      hide LogOk, SentOk, InfoOk, WantsOk, SourceOf, BatchOf, BatchApplied, BatchEffect, Counted, AnswersNoted,
           NoneWaits, NoneOverlooked, Due, OutOrHopeless, Useful, Reported, SentLog, BaseHavesFor, HavesFor, BlocksFor,
           IsTurn, AllNoted, Answered, CreditAll, SentOf;
      var newlyAvailable;
      cancels, prune, exhausted, newlyAvailable := ApplyChanges(changes, SourceOf(changes, bpm.presence));
      due := wants;
      ghost var log1 := log;
      sent := map[];
      if spm.peers != {} {
        RoundLeavesNothingDue(wants, spm.peers);
        sent := SendNextWants(newlyAvailable);
        assert wants.Keys == due.Keys;
        AllSent(log1, log, due, sent);
        forall p, c | p in sent && c in sent[p].wantBlocks && Answered(changes, c, p)
          ensures c in bpm.presence && p in bpm.presence[c] ==> bpm.presence[c][p]
        {
          DeclinedNotAsked(old(wants), old(spm.peers), changes, spm.peers, due, bpm.presence, c, p);
        }
      }
      assert SentFrom(log1, log, sent);
      TurnIs(Session(old(wants), old(spm.peers)), Turn(changes, bpm.presence, exhausted, due),
             Session(wants, spm.peers), cancels);
    }
  }
}
