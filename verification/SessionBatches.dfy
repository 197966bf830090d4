/**
 Batches of changes to a session's wants, on values: what a batch amounts to, which
 events it justifies, what each step does to the wants, and what a send round collects.
 */
module SessionBatches {
  import opened Types
  import opened SessionTrackers
  import opened SessionModel

  datatype Update = Update(from: PeerId, ks: seq<Cid>, haves: seq<Cid>, dontHaves: seq<Cid>)

  /** An update from no peer, or an availability of no peer, stands for none. */
  datatype Change = Change(add: seq<Cid>, cancel: seq<Cid>, update: Update, target: PeerId, available: bool)

  datatype WantSets = WantSets(wantBlocks: set<Cid>, wantHaves: set<Cid>)

  // ---------- what may justify an event ----------

  /** What a batch of changes holds, and what is known about presences while it is processed. */
  datatype Source = Source(adds: set<Cid>, drops: set<Cid>, dontHaves: set<(Cid, PeerId)>, lefts: set<PeerId>,
                           presence: Presences)

  ghost predicate Honest(e: Event, src: Source) {
    match e
    case Tracked(c) => c in src.adds
    case Untracked(c) => c in src.drops
    case GotDontHave(c, p) => (c, p) in src.dontHaves
    case GotHave(c, p) => HasBlock(src.presence, p, c)
    case Left(p) => p in src.lefts
    case _ => false
  }

  ghost predicate Extends(log: seq<Event>, log': seq<Event>, src: Source) {
    log <= log' && forall i :: |log| <= i < |log'| ==> Honest(log'[i], src)
  }

  lemma ExtendsNothing(log: seq<Event>, src: Source)
    ensures Extends(log, log, src)
  {
  }

  lemma ExtendsTrans(a: seq<Event>, b: seq<Event>, c: seq<Event>, src: Source)
    requires Extends(a, b, src) && Extends(b, c, src)
    ensures Extends(a, c, src)
  {
    hide Honest;
  }

  ghost function SourceOf(changes: seq<Change>, presence: Presences): Source {
    Source(set i, c | 0 <= i < |changes| && c in changes[i].add :: c,
           (set i, c | 0 <= i < |changes| && c in changes[i].cancel :: c)
           + (set i, c | 0 <= i < |changes| && changes[i].update.from != NO_PEER && c in changes[i].update.ks :: c),
           set i, c | 0 <= i < |changes| && changes[i].update.from != NO_PEER && c in changes[i].update.dontHaves
                   :: (c, changes[i].update.from),
           set i | 0 <= i < |changes| && changes[i].target != NO_PEER && !changes[i].available :: changes[i].target,
           presence)
  }

  // ---------- wants and the log ----------

  /** Projecting a change at one key. */
  lemma ProjectAt(wants: Wants, c: Cid, wi: WantInfo)
    ensures Project(wants[c := wi]) == Project(wants)[c := WantView(wi.sentTo, wi.exhausted)]
    ensures c in wants && wi.sentTo == wants[c].sentTo && wi.exhausted == wants[c].exhausted ==>
              Project(wants[c := wi]) == Project(wants)
  {
    if c in wants {
      assert Project(wants)[c := WantView(wants[c].sentTo, wants[c].exhausted)] == Project(wants);
    }
  }

  lemma ProjectWithout(wants: Wants, c: Cid)
    ensures Project(wants - {c}) == Project(wants) - {c}
  {
  }

  lemma LogAt(log: seq<Event>, wants: Wants, e: Event, wants': Wants)
    requires LogOk(log, wants) && Fits(Project(wants), e) && After(Project(wants), e) == Project(wants')
    ensures LogOk(log + [e], wants')
  {
    hide After, Fits, Project;
    OneMoreEvent(log, e);
  }

  lemma OneFewer(wants: Wants, done: set<Cid>, c: Cid)
    ensures wants - done - {c} == wants - (done + {c})
    ensures c in wants - done <==> c in wants && c !in done
  {
  }

  lemma FewerPeers(wants: Wants, peers: set<PeerId>, fewer: set<PeerId>)
    requires WantsOk(wants, peers) && fewer <= peers
    ensures WantsOk(wants, fewer)
  {
    hide IsBest;
  }

  // ---------- what is known about a peer ----------

  function PresenceOf(presence: Presences, p: PeerId, c: Cid): Presence {
    if HasBlock(presence, p, c) then Have else if LacksBlock(presence, p, c) then DontHave else Unknown
  }

  /** A peer that answered DONT_HAVE lacks the block, one that answered HAVE has it, of others nothing is known. */
  ghost predicate KnownAs(bp: Presence, presence: Presences, p: PeerId, c: Cid) {
    && (bp == DontHave <==> c in presence && p in presence[c] && !presence[c][p])
    && (bp == Have <==> c in presence && p in presence[c] && presence[c][p])
    && (bp == Unknown <==> !(c in presence && p in presence[c]))
  }

  lemma PresenceIsKnown(presence: Presences, p: PeerId, c: Cid)
    ensures KnownAs(PresenceOf(presence, p, c), presence, p, c)
  {
  }

  lemma AllAreKnown(presence: Presences, peers: set<PeerId>, c: Cid)
    ensures var known := KnownAbout(presence, peers, c);
            known.Keys == peers && forall p :: p in peers ==> KnownAs(known[p], presence, p, c)
  {
  }

  ghost function KnownAbout(presence: Presences, peers: set<PeerId>, c: Cid): map<PeerId, Presence> {
    map p | p in peers :: PresenceOf(presence, p, c)
  }

  lemma NothingKnown(presence: Presences, c: Cid)
    ensures KnownAbout(presence, {}, c) == map[]
  {
  }

  lemma KnownMore(presence: Presences, peers: set<PeerId>, c: Cid, p: PeerId)
    ensures KnownAbout(presence, peers + {p}, c) == KnownAbout(presence, peers, c)[p := PresenceOf(presence, p, c)]
  {
    hide PresenceOf;
  }

  /** The presence of `p` is recorded for `c`; a HAVE ends exhaustion. */
  ghost predicate RecordedAt(before: Wants, after: Wants, c: Cid, p: PeerId, bp: Presence) {
    && after.Keys == before.Keys
    && (forall d :: d in before && d != c ==> after[d] == before[d])
    && (c in before ==>
          && after[c].blockPresence == before[c].blockPresence[p := bp]
          && after[c].sentTo == before[c].sentTo
          && after[c].exhausted == (before[c].exhausted && bp != Have))
  }

  /** The record of one want alone. */
  lemma RecordedAlone(wants0: Wants, before: Wants, after: Wants, c: Cid, p: PeerId, bp: Presence)
    requires RecordedAt(before, after, c, p, bp) && c in before && c in wants0 && before[c] == wants0[c]
    ensures after.Keys == before.Keys && forall d :: d in before && d != c ==> after[d] == before[d]
    ensures RecordedAt(wants0, wants0[c := after[c]], c, p, bp)
  {
  }

  lemma InfoAfterRecord(wi: WantInfo, peers: set<PeerId>, p: PeerId, bp: Presence, best: PeerId, exhausted: bool)
    requires InfoOk(wi, peers) && p != NO_PEER && IsBest(wi.blockPresence[p := bp], best)
    ensures InfoOk(WantInfo(wi.blockPresence[p := bp], wi.sentTo, best, exhausted), peers + {p})
  {
    hide IsBest;
  }

  lemma HaveEvent(log: seq<Event>, wants: Wants, c: Cid, p: PeerId, wi: WantInfo, src: Source)
    requires LogOk(log, wants) && c in wants && HasBlock(src.presence, p, c)
    requires wi.sentTo == wants[c].sentTo && !wi.exhausted
    ensures LogOk(log + [GotHave(c, p)], wants[c := wi])
    ensures Extends(log, log + [GotHave(c, p)], src)
  {
    hide Disciplined, Replay;
    ProjectAt(wants, c, wi);
    LogAt(log, wants, GotHave(c, p), wants[c := wi]);
  }

  ghost function PeersAt(bp: map<PeerId, Presence>, best: Presence): set<PeerId> {
    set p | p in bp && bp[p] == best
  }

  method PeersWith(bp: map<PeerId, Presence>, best: Presence) returns (ps: seq<PeerId>)
    ensures IsListing(ps, PeersAt(bp, best))
  {
    hide Distinct, Elems;
    ps := [];
    var todo := bp.Keys;
    assert PeersAt(bp, best) - todo == {};
    NoPeersListed();
    while todo != {}
      invariant todo <= bp.Keys && IsListing(ps, PeersAt(bp, best) - todo)
      decreases todo
    {
      var p :| p in todo;
      if bp[p] == best {
        DistinctPush(ps, p);
        ElemsPush(ps, p);
        assert PeersAt(bp, best) - (todo - {p}) == PeersAt(bp, best) - todo + {p};
        ps := ps + [p];
      } else {
        assert PeersAt(bp, best) - (todo - {p}) == PeersAt(bp, best) - todo;
      }
      todo := todo - {p};
    }
    assert PeersAt(bp, best) - {} == PeersAt(bp, best);
  }

  lemma NoPeersListed()
    ensures IsListing<PeerId>([], {})
  {
  }

  /** Among the peers of the best presence, listed in some order, the draw falls on `best`. */
  ghost predicate Drawn(firstResponder: map<PeerId, nat>, bp: map<PeerId, Presence>, rnd: real, best: PeerId)
    requires best in bp
  {
    exists ps, k: nat :: IsListing(ps, PeersAt(bp, bp[best])) && k < |ps| && ps[k] == best
                         && DrawFalls(firstResponder, ps, rnd, k)
  }

  lemma DrawnIs(firstResponder: map<PeerId, nat>, bp: map<PeerId, Presence>, rnd: real, best: PeerId, ps: seq<PeerId>,
                k: nat)
    requires best in bp && IsListing(ps, PeersAt(bp, bp[best])) && k < |ps| && ps[k] == best
    requires DrawFalls(firstResponder, ps, rnd, k)
    ensures Drawn(firstResponder, bp, rnd, best)
  {
    hide DrawFalls, IsListing;
  }

  lemma ListedAreTied(ps: seq<PeerId>, bp: map<PeerId, Presence>, best: Presence, p: PeerId)
    requires IsListing(ps, PeersAt(bp, best))
    ensures p in ps <==> p in bp && bp[p] == best
    ensures ps == [] ==> p !in PeersAt(bp, best)
  {
    assert p in Elems(ps) <==> p in ps;
  }

  /** The best of the peers seen, which are those not in `todo`. */
  ghost predicate BestSoFar(bp: map<PeerId, Presence>, todo: set<PeerId>, best: PeerId, bestBP: Presence) {
    && (forall q :: q in bp.Keys - todo ==> bp[q].Rank() <= bestBP.Rank())
    && if best == NO_PEER then bestBP == DontHave else best in bp && bp[best] == bestBP && bestBP != DontHave
  }

  lemma NoneSeen(bp: map<PeerId, Presence>)
    ensures BestSoFar(bp, bp.Keys, NO_PEER, DontHave)
  {
  }

  /** Seeing one more peer: the first of a new best presence, one more of the best so far, or a worse one. */
  lemma OneMoreSeen(bp: map<PeerId, Presence>, best: PeerId, bestBP: Presence, todo: set<PeerId>, p: PeerId)
    requires p in todo && todo <= bp.Keys && BestSoFar(bp, todo, best, bestBP) && NO_PEER !in bp
    ensures if bp[p].Rank() > bestBP.Rank() then BestSoFar(bp, todo - {p}, p, bp[p])
            else BestSoFar(bp, todo - {p}, best, bestBP)
    ensures bp[p] == bestBP ==> |PeersAt(bp, bestBP) - (todo - {p})| == |PeersAt(bp, bestBP) - todo| + 1
    ensures bp[p] != bestBP ==> PeersAt(bp, bestBP) - (todo - {p}) == PeersAt(bp, bestBP) - todo
    ensures bp[p].Rank() > bestBP.Rank() ==> |PeersAt(bp, bp[p]) - (todo - {p})| == 1 && bp[p] != bestBP
  {
    if bp[p] == bestBP {
      assert PeersAt(bp, bestBP) - (todo - {p}) == PeersAt(bp, bestBP) - todo + {p};
    }
    if bp[p].Rank() > bestBP.Rank() {
      assert PeersAt(bp, bp[p]) - (todo - {p}) == {p};
    }
  }

  lemma AllSeen(bp: map<PeerId, Presence>, best: PeerId, bestBP: Presence)
    requires BestSoFar(bp, {}, best, bestBP) && NO_PEER !in bp
    ensures IsBest(bp, best) && PeersAt(bp, bestBP) - {} == PeersAt(bp, bestBP)
    ensures best != NO_PEER ==> best in bp && bp[best] == bestBP
  {
    assert bp.Keys - {} == bp.Keys;
  }

  lemma BestMeans(bp: map<PeerId, Presence>, best: PeerId)
    requires IsBest(bp, best) && NO_PEER !in bp
    ensures best == NO_PEER <==> forall p :: p in bp ==> bp[p] == DontHave
    ensures best != NO_PEER ==> best in bp && bp[best] != DontHave
    ensures best != NO_PEER && bp[best] != Have ==> forall p :: p in bp ==> bp[p] != Have
  {
  }

  lemma TiedIsBest(bp: map<PeerId, Presence>, best: PeerId, other: PeerId)
    requires IsBest(bp, best) && best in bp && other in bp && bp[other] == bp[best] && NO_PEER !in bp
    ensures IsBest(bp, other)
  {
  }

  lemma OnlyOneIsDrawn(firstResponder: map<PeerId, nat>, bp: map<PeerId, Presence>, rnd: real, best: PeerId)
    requires best in bp && |PeersAt(bp, bp[best])| <= 1 && 0.0 <= rnd < 1.0
    requires forall p :: p in firstResponder ==> firstResponder[p] >= 1
    ensures Drawn(firstResponder, bp, rnd, best)
  {
    hide CountUpTo, DrawFalls;
    var tied := PeersAt(bp, bp[best]);
    assert best in tied && tied == {best} by { AtMostOne(tied, best); }
    assert IsListing([best], {best});
    AloneIsDrawn(firstResponder, best, rnd);
  }

  lemma AtMostOne(s: set<PeerId>, p: PeerId)
    requires p in s && |s| <= 1
    ensures s == {p}
  {
    assert |s - {p}| == 0;
  }

  lemma AloneIsDrawn(firstResponder: map<PeerId, nat>, p: PeerId, rnd: real)
    requires 0.0 <= rnd < 1.0 && forall q :: q in firstResponder ==> firstResponder[q] >= 1
    ensures DrawFalls(firstResponder, [p], rnd, 0)
  {
    hide CountUpTo;
    NoneCounted(firstResponder, [p], rnd);
    CountUpToGrows(firstResponder, [p], 0, 1);
    PartOfTotal(rnd, CountUpTo(firstResponder, [p], 1));
  }

  lemma PartOfTotal(rnd: real, total: nat)
    requires 0.0 <= rnd < 1.0 && total > 0
    ensures 0.0 <= rnd * total as real < total as real
  {
  }

  // ---------- tracking and untracking ----------

  lemma TrackEvent(log: seq<Event>, wants: Wants, c: Cid, src: Source)
    requires LogOk(log, wants) && c !in wants && c in src.adds
    ensures LogOk(log + [Tracked(c)], wants[c := NEW_WANT]) && Extends(log, log + [Tracked(c)], src)
  {
    hide Disciplined, Replay;
    ProjectAt(wants, c, NEW_WANT);
    LogAt(log, wants, Tracked(c), wants[c := NEW_WANT]);
  }

  lemma NewWantOk(wants: Wants, peers: set<PeerId>, sent: map<PeerId, set<Cid>>, c: Cid)
    requires WantsOk(wants, peers) && SentOk(wants, sent)
    ensures WantsOk(wants[c := NEW_WANT], {}) && InfoOk(NEW_WANT, {}) && SentOk(wants[c := NEW_WANT], sent)
  {
  }

  lemma MoreRecorded(before: WantInfo, after: WantInfo, peers: set<PeerId>, p: PeerId)
    requires InfoOk(before, peers) && InfoOk(after, {p}) && before.blockPresence.Keys + {p} <= after.blockPresence.Keys
    ensures InfoOk(after, peers + {p})
  {
    hide IsBest;
  }

  lemma AllWantsOk(before: Wants, after: Wants, peers: set<PeerId>, c: Cid)
    requires WantsOk(before, peers) && after.Keys == before.Keys + {c} && InfoOk(after[c], peers)
    requires forall d :: d in before ==> after[d] == before[d]
    ensures WantsOk(after, peers)
  {
    hide InfoOk;
  }

  lemma UntrackEvent(log: seq<Event>, wants: Wants, c: Cid, src: Source)
    requires LogOk(log, wants) && c in src.drops
    ensures LogOk(log + [Untracked(c)], wants - {c}) && Extends(log, log + [Untracked(c)], src)
  {
    hide Disciplined, Replay;
    ProjectWithout(wants, c);
    LogAt(log, wants, Untracked(c), wants - {c});
  }

  // ---------- peers that leave ----------

  /** All traces of `p` are gone from the want. */
  ghost predicate Forgot(before: WantInfo, after: WantInfo, p: PeerId) {
    && after.blockPresence == before.blockPresence - {p}
    && after.sentTo == (if before.sentTo == p then NO_PEER else before.sentTo)
    && after.exhausted == before.exhausted
  }

  lemma InfoAfterRemove(wi: WantInfo, peers: set<PeerId>, p: PeerId, best: PeerId, sentTo: PeerId)
    requires InfoOk(wi, peers) && IsBest(wi.blockPresence - {p}, best)
    ensures InfoOk(WantInfo(wi.blockPresence - {p}, sentTo, best, wi.exhausted), peers - {p})
    ensures sentTo == (if wi.sentTo == p then NO_PEER else wi.sentTo) ==>
              Forgot(wi, WantInfo(wi.blockPresence - {p}, sentTo, best, wi.exhausted), p)
  {
    hide IsBest;
  }

  lemma LeftEvent(log: seq<Event>, wants: Wants, wants': Wants, p: PeerId, sent: map<PeerId, set<Cid>>, src: Source)
    requires LogOk(log, wants) && p in src.lefts && SentOk(wants, sent) && wants'.Keys == wants.Keys
    requires forall c :: c in wants ==> Forgot(wants[c], wants'[c], p)
    ensures LogOk(log + [Left(p)], wants') && Extends(log, log + [Left(p)], src) && SentOk(wants', sent)
  {
    hide Disciplined, Replay;
    assert After(Project(wants), Left(p)) == Project(wants');
    LogAt(log, wants, Left(p), wants');
  }

  /** All that joining and leaving peers change in one want. */
  ghost predicate MovedWant(before: WantInfo, after: WantInfo, presence: Presences, joined: set<PeerId>,
                            left: set<PeerId>, c: Cid)
  {
    && (forall p :: p in after.blockPresence <==> p in joined || (p in before.blockPresence && p !in left))
    && (forall p :: p in after.blockPresence ==>
          after.blockPresence[p] == if p in joined then PresenceOf(presence, p, c) else before.blockPresence[p])
    && after.sentTo == (if before.sentTo in left then NO_PEER else before.sentTo)
    && (after.exhausted <==> before.exhausted && forall p :: p in joined ==> PresenceOf(presence, p, c) != Have)
  }

  ghost predicate Moved(before: Wants, after: Wants, presence: Presences, joined: set<PeerId>, left: set<PeerId>) {
    && after.Keys == before.Keys
    && forall c :: c in before ==> MovedWant(before[c], after[c], presence, joined, left, c)
  }

  lemma NoneMoved(wants: Wants, presence: Presences)
    ensures Moved(wants, wants, presence, {}, {})
  {
    hide PresenceOf;
  }

  lemma JoinWant(before: WantInfo, mid: WantInfo, after: WantInfo, presence: Presences, joined: set<PeerId>,
                 left: set<PeerId>, c: Cid, p: PeerId)
    requires MovedWant(before, mid, presence, joined, left, c) && p !in left
    requires after.blockPresence == mid.blockPresence[p := PresenceOf(presence, p, c)] && after.sentTo == mid.sentTo
    requires after.exhausted == (mid.exhausted && PresenceOf(presence, p, c) != Have)
    ensures MovedWant(before, after, presence, joined + {p}, left, c)
  {
    hide PresenceOf;
  }

  lemma LeaveWant(before: WantInfo, mid: WantInfo, after: WantInfo, presence: Presences, joined: set<PeerId>,
                  left: set<PeerId>, c: Cid, p: PeerId)
    requires MovedWant(before, mid, presence, joined, left, c) && p !in joined && p != NO_PEER && NO_PEER !in left
    requires Forgot(mid, after, p)
    ensures MovedWant(before, after, presence, joined, left + {p}, c)
  {
    hide PresenceOf;
  }

  lemma OneMoved(before: Wants, mid: Wants, after: Wants, presence: Presences, joined: set<PeerId>, left: set<PeerId>,
                 p: PeerId, available: bool)
    requires Moved(before, mid, presence, joined, left) && after.Keys == mid.Keys
    requires p !in joined + left && p != NO_PEER && NO_PEER !in left
    requires forall c :: c in mid ==>
               if available then RecordedAt(mid, mid[c := after[c]], c, p, PresenceOf(presence, p, c))
               else Forgot(mid[c], after[c], p)
    ensures available ==> Moved(before, after, presence, joined + {p}, left)
    ensures !available ==> Moved(before, after, presence, joined, left + {p})
  {
    hide PresenceOf, MovedWant, Forgot;
    forall c | c in before
      ensures available ==> MovedWant(before[c], after[c], presence, joined + {p}, left, c)
      ensures !available ==> MovedWant(before[c], after[c], presence, joined, left + {p}, c)
    {
      if available {
        assert RecordedAt(mid, mid[c := after[c]], c, p, PresenceOf(presence, p, c));
        JoinWant(before[c], mid[c], after[c], presence, joined, left, c, p);
      } else {
        LeaveWant(before[c], mid[c], after[c], presence, joined, left, c, p);
      }
    }
  }

  // ---------- what the answers of peers tell ----------

  /** The answers of one peer, as pairs of key and peer. */
  ghost function Pairs(ks: seq<Cid>, p: PeerId): set<(Cid, PeerId)> {
    set c | c in ks :: (c, p)
  }

  lemma PairsStep(ks: seq<Cid>, i: nat, p: PeerId)
    requires i < |ks|
    ensures Pairs(ks[..i + 1], p) == Pairs(ks[..i], p) + {(ks[i], p)}
    ensures (ks[i], p) in Pairs(ks, p)
  {
    assert ks[..i + 1] == ks[..i] + [ks[i]];
  }

  /** All that the answers change in one want: the presences recorded, and whom it is out to. */
  ghost predicate ToldWant(before: WantInfo, after: WantInfo, presence: Presences, recorded: set<(Cid, PeerId)>,
                           declined: set<(Cid, PeerId)>, c: Cid)
  {
    && (forall p :: p in after.blockPresence <==> p in before.blockPresence || (c, p) in recorded)
    && (forall p :: p in after.blockPresence ==>
          after.blockPresence[p] == if (c, p) in recorded then PresenceOf(presence, p, c) else before.blockPresence[p])
    && after.sentTo == (if (c, before.sentTo) in declined then NO_PEER else before.sentTo)
    && (after.exhausted <==> before.exhausted && forall p :: (c, p) in recorded ==> PresenceOf(presence, p, c) != Have)
  }

  ghost predicate Told(before: Wants, after: Wants, presence: Presences, recorded: set<(Cid, PeerId)>,
                       declined: set<(Cid, PeerId)>)
  {
    && after.Keys == before.Keys
    && forall c :: c in before ==> ToldWant(before[c], after[c], presence, recorded, declined, c)
  }

  lemma NothingTold(wants: Wants, presence: Presences, p: PeerId)
    ensures Pairs([], p) == {} && Told(wants, wants, presence, {}, {})
  {
    hide PresenceOf;
  }

  lemma RecordTold(before: WantInfo, after: WantInfo, presence: Presences, c: Cid, p: PeerId, d: Cid)
    requires if d != c then after == before
             else && after.blockPresence == before.blockPresence[p := PresenceOf(presence, p, c)]
                  && after.sentTo == before.sentTo
                  && after.exhausted == (before.exhausted && PresenceOf(presence, p, c) != Have)
    ensures ToldWant(before, after, presence, {(c, p)}, {}, d)
  {
    hide PresenceOf;
    assert (c, p) in {(c, p)};
  }

  lemma ToldWantTwice(x: WantInfo, y: WantInfo, z: WantInfo, presence: Presences, rec1: set<(Cid, PeerId)>,
                      dec1: set<(Cid, PeerId)>, rec2: set<(Cid, PeerId)>, dec2: set<(Cid, PeerId)>, c: Cid)
    requires ToldWant(x, y, presence, rec1, dec1, c) && ToldWant(y, z, presence, rec2, dec2, c)
    ensures ToldWant(x, z, presence, rec1 + rec2, dec1 + dec2, c)
  {
    hide PresenceOf;
    forall p | p in z.blockPresence
      ensures z.blockPresence[p] == if (c, p) in rec1 + rec2 then PresenceOf(presence, p, c) else x.blockPresence[p]
    {
    }
  }

  lemma ToldTwice(a: Wants, b: Wants, c: Wants, presence: Presences, rec1: set<(Cid, PeerId)>, dec1: set<(Cid, PeerId)>,
                  rec2: set<(Cid, PeerId)>, dec2: set<(Cid, PeerId)>)
    requires Told(a, b, presence, rec1, dec1) && Told(b, c, presence, rec2, dec2)
    ensures Told(a, c, presence, rec1 + rec2, dec1 + dec2)
  {
    hide ToldWant;
    forall d | d in a
      ensures ToldWant(a[d], c[d], presence, rec1 + rec2, dec1 + dec2, d)
    {
      ToldWantTwice(a[d], b[d], c[d], presence, rec1, dec1, rec2, dec2, d);
    }
  }

  lemma ToldRecord(before: Wants, mid: Wants, after: Wants, presence: Presences, recorded: set<(Cid, PeerId)>,
                   declined: set<(Cid, PeerId)>, c: Cid, p: PeerId)
    requires Told(before, mid, presence, recorded, declined)
    requires RecordedAt(mid, after, c, p, PresenceOf(presence, p, c))
    ensures Told(before, after, presence, recorded + {(c, p)}, declined) && after.Keys == before.Keys
  {
    hide ToldWant, PresenceOf;
    forall d | d in mid
      ensures ToldWant(mid[d], after[d], presence, {(c, p)}, {}, d)
    {
      RecordTold(mid[d], after[d], presence, c, p, d);
    }
    ToldTwice(before, mid, after, presence, recorded, declined, {(c, p)}, {});
    assert declined + {} == declined;
  }

  ghost function Declined(wants: Wants, c: Cid, p: PeerId): Wants {
    if c in wants && wants[c].sentTo == p then wants[c := wants[c].(sentTo := NO_PEER)] else wants
  }

  lemma DeclineTold(before: WantInfo, after: WantInfo, presence: Presences, c: Cid, p: PeerId, d: Cid)
    requires after == (if d == c && before.sentTo == p then before.(sentTo := NO_PEER) else before) && p != NO_PEER
    ensures ToldWant(before, after, presence, {}, {(c, p)}, d)
  {
    hide PresenceOf;
    assert (c, p) in {(c, p)};
  }

  lemma ToldDecline(before: Wants, mid: Wants, after: Wants, presence: Presences, recorded: set<(Cid, PeerId)>,
                    declined: set<(Cid, PeerId)>, c: Cid, p: PeerId)
    requires Told(before, mid, presence, recorded, declined) && p != NO_PEER && after == Declined(mid, c, p)
    ensures Told(before, after, presence, recorded, declined + {(c, p)}) && after.Keys == before.Keys
  {
    hide PresenceOf, ToldWant;
    forall d | d in mid
      ensures ToldWant(mid[d], after[d], presence, {}, {(c, p)}, d)
    {
      DeclineTold(mid[d], after[d], presence, c, p, d);
    }
    ToldTwice(before, mid, after, presence, recorded, declined, {}, {(c, p)});
    assert recorded + {} == recorded;
  }

  lemma DeclineEvent(log: seq<Event>, wants: Wants, c: Cid, p: PeerId, src: Source)
    requires LogOk(log, wants) && (c, p) in src.dontHaves
    ensures LogOk(log + [GotDontHave(c, p)], Declined(wants, c, p)) && Extends(log, log + [GotDontHave(c, p)], src)
  {
    hide Disciplined, Replay;
    if c in wants && wants[c].sentTo == p {
      ProjectAt(wants, c, wants[c].(sentTo := NO_PEER));
    }
    LogAt(log, wants, GotDontHave(c, p), Declined(wants, c, p));
  }

  lemma HeldUntracked(before: Wants, after: Wants, presence: Presences, recorded: set<(Cid, PeerId)>,
                      declined: set<(Cid, PeerId)>, c: Cid, p: PeerId)
    requires Told(before, after, presence, recorded, declined) && c !in before
    ensures Told(before, after, presence, recorded + {(c, p)}, declined)
  {
    hide PresenceOf;
    forall d | d in before
      ensures ToldWant(before[d], after[d], presence, recorded + {(c, p)}, declined, d)
    {
      assert ToldWant(before[d], after[d], presence, recorded, declined, d);
    }
  }

  lemma ToldUntracked(before: Wants, after: Wants, presence: Presences, recorded: set<(Cid, PeerId)>,
                      declined: set<(Cid, PeerId)>, c: Cid, p: PeerId)
    requires Told(before, after, presence, recorded, declined) && c !in before
    ensures Told(before, after, presence, recorded + {(c, p)}, declined + {(c, p)})
  {
    hide PresenceOf;
    forall d | d in before
      ensures ToldWant(before[d], after[d], presence, recorded + {(c, p)}, declined + {(c, p)}, d)
    {
      assert ToldWant(before[d], after[d], presence, recorded, declined, d);
    }
  }

  // ---------- counting blocks and DONT_HAVEs ----------

  /** The peer was first with `k` more blocks. */
  ghost function Credited(firstResponder: map<PeerId, nat>, from: PeerId, k: nat): map<PeerId, nat> {
    if k == 0 then firstResponder
    else firstResponder[from := (if from in firstResponder then firstResponder[from] else 0) + k]
  }

  lemma NoCredit(firstResponder: map<PeerId, nat>, from: PeerId, keys: set<Cid>)
    ensures Credited(firstResponder, from, |{} * keys|) == firstResponder
  {
    assert {} * keys == {};
  }

  lemma OneMoreCredit(firstResponder: map<PeerId, nat>, from: PeerId, done: set<Cid>, keys: set<Cid>, c: Cid)
    ensures var fr := Credited(firstResponder, from, |done * keys|);
            Credited(firstResponder, from, |(done + {c}) * keys|)
            == if c in keys && c !in done then fr[from := if from in fr then fr[from] + 1 else 1] else fr
  {
    if c in keys && c !in done {
      assert (done + {c}) * keys == done * keys + {c};
    } else {
      assert (done + {c}) * keys == done * keys;
    }
  }

  lemma CountNone(n: Counts, from: PeerId)
    ensures CountMany(n, from, 0) == n
  {
  }

  lemma CountNext(n: Counts, from: PeerId, k: nat, r: Counts)
    requires CountMany(n, from, k) == r
    ensures CountMany(n, from, k + 1) ==
            if from in r.inARow && r.inARow[from] == DONT_HAVE_LIMIT then Counts(r.inARow, r.prune + {from})
            else Counts(r.inARow[from := if from in r.inARow then r.inARow[from] + 1 else 1], r.prune)
  {
  }

  // ---------- all updates of a batch, the last one last ----------

  ghost predicate UpdateOk(u: Update, src: Source) {
    && u.from != NO_PEER
    && (forall c :: c in u.ks ==> c in src.drops)
    && Pairs(u.dontHaves, u.from) <= src.dontHaves
  }

  ghost function Delivered(us: seq<Update>): set<Cid> {
    if us == [] then {} else Delivered(us[..|us| - 1]) + Elems(us[|us| - 1].ks)
  }

  ghost function Deliverers(us: seq<Update>): set<PeerId> {
    if us == [] then {} else Deliverers(us[..|us| - 1]) + (if us[|us| - 1].ks == [] then {} else {us[|us| - 1].from})
  }

  ghost function DontHaveKeys(us: seq<Update>): set<Cid> {
    if us == [] then {} else DontHaveKeys(us[..|us| - 1]) + Elems(us[|us| - 1].dontHaves)
  }

  ghost function DontHavePairs(us: seq<Update>): set<(Cid, PeerId)> {
    if us == [] then {} else DontHavePairs(us[..|us| - 1]) + Pairs(us[|us| - 1].dontHaves, us[|us| - 1].from)
  }

  ghost function HavePairs(us: seq<Update>): set<(Cid, PeerId)> {
    if us == [] then {} else HavePairs(us[..|us| - 1]) + Pairs(us[|us| - 1].haves, us[|us| - 1].from)
  }

  ghost function Havers(us: seq<Update>): set<PeerId> {
    if us == [] then {} else Havers(us[..|us| - 1]) + (if us[|us| - 1].haves == [] then {} else {us[|us| - 1].from})
  }

  /** The DONT_HAVEs of all updates, counted in order. */
  ghost function CountUpdates(n: Counts, us: seq<Update>): Counts {
    if us == [] then n
    else CountMany(CountUpdates(n, us[..|us| - 1]), us[|us| - 1].from, |us[|us| - 1].dontHaves|)
  }

  /** How many DONT_HAVEs the updates hold from one peer. */
  ghost function DontHavesFrom(us: seq<Update>, p: PeerId): nat {
    if us == [] then 0
    else
      DontHavesFrom(us[..|us| - 1], p) + if us[|us| - 1].from == p then |us[|us| - 1].dontHaves| else 0
  }

  /** Over a whole batch, peers are put up for pruning exactly when their DONT_HAVEs in a row exceed the limit. */
  lemma {:induction false} BatchPrunesIffOverLimit(inARow: map<PeerId, nat>, us: seq<Update>, p: PeerId)
    requires RowsOk(inARow)
    ensures var n, r := Counts(inARow, {}), CountUpdates(Counts(inARow, {}), us);
            var row := RowOf(n, p) + DontHavesFrom(us, p);
            && RowsOk(r.inARow)
            && (p in r.prune <==> row > DONT_HAVE_LIMIT)
            && RowOf(r, p) == (if row > DONT_HAVE_LIMIT then DONT_HAVE_LIMIT else row)
  {
    hide CountMany;
    if us != [] {
      var init, last := us[..|us| - 1], us[|us| - 1];
      BatchPrunesIffOverLimit(inARow, init, p);
      PrunedIffOverLimit(CountUpdates(Counts(inARow, {}), init), last.from, |last.dontHaves|);
    }
  }

  /** Each update credits its sender with the wanted blocks that no update before it delivered. */
  ghost function CreditAll(firstResponder: map<PeerId, nat>, us: seq<Update>, keys: set<Cid>): map<PeerId, nat> {
    if us == [] then firstResponder
    else
      var init, last := us[..|us| - 1], us[|us| - 1];
      Credited(CreditAll(firstResponder, init, keys), last.from, |Elems(last.ks) * (keys - Delivered(init))|)
  }

  /** `p` sent the first update of the batch that holds the block. */
  ghost predicate FirstWith(us: seq<Update>, c: Cid, p: PeerId) {
    exists i :: 0 <= i < |us| && us[i].from == p && c in us[i].ks && forall j :: 0 <= j < i ==> c !in us[j].ks
  }

  lemma FirstWithPush(us: seq<Update>, u: Update, c: Cid, p: PeerId)
    ensures FirstWith(us + [u], c, p) <==> FirstWith(us, c, p) || (u.from == p && c in u.ks && c !in Delivered(us))
  {
    hide Delivered, Deliverers, DontHaveKeys, DontHavePairs, HavePairs, Havers;
    var more := us + [u];
    UpdateSets(us, c, p);
    if FirstWith(us, c, p) {
      var i :| 0 <= i < |us| && us[i].from == p && c in us[i].ks && forall j :: 0 <= j < i ==> c !in us[j].ks;
      assert more[i] == us[i] && forall j :: 0 <= j < i ==> more[j] == us[j];
    }
    if u.from == p && c in u.ks && c !in Delivered(us) {
      assert more[|us|] == u;
      assert forall j :: 0 <= j < |us| ==> more[j] == us[j] && us[j] in us;
    }
    if FirstWith(more, c, p) {
      var i :| 0 <= i < |more| && more[i].from == p && c in more[i].ks && forall j :: 0 <= j < i ==> c !in more[j].ks;
      assert forall j :: 0 <= j < |us| ==> us[j] == more[j];
      if i < |us| {
        assert us[i].from == p && c in us[i].ks;
      } else {
        assert more[i] == u;
      }
    }
  }

  ghost function FirstOf(us: seq<Update>, keys: set<Cid>, p: PeerId): set<Cid> {
    set c | c in keys && FirstWith(us, c, p)
  }

  lemma FirstOfPush(us: seq<Update>, u: Update, keys: set<Cid>, p: PeerId)
    ensures |FirstOf(us + [u], keys, p)|
            == |FirstOf(us, keys, p)| + if u.from == p then |Elems(u.ks) * (keys - Delivered(us))| else 0
  {
    hide Delivered, FirstWith;
    var before, now := FirstOf(us, keys, p), FirstOf(us + [u], keys, p);
    var added := if u.from == p then Elems(u.ks) * (keys - Delivered(us)) else {};
    forall c
      ensures c in now <==> c in before || c in added
      ensures c in before ==> c !in added
    {
      FirstWithPush(us, u, c, p);
      FirstDelivered(us, c, p);
    }
    assert now == before + added && before !! added;
  }

  /** A peer is credited with the wanted blocks that it was the first to send. */
  lemma {:induction false} CreditsAre(firstResponder: map<PeerId, nat>, us: seq<Update>, keys: set<Cid>, p: PeerId)
    ensures var after := CreditAll(firstResponder, us, keys);
            (if p in after then after[p] else 0)
            == (if p in firstResponder then firstResponder[p] else 0) + |set c | c in keys && FirstWith(us, c, p)|
  {
    hide Delivered, FirstWith, Elems;
    assert (set c | c in keys && FirstWith(us, c, p)) == FirstOf(us, keys, p);
    if us == [] {
      assert FirstOf(us, keys, p) == {} by { NoneFirst(p); }
    } else {
      var init, last := us[..|us| - 1], us[|us| - 1];
      CreditsAre(firstResponder, init, keys, p);
      assert (set c | c in keys && FirstWith(init, c, p)) == FirstOf(init, keys, p);
      assert us == init + [last];
      FirstOfPush(init, last, keys, p);
    }
  }

  lemma NoneFirst(p: PeerId)
    ensures forall c :: !FirstWith([], c, p)
  {
  }

  lemma FirstDelivered(us: seq<Update>, c: Cid, p: PeerId)
    ensures FirstWith(us, c, p) ==> c in Delivered(us)
  {
    hide Delivered, Deliverers, DontHaveKeys, DontHavePairs, HavePairs, Havers;
    UpdateSets(us, c, p);
  }

  lemma CreditStep(firstResponder: map<PeerId, nat>, us: seq<Update>, i: nat, keys: set<Cid>)
    requires i < |us|
    ensures CreditAll(firstResponder, us[..i + 1], keys)
            == Credited(CreditAll(firstResponder, us[..i], keys), us[i].from,
                        |Elems(us[i].ks) * (keys - Delivered(us[..i]))|)
  {
    hide Credited, Delivered;
    assert us[..i + 1][..i] == us[..i];
  }

  lemma NoCredits(firstResponder: map<PeerId, nat>, keys: set<Cid>)
    ensures CreditAll(firstResponder, [], keys) == firstResponder
  {
  }

  ghost predicate Useful(keys: set<Cid>, presence: Presences, p: PeerId) {
    exists c :: c in keys && HasBlock(presence, p, c)
  }

  lemma NoUpdates(wants: Wants, inARow: map<PeerId, nat>)
    ensures Delivered([]) == {} && Deliverers([]) == {} && wants - {} == wants && inARow - {} == inARow
  {
  }

  lemma DeliveryStep(updates: seq<Update>, i: nat, wants: Wants, inARow: map<PeerId, nat>)
    requires i < |updates|
    ensures var (done, u) := (updates[..i], updates[i]);
            && Delivered(updates[..i + 1]) == Delivered(done) + Elems(u.ks)
            && wants - Delivered(done) - Elems(u.ks) == wants - (Delivered(done) + Elems(u.ks))
            && inARow - Deliverers(updates[..i + 1])
               == (if u.ks == [] then inARow - Deliverers(done) else inARow - Deliverers(done) - {u.from})
  {
    hide Elems;
    assert updates[..i + 1][..i] == updates[..i];
  }

  lemma NoDontHaves(n: Counts)
    ensures DontHaveKeys([]) == {} && DontHavePairs([]) == {} && CountUpdates(n, []) == n
  {
  }

  lemma DontHaveStep(updates: seq<Update>, i: nat, n: Counts)
    requires i < |updates|
    ensures var (done, u) := (updates[..i], updates[i]);
            && DontHavePairs(updates[..i + 1]) == DontHavePairs(done) + Pairs(u.dontHaves, u.from)
            && DontHaveKeys(updates[..i + 1]) == DontHaveKeys(done) + Elems(u.dontHaves)
            && CountUpdates(n, updates[..i + 1]) == CountMany(CountUpdates(n, done), u.from, |u.dontHaves|)
  {
    hide Elems, CountMany, Pairs;
    assert updates[..i + 1][..i] == updates[..i];
  }

  lemma NoHaves(inARow: map<PeerId, nat>, prune: set<PeerId>)
    ensures HavePairs([]) == {} && Havers([]) == {} && inARow - {} == inARow && prune - {} == prune
  {
  }

  lemma HaveStep(updates: seq<Update>, i: nat, inARow: map<PeerId, nat>, prune: set<PeerId>)
    requires i < |updates|
    ensures var (done, u) := (updates[..i], updates[i]);
            && HavePairs(updates[..i + 1]) == HavePairs(done) + Pairs(u.haves, u.from)
            && inARow - Havers(updates[..i + 1])
               == (if u.haves == [] then inARow - Havers(done) else inARow - Havers(done) - {u.from})
            && prune - Havers(updates[..i + 1])
               == (if u.haves == [] then prune - Havers(done) else prune - Havers(done) - {u.from})
  {
    hide Pairs;
    assert updates[..i + 1][..i] == updates[..i];
  }

  // ---------- exhaustion ----------

  ghost function MarkExhausted(wants: Wants, ks: seq<Cid>): Wants {
    map c | c in wants :: if c in ks then wants[c].(exhausted := true) else wants[c]
  }

  lemma NoneMarked(wants: Wants)
    ensures MarkExhausted(wants, []) == wants && Distinct<Cid>([])
  {
  }

  lemma MarkOneMore(wants: Wants, ks: seq<Cid>, c: Cid)
    requires c in wants
    ensures MarkExhausted(wants, ks + [c])
            == MarkExhausted(wants, ks)[c := MarkExhausted(wants, ks)[c].(exhausted := true)]
  {
  }

  lemma MarkedOk(wants: Wants, peers: set<PeerId>, sent: map<PeerId, set<Cid>>, ks: seq<Cid>)
    requires WantsOk(wants, peers) && SentOk(wants, sent)
    ensures WantsOk(MarkExhausted(wants, ks), peers) && SentOk(MarkExhausted(wants, ks), sent)
  {
    hide IsBest;
  }

  lemma ExhaustedEvent(log: seq<Event>, wants: Wants, ks: seq<Cid>, peers: set<PeerId>, presence: Presences)
    requires LogOk(log, wants) && ks != [] && Distinct(ks)
    requires forall c :: c in ks ==> c in wants && !wants[c].exhausted
    requires forall c, p :: c in ks && p in peers ==> LacksBlock(presence, p, c)
    ensures LogOk(log + [Exhausted(ks, peers, presence)], MarkExhausted(wants, ks))
  {
    hide Disciplined, Replay, LacksBlock;
    assert After(Project(wants), Exhausted(ks, peers, presence)) == Project(MarkExhausted(wants, ks));
    LogAt(log, wants, Exhausted(ks, peers, presence), MarkExhausted(wants, ks));
  }

  /** The keys after those already in a list. */
  method ListKeys(first: seq<Cid>, keys: set<Cid>) returns (ks: seq<Cid>)
    ensures forall c :: c in ks <==> c in first || c in keys
  {
    ks := first;
    var todo := keys;
    while todo != {}
      invariant todo <= keys && forall c :: c in ks <==> c in first || c in keys - todo
      decreases todo
    {
      var c :| c in todo;
      ks := ks + [c];
      todo := todo - {c};
    }
  }

  // ---------- send rounds ----------

  /** The wants that neither go with this request as want-blocks nor did so before. */
  ghost function Piggyback(wants: Wants, wantBlocks: set<Cid>, sentBefore: set<Cid>): set<Cid> {
    set c | c in wants && c !in wantBlocks && c !in sentBefore
  }

  /** The want-blocks of the peers that are done are recorded as sent. */
  ghost predicate BlocksRecorded(before: map<PeerId, set<Cid>>, after: map<PeerId, set<Cid>>,
                                 sends: map<PeerId, WantSets>, done: set<PeerId>)
  {
    forall p :: SentOf(after, p) == SentOf(before, p) + (if p in sends && p in done then sends[p].wantBlocks else {})
  }

  lemma NoneRecorded(sent: map<PeerId, set<Cid>>, sends: map<PeerId, WantSets>)
    ensures BlocksRecorded(sent, sent, sends, {})
  {
  }

  lemma OneMoreRecorded(before: map<PeerId, set<Cid>>, after: map<PeerId, set<Cid>>, sends: map<PeerId, WantSets>,
                        done: set<PeerId>, p: PeerId)
    requires BlocksRecorded(before, after, sends, done) && p in sends && p !in done
    ensures SentOf(after, p) == SentOf(before, p)
    ensures BlocksRecorded(before, after[p := SentOf(after, p) + sends[p].wantBlocks], sends, done + {p})
  {
  }

  function SetsOf(aw: map<PeerId, WantSets>, p: PeerId): WantSets {
    if p in aw then aw[p] else WantSets({}, {})
  }

  function AddBlock(aw: map<PeerId, WantSets>, p: PeerId, c: Cid): map<PeerId, WantSets> {
    aw[p := SetsOf(aw, p).(wantBlocks := SetsOf(aw, p).wantBlocks + {c})]
  }

  method AddHaves(aw: map<PeerId, WantSets>, peers: set<PeerId>, c: Cid) returns (r: map<PeerId, WantSets>)
    ensures r.Keys == aw.Keys + peers
    ensures forall p :: SetsOf(r, p).wantBlocks == SetsOf(aw, p).wantBlocks
    ensures forall p :: SetsOf(r, p).wantHaves == SetsOf(aw, p).wantHaves + (if p in peers then {c} else {})
  {
    r := aw;
    var todo := peers;
    while todo != {}
      invariant todo <= peers && r.Keys == aw.Keys + (peers - todo)
      invariant forall p :: SetsOf(r, p).wantBlocks == SetsOf(aw, p).wantBlocks
      invariant forall p :: SetsOf(r, p).wantHaves == SetsOf(aw, p).wantHaves + (if p in peers - todo then {c} else {})
      decreases todo
    {
      var p :| p in todo;
      r := r[p := SetsOf(r, p).(wantHaves := SetsOf(r, p).wantHaves + {c})];
      todo := todo - {p};
    }
  }

  /** Exactly what these wants call for is collected, with no empty entries. */
  ghost predicate Collected(aw: map<PeerId, WantSets>, wants: Wants, peers: set<PeerId>, newly: set<PeerId>) {
    forall p ::
      && SetsOf(aw, p).wantBlocks == BlocksFor(wants, p)
      && SetsOf(aw, p).wantHaves == BaseHavesFor(wants, peers, newly, p)
      && (p in aw ==> aw[p] != WantSets({}, {}))
  }

  lemma OneWantMore(done: Wants, c: Cid, wi: WantInfo, peers: set<PeerId>, newly: set<PeerId>, p: PeerId)
    requires c !in done
    ensures BlocksFor(done[c := wi], p) == BlocksFor(done, p) + (if Due(wi) && p == wi.bestPeer then {c} else {})
    ensures BaseHavesFor(done[c := wi], peers, newly, p)
            == BaseHavesFor(done, peers, newly, p)
               + (if p in newly || (Due(wi) && p in peers && p != wi.bestPeer) then {c} else {})
  {
    hide Due;
  }

  lemma CollectStep(aw: map<PeerId, WantSets>, aw': map<PeerId, WantSets>, done: Wants, c: Cid, wi: WantInfo,
                    peers: set<PeerId>, newly: set<PeerId>)
    requires Collected(aw, done, peers, newly) && c !in done
    requires aw'.Keys == aw.Keys + newly + (if Due(wi) then peers + {wi.bestPeer} else {})
    requires forall p :: SetsOf(aw', p).wantBlocks
                         == SetsOf(aw, p).wantBlocks + (if Due(wi) && p == wi.bestPeer then {c} else {})
    requires forall p :: SetsOf(aw', p).wantHaves
                         == SetsOf(aw, p).wantHaves
                            + (if p in newly || (Due(wi) && p in peers && p != wi.bestPeer) then {c} else {})
    ensures Collected(aw', done[c := wi], peers, newly)
  {
    forall p
      ensures SetsOf(aw', p).wantBlocks == BlocksFor(done[c := wi], p)
      ensures SetsOf(aw', p).wantHaves == BaseHavesFor(done[c := wi], peers, newly, p)
      ensures p in aw' ==> aw'[p] != WantSets({}, {})
    {
      hide Due, BlocksFor, BaseHavesFor;
      OneWantMore(done, c, wi, peers, newly, p);
      if p in aw' && p !in aw {
        assert c in SetsOf(aw', p).wantBlocks + SetsOf(aw', p).wantHaves;
      }
    }
  }

  /**
   A want-have for every newly available peer; if due, a want-block for the best and a want-have for
   every other peer.
   */
  method AddWant(aw: map<PeerId, WantSets>, c: Cid, wi: WantInfo, peers: set<PeerId>, newly: set<PeerId>,
                 ghost done: Wants)
    returns (r: map<PeerId, WantSets>)
    requires Collected(aw, done, peers, newly) && c !in done
    ensures Collected(r, done[c := wi], peers, newly)
  {
    hide Collected;
    r := AddHaves(aw, newly, c);
    if wi.sentTo == NO_PEER && wi.bestPeer != NO_PEER {
      r := AddBlock(r, wi.bestPeer, c);
      r := AddHaves(r, peers - {wi.bestPeer}, c);
    }
    CollectStep(aw, r, done, c, wi, peers, newly);
  }

  /** One want-block event for each due want, and nothing else. */
  ghost predicate SentLog(log: seq<Event>, log': seq<Event>, wants: Wants) {
    && log <= log'
    && (forall i :: |log| <= i < |log'| ==>
          log'[i].SentBlock? && log'[i].c in wants && Due(wants[log'[i].c]) && wants[log'[i].c].bestPeer == log'[i].p)
    && (forall c :: c in wants && Due(wants[c]) ==> SentBlock(c, wants[c].bestPeer) in log'[|log|..])
  }

  lemma NothingSent(wants: Wants, log: seq<Event>, peers: set<PeerId>, newly: set<PeerId>)
    ensures Collected(map[], map[], peers, newly) && SentLog(log, log, map[])
    ensures wants + MarkSentTo(map[]) == wants
  {
  }

  lemma SentOneMore(log: seq<Event>, log': seq<Event>, done: Wants, c: Cid, wi: WantInfo)
    requires SentLog(log, log', done) && c !in done && Due(wi)
    ensures SentLog(log, log' + [SentBlock(c, wi.bestPeer)], done[c := wi])
  {
    hide Due;
    var e := SentBlock(c, wi.bestPeer);
    assert (log' + [e])[|log|..] == log'[|log|..] + [e];
  }

  lemma SentNoMore(log: seq<Event>, log': seq<Event>, done: Wants, c: Cid, wi: WantInfo)
    requires SentLog(log, log', done) && c !in done && !Due(wi)
    ensures SentLog(log, log', done[c := wi])
  {
    hide Due;
  }

  lemma SendEvent(log: seq<Event>, wants: Wants, c: Cid)
    requires LogOk(log, wants) && c in wants && Due(wants[c])
    ensures LogOk(log + [SentBlock(c, wants[c].bestPeer)], wants[c := wants[c].(sentTo := wants[c].bestPeer)])
  {
    hide Disciplined, Replay;
    var wi := wants[c].(sentTo := wants[c].bestPeer);
    ProjectAt(wants, c, wi);
    LogAt(log, wants, SentBlock(c, wi.bestPeer), wants[c := wi]);
  }

  lemma KeptUntilDone(wants: Wants, done: Wants, c: Cid)
    requires c in wants && c !in done
    ensures (wants + MarkSentTo(done))[c] == wants[c]
  {
  }

  lemma MarkStep(wants: Wants, done: Wants, c: Cid, wi: WantInfo)
    requires c in wants && wi == wants[c] && c !in done
    ensures wants + MarkSentTo(done[c := wi])
            == if Due(wi) then (wants + MarkSentTo(done))[c := wi.(sentTo := wi.bestPeer)] else wants + MarkSentTo(done)
  {
    hide Due;
  }

  lemma AllMarked(wants: Wants)
    ensures wants + MarkSentTo(wants) == MarkSentTo(wants)
  {
  }

  lemma MarkedKeys(wants: Wants, wants0: Wants, peers: set<PeerId>)
    requires wants == MarkSentTo(wants0) && WantsOk(wants0, peers)
    ensures wants.Keys == wants0.Keys && WantsOk(wants, peers)
  {
    hide IsBest;
  }

  lemma SentAgain(wants: Wants, sent: map<PeerId, set<Cid>>, sent': map<PeerId, set<Cid>>)
    requires SentOk(wants, sent)
    requires forall p :: SentOf(sent', p) == SentOf(sent, p) + BlocksFor(wants, p)
    ensures SentOk(MarkSentTo(wants), sent')
  {
  }

  /** The want-blocks that were sent, and only they, are logged. */
  ghost predicate SentFrom(log: seq<Event>, log': seq<Event>, sent: map<PeerId, WantSets>) {
    && log <= log'
    && (forall p, c :: p in sent && c in sent[p].wantBlocks ==> SentBlock(c, p) in log'[|log|..])
    && forall i :: |log| <= i < |log'| ==>
         log'[i].SentBlock? && log'[i].p in sent && log'[i].c in sent[log'[i].p].wantBlocks
  }

  lemma AllSent(log: seq<Event>, log': seq<Event>, wants: Wants, sent: map<PeerId, WantSets>)
    requires SentLog(log, log', wants)
    requires forall p :: BlocksFor(wants, p) != {} ==> p in sent
    requires forall p :: p in sent ==> sent[p].wantBlocks == BlocksFor(wants, p)
    ensures SentFrom(log, log', sent)
  {
    hide Due;
    forall i | |log| <= i < |log'|
      ensures log'[i].SentBlock? && log'[i].p in sent && log'[i].c in sent[log'[i].p].wantBlocks
    {
      assert log'[i].c in BlocksFor(wants, log'[i].p);
    }
  }

  // ---------- batches ----------

  /** What a batch amounts to; `keys` are the wants tracked after it, before any update. */
  datatype Batch = Batch(availability: map<PeerId, bool>, cancels: seq<Cid>, updates: seq<Update>, keys: set<Cid>)

  ghost function AddChange(b: Batch, ch: Change): Batch {
    var hasUpdate := ch.update.from != NO_PEER;
    var heard := if hasUpdate && (|ch.update.ks| > 0 || |ch.update.haves| > 0)
                 then b.availability[ch.update.from := true] else b.availability;
    Batch(if ch.target != NO_PEER then heard[ch.target := ch.available] else heard,
          b.cancels + ch.cancel,
          if hasUpdate then b.updates + [ch.update] else b.updates,
          b.keys + Elems(ch.add) - Elems(ch.cancel))
  }

  ghost function BatchOf(changes: seq<Change>, keys: set<Cid>): Batch {
    if changes == [] then Batch(map[], [], [], keys)
    else AddChange(BatchOf(changes[..|changes| - 1], keys), changes[|changes| - 1])
  }

  lemma NoChanges(keys: set<Cid>)
    ensures BatchOf([], keys) == Batch(map[], [], [], keys)
  {
  }

  lemma ChangeStep(changes: seq<Change>, i: nat, keys: set<Cid>)
    requires i < |changes|
    ensures BatchOf(changes[..i + 1], keys) == AddChange(BatchOf(changes[..i], keys), changes[i])
  {
    hide AddChange;
    assert changes[..i + 1][..i] == changes[..i];
  }

  lemma ChangeOk(changes: seq<Change>, i: nat, presence: Presences)
    requires i < |changes|
    ensures forall c :: c in changes[i].add ==> c in SourceOf(changes, presence).adds
    ensures forall c :: c in changes[i].cancel ==> c in SourceOf(changes, presence).drops
    ensures changes[i].update.from != NO_PEER ==> UpdateOk(changes[i].update, SourceOf(changes, presence))
    ensures changes[i].target != NO_PEER && !changes[i].available ==>
              changes[i].target in SourceOf(changes, presence).lefts
  {
  }

  lemma SourceKnows(changes: seq<Change>, presence: Presences)
    ensures SourceOf(changes, presence).presence == presence
  {
  }

  lemma {:induction false} PrefixOk(changes: seq<Change>, n: nat, keys: set<Cid>, presence: Presences)
    requires n <= |changes|
    ensures var (b, src) := (BatchOf(changes[..n], keys), SourceOf(changes, presence));
            && NO_PEER !in b.availability
            && (forall p :: p in b.availability && !b.availability[p] ==> p in src.lefts)
            && (forall u :: u in b.updates ==> UpdateOk(u, src))
  {
    hide SourceOf, UpdateOk, Elems;
    if n > 0 {
      PrefixOk(changes, n - 1, keys, presence);
      ChangeStep(changes, n - 1, keys);
      ChangeOk(changes, n - 1, presence);
    }
  }

  lemma BatchOk(changes: seq<Change>, keys: set<Cid>, presence: Presences)
    ensures var (b, src) := (BatchOf(changes, keys), SourceOf(changes, presence));
            && NO_PEER !in b.availability
            && (forall p :: p in b.availability && !b.availability[p] ==> p in src.lefts)
            && (forall u :: u in b.updates ==> UpdateOk(u, src))
  {
    hide *;
    PrefixOk(changes, |changes|, keys, presence);
    assert changes[..|changes|] == changes;
  }

  // ---------- what a batch amounts to, told by its changes ----------

  /** `p` sent an answer about `c` in the batch. */
  ghost predicate Answered(changes: seq<Change>, c: Cid, p: PeerId) {
    p != NO_PEER && exists i :: 0 <= i < |changes| && changes[i].update.from == p
                                && (c in changes[i].update.haves || c in changes[i].update.dontHaves)
  }

  /** A want is tracked if it was, or was added, and was not cancelled since; a change cancels after it adds. */
  lemma {:induction false} KeysAre(changes: seq<Change>, keys: set<Cid>, c: Cid)
    ensures c in BatchOf(changes, keys).keys
            <==> || (c in keys && forall j :: 0 <= j < |changes| ==> c !in changes[j].cancel)
                 || exists i :: 0 <= i < |changes| && c in changes[i].add
                                && forall j :: i <= j < |changes| ==> c !in changes[j].cancel
  {
    if changes != [] {
      var n := |changes| - 1;
      KeysAre(changes[..n], keys, c);
      assert changes == changes[..n] + [changes[n]];
      if c in changes[n].add && c !in changes[n].cancel {
        assert forall j :: n <= j < |changes| ==> c !in changes[j].cancel;
      }
      if i :| 0 <= i < n && c in changes[..n][i].add && forall j :: i <= j < n ==> c !in changes[..n][j].cancel {
        assert c in changes[i].add;
        assert c !in changes[n].cancel ==> forall j :: i <= j < |changes| ==> c !in changes[j].cancel;
      }
    }
  }

  lemma {:induction false} CancelsAre(changes: seq<Change>, keys: set<Cid>, c: Cid)
    ensures c in BatchOf(changes, keys).cancels <==> exists i :: 0 <= i < |changes| && c in changes[i].cancel
  {
    if changes != [] {
      var n := |changes| - 1;
      CancelsAre(changes[..n], keys, c);
      assert changes == changes[..n] + [changes[n]];
    }
  }

  lemma {:induction false} UpdatesAre(changes: seq<Change>, keys: set<Cid>, u: Update)
    ensures u in BatchOf(changes, keys).updates
            <==> u.from != NO_PEER && exists i :: 0 <= i < |changes| && changes[i].update == u
  {
    if changes != [] {
      var n := |changes| - 1;
      UpdatesAre(changes[..n], keys, u);
      assert changes == changes[..n] + [changes[n]];
    }
  }

  /** What a change says about the availability of a peer; blocks and HAVEs say that it is there. */
  ghost predicate Says(ch: Change, p: PeerId, available: bool) {
    p != NO_PEER && if ch.target == p then available == ch.available
                    else ch.update.from == p && (ch.update.ks != [] || ch.update.haves != []) && available
  }

  /** Some change says so, and none after it says otherwise. */
  ghost predicate LastWord(changes: seq<Change>, p: PeerId, available: bool) {
    exists i :: 0 <= i < |changes| && Says(changes[i], p, available)
                && forall j :: i < j < |changes| ==> !Says(changes[j], p, !available)
  }

  lemma LastWordPush(changes: seq<Change>, ch: Change, p: PeerId, available: bool)
    ensures LastWord(changes + [ch], p, available)
            <==> Says(ch, p, available) || (LastWord(changes, p, available) && !Says(ch, p, !available))
  {
    hide Says;
    var more, n := changes + [ch], |changes|;
    if Says(ch, p, available) {
      assert Says(more[n], p, available);
    }
    if LastWord(changes, p, available) && !Says(ch, p, !available) {
      var i :| 0 <= i < n && Says(changes[i], p, available)
               && forall j :: i < j < n ==> !Says(changes[j], p, !available);
      assert Says(more[i], p, available);
      assert forall j :: i < j < |more| ==> !Says(more[j], p, !available);
    }
    if LastWord(more, p, available) && !Says(ch, p, available) {
      var i :| 0 <= i < |more| && Says(more[i], p, available)
               && forall j :: i < j < |more| ==> !Says(more[j], p, !available);
      assert i < n && Says(changes[i], p, available) && !Says(more[n], p, !available);
      assert forall j :: i < j < n ==> changes[j] == more[j];
    }
  }

  /** The last word about a peer counts. */
  lemma {:induction false} AvailabilityIs(changes: seq<Change>, keys: set<Cid>, p: PeerId, available: bool)
    ensures var b := BatchOf(changes, keys);
            p in b.availability && b.availability[p] == available <==> LastWord(changes, p, available)
  {
    if changes == [] {
      assert !LastWord(changes, p, available);
    } else {
      hide LastWord;
      var n := |changes| - 1;
      AvailabilityIs(changes[..n], keys, p, available);
      LastWordPush(changes[..n], changes[n], p, available);
      assert changes == changes[..n] + [changes[n]];
    }
  }

  /** The sets that updates are folded into hold what some update holds. */
  lemma UpdateSets(us: seq<Update>, c: Cid, p: PeerId)
    ensures (c, p) in DontHavePairs(us) <==> exists u :: u in us && u.from == p && c in u.dontHaves
    ensures (c, p) in HavePairs(us) <==> exists u :: u in us && u.from == p && c in u.haves
    ensures c in Delivered(us) <==> exists u :: u in us && c in u.ks
    ensures c in DontHaveKeys(us) <==> exists u :: u in us && c in u.dontHaves
    ensures p in Deliverers(us) <==> exists u :: u in us && u.from == p && u.ks != []
    ensures p in Havers(us) <==> exists u :: u in us && u.from == p && u.haves != []
  {
    hide *;
    UpdatePairs(us, c, p);
    UpdateKeys(us, c);
    UpdatePeers(us, p);
  }

  lemma {:induction false} UpdatePairs(us: seq<Update>, c: Cid, p: PeerId)
    ensures (c, p) in DontHavePairs(us) <==> exists u :: u in us && u.from == p && c in u.dontHaves
    ensures (c, p) in HavePairs(us) <==> exists u :: u in us && u.from == p && c in u.haves
  {
    if us != [] {
      var init, last := us[..|us| - 1], us[|us| - 1];
      UpdatePairs(init, c, p);
      assert us == init + [last] && forall u :: u in us <==> u in init || u == last;
    }
  }

  lemma {:induction false} UpdateKeys(us: seq<Update>, c: Cid)
    ensures c in Delivered(us) <==> exists u :: u in us && c in u.ks
    ensures c in DontHaveKeys(us) <==> exists u :: u in us && c in u.dontHaves
  {
    if us != [] {
      var init, last := us[..|us| - 1], us[|us| - 1];
      UpdateKeys(init, c);
      assert us == init + [last] && forall u :: u in us <==> u in init || u == last;
    }
  }

  lemma {:induction false} UpdatePeers(us: seq<Update>, p: PeerId)
    ensures p in Deliverers(us) <==> exists u :: u in us && u.from == p && u.ks != []
    ensures p in Havers(us) <==> exists u :: u in us && u.from == p && u.haves != []
  {
    if us != [] {
      var init, last := us[..|us| - 1], us[|us| - 1];
      UpdatePeers(init, p);
      assert us == init + [last] && forall u :: u in us <==> u in init || u == last;
    }
  }

  lemma AnsweredIff(changes: seq<Change>, keys: set<Cid>, c: Cid, p: PeerId)
    ensures p in Answerers(BatchOf(changes, keys).updates, c) <==> Answered(changes, c, p)
  {
    hide DontHavePairs, HavePairs, BatchOf, Delivered, Deliverers, DontHaveKeys, Havers;
    var us := BatchOf(changes, keys).updates;
    UpdateSets(us, c, p);
    assert p in Answerers(us, c) <==> (c, p) in DontHavePairs(us) + HavePairs(us);
    if u :| u in us && u.from == p && (c in u.dontHaves || c in u.haves) {
      UpdatesAre(changes, keys, u);
    }
    if Answered(changes, c, p) {
      var i :| 0 <= i < |changes| && changes[i].update.from == p
               && (c in changes[i].update.haves || c in changes[i].update.dontHaves);
      UpdatesAre(changes, keys, changes[i].update);
    }
  }

  /**
   After a batch, of every tracked want: a peer that joined or that answered about it is recorded with
   what is known about it, and so is every session peer if the want is new.
   */
  ghost predicate AllNoted(wants0: Wants, peers0: set<PeerId>, changes: seq<Change>, peers: set<PeerId>, wants: Wants,
                           presence: Presences)
  {
    forall c, p ::
      && c in wants
      && (|| p in peers - peers0 || Answered(changes, c, p)
          || (p in peers && (c !in wants0 || exists i :: 0 <= i < |changes| && c in changes[i].cancel))) ==>
        p in wants[c].blockPresence && KnownAs(wants[c].blockPresence[p], presence, p, c)
  }

  /** So a peer whose answer left it recorded as lacking the block is not asked for it. */
  lemma DeclinedNotAsked(wants0: Wants, peers0: set<PeerId>, changes: seq<Change>, peers: set<PeerId>, wants: Wants,
                         presence: Presences, c: Cid, p: PeerId)
    requires AllNoted(wants0, peers0, changes, peers, wants, presence) && WantsOk(wants, peers)
    requires Answered(changes, c, p) && c in BlocksFor(wants, p)
    ensures c in presence && p in presence[c] ==> presence[c][p]
  {
    hide Answered;
    assert InfoOk(wants[c], peers);
    assert KnownAs(wants[c].blockPresence[p], presence, p, c);
  }

  /** The wants and the session's peers are those of the batch. */
  ghost predicate BatchApplied(b: Batch, peers0: set<PeerId>, cancels: seq<Cid>, keys: set<Cid>, peers: set<PeerId>) {
    && cancels == b.cancels
    && keys == b.keys - Delivered(b.updates)
    && peers == peers0 + (set p | p in b.availability && b.availability[p])
                - (set p | p in b.availability && !b.availability[p])
  }

  /**
   Counts of DONT_HAVEs restart for peers that came, went or sent a block or a HAVE; pruned
   are those over the limit that sent no HAVE in the batch and have nothing that is wanted.
   */
  ghost predicate Counted(us: seq<Update>, peers0: set<PeerId>, peers: set<PeerId>, inARow0: map<PeerId, nat>,
                          inARow: map<PeerId, nat>, prune: set<PeerId>, keys: set<Cid>, presence: Presences)
  {
    var changed := (peers - peers0) + (peers0 - peers);
    var counts := CountUpdates(Counts(inARow0 - changed - Deliverers(us), {}), us);
    && inARow == counts.inARow - Havers(us)
    && prune == (set p | p in counts.prune - Havers(us) && !Useful(keys, presence, p))
  }

  /**
   A peer is pruned exactly if its DONT_HAVEs in a row, counted anew if it came, went or sent a block,
   exceed the limit, it sent no HAVE in the batch, and it is not known to have a wanted block.
   */
  lemma PrunedIff(us: seq<Update>, peers0: set<PeerId>, peers: set<PeerId>, inARow0: map<PeerId, nat>,
                  inARow: map<PeerId, nat>, prune: set<PeerId>, keys: set<Cid>, presence: Presences, p: PeerId)
    requires Counted(us, peers0, peers, inARow0, inARow, prune, keys, presence) && RowsOk(inARow0)
    ensures var before := if (p in peers) != (p in peers0) || (exists u :: u in us && u.from == p && u.ks != [])
                             || p !in inARow0 then 0 else inARow0[p];
            p in prune <==>
              && before + DontHavesFrom(us, p) > 16
              && !(exists u :: u in us && u.from == p && u.haves != [])
              && !(exists c :: c in keys && c in presence && p in presence[c] && presence[c][p])
  {
    hide CountUpdates, Deliverers, Havers, Delivered, DontHaveKeys, DontHavePairs, HavePairs, DontHavesFrom;
    var changed := (peers - peers0) + (peers0 - peers);
    var rows := inARow0 - changed - Deliverers(us);
    BatchPrunesIffOverLimit(rows, us, p);
    UpdateSets(us, Cid([]), p);
  }

  /** Every answer about a tracked want is recorded there. */
  ghost predicate AnswersNoted(us: seq<Update>, wants: Wants, presence: Presences) {
    forall c, p :: c in wants && (c, p) in DontHavePairs(us) + HavePairs(us) ==>
                     p in wants[c].blockPresence && wants[c].blockPresence[p] == PresenceOf(presence, p, c)
  }

  /** No want waits for a peer that left or that answered DONT_HAVE for it. */
  ghost predicate NoneWaits(us: seq<Update>, departed: set<PeerId>, wants: Wants) {
    forall c :: c in wants ==> wants[c].sentTo !in departed && (c, wants[c].sentTo) !in DontHavePairs(us)
  }

  lemma {:induction false} AnswersAreNamed(us: seq<Update>, src: Source, c: Cid)
    requires forall u :: u in us ==> UpdateOk(u, src)
    ensures (c, NO_PEER) !in DontHavePairs(us)
  {
    if us != [] {
      AnswersAreNamed(us[..|us| - 1], src, c);
      assert UpdateOk(us[|us| - 1], src);
    }
  }

  lemma WaitsNoMore(before: Wants, mid: Wants, after: Wants, us: seq<Update>, src: Source, presence: Presences,
                    joined: set<PeerId>, left: set<PeerId>, ks: seq<Cid>)
    requires Moved(before, mid, presence, joined, left) && NO_PEER !in left
    requires Told(mid - Delivered(us), after, presence, DontHavePairs(us) + HavePairs(us), DontHavePairs(us))
    requires forall u :: u in us ==> UpdateOk(u, src)
    ensures NoneWaits(us, left, MarkExhausted(after, ks))
  {
    hide DontHavePairs, HavePairs, PresenceOf, Delivered, UpdateOk;
    forall c | c in after
      ensures after[c].sentTo !in left && (c, after[c].sentTo) !in DontHavePairs(us)
    {
      AnswersAreNamed(us, src, c);
      assert MovedWant(before[c], mid[c], presence, joined, left, c);
      assert ToldWant(mid[c], after[c], presence, DontHavePairs(us) + HavePairs(us), DontHavePairs(us), c);
    }
  }

  /** A want that a DONT_HAVE or a departure left without hope is marked as exhausted, so it was reported. */
  ghost predicate NoneOverlooked(us: seq<Update>, peers0: set<PeerId>, peers: set<PeerId>, wants: Wants,
                                 presence: Presences)
  {
    var departed := peers0 - peers != {};
    forall c :: c in wants && (c in DontHaveKeys(us) || departed) ==>
                  AllLack(presence, peers, c) || (departed && peers == {}) ==> wants[c].exhausted
  }

  lemma TellsAll(before: Wants, after: Wants, us: seq<Update>, presence: Presences, ks: seq<Cid>)
    requires Told(before, after, presence, DontHavePairs(us) + HavePairs(us), DontHavePairs(us))
    ensures AnswersNoted(us, MarkExhausted(after, ks), presence)
  {
    hide DontHavePairs, HavePairs, PresenceOf;
    forall c, p | c in after && (c, p) in DontHavePairs(us) + HavePairs(us)
      ensures p in after[c].blockPresence && after[c].blockPresence[p] == PresenceOf(presence, p, c)
    {
      assert ToldWant(before[c], after[c], presence, DontHavePairs(us) + HavePairs(us), DontHavePairs(us), c);
    }
  }

  /** What goes to each peer in a round, and that no other peer gets anything. */
  ghost predicate RoundSent(wants: Wants, peers: set<PeerId>, newly: set<PeerId>, sentBefore: map<PeerId, set<Cid>>,
                            sent: map<PeerId, WantSets>)
  {
    && (forall p :: p in sent <==> BlocksFor(wants, p) != {} || BaseHavesFor(wants, peers, newly, p) != {})
    && (forall p :: p in sent ==>
          sent[p] == WantSets(BlocksFor(wants, p), HavesFor(wants, peers, newly, sentBefore, p)))
  }

  // ---------- peers outside the session ----------

  /** A want as it is when tracking starts. */
  ghost predicate IsFresh(wi: WantInfo, peers: set<PeerId>, presence: Presences, c: Cid) {
    wi.sentTo == NO_PEER && !wi.exhausted && wi.blockPresence == KnownAbout(presence, peers, c)
  }

  /** Wants that were not cancelled are as before, the others as tracking starts. */
  ghost predicate Begun(wants0: Wants, wants1: Wants, cancels: seq<Cid>, peers: set<PeerId>, presence: Presences) {
    && (forall c :: c in wants0 && c !in cancels ==> c in wants1)
    && forall c :: c in wants1 ==>
         if c in wants0 && c !in cancels then wants1[c] == wants0[c] else IsFresh(wants1[c], peers, presence, c)
  }

  /** All that a batch does to the wants, up to the choice among equally good peers. */
  ghost predicate BatchEffect(wants0: Wants, peers0: set<PeerId>, b: Batch, peers: set<PeerId>, presence: Presences,
                              exhausted: seq<Cid>, due: Wants)
  {
    exists wants1, wants2, wants3 ::
      && Begun(wants0, wants1, b.cancels, peers0, presence)
      && Moved(wants1, wants2, presence, peers - peers0, peers0 - peers)
      && Told(wants2 - Delivered(b.updates), wants3, presence, DontHavePairs(b.updates) + HavePairs(b.updates),
              DontHavePairs(b.updates))
      && due == MarkExhausted(wants3, exhausted)
  }

  ghost function Answerers(us: seq<Update>, c: Cid): set<PeerId> {
    set cp | cp in DontHavePairs(us) + HavePairs(us) && cp.0 == c :: cp.1
  }

  /** The recorded peers that are not in the session. */
  ghost function Outsiders(wi: WantInfo, peers: set<PeerId>): set<PeerId> {
    wi.blockPresence.Keys - peers
  }

  /**
   Outsiders recorded for a want stay recorded from batch to batch until they join, and
   those that a batch adds are exactly the senders of an answer that are not in the session
   after it.
   */
  lemma OutsidersAre(wants0: Wants, peers0: set<PeerId>, b: Batch, peers: set<PeerId>, presence: Presences,
                     exhausted: seq<Cid>, due: Wants, c: Cid)
    requires BatchEffect(wants0, peers0, b, peers, presence, exhausted, due) && c in due
    ensures Outsiders(due[c], peers)
            == (if c in wants0 && c !in b.cancels then Outsiders(wants0[c], peers0) - peers else {})
               + (Answerers(b.updates, c) - peers)
  {
    hide DontHavePairs, HavePairs, Delivered, MovedWant, ToldWant, Answerers, Outsiders;
    var wants1, wants2, wants3 :|
      && Begun(wants0, wants1, b.cancels, peers0, presence)
      && Moved(wants1, wants2, presence, peers - peers0, peers0 - peers)
      && Told(wants2 - Delivered(b.updates), wants3, presence, DontHavePairs(b.updates) + HavePairs(b.updates),
              DontHavePairs(b.updates))
      && due == MarkExhausted(wants3, exhausted);
    OutsidersOf(wants1[c], wants2[c], wants3[c], presence, b.updates, peers0, peers, c);
    FreshHasNone(wants1[c], peers0, presence, c);
    SameOutsiders(wants3[c], due[c], peers);
  }

  lemma OutsidersOf(x: WantInfo, y: WantInfo, z: WantInfo, presence: Presences, us: seq<Update>, peers0: set<PeerId>,
                    peers: set<PeerId>, c: Cid)
    requires MovedWant(x, y, presence, peers - peers0, peers0 - peers, c)
    requires ToldWant(y, z, presence, DontHavePairs(us) + HavePairs(us), DontHavePairs(us), c)
    ensures Outsiders(z, peers) == (Outsiders(x, peers0) - peers) + (Answerers(us, c) - peers)
  {
    hide DontHavePairs, HavePairs, PresenceOf;
    forall p
      ensures p in z.blockPresence <==> p in peers - peers0 || (p in x.blockPresence && p !in peers0 - peers)
                                        || p in Answerers(us, c)
    {
      assert p in y.blockPresence <==> p in peers - peers0 || (p in x.blockPresence && p !in peers0 - peers);
      assert (c, p) in DontHavePairs(us) + HavePairs(us) <==> p in Answerers(us, c);
    }
  }

  lemma FreshHasNone(wi: WantInfo, peers: set<PeerId>, presence: Presences, c: Cid)
    ensures IsFresh(wi, peers, presence, c) ==> Outsiders(wi, peers) == {}
  {
  }

  lemma SameOutsiders(wi: WantInfo, wi': WantInfo, peers: set<PeerId>)
    requires wi'.blockPresence == wi.blockPresence
    ensures Outsiders(wi', peers) == Outsiders(wi, peers)
  {
  }

  lemma EffectIs(wants0: Wants, wants1: Wants, wants2: Wants, wants3: Wants, peers0: set<PeerId>, b: Batch,
                 peers: set<PeerId>, presence: Presences, exhausted: seq<Cid>)
    requires Begun(wants0, wants1, b.cancels, peers0, presence)
    requires Moved(wants1, wants2, presence, peers - peers0, peers0 - peers)
    requires Told(wants2 - Delivered(b.updates), wants3, presence, DontHavePairs(b.updates) + HavePairs(b.updates),
                  DontHavePairs(b.updates))
    ensures BatchEffect(wants0, peers0, b, peers, presence, exhausted, MarkExhausted(wants3, exhausted))
  {
    hide Begun, Moved, Told, MarkExhausted, DontHavePairs, HavePairs, Delivered;
  }

  // A peer that sends a HAVE and leaves in one batch is asked for the block, though it is not in the session.

  const NO_UPDATE := Update(NO_PEER, [], [], [])

  ghost function HaveAndLeave(c: Cid, p: PeerId): seq<Change> {
    [Change([], [], Update(p, [], [c], []), NO_PEER, false), Change([], [], NO_UPDATE, p, false)]
  }

  lemma HaveAndLeaveIs(c: Cid, p: PeerId, keys: set<Cid>)
    requires p != NO_PEER
    ensures var b := BatchOf(HaveAndLeave(c, p), keys);
            && b == Batch(map[p := false], [], [Update(p, [], [c], [])], keys)
            && DontHavePairs(b.updates) == {} && HavePairs(b.updates) == {(c, p)} && Delivered(b.updates) == {}
  {
    var changes, u := HaveAndLeave(c, p), Update(p, [], [c], []);
    assert changes[..1] == [changes[0]] && changes[..1][..0] == [];
    assert BatchOf(changes[..1], keys) == Batch(map[p := true], [], [u], keys);
    assert map[p := true][p := false] == map[p := false];
    assert [u][..0] == [];
  }

  /** The session is left as it was. */
  lemma HaveAndLeaveSession(c: Cid, p: PeerId, peers: set<PeerId>)
    requires p != NO_PEER && p !in peers
    ensures BatchApplied(BatchOf(HaveAndLeave(c, p), {c}), peers, [], {c}, peers)
  {
    hide BatchOf, Delivered;
    HaveAndLeaveIs(c, p, {c});
    var availability := map[p := false];
    assert (set q | q in availability && availability[q]) == {};
    assert (set q | q in availability && !availability[q]) == {p};
  }

  /** Such a batch has an outcome: the want of a session with one peer that lacks the block. */
  lemma HaveAndLeaveHappens(c: Cid, p: PeerId, r: PeerId) returns (due: Wants)
    requires p != r && p != NO_PEER && r != NO_PEER
    ensures var presence := map[c := map[r := false, p := true]];
            var wants0 := map[c := WantInfo(map[r := DontHave], NO_PEER, NO_PEER, true)];
            BatchEffect(wants0, {r}, BatchOf(HaveAndLeave(c, p), {c}), {r}, presence, [], due) && WantsOk(due, {r})
  {
    hide DontHavePairs, HavePairs, Delivered, BatchOf, BatchEffect;
    HaveAndLeaveIs(c, p, {c});
    var presence: Presences := map[c := map[r := false, p := true]];
    var wants0: Wants := map[c := WantInfo(map[r := DontHave], NO_PEER, NO_PEER, true)];
    var b := BatchOf(HaveAndLeave(c, p), {c});
    var wants3: Wants := map[c := WantInfo(map[r := DontHave, p := Have], NO_PEER, p, false)];
    due := MarkExhausted(wants3, []);
    assert {r} - {r} == {} && wants0 - {} == wants0;
    NoneMoved(wants0, presence);
    assert PresenceOf(presence, p, c) == Have;
    assert (c, p) in {} + {(c, p)};
    assert ToldWant(wants0[c], wants3[c], presence, {} + {(c, p)}, {}, c);
    EffectIs(wants0, wants0, wants0, wants3, {r}, b, {r}, presence, []);
    assert IsBest(wants3[c].blockPresence, p);
  }

  /** In every outcome the block is asked of the peer that left. */
  lemma OutsiderIsAsked(c: Cid, p: PeerId, r: PeerId, exhausted: seq<Cid>, due: Wants)
    requires p != r && p != NO_PEER && r != NO_PEER
    requires var presence := map[c := map[r := false, p := true]];
             var wants0 := map[c := WantInfo(map[r := DontHave], NO_PEER, NO_PEER, true)];
             BatchEffect(wants0, {r}, BatchOf(HaveAndLeave(c, p), {c}), {r}, presence, exhausted, due)
    requires WantsOk(due, {r})
    ensures c in BlocksFor(due, p) && MarkSentTo(due)[c].sentTo == p && p !in {r}
  {
    hide DontHavePairs, HavePairs, Delivered, BatchOf, MovedWant, ToldWant, IsFresh, IsBest;
    HaveAndLeaveIs(c, p, {c});
    var presence: Presences := map[c := map[r := false, p := true]];
    var wants0: Wants := map[c := WantInfo(map[r := DontHave], NO_PEER, NO_PEER, true)];
    var b := BatchOf(HaveAndLeave(c, p), {c});
    var wants1: Wants, wants2: Wants, wants3: Wants :|
      && Begun(wants0, wants1, b.cancels, {r}, presence)
      && Moved(wants1, wants2, presence, {r} - {r}, {r} - {r})
      && Told(wants2 - Delivered(b.updates), wants3, presence, DontHavePairs(b.updates) + HavePairs(b.updates),
              DontHavePairs(b.updates))
      && due == MarkExhausted(wants3, exhausted);
    assert {r} - {r} == {} && wants2 - {} == wants2 && wants1[c] == wants0[c];
    OnlyTheOutsiderHas(wants1[c], wants2[c], wants3[c], presence, c, p, r);
    assert InfoOk(due[c], {r});
    AloneIsBest(due[c], p, r);
    AskedOf(due, c, p);
  }

  lemma AloneIsBest(wi: WantInfo, p: PeerId, r: PeerId)
    requires p != r && wi.blockPresence == map[r := DontHave, p := Have] && IsBest(wi.blockPresence, wi.bestPeer)
    ensures wi.bestPeer == p
  {
    assert p in wi.blockPresence && wi.blockPresence[p] == Have;
  }

  lemma AskedOf(due: Wants, c: Cid, p: PeerId)
    requires c in due && due[c].sentTo == NO_PEER && due[c].bestPeer == p && p != NO_PEER
    ensures c in BlocksFor(due, p) && MarkSentTo(due)[c].sentTo == p
  {
  }

  lemma OnlyTheOutsiderHas(x: WantInfo, y: WantInfo, z: WantInfo, presence: Presences, c: Cid, p: PeerId, r: PeerId)
    requires p != r && x.blockPresence == map[r := DontHave] && x.sentTo == NO_PEER && HasBlock(presence, p, c)
    requires MovedWant(x, y, presence, {}, {}, c) && ToldWant(y, z, presence, {} + {(c, p)}, {}, c)
    ensures z.sentTo == NO_PEER && z.blockPresence == map[r := DontHave, p := Have]
  {
    assert (c, p) in {} + {(c, p)} && (c, r) !in {} + {(c, p)};
  }

  // ---------- the log of a batch ----------

  /** What the batch justifies is logged, then the report, if there is one. */
  ghost predicate Reported(log: seq<Event>, log': seq<Event>, src: Source, exhausted: seq<Cid>, peers: set<PeerId>,
                           presence: Presences)
  {
    if exhausted == [] then Extends(log, log', src)
    else && |log'| > 0 && log'[|log'| - 1] == Exhausted(exhausted, peers, presence)
         && Extends(log, log'[..|log'| - 1], src)
  }
}
