/**
 Runs of a session's want sender, batch by batch, and when the want-blocks it sends go to
 peers of the session: told by the batches and the presences known at each, whatever the
 draws among equally good peers.
 */
module SessionRuns {
  import opened Types
  import opened SessionTrackers
  import opened SessionModel
  import opened SessionBatches

  datatype Session = Session(wants: Wants, peers: set<PeerId>)

  /** A batch, what is known about presences while it is processed, its report and the wants before its round. */
  datatype Turn = Turn(changes: seq<Change>, presence: Presences, exhausted: seq<Cid>, due: Wants)

  const NEW_SESSION := Session(map[], {})

  ghost function JoinedTo(b: Batch, peers: set<PeerId>): set<PeerId> {
    peers + (set p | p in b.availability && b.availability[p]) - (set p | p in b.availability && !b.availability[p])
  }

  /** What the batch may leave before its round: only the best peers are drawn. */
  ghost predicate IsOutcome(s: Session, t: Turn) {
    var b := BatchOf(t.changes, s.wants.Keys);
    var peers := JoinedTo(b, s.peers);
    && t.due.Keys == b.keys - Delivered(b.updates)
    && BatchEffect(s.wants, s.peers, b, peers, t.presence, t.exhausted, t.due)
    && WantsOk(t.due, peers)
  }

  /** A session without peers sends nothing. */
  ghost predicate IsTurn(s: Session, t: Turn, s': Session) {
    && IsOutcome(s, t)
    && s'.peers == JoinedTo(BatchOf(t.changes, s.wants.Keys), s.peers)
    && s'.wants == if s'.peers == {} then t.due else MarkSentTo(t.due)
  }

  lemma TurnIs(s: Session, t: Turn, s': Session, cancels: seq<Cid>)
    requires var b := BatchOf(t.changes, s.wants.Keys);
             && BatchApplied(b, s.peers, cancels, s'.wants.Keys, s'.peers)
             && BatchEffect(s.wants, s.peers, b, s'.peers, t.presence, t.exhausted, t.due)
    requires WantsOk(t.due, s'.peers) && t.due.Keys == s'.wants.Keys
    requires s'.wants == if s'.peers == {} then t.due else MarkSentTo(t.due)
    ensures IsTurn(s, t, s')
  {
    hide BatchOf, BatchEffect, WantsOk, Delivered, MarkSentTo;
  }

  ghost predicate IsSessionRun(sessions: seq<Session>, turns: seq<Turn>) {
    && |sessions| == |turns| + 1 && sessions[0] == NEW_SESSION
    && forall i :: 0 <= i < |turns| ==> IsTurn(sessions[i], turns[i], sessions[i + 1])
  }

  // ---------- what is recorded, told by the batches ----------

  type Records = map<Cid, map<PeerId, Presence>>

  ghost function RecordsOf(wants: Wants): Records {
    map c | c in wants :: wants[c].blockPresence
  }

  /** Who left is forgotten; who joined or answered is recorded as now known. */
  ghost function NextRecord(known: map<PeerId, Presence>, peers0: set<PeerId>, peers: set<PeerId>, presence: Presences,
                            answerers: set<PeerId>, c: Cid): map<PeerId, Presence>
  {
    map p | p in (known.Keys - (peers0 - peers)) + (peers - peers0) + answerers ::
      if p in (peers - peers0) + answerers then PresenceOf(presence, p, c) else known[p]
  }

  ghost function CarriedOver(recs: Records, peers: set<PeerId>, b: Batch, presence: Presences, c: Cid)
    : map<PeerId, Presence>
  {
    if c in recs && c !in b.cancels then recs[c] else KnownAbout(presence, peers, c)
  }

  ghost function NextRecords(recs: Records, peers0: set<PeerId>, changes: seq<Change>, presence: Presences): Records {
    var b := BatchOf(changes, recs.Keys);
    map c | c in b.keys - Delivered(b.updates) ::
      NextRecord(CarriedOver(recs, peers0, b, presence, c), peers0, JoinedTo(b, peers0), presence,
                 Answerers(b.updates, c), c)
  }

  ghost predicate AreRecords(sessions: seq<Session>, turns: seq<Turn>, recs: seq<Records>) {
    && |sessions| == |turns| + 1 == |recs| && recs[0] == map[]
    && forall i :: 0 <= i < |turns| ==>
         recs[i + 1] == NextRecords(recs[i], sessions[i].peers, turns[i].changes, turns[i].presence)
  }

  lemma NextRecordIs(x: WantInfo, y: WantInfo, z: WantInfo, presence: Presences, us: seq<Update>, peers0: set<PeerId>,
                     peers: set<PeerId>, c: Cid)
    requires MovedWant(x, y, presence, peers - peers0, peers0 - peers, c)
    requires ToldWant(y, z, presence, DontHavePairs(us) + HavePairs(us), DontHavePairs(us), c)
    ensures z.blockPresence == NextRecord(x.blockPresence, peers0, peers, presence, Answerers(us, c), c)
  {
    hide DontHavePairs, HavePairs, PresenceOf;
    forall p
      ensures (c, p) in DontHavePairs(us) + HavePairs(us) <==> p in Answerers(us, c)
    {
      AnswererIs(us, c, p);
    }
  }

  lemma AnswererIs(us: seq<Update>, c: Cid, p: PeerId)
    ensures (c, p) in DontHavePairs(us) + HavePairs(us) <==> p in Answerers(us, c)
  {
    hide DontHavePairs, HavePairs;
  }

  /** Whom the want is still out to when the round begins. */
  ghost function StillOutTo(s: Session, b: Batch, peers: set<PeerId>, c: Cid): PeerId {
    if c in s.wants && c !in b.cancels && s.wants[c].sentTo !in s.peers - peers
       && (c, s.wants[c].sentTo) !in DontHavePairs(b.updates) then s.wants[c].sentTo
    else NO_PEER
  }

  /** What the batch and the presences make of one want, however the draws fall. */
  lemma OutcomeOf(s: Session, b: Batch, peers: set<PeerId>, presence: Presences, exhausted: seq<Cid>, due: Wants,
                  c: Cid)
    requires BatchEffect(s.wants, s.peers, b, peers, presence, exhausted, due) && c in due
    ensures due[c].blockPresence
            == NextRecord(CarriedOver(RecordsOf(s.wants), s.peers, b, presence, c), s.peers, peers, presence,
                          Answerers(b.updates, c), c)
    ensures due[c].sentTo == StillOutTo(s, b, peers, c)
  {
    hide DontHavePairs, HavePairs, Delivered, MovedWant, ToldWant, Answerers, NextRecord, IsBest, PresenceOf;
    var wants1: Wants, wants2: Wants, wants3: Wants :|
      && Begun(s.wants, wants1, b.cancels, s.peers, presence)
      && Moved(wants1, wants2, presence, peers - s.peers, s.peers - peers)
      && Told(wants2 - Delivered(b.updates), wants3, presence, DontHavePairs(b.updates) + HavePairs(b.updates),
              DontHavePairs(b.updates))
      && due == MarkExhausted(wants3, exhausted);
    NextRecordIs(wants1[c], wants2[c], wants3[c], presence, b.updates, s.peers, peers, c);
    SentToIs(wants1[c], wants2[c], wants3[c], presence, b.updates, s.peers, peers, c);
  }

  lemma SentToIs(x: WantInfo, y: WantInfo, z: WantInfo, presence: Presences, us: seq<Update>, peers0: set<PeerId>,
                 peers: set<PeerId>, c: Cid)
    requires MovedWant(x, y, presence, peers - peers0, peers0 - peers, c)
    requires ToldWant(y, z, presence, DontHavePairs(us) + HavePairs(us), DontHavePairs(us), c)
    ensures z.sentTo == if x.sentTo in peers0 - peers || (c, x.sentTo) in DontHavePairs(us) then NO_PEER else x.sentTo
  {
    hide DontHavePairs, HavePairs, PresenceOf;
  }

  lemma EffectIsNoted(s: Session, changes: seq<Change>, peers: set<PeerId>, presence: Presences, exhausted: seq<Cid>,
                      due: Wants)
    requires BatchEffect(s.wants, s.peers, BatchOf(changes, s.wants.Keys), peers, presence, exhausted, due)
    ensures AllNoted(s.wants, s.peers, changes, peers, due, presence)
  {
    hide BatchOf, BatchEffect, Answered, Answerers, PresenceOf, KnownAs, StillOutTo;
    var b := BatchOf(changes, s.wants.Keys);
    forall c, p | c in due && (|| p in peers - s.peers || Answered(changes, c, p)
                               || (p in peers && (c !in s.wants
                                                  || exists i :: 0 <= i < |changes| && c in changes[i].cancel)))
      ensures p in due[c].blockPresence && KnownAs(due[c].blockPresence[p], presence, p, c)
    {
      OutcomeOf(s, b, peers, presence, exhausted, due, c);
      AnsweredIff(changes, s.wants.Keys, c, p);
      CancelsAre(changes, s.wants.Keys, c);
      PresenceIsKnown(presence, p, c);
    }
  }

  lemma TurnKeepsRecords(s: Session, t: Turn, s': Session)
    requires IsTurn(s, t, s')
    ensures RecordsOf(s'.wants) == NextRecords(RecordsOf(s.wants), s.peers, t.changes, t.presence)
  {
    hide BatchEffect, BatchOf, WantsOk, NextRecord, CarriedOver, JoinedTo, Answerers, Delivered, StillOutTo;
    var recs := RecordsOf(s.wants);
    var b := BatchOf(t.changes, s.wants.Keys);
    assert recs.Keys == s.wants.Keys;
    forall c | c in t.due
      ensures RecordsOf(s'.wants)[c] == NextRecords(recs, s.peers, t.changes, t.presence)[c]
    {
      OutcomeOf(s, b, s'.peers, t.presence, t.exhausted, t.due, c);
    }
  }

  /** In every run the batches and the presences known at each tell what is recorded. */
  lemma {:induction false} RunKeepsRecords(sessions: seq<Session>, turns: seq<Turn>, recs: seq<Records>, n: nat)
    requires IsSessionRun(sessions, turns) && AreRecords(sessions, turns, recs) && n <= |turns|
    ensures recs[n] == RecordsOf(sessions[n].wants)
  {
    hide IsTurn, NextRecords;
    if n > 0 {
      RunKeepsRecords(sessions, turns, recs, n - 1);
      TurnKeepsRecords(sessions[n - 1], turns[n - 1], sessions[n]);
    }
  }

  // ---------- who is asked for a block ----------

  /** The peers outside the session that are recorded for a want: those carried over and those that answered. */
  ghost function Strangers(recs: Records, peers0: set<PeerId>, b: Batch, peers: set<PeerId>, c: Cid): set<PeerId> {
    (if c in recs && c !in b.cancels then recs[c].Keys - peers0 - peers else {}) + (Answerers(b.updates, c) - peers)
  }

  /** The peer lacks the block, or some session peer is better. */
  ghost predicate Quiet(known: map<PeerId, Presence>, peers: set<PeerId>, p: PeerId) {
    p in known ==> known[p] == DontHave || exists r :: r in peers && r in known && known[r].Rank() > known[p].Rank()
  }

  /** All want-blocks of the round go to session peers; without any there is no round. */
  ghost predicate AsksSession(due: Wants, peers: set<PeerId>) {
    peers != {} ==> forall c :: c in due && Due(due[c]) ==> due[c].bestPeer in peers
  }

  /** However the draws fall, the round asks session peers. */
  ghost predicate AlwaysAsksSession(s: Session, t: Turn) {
    forall t' :: IsOutcome(s, t') && t'.changes == t.changes && t'.presence == t.presence ==>
                   AsksSession(t'.due, JoinedTo(BatchOf(t.changes, s.wants.Keys), s.peers))
  }

  lemma SomeBest(bp: map<PeerId, Presence>) returns (best: PeerId)
    requires NO_PEER !in bp && exists p :: p in bp && bp[p] != DontHave
    ensures IsBest(bp, best) && best in bp && bp[best] != DontHave
  {
    if p :| p in bp && bp[p] == Have {
      best := p;
    } else {
      best :| best in bp && bp[best] != DontHave;
    }
  }

  /** One want: every peer that may be drawn is in the session, if and only if every outsider is quiet. */
  lemma DrawnFromSessionIff(wi: WantInfo, peers: set<PeerId>)
    requires NO_PEER !in wi.blockPresence && peers <= wi.blockPresence.Keys
    ensures (forall best :: IsBest(wi.blockPresence, best) && best != NO_PEER ==> best in peers)
            <==> (forall p :: p in Outsiders(wi, peers) ==> Quiet(wi.blockPresence, peers, p))
  {
    hide IsBest;
    var bp := wi.blockPresence;
    if p :| p in Outsiders(wi, peers) && !Quiet(bp, peers, p) {
      var best := LoudIsDrawn(bp, peers, p);
      assert best !in peers;
    } else {
      forall best | IsBest(bp, best) && best != NO_PEER
        ensures best in peers
      {
        BestIsLoud(bp, peers, best);
        assert best in peers || best in Outsiders(wi, peers);
      }
    }
  }

  lemma LoudIsDrawn(bp: map<PeerId, Presence>, peers: set<PeerId>, p: PeerId) returns (best: PeerId)
    requires NO_PEER !in bp && p in bp && p !in peers && !Quiet(bp, peers, p)
    ensures IsBest(bp, best) && best != NO_PEER && best !in peers
  {
    best := SomeBest(bp);
    if best in peers {
      best := p;
    }
  }

  lemma BestIsLoud(bp: map<PeerId, Presence>, peers: set<PeerId>, best: PeerId)
    requires IsBest(bp, best) && best != NO_PEER
    ensures best in bp && !Quiet(bp, peers, best)
  {
  }

  /** Another draw for one want is another outcome. */
  lemma Redrawn(s: Session, t: Turn, c: Cid, best: PeerId) returns (t': Turn)
    requires IsOutcome(s, t) && c in t.due && IsBest(t.due[c].blockPresence, best)
    ensures IsOutcome(s, t') && t' == t.(due := t.due[c := t.due[c].(bestPeer := best)])
  {
    hide BatchOf, Delivered, IsBest, BatchEffect, JoinedTo;
    t' := t.(due := t.due[c := t.due[c].(bestPeer := best)]);
    var b := BatchOf(t.changes, s.wants.Keys);
    RedrawnEffect(s.wants, s.peers, b, JoinedTo(b, s.peers), t.presence, t.exhausted, t.due, c, best);
  }

  lemma RedrawnEffect(wants0: Wants, peers0: set<PeerId>, b: Batch, peers: set<PeerId>, presence: Presences,
                      exhausted: seq<Cid>, due: Wants, c: Cid, best: PeerId)
    requires BatchEffect(wants0, peers0, b, peers, presence, exhausted, due) && c in due
    ensures BatchEffect(wants0, peers0, b, peers, presence, exhausted, due[c := due[c].(bestPeer := best)])
  {
    hide DontHavePairs, HavePairs, Delivered, MovedWant, ToldWant, Begun, Moved;
    var wants1: Wants, wants2: Wants, wants3: Wants :|
      && Begun(wants0, wants1, b.cancels, peers0, presence)
      && Moved(wants1, wants2, presence, peers - peers0, peers0 - peers)
      && Told(wants2 - Delivered(b.updates), wants3, presence, DontHavePairs(b.updates) + HavePairs(b.updates),
              DontHavePairs(b.updates))
      && due == MarkExhausted(wants3, exhausted);
    var before := wants2 - Delivered(b.updates);
    var wants3' := wants3[c := wants3[c].(bestPeer := best)];
    ToldRedrawn(before[c], wants3[c], presence, DontHavePairs(b.updates) + HavePairs(b.updates),
                DontHavePairs(b.updates), c, best);
    EffectIs(wants0, wants1, wants2, wants3', peers0, b, peers, presence, exhausted);
    assert MarkExhausted(wants3', exhausted) == due[c := due[c].(bestPeer := best)];
  }

  lemma ToldRedrawn(before: WantInfo, after: WantInfo, presence: Presences, recorded: set<(Cid, PeerId)>,
                    declined: set<(Cid, PeerId)>, c: Cid, best: PeerId)
    requires ToldWant(before, after, presence, recorded, declined, c)
    ensures ToldWant(before, after.(bestPeer := best), presence, recorded, declined, c)
  {
    hide PresenceOf;
  }

  lemma StrangersAre(s: Session, t: Turn, c: Cid)
    requires IsOutcome(s, t) && c in t.due
    ensures var b := BatchOf(t.changes, s.wants.Keys);
            var peers := JoinedTo(b, s.peers);
            && Strangers(RecordsOf(s.wants), s.peers, b, peers, c) == Outsiders(t.due[c], peers)
            && t.due[c].sentTo == StillOutTo(s, b, peers, c)
            && c in NextRecords(RecordsOf(s.wants), s.peers, t.changes, t.presence)
            && t.due[c].blockPresence == NextRecords(RecordsOf(s.wants), s.peers, t.changes, t.presence)[c]
            && NO_PEER !in t.due[c].blockPresence && peers <= t.due[c].blockPresence.Keys
  {
    hide BatchEffect, BatchOf, NextRecord, JoinedTo, Answerers, Delivered, StillOutTo, IsBest;
    var b := BatchOf(t.changes, s.wants.Keys);
    assert RecordsOf(s.wants).Keys == s.wants.Keys;
    OutcomeOf(s, b, JoinedTo(b, s.peers), t.presence, t.exhausted, t.due, c);
    OutsidersAre(s.wants, s.peers, b, JoinedTo(b, s.peers), t.presence, t.exhausted, t.due, c);
  }

  /** No stranger stands out for the want. */
  ghost predicate QuietFor(s: Session, recs: Records, changes: seq<Change>, presence: Presences, c: Cid) {
    var b := BatchOf(changes, recs.Keys);
    var peers := JoinedTo(b, s.peers);
    var recs' := NextRecords(recs, s.peers, changes, presence);
    c in recs' && StillOutTo(s, b, peers, c) == NO_PEER ==>
      forall p :: p in Strangers(recs, s.peers, b, peers, c) ==> Quiet(recs'[c], peers, p)
  }

  lemma QuietForIff(s: Session, t: Turn, c: Cid)
    requires IsOutcome(s, t) && c in t.due
    ensures var peers := JoinedTo(BatchOf(t.changes, s.wants.Keys), s.peers);
            QuietFor(s, RecordsOf(s.wants), t.changes, t.presence, c)
            <==> (t.due[c].sentTo == NO_PEER ==>
                    forall best :: IsBest(t.due[c].blockPresence, best) && best != NO_PEER ==> best in peers)
  {
    hide IsOutcome, BatchOf, NextRecords, JoinedTo, Strangers, StillOutTo, IsBest, Quiet, Outsiders;
    assert RecordsOf(s.wants).Keys == s.wants.Keys;
    StrangersAre(s, t, c);
    DrawnFromSessionIff(t.due[c], JoinedTo(BatchOf(t.changes, s.wants.Keys), s.peers));
  }

  /** No stranger stands out for a want that is not out, if there is a round. */
  ghost predicate AllQuiet(s: Session, recs: Records, t: Turn) {
    JoinedTo(BatchOf(t.changes, recs.Keys), s.peers) != {} ==>
      forall c :: QuietFor(s, recs, t.changes, t.presence, c)
  }

  /**
   Whatever the draws, the want-blocks of a round go to session peers, if and only if every
   stranger recorded for a want that is not out lacks the block or is outranked by a session
   peer. Strangers and presences are those of the batch and of what was recorded before it.
   */
  lemma RoundStaysInSessionIff(s: Session, t: Turn)
    requires IsOutcome(s, t)
    ensures AlwaysAsksSession(s, t) <==> AllQuiet(s, RecordsOf(s.wants), t)
  {
    hide IsOutcome, BatchOf, JoinedTo, QuietFor, IsBest;
    var recs := RecordsOf(s.wants);
    assert recs.Keys == s.wants.Keys;
    var peers := JoinedTo(BatchOf(t.changes, s.wants.Keys), s.peers);
    if peers != {} {
      if c :| !QuietFor(s, recs, t.changes, t.presence, c) {
        LoudIsAsked(s, t, c);
      } else {
        forall t' | IsOutcome(s, t') && t'.changes == t.changes && t'.presence == t.presence
          ensures AsksSession(t'.due, peers)
        {
          QuietAsksSession(s, t');
        }
      }
    }
  }

  lemma LoudIsAsked(s: Session, t: Turn, c: Cid)
    requires IsOutcome(s, t) && !QuietFor(s, RecordsOf(s.wants), t.changes, t.presence, c)
    requires JoinedTo(BatchOf(t.changes, s.wants.Keys), s.peers) != {}
    ensures !AlwaysAsksSession(s, t)
  {
    hide BatchOf, JoinedTo, IsBest, IsOutcome;
    LoudIsTracked(s, t, c);
    QuietForIff(s, t, c);
    var peers := JoinedTo(BatchOf(t.changes, s.wants.Keys), s.peers);
    var best :| IsBest(t.due[c].blockPresence, best) && best != NO_PEER && best !in peers;
    var t' := Redrawn(s, t, c, best);
    assert Due(t'.due[c]) && t'.due[c].bestPeer == best;
    assert !AsksSession(t'.due, peers);
  }

  lemma LoudIsTracked(s: Session, t: Turn, c: Cid)
    requires IsOutcome(s, t) && !QuietFor(s, RecordsOf(s.wants), t.changes, t.presence, c)
    ensures c in t.due
  {
    hide BatchEffect, BatchOf, Delivered, Strangers, StillOutTo, Quiet, NextRecord, CarriedOver;
    assert RecordsOf(s.wants).Keys == s.wants.Keys;
  }

  lemma QuietAsksSession(s: Session, t: Turn)
    requires IsOutcome(s, t) && forall c :: QuietFor(s, RecordsOf(s.wants), t.changes, t.presence, c)
    ensures AsksSession(t.due, JoinedTo(BatchOf(t.changes, s.wants.Keys), s.peers))
  {
    hide BatchOf, JoinedTo, QuietFor, BatchEffect, IsBest, Delivered;
    forall c | c in t.due && Due(t.due[c])
      ensures t.due[c].bestPeer in JoinedTo(BatchOf(t.changes, s.wants.Keys), s.peers)
    {
      QuietForIff(s, t, c);
      assert InfoOk(t.due[c], JoinedTo(BatchOf(t.changes, s.wants.Keys), s.peers));
    }
  }

  /**
   In every run: whatever the draws, all want-blocks of all rounds go to session peers, if
   and only if no stranger ever stands out. Who is recorded with which presence is told by
   the batches alone.
   */
  lemma RunStaysInSessionIff(sessions: seq<Session>, turns: seq<Turn>, recs: seq<Records>, n: nat)
    requires IsSessionRun(sessions, turns) && AreRecords(sessions, turns, recs) && n <= |turns|
    ensures (forall i :: 0 <= i < n ==> AlwaysAsksSession(sessions[i], turns[i]))
            <==> (forall i :: 0 <= i < n ==> AllQuiet(sessions[i], recs[i], turns[i]))
  {
    hide IsOutcome, AlwaysAsksSession, AllQuiet, NextRecords;
    forall i | 0 <= i < n
      ensures AlwaysAsksSession(sessions[i], turns[i]) <==> AllQuiet(sessions[i], recs[i], turns[i])
    {
      RunKeepsRecords(sessions, turns, recs, i);
      assert IsTurn(sessions[i], turns[i], sessions[i + 1]);
      RoundStaysInSessionIff(sessions[i], turns[i]);
    }
  }

  ghost predicate OutToSession(s: Session) {
    forall c :: c in s.wants ==> s.wants[c].sentTo == NO_PEER || s.wants[c].sentTo in s.peers
  }

  lemma TurnOutToSession(s: Session, t: Turn, s': Session)
    requires IsTurn(s, t, s') && OutToSession(s) && AsksSession(t.due, s'.peers)
    ensures OutToSession(s')
  {
    hide BatchOf, JoinedTo, BatchEffect, WantsOk, Delivered, DontHavePairs;
    var b := BatchOf(t.changes, s.wants.Keys);
    forall c | c in t.due
      ensures t.due[c].sentTo == NO_PEER || t.due[c].sentTo in s'.peers
    {
      OutcomeOf(s, b, s'.peers, t.presence, t.exhausted, t.due, c);
    }
  }

  /** Then every want is out to a session peer only, at every moment between batches. */
  lemma {:induction false} RunOutToSession(sessions: seq<Session>, turns: seq<Turn>, recs: seq<Records>, n: nat)
    requires IsSessionRun(sessions, turns) && AreRecords(sessions, turns, recs) && n <= |turns|
    requires forall i :: 0 <= i < n ==> AllQuiet(sessions[i], recs[i], turns[i])
    ensures OutToSession(sessions[n])
  {
    hide IsOutcome, AllQuiet, NextRecords, AsksSession, BatchOf, JoinedTo, MarkSentTo;
    if n > 0 {
      RunOutToSession(sessions, turns, recs, n - 1);
      RunStaysInSessionIff(sessions, turns, recs, n);
      assert AlwaysAsksSession(sessions[n - 1], turns[n - 1]);
      TurnOutToSession(sessions[n - 1], turns[n - 1], sessions[n]);
    }
  }
}
