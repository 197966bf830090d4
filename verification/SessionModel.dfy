/**
 What a session's want sender promises, told by a log of what happened to its
 wants: a want is out to at most one peer at a time, and a want is reported as
 exhausted once until some peer has the block.
 */
module SessionModel {
  import opened Types
  import opened SessionTrackers

  datatype Presence = DontHave | Unknown | Have {
    function Rank(): nat {
      match this case DontHave => 0 case Unknown => 1 case Have => 2
    }
  }

  datatype WantInfo = WantInfo(blockPresence: map<PeerId, Presence>, sentTo: PeerId, bestPeer: PeerId, exhausted: bool)

  type Wants = map<Cid, WantInfo>

  const NEW_WANT := WantInfo(map[], NO_PEER, NO_PEER, false)

  /** No peer if none is better than DONT_HAVE, else some peer of the best presence. */
  ghost predicate IsBest(bp: map<PeerId, Presence>, best: PeerId) {
    if forall p :: p in bp ==> bp[p] == DontHave then best == NO_PEER
    else best in bp && bp[best] != DontHave && forall p :: p in bp ==> bp[p].Rank() <= bp[best].Rank()
  }

  // ---------- the log ----------

  datatype Event =
    | Tracked(c: Cid)
    | Untracked(c: Cid)                 // cancelled, or its block arrived
    | SentBlock(c: Cid, p: PeerId)      // a want-block for c went to p
    | GotDontHave(c: Cid, p: PeerId)
    | GotHave(c: Cid, p: PeerId)        // p is recorded as having c
    | Left(p: PeerId)                   // p left the session
    | Exhausted(ks: seq<Cid>, session: set<PeerId>, presence: Presences)

  datatype WantView = WantView(sentTo: PeerId, reported: bool)

  type View = map<Cid, WantView>

  /** The wants a log leaves tracked, whom each is out to, and whether it was reported. */
  function After(v: View, e: Event): View {
    match e
    case Tracked(c) => v[c := WantView(NO_PEER, false)]
    case Untracked(c) => v - {c}
    case SentBlock(c, p) => if c in v then v[c := v[c].(sentTo := p)] else v
    case GotDontHave(c, p) => if c in v && v[c].sentTo == p then v[c := v[c].(sentTo := NO_PEER)] else v
    case GotHave(c, _) => if c in v then v[c := v[c].(reported := false)] else v
    case Left(p) => map c | c in v :: if v[c].sentTo == p then v[c].(sentTo := NO_PEER) else v[c]
    case Exhausted(ks, _, _) => map c | c in v :: if c in ks then v[c].(reported := true) else v[c]
  }

  function Replay(log: seq<Event>): View {
    if log == [] then map[] else After(Replay(log[..|log| - 1]), log[|log| - 1])
  }

  /** What may happen next. */
  ghost predicate Fits(v: View, e: Event) {
    match e
    case Tracked(c) => c !in v
    case SentBlock(c, p) => p != NO_PEER && c in v && v[c].sentTo == NO_PEER
    case Exhausted(ks, session, presence) =>
      && ks != [] && Distinct(ks)
      && forall c :: c in ks ==>
           && c in v && !v[c].reported
           && forall p :: p in session ==> LacksBlock(presence, p, c)
    case _ => true
  }

  ghost predicate Disciplined(log: seq<Event>) {
    forall i :: 0 <= i < |log| ==> Fits(Replay(log[..i]), log[i])
  }

  lemma OneMoreEvent(log: seq<Event>, e: Event)
    ensures Replay(log + [e]) == After(Replay(log), e)
    ensures Disciplined(log) && Fits(Replay(log), e) ==> Disciplined(log + [e])
  {
    hide After, Fits;
    var longer := log + [e];
    assert longer[..|log|] == log;
    forall i | 0 <= i < |longer| && Disciplined(log) && Fits(Replay(log), e)
      ensures Fits(Replay(longer[..i]), longer[i])
    {
      if i < |log| {
        assert longer[..i] == log[..i];
      }
    }
  }

  // ---------- what the discipline means ----------

  lemma StepStaysOut(v: View, e: Event, c: Cid, p: PeerId)
    requires Fits(v, e) && c in v && v[c].sentTo == p && p != NO_PEER
    requires e != GotDontHave(c, p) && e != Left(p) && e != Untracked(c)
    ensures c in After(v, e) && After(v, e)[c].sentTo == p
  {
  }

  /** Nothing in between lets `p` off: then the want is still out to `p`. */
  lemma {:induction false} StaysOut(log: seq<Event>, i: nat, n: nat, c: Cid, p: PeerId)
    requires Disciplined(log) && i < n <= |log| && log[i] == SentBlock(c, p)
    requires forall k :: i < k < n ==> log[k] != GotDontHave(c, p) && log[k] != Left(p) && log[k] != Untracked(c)
    ensures c in Replay(log[..n]) && Replay(log[..n])[c].sentTo == p && p != NO_PEER
    decreases n
  {
    hide After, Fits, Disciplined, Replay;
    FitsAt(log, n - 1);
    if n - 1 == i {
      FirstOut(Replay(log[..i]), c, p);
    } else {
      StaysOut(log, i, n - 1, c, p);
      StepStaysOut(Replay(log[..n - 1]), log[n - 1], c, p);
    }
  }

  lemma FirstOut(v: View, c: Cid, p: PeerId)
    requires Fits(v, SentBlock(c, p))
    ensures c in After(v, SentBlock(c, p)) && After(v, SentBlock(c, p))[c].sentTo == p && p != NO_PEER
  {
  }

  lemma FitsAt(log: seq<Event>, i: nat)
    requires Disciplined(log) && i < |log|
    ensures Fits(Replay(log[..i]), log[i])
    ensures Replay(log[..i + 1]) == After(Replay(log[..i]), log[i])
  {
    hide After, Fits;
    assert log[..i + 1][..i] == log[..i];
  }

  /**
   At most one want-block is out for a want: between two of them in one tracking
   epoch, the first target answered DONT_HAVE for it or left the session.
   */
  lemma OneWantBlockOut(log: seq<Event>, i: nat, j: nat, c: Cid, p: PeerId, q: PeerId)
    requires Disciplined(log) && i < j < |log|
    requires log[i] == SentBlock(c, p) && log[j] == SentBlock(c, q)
    requires forall k :: i < k < j ==> log[k] != Untracked(c)
    ensures exists k :: i < k < j && (log[k] == GotDontHave(c, p) || log[k] == Left(p))
  {
    FitsAt(log, j);
    if forall k :: i < k < j ==> log[k] != GotDontHave(c, p) && log[k] != Left(p) {
      StaysOut(log, i, j, c, p);
    }
  }

  lemma StepStaysReported(v: View, e: Event, c: Cid)
    requires Fits(v, e) && c in v && v[c].reported
    requires !(e.GotHave? && e.c == c) && e != Untracked(c)
    ensures c in After(v, e) && After(v, e)[c].reported
  {
  }

  lemma {:induction false} StaysReported(log: seq<Event>, i: nat, n: nat, c: Cid)
    requires Disciplined(log) && i < n <= |log| && log[i].Exhausted? && c in log[i].ks
    requires forall k :: i < k < n ==> !(log[k].GotHave? && log[k].c == c) && log[k] != Untracked(c)
    ensures c in Replay(log[..n]) && Replay(log[..n])[c].reported
    decreases n
  {
    hide After, Fits, Disciplined, Replay;
    FitsAt(log, n - 1);
    if n - 1 == i {
      FirstReported(Replay(log[..i]), log[i], c);
    } else {
      StaysReported(log, i, n - 1, c);
      StepStaysReported(Replay(log[..n - 1]), log[n - 1], c);
    }
  }

  lemma FirstReported(v: View, e: Event, c: Cid)
    requires Fits(v, e) && e.Exhausted? && c in e.ks
    ensures c in After(v, e) && After(v, e)[c].reported
  {
  }

  /** Between two reports of a want in one tracking epoch, some peer was recorded as having the block. */
  lemma ReportedOncePerHave(log: seq<Event>, i: nat, j: nat, c: Cid)
    requires Disciplined(log) && i < j < |log|
    requires log[i].Exhausted? && c in log[i].ks && log[j].Exhausted? && c in log[j].ks
    requires forall k :: i < k < j ==> log[k] != Untracked(c)
    ensures exists k :: i < k < j && log[k].GotHave? && log[k].c == c
  {
    FitsAt(log, j);
    if forall k :: i < k < j ==> !(log[k].GotHave? && log[k].c == c) {
      StaysReported(log, i, j, c);
    }
  }

  /** A report names tracked wants, each once, that every session peer answered DONT_HAVE for. */
  lemma ReportsAreJustified(log: seq<Event>, i: nat)
    requires Disciplined(log) && i < |log| && log[i].Exhausted?
    ensures Distinct(log[i].ks)
    ensures forall c :: c in log[i].ks ==>
              c in Replay(log[..i]) && forall p :: p in log[i].session ==> LacksBlock(log[i].presence, p, c)
  {
    assert Fits(Replay(log[..i]), log[i]);
  }

  // ---------- what the sender's state must satisfy ----------

  ghost function Project(wants: Wants): View {
    map c | c in wants :: WantView(wants[c].sentTo, wants[c].exhausted)
  }

  /** The log leaves exactly the state the wants record. */
  ghost predicate LogOk(log: seq<Event>, wants: Wants) {
    Disciplined(log) && Replay(log) == Project(wants)
  }

  ghost predicate InfoOk(wi: WantInfo, peers: set<PeerId>) {
    && NO_PEER !in wi.blockPresence
    && peers <= wi.blockPresence.Keys
    && IsBest(wi.blockPresence, wi.bestPeer)
  }

  /** Every one of the peers is recorded in every want's presence map. */
  ghost predicate WantsOk(wants: Wants, peers: set<PeerId>) {
    forall c :: c in wants ==> InfoOk(wants[c], peers)
  }

  /** Whom a want is out to was sent a want-block for it. */
  ghost predicate SentOk(wants: Wants, sent: map<PeerId, set<Cid>>) {
    forall c :: c in wants && wants[c].sentTo != NO_PEER ==> c in SentOf(sent, wants[c].sentTo)
  }

  /** The want is out to some peer, or every recorded peer answered DONT_HAVE. */
  ghost predicate OutOrHopeless(wi: WantInfo) {
    wi.sentTo != NO_PEER || forall p :: p in wi.blockPresence ==> wi.blockPresence[p] == DontHave
  }

  // ---------- one send round ----------

  /** A want-block is due: the want is not out, and some peer may have the block. */
  predicate Due(wi: WantInfo) {
    wi.sentTo == NO_PEER && wi.bestPeer != NO_PEER
  }

  ghost function BlocksFor(wants: Wants, p: PeerId): set<Cid> {
    set c | c in wants && Due(wants[c]) && wants[c].bestPeer == p
  }

  /** Want-haves: all wants for a newly available peer, those whose want-block goes elsewhere. */
  ghost function BaseHavesFor(wants: Wants, peers: set<PeerId>, newly: set<PeerId>, p: PeerId): set<Cid> {
    set c | c in wants && (p in newly || (Due(wants[c]) && p in peers && p != wants[c].bestPeer))
  }

  /** With these go the other wants the peer was never sent a want-block for. */
  ghost function HavesFor(wants: Wants, peers: set<PeerId>, newly: set<PeerId>, sent: map<PeerId, set<Cid>>, p: PeerId)
    : set<Cid>
  {
    BaseHavesFor(wants, peers, newly, p)
    + (set c | c in wants && c !in BlocksFor(wants, p) && c !in SentOf(sent, p))
  }

  ghost function MarkSentTo(wants: Wants): Wants {
    map c | c in wants :: if Due(wants[c]) then wants[c].(sentTo := wants[c].bestPeer) else wants[c]
  }

  /** In one round each due want-block goes to one peer, and every other session peer gets a want-have for it. */
  lemma OneBlockAndHavesElsewhere(wants: Wants, peers: set<PeerId>, newly: set<PeerId>, sent: map<PeerId, set<Cid>>,
                                  c: Cid, p: PeerId)
    requires c in wants && Due(wants[c])
    ensures c in BlocksFor(wants, wants[c].bestPeer)
    ensures p != wants[c].bestPeer ==> c !in BlocksFor(wants, p)
    ensures p in peers && p != wants[c].bestPeer ==> c in HavesFor(wants, peers, newly, sent, p)
  {
  }

  /**
   A peer that is sent anything in a round has then been told of every want: by a want-block, now or
   before, or by a want-have. The want-haves are wants that go elsewhere as want-blocks, wants the
   peer was never sent a want-block for, or all wants if the peer is new.
   */
  lemma RoundTellsAll(wants: Wants, peers: set<PeerId>, newly: set<PeerId>, sent: map<PeerId, set<Cid>>, c: Cid,
                      p: PeerId)
    requires c in wants
    ensures c in BlocksFor(wants, p) <==> wants[c].sentTo == NO_PEER && wants[c].bestPeer == p && p != NO_PEER
    ensures c in BlocksFor(wants, p) || c in HavesFor(wants, peers, newly, sent, p) || (p in sent && c in sent[p])
    ensures c in HavesFor(wants, peers, newly, sent, p)
            <==> || p in newly
                 || (wants[c].sentTo == NO_PEER && wants[c].bestPeer != NO_PEER && wants[c].bestPeer != p && p in peers)
                 || (c !in BlocksFor(wants, p) && !(p in sent && c in sent[p]))
    ensures BlocksFor(wants, p) <= wants.Keys && HavesFor(wants, peers, newly, sent, p) <= wants.Keys
  {
  }

  /** After a round every want is out, or no recorded peer may have it. */
  lemma RoundLeavesNothingDue(wants: Wants, peers: set<PeerId>)
    requires WantsOk(wants, peers)
    ensures forall c :: c in wants ==> OutOrHopeless(MarkSentTo(wants)[c])
  {
    forall c | c in wants
      ensures OutOrHopeless(MarkSentTo(wants)[c])
    {
      assert InfoOk(wants[c], peers);
    }
  }

  // ---------- consecutive DONT_HAVEs ----------

  const DONT_HAVE_LIMIT := 16

  datatype Counts = Counts(inARow: map<PeerId, nat>, prune: set<PeerId>)

  function RowOf(n: Counts, p: PeerId): nat {
    if p in n.inARow then n.inARow[p] else 0
  }

  function CountOne(n: Counts, from: PeerId): Counts {
    if RowOf(n, from) == DONT_HAVE_LIMIT then n.(prune := n.prune + {from})
    else n.(inARow := n.inARow[from := RowOf(n, from) + 1])
  }

  /** `from` answers DONT_HAVE `k` times. */
  function CountMany(n: Counts, from: PeerId, k: nat): Counts {
    if k == 0 then n else CountOne(CountMany(n, from, k - 1), from)
  }

  /** No count goes beyond the limit. */
  ghost predicate RowsOk(inARow: map<PeerId, nat>) {
    forall p :: p in inARow ==> inARow[p] <= DONT_HAVE_LIMIT
  }

  /** A peer is put up for pruning exactly when its DONT_HAVEs in a row exceed the limit. */
  lemma {:induction false} PrunedIffOverLimit(n: Counts, from: PeerId, k: nat)
    requires RowsOk(n.inARow)
    ensures var r := CountMany(n, from, k);
            && RowsOk(r.inARow)
            && (from in r.prune <==> from in n.prune || RowOf(n, from) + k > DONT_HAVE_LIMIT)
            && RowOf(r, from) == (if RowOf(n, from) + k > DONT_HAVE_LIMIT then DONT_HAVE_LIMIT else RowOf(n, from) + k)
            && forall q :: q != from ==> RowOf(r, q) == RowOf(n, q) && (q in r.prune <==> q in n.prune)
  {
    if k > 0 {
      PrunedIffOverLimit(n, from, k - 1);
    }
  }
}
