/**
 The Bitswap message: maps keyed by CID in memory, lists on the wire. The round
 trip from a message to its protobuf form and back holds for every order in
 which the maps are listed.
 */
module BitswapMessages {
  import opened Types
  import opened Varints
  import opened Wire
  import Marshalling
  import Messages
  import Wantlists

  datatype Entry = Entry(want: Wantlists.Entry, cancel: bool, sendDontHave: bool)

  datatype Block = Block(cid: Cid, data: seq<Byte>)

  datatype Msg = Msg(full: bool, wantlist: map<Cid, Entry>, blocks: map<Cid, Block>,
                     blockPresences: map<Cid, Int32>, pendingBytes: Int32)

  /**
   Hashing is foreign: the prefix of a CID, the CID that a prefix and data hash
   to (if the prefix can be parsed), and the CID of a block without a prefix.
   */
  datatype Hashing = Hashing(prefixOf: Cid -> seq<Byte>, sum: (seq<Byte>, seq<Byte>) -> Option<Cid>,
                             sumV0: seq<Byte> -> Cid)

  datatype ProtoError = CidMissing | BadPrefix

  function NewMsg(full: bool): Msg {
    Msg(full, map[], map[], map[], 0)
  }

  // ---------- the operations, on values ----------

  function ToPB(e: Entry): Messages.Entry {
    Messages.Entry(e.want.cid, e.want.priority, e.cancel, e.want.wantType, e.sendDontHave)
  }

  /** The size of an entry on the wire. */
  ghost function WireSize(e: Entry): nat {
    |Messages.EncodeEntry(ToPB(e))|
  }

  function NewEntry(c: Cid, priority: Int32, cancel: bool, wantType: Int32, sendDontHave: bool): Entry {
    Entry(Wantlists.Entry(c, priority, wantType), cancel, sendDontHave)
  }

  /** What adding the entry of a key to an existing one gives. */
  function MergeEntry(e: Entry, priority: Int32, cancel: bool, wantType: Int32, sendDontHave: bool): Entry {
    var sameType := e.want.wantType == wantType;
    var want := e.want.(priority := if sameType then priority else e.want.priority,
                        wantType := if wantType == WANT_BLOCK && e.want.wantType == WANT_HAVE then wantType
                                    else e.want.wantType);
    Entry(want, e.cancel || cancel, e.sendDontHave || sendDontHave)
  }

  function PutEntry(wl: map<Cid, Entry>, c: Cid, priority: Int32, cancel: bool, wantType: Int32, sendDontHave: bool)
    : map<Cid, Entry>
  {
    wl[c := if c in wl then MergeEntry(wl[c], priority, cancel, wantType, sendDontHave)
            else NewEntry(c, priority, cancel, wantType, sendDontHave)]
  }

  function PutBlock(m: Msg, b: Block): Msg {
    m.(blockPresences := m.blockPresences - {b.cid}, blocks := m.blocks[b.cid := b])
  }

  function PutPresence(m: Msg, c: Cid, t: Int32): Msg {
    if c in m.blocks then m else m.(blockPresences := m.blockPresences[c := t])
  }

  /** Entries and blocks are stored under their own CIDs; no key has both a block and a presence. */
  ghost predicate Consistent(m: Msg) {
    && (forall c :: c in m.wantlist ==> m.wantlist[c].want.cid == c)
    && (forall c :: c in m.blocks ==> m.blocks[c].cid == c)
    && m.blocks.Keys !! m.blockPresences.Keys
  }

  // ---------- to and from the protobuf form ----------

  function BlockPB(h: Hashing, b: Block): Messages.Block {
    Messages.Block(h.prefixOf(b.cid), b.data)
  }

  function PresencePB(c: Cid, t: Int32): Messages.BlockPresence {
    Messages.BlockPresence(c, t)
  }

  /** `pb` is a protobuf form of `m`: each map listed once, in some order. */
  ghost predicate IsProtoOf(h: Hashing, m: Msg, pb: Messages.Message) {
    && pb.wantlist.full == m.full && pb.blocks == [] && pb.pendingBytes == m.pendingBytes
    && (exists cs :: IsListing(cs, m.wantlist.Keys) && pb.wantlist.entries == EntriesPB(m, cs))
    && (exists cs :: IsListing(cs, m.blocks.Keys) && pb.payload == PayloadPB(h, m, cs))
    && (exists cs :: IsListing(cs, m.blockPresences.Keys) && pb.blockPresences == PresencesPB(m, cs))
  }

  ghost function EntriesPB(m: Msg, cs: seq<Cid>): seq<Messages.Entry>
    requires Elems(cs) <= m.wantlist.Keys
  {
    seq(|cs|, i requires 0 <= i < |cs| => assert cs[i] in Elems(cs); ToPB(m.wantlist[cs[i]]))
  }

  ghost function PayloadPB(h: Hashing, m: Msg, cs: seq<Cid>): seq<Messages.Block>
    requires Elems(cs) <= m.blocks.Keys
  {
    seq(|cs|, i requires 0 <= i < |cs| => assert cs[i] in Elems(cs); BlockPB(h, m.blocks[cs[i]]))
  }

  ghost function PresencesPB(m: Msg, cs: seq<Cid>): seq<Messages.BlockPresence>
    requires Elems(cs) <= m.blockPresences.Keys
  {
    seq(|cs|, i requires 0 <= i < |cs| => assert cs[i] in Elems(cs); PresencePB(cs[i], m.blockPresences[cs[i]]))
  }

  function AddEntries(m: Msg, es: seq<Messages.Entry>): Result<Msg, ProtoError> {
    if es == [] then Ok(m)
    else
      match AddEntries(m, es[..|es| - 1])
      case Err(e) => Err(e)
      case Ok(m') =>
        var e := es[|es| - 1];
        if !e.block.Defined() then Err(CidMissing)
        else Ok(m'.(wantlist := PutEntry(m'.wantlist, e.block, e.priority, e.cancel, e.wantType, e.sendDontHave)))
  }

  function AddRawBlocks(h: Hashing, m: Msg, ds: seq<seq<Byte>>): Msg {
    if ds == [] then m
    else
      var d := ds[|ds| - 1];
      PutBlock(AddRawBlocks(h, m, ds[..|ds| - 1]), Block(h.sumV0(d), d))
  }

  function AddPayload(h: Hashing, m: Msg, bs: seq<Messages.Block>): Result<Msg, ProtoError> {
    if bs == [] then Ok(m)
    else
      match AddPayload(h, m, bs[..|bs| - 1])
      case Err(e) => Err(e)
      case Ok(m') =>
        var b := bs[|bs| - 1];
        match h.sum(b.prefix, b.data)
        case None => Err(BadPrefix)
        case Some(c) => Ok(PutBlock(m', Block(c, b.data)))
  }

  function AddPresences(m: Msg, ps: seq<Messages.BlockPresence>): Result<Msg, ProtoError> {
    if ps == [] then Ok(m)
    else
      match AddPresences(m, ps[..|ps| - 1])
      case Err(e) => Err(e)
      case Ok(m') =>
        var p := ps[|ps| - 1];
        if !p.cid.Defined() then Err(CidMissing) else Ok(PutPresence(m', p.cid, p.presence))
  }

  function FromProto(h: Hashing, pb: Messages.Message): Result<Msg, ProtoError> {
    match AddEntries(NewMsg(pb.wantlist.full), pb.wantlist.entries)
    case Err(e) => Err(e)
    case Ok(m1) =>
      match AddPayload(h, AddRawBlocks(h, m1, pb.blocks), pb.payload)
      case Err(e) => Err(e)
      case Ok(m2) =>
        match AddPresences(m2, pb.blockPresences)
        case Err(e) => Err(e)
        case Ok(m3) => Ok(m3.(pendingBytes := pb.pendingBytes))
  }

  // ---------- the round trip ----------

  ghost predicate CidsDefined(m: Msg) {
    && (forall c :: c in m.wantlist ==> c.Defined())
    && (forall c :: c in m.blockPresences ==> c.Defined())
  }

  /** Every block's CID is what its prefix and data hash to. */
  ghost predicate BlocksHash(h: Hashing, m: Msg) {
    forall c :: c in m.blocks ==> h.sum(h.prefixOf(c), m.blocks[c].data) == Some(c)
  }

  /** The part of a map under the first `i` listed keys. */
  ghost function Part<V>(m: map<Cid, V>, cs: seq<Cid>, i: nat): map<Cid, V>
    requires i <= |cs|
  {
    map c | c in Elems(cs[..i]) && c in m :: m[c]
  }

  lemma PartStep<V>(m: map<Cid, V>, cs: seq<Cid>, i: nat)
    requires i < |cs| && Distinct(cs) && cs[i] in m
    ensures Part(m, cs, i + 1) == Part(m, cs, i)[cs[i] := m[cs[i]]]
    ensures cs[i] !in Part(m, cs, i)
  {
    ElemsStep(cs, i);
  }

  lemma PartEnds<V>(m: map<Cid, V>, cs: seq<Cid>)
    requires Elems(cs) == m.Keys
    ensures Part(m, cs, 0) == map[] && Part(m, cs, |cs|) == m
  {
    assert cs[..|cs|] == cs;
  }

  lemma {:induction false} EntriesBack(m: Msg, cs: seq<Cid>, i: nat, m0: Msg)
    requires Consistent(m) && CidsDefined(m) && IsListing(cs, m.wantlist.Keys) && i <= |cs|
    requires m0.wantlist == map[]
    ensures AddEntries(m0, EntriesPB(m, cs)[..i]) == Ok(m0.(wantlist := Part(m.wantlist, cs, i)))
  {
    if i == 0 {
      PartEnds(m.wantlist, cs);
    } else {
      EntriesBack(m, cs, i - 1, m0);
      assert EntriesPB(m, cs)[..i][..i - 1] == EntriesPB(m, cs)[..i - 1];
      assert cs[i - 1] in Elems(cs);
      PartStep(m.wantlist, cs, i - 1);
    }
  }

  lemma {:induction false} PayloadBack(h: Hashing, m: Msg, cs: seq<Cid>, i: nat, m0: Msg)
    requires Consistent(m) && BlocksHash(h, m) && IsListing(cs, m.blocks.Keys) && i <= |cs|
    requires m0.blocks == map[] && m0.blockPresences == map[]
    ensures AddPayload(h, m0, PayloadPB(h, m, cs)[..i]) == Ok(m0.(blocks := Part(m.blocks, cs, i)))
  {
    hide Part, BlocksHash, Consistent, PutBlock;
    if i == 0 {
      PartEnds(m.blocks, cs);
    } else {
      PayloadBack(h, m, cs, i - 1, m0);
      var pb, c := PayloadPB(h, m, cs), cs[i - 1];
      assert pb[..i][..i - 1] == pb[..i - 1];
      assert c in Elems(cs);
      PartStep(m.blocks, cs, i - 1);
      assert pb[i - 1] == BlockPB(h, m.blocks[c]);
      OneBlockBack(h, m, m0, Part(m.blocks, cs, i - 1), c);
    }
  }

  lemma OneBlockBack(h: Hashing, m: Msg, m0: Msg, part: map<Cid, Block>, c: Cid)
    requires Consistent(m) && BlocksHash(h, m) && c in m.blocks && m0.blockPresences == map[]
    ensures h.sum(h.prefixOf(m.blocks[c].cid), m.blocks[c].data) == Some(c)
    ensures PutBlock(m0.(blocks := part), Block(c, m.blocks[c].data)) == m0.(blocks := part[c := m.blocks[c]])
  {
    assert m0.blockPresences - {c} == m0.blockPresences;
  }

  lemma {:induction false} PresencesBack(m: Msg, cs: seq<Cid>, i: nat, m0: Msg)
    requires Consistent(m) && CidsDefined(m) && IsListing(cs, m.blockPresences.Keys) && i <= |cs|
    requires m0.blocks == m.blocks && m0.blockPresences == map[]
    ensures AddPresences(m0, PresencesPB(m, cs)[..i]) == Ok(m0.(blockPresences := Part(m.blockPresences, cs, i)))
  {
    if i == 0 {
      PartEnds(m.blockPresences, cs);
    } else {
      PresencesBack(m, cs, i - 1, m0);
      assert PresencesPB(m, cs)[..i][..i - 1] == PresencesPB(m, cs)[..i - 1];
      assert cs[i - 1] in Elems(cs);
      PartStep(m.blockPresences, cs, i - 1);
      assert cs[i - 1] !in m.blocks;
    }
  }

  /** For every order of the lists, reading the protobuf form of a message gives the message back. */
  lemma ProtoRoundTrip(h: Hashing, m: Msg, pb: Messages.Message)
    requires Consistent(m) && CidsDefined(m) && BlocksHash(h, m) && IsProtoOf(h, m, pb)
    ensures FromProto(h, pb) == Ok(m)
  {
    hide AddEntries, AddPayload, AddPresences, Part, CidsDefined, BlocksHash, Consistent;
    var es :| IsListing(es, m.wantlist.Keys) && pb.wantlist.entries == EntriesPB(m, es);
    var bs :| IsListing(bs, m.blocks.Keys) && pb.payload == PayloadPB(h, m, bs);
    var ps :| IsListing(ps, m.blockPresences.Keys) && pb.blockPresences == PresencesPB(m, ps);
    var m0 := NewMsg(m.full);
    var m1 := m0.(wantlist := m.wantlist);
    var m2 := m1.(blocks := m.blocks);
    EntriesBack(m, es, |es|, m0);
    PartEnds(m.wantlist, es);
    assert pb.wantlist.entries[..|es|] == pb.wantlist.entries;
    PayloadBack(h, m, bs, |bs|, m1);
    PartEnds(m.blocks, bs);
    assert pb.payload[..|bs|] == pb.payload;
    PresencesBack(m, ps, |ps|, m2);
    PartEnds(m.blockPresences, ps);
    assert pb.blockPresences[..|ps|] == pb.blockPresences;
  }

  /** The protobuf form holds each want once, each block once with its prefix, and each presence once. */
  lemma ProtoHolds(h: Hashing, m: Msg, pb: Messages.Message, c: Cid)
    requires Consistent(m) && IsProtoOf(h, m, pb)
    ensures |pb.wantlist.entries| == |m.wantlist| && |pb.payload| == |m.blocks|
            && |pb.blockPresences| == |m.blockPresences| && pb.blocks == []
    ensures c in m.wantlist ==>
              var e := m.wantlist[c];
              Messages.Entry(c, e.want.priority, e.cancel, e.want.wantType, e.sendDontHave) in pb.wantlist.entries
    ensures c in m.blocks ==> Messages.Block(h.prefixOf(c), m.blocks[c].data) in pb.payload
    ensures c in m.blockPresences ==> Messages.BlockPresence(c, m.blockPresences[c]) in pb.blockPresences
  {
    var es :| IsListing(es, m.wantlist.Keys) && pb.wantlist.entries == EntriesPB(m, es);
    var bs :| IsListing(bs, m.blocks.Keys) && pb.payload == PayloadPB(h, m, bs);
    var ps :| IsListing(ps, m.blockPresences.Keys) && pb.blockPresences == PresencesPB(m, ps);
    ListingSize(es, m.wantlist.Keys);
    ListingSize(bs, m.blocks.Keys);
    ListingSize(ps, m.blockPresences.Keys);
    if c in m.wantlist {
      assert c in Elems(es);
      var i :| 0 <= i < |es| && es[i] == c;
      assert EntriesPB(m, es)[i] == ToPB(m.wantlist[c]);
    }
    if c in m.blocks {
      assert c in Elems(bs);
      var i :| 0 <= i < |bs| && bs[i] == c;
      assert PayloadPB(h, m, bs)[i] == BlockPB(h, m.blocks[c]);
    }
    if c in m.blockPresences {
      assert c in Elems(ps);
      var i :| 0 <= i < |ps| && ps[i] == c;
      assert PresencesPB(m, ps)[i] == PresencePB(c, m.blockPresences[c]);
    }
  }

  lemma {:induction false} ListingSize(cs: seq<Cid>, s: set<Cid>)
    requires IsListing(cs, s)
    ensures |cs| == |s|
  {
    if cs == [] {
      assert s == {};
    } else {
      var init, last := cs[..|cs| - 1], cs[|cs| - 1];
      assert cs == init + [last];
      DistinctPush(init, last);
      ElemsPush(init, last);
      ListingSize(init, s - {last});
    }
  }

  // ---------- what is read ----------

  lemma {:induction false} EntriesRead(m: Msg, es: seq<Messages.Entry>, c: Cid)
    ensures AddEntries(m, es).Ok? <==> forall e :: e in es ==> e.block.Defined()
    ensures AddEntries(m, es).Ok? ==>
              var r := AddEntries(m, es).value;
              && r.full == m.full && r.blocks == m.blocks && r.blockPresences == m.blockPresences
              && (c in r.wantlist <==> c in m.wantlist || exists e :: e in es && e.block == c)
  {
    if es != [] {
      EntriesRead(m, es[..|es| - 1], c);
      assert es == es[..|es| - 1] + [es[|es| - 1]];
    }
  }

  /** Blocks without a prefix are hashed as CIDs of version 0. */
  lemma {:induction false} RawBlocksRead(h: Hashing, m: Msg, ds: seq<seq<Byte>>, c: Cid)
    requires m.blockPresences == map[]
    ensures var r := AddRawBlocks(h, m, ds);
            && r.full == m.full && r.wantlist == m.wantlist && r.blockPresences == map[]
            && (c in r.blocks <==> c in m.blocks || exists d :: d in ds && h.sumV0(d) == c)
            && (c in r.blocks ==> (c in m.blocks && r.blocks[c] == m.blocks[c])
                                  || exists d :: d in ds && h.sumV0(d) == c && r.blocks[c] == Block(c, d))
  {
    if ds != [] {
      RawBlocksRead(h, m, ds[..|ds| - 1], c);
      assert ds == ds[..|ds| - 1] + [ds[|ds| - 1]];
    }
  }

  lemma {:induction false} PayloadRead(h: Hashing, m: Msg, bs: seq<Messages.Block>, c: Cid)
    requires m.blockPresences == map[]
    ensures AddPayload(h, m, bs).Ok? <==> forall b :: b in bs ==> h.sum(b.prefix, b.data).Some?
    ensures AddPayload(h, m, bs).Ok? ==>
              var r := AddPayload(h, m, bs).value;
              && r.full == m.full && r.wantlist == m.wantlist && r.blockPresences == map[]
              && (c in r.blocks <==> c in m.blocks || exists b :: b in bs && h.sum(b.prefix, b.data) == Some(c))
              && (c in r.blocks ==>
                    || (c in m.blocks && r.blocks[c] == m.blocks[c])
                    || exists b :: b in bs && h.sum(b.prefix, b.data) == Some(c) && r.blocks[c] == Block(c, b.data))
  {
    if bs != [] {
      PayloadRead(h, m, bs[..|bs| - 1], c);
      assert bs == bs[..|bs| - 1] + [bs[|bs| - 1]];
    }
  }

  lemma {:induction false} PresencesRead(m: Msg, ps: seq<Messages.BlockPresence>, c: Cid)
    ensures AddPresences(m, ps).Ok? <==> forall p :: p in ps ==> p.cid.Defined()
    ensures AddPresences(m, ps).Ok? ==>
              var r := AddPresences(m, ps).value;
              && r.full == m.full && r.wantlist == m.wantlist && r.blocks == m.blocks
              && (c in r.blockPresences
                  <==> c in m.blockPresences || (c !in m.blocks && exists p :: p in ps && p.cid == c))
              && (c in r.blockPresences ==>
                    || (c in m.blockPresences && r.blockPresences[c] == m.blockPresences[c])
                    || exists p :: p in ps && p.cid == c && r.blockPresences[c] == p.presence)
  {
    if ps != [] {
      PresencesRead(m, ps[..|ps| - 1], c);
      assert ps == ps[..|ps| - 1] + [ps[|ps| - 1]];
    }
  }

  /** A protobuf message can be read exactly if its CIDs are defined and its prefixes can be parsed. */
  lemma ReadableIff(h: Hashing, pb: Messages.Message)
    ensures FromProto(h, pb).Ok?
            <==> && (forall e :: e in pb.wantlist.entries ==> e.block.Defined())
                 && (forall b :: b in pb.payload ==> h.sum(b.prefix, b.data).Some?)
                 && (forall p :: p in pb.blockPresences ==> p.cid.Defined())
  {
    hide AddEntries, AddPayload, AddPresences, AddRawBlocks;
    var c := UNDEF;
    EntriesRead(NewMsg(pb.wantlist.full), pb.wantlist.entries, c);
    if AddEntries(NewMsg(pb.wantlist.full), pb.wantlist.entries).Ok? {
      var m1 := AddEntries(NewMsg(pb.wantlist.full), pb.wantlist.entries).value;
      RawBlocksRead(h, m1, pb.blocks, c);
      PayloadRead(h, AddRawBlocks(h, m1, pb.blocks), pb.payload, c);
      if AddPayload(h, AddRawBlocks(h, m1, pb.blocks), pb.payload).Ok? {
        PresencesRead(AddPayload(h, AddRawBlocks(h, m1, pb.blocks), pb.payload).value, pb.blockPresences, c);
      }
    }
  }

  /**
   What is read: wants for exactly the listed CIDs; the raw blocks, and the blocks with a prefix, under
   the CIDs they hash to; presences for the listed CIDs that have no block.
   */
  lemma ReadHolds(h: Hashing, pb: Messages.Message, c: Cid)
    requires FromProto(h, pb).Ok?
    ensures var m := FromProto(h, pb).value;
            && m.full == pb.wantlist.full && m.pendingBytes == pb.pendingBytes
            && (c in m.wantlist <==> exists e :: e in pb.wantlist.entries && e.block == c)
            && (c in m.blocks <==> (exists d :: d in pb.blocks && h.sumV0(d) == c)
                                   || exists b :: b in pb.payload && h.sum(b.prefix, b.data) == Some(c))
            && (c in m.blocks ==>
                  || (exists d :: d in pb.blocks && h.sumV0(d) == c && m.blocks[c] == Block(c, d))
                  || exists b :: b in pb.payload && h.sum(b.prefix, b.data) == Some(c)
                                 && m.blocks[c] == Block(c, b.data))
            && (c in m.blockPresences <==> c !in m.blocks && exists p :: p in pb.blockPresences && p.cid == c)
            && (c in m.blockPresences ==>
                  exists p :: p in pb.blockPresences && p.cid == c && m.blockPresences[c] == p.presence)
  {
    hide AddEntries, AddPayload, AddPresences, AddRawBlocks;
    var m1 := AddEntries(NewMsg(pb.wantlist.full), pb.wantlist.entries).value;
    var raw := AddRawBlocks(h, m1, pb.blocks);
    var m2 := AddPayload(h, raw, pb.payload).value;
    EntriesRead(NewMsg(pb.wantlist.full), pb.wantlist.entries, c);
    RawBlocksRead(h, m1, pb.blocks, c);
    PayloadRead(h, raw, pb.payload, c);
    PresencesRead(m2, pb.blockPresences, c);
  }

  lemma {:induction false} EntriesReadAreDefined(m: Msg, es: seq<Messages.Entry>)
    requires AddEntries(m, es).Ok?
    ensures forall e :: e in es ==> e.block.Defined()
  {
    if es != [] {
      EntriesReadAreDefined(m, es[..|es| - 1]);
      assert es == es[..|es| - 1] + [es[|es| - 1]];
    }
  }

  lemma {:induction false} PresencesReadAreDefined(m: Msg, ps: seq<Messages.BlockPresence>)
    requires AddPresences(m, ps).Ok?
    ensures forall p :: p in ps ==> p.cid.Defined()
  {
    if ps != [] {
      PresencesReadAreDefined(m, ps[..|ps| - 1]);
      assert ps == ps[..|ps| - 1] + [ps[|ps| - 1]];
    }
  }

  /**
   A message whose blocks hash to their CIDs comes back exactly when every want
   and every presence has a defined CID; otherwise reading it fails.
   */
  lemma ProtoRoundTripIff(h: Hashing, m: Msg, pb: Messages.Message)
    requires Consistent(m) && BlocksHash(h, m) && IsProtoOf(h, m, pb)
    ensures FromProto(h, pb) == Ok(m) <==> CidsDefined(m)
    ensures FromProto(h, pb).Err? <==> !CidsDefined(m)
  {
    hide AddEntries, AddPayload, AddPresences, BlocksHash, Consistent, AddRawBlocks;
    if CidsDefined(m) {
      ProtoRoundTrip(h, m, pb);
    } else if FromProto(h, pb).Ok? {
      var es :| IsListing(es, m.wantlist.Keys) && pb.wantlist.entries == EntriesPB(m, es);
      var ps :| IsListing(ps, m.blockPresences.Keys) && pb.blockPresences == PresencesPB(m, ps);
      var m1 := AddEntries(NewMsg(pb.wantlist.full), pb.wantlist.entries).value;
      var m2 := AddPayload(h, AddRawBlocks(h, m1, pb.blocks), pb.payload).value;
      EntriesReadAreDefined(NewMsg(pb.wantlist.full), pb.wantlist.entries);
      PresencesReadAreDefined(m2, pb.blockPresences);
      ListedAreDefined(m, es, ps);
    }
  }

  /** A want for an undefined CID can be added, and the message then does not come back. */
  lemma UndefinedIsRefused(h: Hashing, priority: Int32, pb: Messages.Message)
    requires IsProtoOf(h, NewMsg(false).(wantlist := PutEntry(map[], UNDEF, priority, false, WANT_BLOCK, false)), pb)
    ensures FromProto(h, pb).Err?
  {
    hide IsProtoOf, FromProto;
    var m := NewMsg(false).(wantlist := PutEntry(map[], UNDEF, priority, false, WANT_BLOCK, false));
    assert UNDEF in m.wantlist && !UNDEF.Defined();
    ProtoRoundTripIff(h, m, pb);
  }

  lemma ListedAreDefined(m: Msg, es: seq<Cid>, ps: seq<Cid>)
    requires Consistent(m) && IsListing(es, m.wantlist.Keys) && IsListing(ps, m.blockPresences.Keys)
    requires forall e :: e in EntriesPB(m, es) ==> e.block.Defined()
    requires forall p :: p in PresencesPB(m, ps) ==> p.cid.Defined()
    ensures CidsDefined(m)
  {
    forall c | c in m.wantlist
      ensures c.Defined()
    {
      var i :| 0 <= i < |es| && es[i] == c;
      assert EntriesPB(m, es)[i].block == c && EntriesPB(m, es)[i] in EntriesPB(m, es);
    }
    forall c | c in m.blockPresences
      ensures c.Defined()
    {
      var i :| 0 <= i < |ps| && ps[i] == c;
      assert PresencesPB(m, ps)[i].cid == c && PresencesPB(m, ps)[i] in PresencesPB(m, ps);
    }
  }

  /** End to end: a message written to the wire by the in-place writer and read by the looped parsers. */
  lemma NetRoundTrip(h: Hashing, isCid: Messages.CidCheck, m: Msg, pb: Messages.Message)
    requires Consistent(m) && CidsDefined(m) && BlocksHash(h, m) && IsProtoOf(h, m, pb)
    requires forall c :: c in m.wantlist.Keys + m.blockPresences.Keys ==> isCid(c.keyString)
    requires |Messages.EncodeMessage(pb)| < TWO63
    ensures match Decode(Messages.MessageCodec(isCid), Messages.NO_MESSAGE, Messages.EncodeMessage(pb), 0)
            case Ok(pb') => FromProto(h, pb') == Ok(m)
            case Err(_) => false
  {
    hide Decode, FromProto, Messages.EncodeMessage, Messages.MessageCodec, BlocksHash, CidsDefined;
    ProtoRoundTrip(h, m, pb);
    ProtoCids(h, isCid, m, pb);
    Messages.MessageRoundTrip(isCid, pb);
  }

  lemma ProtoCids(h: Hashing, isCid: Messages.CidCheck, m: Msg, pb: Messages.Message)
    requires Consistent(m) && IsProtoOf(h, m, pb)
    requires forall c :: c in m.wantlist.Keys + m.blockPresences.Keys ==> isCid(c.keyString)
    ensures Messages.CidsOk(isCid, pb)
  {
    var es :| IsListing(es, m.wantlist.Keys) && pb.wantlist.entries == EntriesPB(m, es);
    forall e | e in pb.wantlist.entries
      ensures isCid(e.block.keyString)
    {
      var i :| 0 <= i < |es| && e == EntriesPB(m, es)[i];
      assert es[i] in Elems(es);
    }
    var ps :| IsListing(ps, m.blockPresences.Keys) && pb.blockPresences == PresencesPB(m, ps);
    forall p | p in pb.blockPresences
      ensures isCid(p.cid.keyString)
    {
      var i :| 0 <= i < |ps| && p == PresencesPB(m, ps)[i];
      assert ps[i] in Elems(ps);
    }
  }

  // ---------- the message object ----------

  class BitswapMessage {
    var full: bool
    var wantlist: map<Cid, Entry>
    var blocks: map<Cid, Block>
    var blockPresences: map<Cid, Int32>
    var pendingBytes: Int32

    ghost function Abs(): Msg
      reads this
    {
      Msg(full, wantlist, blocks, blockPresences, pendingBytes)
    }

    constructor (full: bool)
      ensures Abs() == NewMsg(full) && Consistent(Abs())
    {
      this.full := full;
      wantlist, blocks, blockPresences, pendingBytes := map[], map[], map[], 0;
    }

    /** Returns the size the entry adds on the wire, 0 if the key had one. */
    method AddEntry(c: Cid, priority: Int32, cancel: bool, wantType: Int32, sendDontHave: bool) returns (size: nat)
      requires Consistent(Abs())
      modifies this`wantlist
      ensures Consistent(Abs())
      ensures wantlist == PutEntry(old(wantlist), c, priority, cancel, wantType, sendDontHave)
      ensures size == if c in old(wantlist) then 0 else WireSize(NewEntry(c, priority, cancel, wantType, sendDontHave))
      ensures c !in old(wantlist) ==>
                size == |Messages.EncodeEntry(Messages.Entry(c, priority, cancel, wantType, sendDontHave))|
      ensures wantlist.Keys == old(wantlist).Keys + {c}
      ensures forall d :: d in old(wantlist) && d != c ==> wantlist[d] == old(wantlist)[d]
      ensures c !in old(wantlist) ==>
                wantlist[c] == Entry(Wantlists.Entry(c, priority, wantType), cancel, sendDontHave)
      ensures c in old(wantlist) ==>
                var before, after := old(wantlist)[c], wantlist[c];
                && after.want.priority == (if before.want.wantType == wantType then priority else before.want.priority)
                && after.want.wantType == (if before.want.wantType == WANT_HAVE && wantType == WANT_BLOCK
                                           then WANT_BLOCK else before.want.wantType)
                && after.cancel == (before.cancel || cancel) && after.want.cid == c
                && after.sendDontHave == (before.sendDontHave || sendDontHave)
    {
      hide Messages.EncodeEntry;
      if c in wantlist {
        var e := wantlist[c];
        if e.want.wantType == wantType {
          e := e.(want := e.want.(priority := priority));
        }
        if cancel {
          e := e.(cancel := cancel);
        }
        if sendDontHave {
          e := e.(sendDontHave := sendDontHave);
        }
        if wantType == WANT_BLOCK && e.want.wantType == WANT_HAVE {
          e := e.(want := e.want.(wantType := wantType));
        }
        wantlist := wantlist[c := e];
        return 0;
      }
      var e := NewEntry(c, priority, cancel, wantType, sendDontHave);
      wantlist := wantlist[c := e];
      size := Marshalling.EntrySize(ToPB(e));
    }

    method RemoveEntry(c: Cid)
      requires Consistent(Abs())
      modifies this`wantlist
      ensures Consistent(Abs()) && wantlist == old(wantlist) - {c}
    {
      wantlist := wantlist - {c};
    }

    method AddBlock(b: Block)
      requires Consistent(Abs())
      modifies this`blocks, this`blockPresences
      ensures Consistent(Abs()) && Abs() == PutBlock(old(Abs()), b)
      ensures blocks == old(blocks)[b.cid := b] && blockPresences == old(blockPresences) - {b.cid}
    {
      blockPresences := blockPresences - {b.cid};
      blocks := blocks[b.cid := b];
    }

    method AddBlockPresence(c: Cid, t: Int32)
      requires Consistent(Abs())
      modifies this`blockPresences
      ensures Consistent(Abs()) && Abs() == PutPresence(old(Abs()), c, t)
      ensures blockPresences == if c in blocks then old(blockPresences) else old(blockPresences)[c := t]
    {
      if c in blocks {
        return;
      }
      blockPresences := blockPresences[c := t];
    }

    method SetPendingBytes(n: Int32)
      modifies this`pendingBytes
      ensures Abs() == old(Abs()).(pendingBytes := n)
    {
      pendingBytes := n;
    }

    method Reset(full: bool)
      modifies this
      ensures Abs() == NewMsg(full) && Consistent(Abs())
    {
      this.full := full;
      wantlist, blocks, blockPresences, pendingBytes := map[], map[], map[], 0;
    }

    /** The protobuf form, the maps listed in whatever order they yield their keys. */
    method ToProtoV1(h: Hashing) returns (pb: Messages.Message)
      requires Consistent(Abs())
      ensures IsProtoOf(h, Abs(), pb)
    {
      hide Elems, Distinct;
      ghost var m := Abs();
      var entries: seq<Messages.Entry>, es: seq<Cid> := [], [];
      var todo := wantlist.Keys;
      NothingListed();
      while todo != {}
        invariant todo <= wantlist.Keys && IsListing(es, wantlist.Keys - todo)
        invariant entries == EntriesPB(m, es)
        decreases todo
      {
        var c :| c in todo;
        ListedOneMore(es, wantlist.Keys, todo, c);
        entries, es, todo := entries + [ToPB(wantlist[c])], es + [c], todo - {c};
      }
      assert wantlist.Keys - {} == wantlist.Keys;

      var payload: seq<Messages.Block>, bs: seq<Cid> := [], [];
      todo := blocks.Keys;
      while todo != {}
        invariant todo <= blocks.Keys && IsListing(bs, blocks.Keys - todo)
        invariant payload == PayloadPB(h, m, bs)
        decreases todo
      {
        var c :| c in todo;
        ListedOneMore(bs, blocks.Keys, todo, c);
        payload, bs, todo := payload + [BlockPB(h, blocks[c])], bs + [c], todo - {c};
      }
      assert blocks.Keys - {} == blocks.Keys;

      var presences: seq<Messages.BlockPresence>, ps: seq<Cid> := [], [];
      todo := blockPresences.Keys;
      while todo != {}
        invariant todo <= blockPresences.Keys && IsListing(ps, blockPresences.Keys - todo)
        invariant presences == PresencesPB(m, ps)
        decreases todo
      {
        var c :| c in todo;
        ListedOneMore(ps, blockPresences.Keys, todo, c);
        presences, ps, todo := presences + [PresencePB(c, blockPresences[c])], ps + [c], todo - {c};
      }
      assert blockPresences.Keys - {} == blockPresences.Keys;
      pb := Messages.Message(Messages.Wantlist(entries, full), [], payload, presences, pendingBytes);
    }
  }

  method ReadEntries(m: BitswapMessage, es: seq<Messages.Entry>) returns (ok: bool)
    requires Consistent(m.Abs())
    modifies m
    ensures ok ==> AddEntries(old(m.Abs()), es) == Ok(m.Abs()) && Consistent(m.Abs())
    ensures !ok ==> AddEntries(old(m.Abs()), es) == Err(CidMissing)
  {
    hide Consistent, PutEntry;
    ghost var m0 := m.Abs();
    for i := 0 to |es|
      invariant Consistent(m.Abs()) && AddEntries(m0, es[..i]) == Ok(m.Abs())
    {
      assert es[..i + 1][..i] == es[..i];
      if !es[i].block.Defined() {
        FailsEarly(m0, es, i + 1);
        return false;
      }
      var _ := m.AddEntry(es[i].block, es[i].priority, es[i].cancel, es[i].wantType, es[i].sendDontHave);
    }
    assert es[..|es|] == es;
    return true;
  }

  method ReadBlocks(h: Hashing, m: BitswapMessage, raw: seq<seq<Byte>>, payload: seq<Messages.Block>) returns (ok: bool)
    requires Consistent(m.Abs())
    modifies m
    ensures ok ==> AddPayload(h, AddRawBlocks(h, old(m.Abs()), raw), payload) == Ok(m.Abs()) && Consistent(m.Abs())
    ensures !ok ==> AddPayload(h, AddRawBlocks(h, old(m.Abs()), raw), payload) == Err(BadPrefix)
  {
    hide Consistent, PutBlock;
    ghost var m1 := m.Abs();
    for i := 0 to |raw|
      invariant Consistent(m.Abs()) && AddRawBlocks(h, m1, raw[..i]) == m.Abs()
    {
      assert raw[..i + 1][..i] == raw[..i];
      m.AddBlock(Block(h.sumV0(raw[i]), raw[i]));
    }
    assert raw[..|raw|] == raw;
    ghost var m2 := m.Abs();
    for i := 0 to |payload|
      invariant Consistent(m.Abs()) && AddPayload(h, m2, payload[..i]) == Ok(m.Abs())
    {
      assert payload[..i + 1][..i] == payload[..i];
      var c := h.sum(payload[i].prefix, payload[i].data);
      if c.None? {
        PayloadFailsEarly(h, m2, payload, i + 1);
        return false;
      }
      m.AddBlock(Block(c.value, payload[i].data));
    }
    assert payload[..|payload|] == payload;
    return true;
  }

  method ReadPresences(m: BitswapMessage, ps: seq<Messages.BlockPresence>) returns (ok: bool)
    requires Consistent(m.Abs())
    modifies m
    ensures ok ==> AddPresences(old(m.Abs()), ps) == Ok(m.Abs()) && Consistent(m.Abs())
    ensures !ok ==> AddPresences(old(m.Abs()), ps) == Err(CidMissing)
  {
    hide Consistent, PutPresence;
    ghost var m3 := m.Abs();
    for i := 0 to |ps|
      invariant Consistent(m.Abs()) && AddPresences(m3, ps[..i]) == Ok(m.Abs())
    {
      assert ps[..i + 1][..i] == ps[..i];
      if !ps[i].cid.Defined() {
        PresencesFailEarly(m3, ps, i + 1);
        return false;
      }
      m.AddBlockPresence(ps[i].cid, ps[i].presence);
    }
    assert ps[..|ps|] == ps;
    return true;
  }

  /** Reads a protobuf message; the result is consistent, whatever the lists held. */
  method NewMessageFromProto(h: Hashing, pb: Messages.Message) returns (r: Result<BitswapMessage, ProtoError>)
    ensures match FromProto(h, pb)
            case Ok(m) => r.Ok? && fresh(r.value) && r.value.Abs() == m && Consistent(m)
            case Err(e) => r == Err(e)
  {
    hide Consistent, AddEntries, AddRawBlocks, AddPayload, AddPresences;
    var m := new BitswapMessage(pb.wantlist.full);
    var ok := ReadEntries(m, pb.wantlist.entries);
    if !ok {
      return Err(CidMissing);
    }
    ok := ReadBlocks(h, m, pb.blocks, pb.payload);
    if !ok {
      return Err(BadPrefix);
    }
    ok := ReadPresences(m, pb.blockPresences);
    if !ok {
      return Err(CidMissing);
    }
    PendingKeepsConsistent(m.Abs(), pb.pendingBytes);
    m.SetPendingBytes(pb.pendingBytes);
    r := Ok(m);
  }

  lemma PendingKeepsConsistent(m: Msg, n: Int32)
    requires Consistent(m)
    ensures Consistent(m.(pendingBytes := n))
  {
  }

  lemma {:induction false} FailsEarly(m: Msg, es: seq<Messages.Entry>, i: nat)
    requires i <= |es| && AddEntries(m, es[..i]).Err?
    ensures AddEntries(m, es) == AddEntries(m, es[..i])
    decreases |es|
  {
    if i == |es| {
      assert es[..i] == es;
    } else {
      assert es[..|es| - 1][..i] == es[..i];
      FailsEarly(m, es[..|es| - 1], i);
    }
  }

  lemma {:induction false} PayloadFailsEarly(h: Hashing, m: Msg, bs: seq<Messages.Block>, i: nat)
    requires i <= |bs| && AddPayload(h, m, bs[..i]).Err?
    ensures AddPayload(h, m, bs) == AddPayload(h, m, bs[..i])
    decreases |bs|
  {
    if i == |bs| {
      assert bs[..i] == bs;
    } else {
      assert bs[..|bs| - 1][..i] == bs[..i];
      PayloadFailsEarly(h, m, bs[..|bs| - 1], i);
    }
  }

  lemma {:induction false} PresencesFailEarly(m: Msg, ps: seq<Messages.BlockPresence>, i: nat)
    requires i <= |ps| && AddPresences(m, ps[..i]).Err?
    ensures AddPresences(m, ps) == AddPresences(m, ps[..i])
    decreases |ps|
  {
    if i == |ps| {
      assert ps[..i] == ps;
    } else {
      assert ps[..|ps| - 1][..i] == ps[..i];
      PresencesFailEarly(m, ps[..|ps| - 1], i);
    }
  }

  lemma NothingListed()
    ensures IsListing<Cid>([], {})
  {
  }

  lemma ListedOneMore(cs: seq<Cid>, all: set<Cid>, todo: set<Cid>, c: Cid)
    requires IsListing(cs, all - todo) && todo <= all && c in todo
    ensures IsListing(cs + [c], all - (todo - {c}))
  {
    DistinctPush(cs, c);
    ElemsPush(cs, c);
    assert all - (todo - {c}) == (all - todo) + {c};
  }
}
