/**
 The five messages of the Bitswap wire format: their fields, what each field
 does when it is decoded, a forward serializer, and the round trip.
 */
module Messages {
  import opened Types
  import opened Varints
  import opened Wire

  datatype Entry = Entry(block: Cid, priority: Int32, cancel: bool, wantType: Int32, sendDontHave: bool)

  datatype Wantlist = Wantlist(entries: seq<Entry>, full: bool)

  datatype Block = Block(prefix: seq<Byte>, data: seq<Byte>)

  datatype BlockPresence = BlockPresence(cid: Cid, presence: Int32)

  datatype Message = Message(wantlist: Wantlist, blocks: seq<seq<Byte>>, payload: seq<Block>,
                             blockPresences: seq<BlockPresence>, pendingBytes: Int32)

  const NO_ENTRY := Entry(UNDEF, 0, false, WANT_BLOCK, false)
  const NO_WANTLIST := Wantlist([], false)
  const NO_BLOCK := Block([], [])
  const NO_PRESENCE := BlockPresence(UNDEF, PRESENCE_HAVE)
  const NO_MESSAGE := Message(NO_WANTLIST, [], [], [], 0)

  // ---------- decoding: which byte strings are CIDs is a parameter ----------

  type CidCheck = seq<Byte> -> bool

  function DecodeCid(isCid: CidCheck, bs: seq<Byte>): Result<Cid, Error> {
    if isCid(bs) then Ok(Cid(bs)) else Err(BadCid)
  }

  function ApplyEntry(isCid: CidCheck, e: Entry, f: Field): Result<Entry, Error> {
    match f
    case BytesField(_, bs) =>
      (match DecodeCid(isCid, bs) case Ok(c) => Ok(e.(block := c)) case Err(err) => Err(err))
    case VarintField(n, v) =>
      if n == 2 then Ok(e.(priority := ToInt32(v)))
      else if n == 3 then Ok(e.(cancel := v != 0))
      else if n == 4 then Ok(e.(wantType := ToInt32(v)))
      else Ok(e.(sendDontHave := v != 0))
    case Skipped => Ok(e)
  }

  function EntrySchema(n: int): Kind {
    if n == 1 then BytesKind else if 2 <= n <= 5 then VarintKind else UnknownKind
  }

  function EntryCodec(isCid: CidCheck): Codec<Entry> {
    Codec(EntrySchema, (e, f) => ApplyEntry(isCid, e, f))
  }

  function ApplyWantlist(isCid: CidCheck, w: Wantlist, f: Field): Result<Wantlist, Error> {
    match f
    case BytesField(_, bs) =>
      (match Decode(EntryCodec(isCid), NO_ENTRY, bs, 0)
       case Ok(e) => Ok(w.(entries := w.entries + [e]))
       case Err(err) => Err(err))
    case VarintField(_, v) => Ok(w.(full := v != 0))
    case Skipped => Ok(w)
  }

  function WantlistSchema(n: int): Kind {
    if n == 1 then BytesKind else if n == 2 then VarintKind else UnknownKind
  }

  function WantlistCodec(isCid: CidCheck): Codec<Wantlist> {
    Codec(WantlistSchema, (w, f) => ApplyWantlist(isCid, w, f))
  }

  function ApplyBlock(b: Block, f: Field): Result<Block, Error> {
    match f
    case BytesField(n, bs) => if n == 1 then Ok(b.(prefix := bs)) else Ok(b.(data := bs))
    case _ => Ok(b)
  }

  function BlockSchema(n: int): Kind {
    if n == 1 || n == 2 then BytesKind else UnknownKind
  }

  function BlockCodec(): Codec<Block> {
    Codec(BlockSchema, (b, f) => ApplyBlock(b, f))
  }

  function ApplyPresence(isCid: CidCheck, p: BlockPresence, f: Field): Result<BlockPresence, Error> {
    match f
    case BytesField(_, bs) =>
      (match DecodeCid(isCid, bs) case Ok(c) => Ok(p.(cid := c)) case Err(err) => Err(err))
    case VarintField(_, v) => Ok(p.(presence := ToInt32(v)))
    case Skipped => Ok(p)
  }

  function PresenceSchema(n: int): Kind {
    if n == 1 then BytesKind else if n == 2 then VarintKind else UnknownKind
  }

  function PresenceCodec(isCid: CidCheck): Codec<BlockPresence> {
    Codec(PresenceSchema, (p, f) => ApplyPresence(isCid, p, f))
  }

  /** A repeated wantlist field is merged into the wantlist, the other messages are appended. */
  function ApplyMessage(isCid: CidCheck, m: Message, f: Field): Result<Message, Error> {
    match f
    case BytesField(n, bs) =>
      if n == 1 then
        (match Decode(WantlistCodec(isCid), m.wantlist, bs, 0)
         case Ok(w) => Ok(m.(wantlist := w))
         case Err(err) => Err(err))
      else if n == 2 then Ok(m.(blocks := m.blocks + [bs]))
      else if n == 3 then
        (match Decode(BlockCodec(), NO_BLOCK, bs, 0)
         case Ok(b) => Ok(m.(payload := m.payload + [b]))
         case Err(err) => Err(err))
      else
        (match Decode(PresenceCodec(isCid), NO_PRESENCE, bs, 0)
         case Ok(p) => Ok(m.(blockPresences := m.blockPresences + [p]))
         case Err(err) => Err(err))
    case VarintField(_, v) => Ok(m.(pendingBytes := ToInt32(v)))
    case Skipped => Ok(m)
  }

  function MessageSchema(n: int): Kind {
    if 1 <= n <= 4 then BytesKind else if n == 5 then VarintKind else UnknownKind
  }

  function MessageCodec(isCid: CidCheck): Codec<Message> {
    Codec(MessageSchema, (m, f) => ApplyMessage(isCid, m, f))
  }

  /** All five messages ignore unknown fields, so that inserting one changes nothing. */
  lemma MessagesIgnoreUnknown(isCid: CidCheck)
    ensures IgnoresSkipped(MessageCodec(isCid)) && IgnoresSkipped(WantlistCodec(isCid))
    ensures IgnoresSkipped(EntryCodec(isCid)) && IgnoresSkipped(BlockCodec()) && IgnoresSkipped(PresenceCodec(isCid))
  {
  }

  // ---------- the forward serializer ----------

  function LenField(tag: Byte, bs: seq<Byte>): seq<Byte> {
    [tag] + VarintBytes(|bs|) + bs
  }

  function IntField(tag: Byte, x: Int32): seq<Byte> {
    if x == 0 then [] else [tag] + VarintBytes(ToWord(x))
  }

  function BoolField(tag: Byte, b: bool): seq<Byte> {
    if b then [tag, 1] else []
  }

  function OptField(tag: Byte, bs: seq<Byte>): seq<Byte> {
    if bs == [] then [] else LenField(tag, bs)
  }

  function Repeated<T>(tag: Byte, enc: T -> seq<Byte>, xs: seq<T>): seq<Byte> {
    if xs == [] then [] else LenField(tag, enc(xs[0])) + Repeated(tag, enc, xs[1..])
  }

  function EncodeEntry(e: Entry): seq<Byte> {
    LenField(0x0a, e.block.keyString) + (IntField(0x10, e.priority) + (BoolField(0x18, e.cancel)
    + (IntField(0x20, e.wantType) + BoolField(0x28, e.sendDontHave))))
  }

  function EncodeWantlist(w: Wantlist): seq<Byte> {
    Repeated(0x0a, EncodeEntry, w.entries) + BoolField(0x10, w.full)
  }

  function EncodeBlock(b: Block): seq<Byte> {
    OptField(0x0a, b.prefix) + OptField(0x12, b.data)
  }

  function EncodePresence(p: BlockPresence): seq<Byte> {
    LenField(0x0a, p.cid.keyString) + IntField(0x10, p.presence)
  }

  function EncodeBytes(bs: seq<Byte>): seq<Byte> {
    bs
  }

  function EncodeMessage(m: Message): seq<Byte> {
    LenField(0x0a, EncodeWantlist(m.wantlist)) + (Repeated(0x12, EncodeBytes, m.blocks)
    + (Repeated(0x1a, EncodeBlock, m.payload) + (Repeated(0x22, EncodePresence, m.blockPresences)
    + IntField(0x28, m.pendingBytes))))
  }

  // ---------- round trip ----------

  /** Decoding `d` into `m` gives `m'`. */
  ghost predicate Decodes<M>(codec: Codec<M>, m: M, d: seq<Byte>, m': M) {
    |d| < TWO63 && Decode(codec, m, d, 0) == Ok(m')
  }

  lemma Then<M>(codec: Codec<M>, m: M, a: seq<Byte>, m1: M, b: seq<Byte>, m2: M)
    requires Decodes(codec, m, a, m1) && Decodes(codec, m1, b, m2) && |a| + |b| < TWO63
    ensures Decodes(codec, m, a + b, m2)
  {
    hide Decode;
    DecodeConcat(codec, m, a, b);
  }

  lemma NothingDecodes<M>(codec: Codec<M>, m: M)
    ensures Decodes(codec, m, [], m)
  {
  }

  lemma TagReads(tag: Byte, rest: seq<Byte>)
    requires 8 <= tag < 128
    ensures ReadVarint([tag] + rest, 0) == Ok((tag, 1))
    ensures ToInt32(tag / 8) == tag / 8
  {
    assert VarintBytes(tag) == [tag];
    VarintRoundTrip(tag, rest);
  }

  lemma ReadsAt(front: seq<Byte>, v: Word, rest: seq<Byte>)
    ensures ReadVarint(front + VarintBytes(v) + rest, |front|) == Ok((v, |front| + |VarintBytes(v)|))
  {
    VarintRoundTrip(v, rest);
    ReadVarintShift(front, VarintBytes(v) + rest, 0);
    assert front + (VarintBytes(v) + rest) == front + VarintBytes(v) + rest;
  }

  lemma OneFieldDecodes<M>(codec: Codec<M>, m: M, d: seq<Byte>, f: Field, m': M)
    requires 0 < |d| < TWO63 && NextField(codec.schema, d, 0) == Ok((f, |d|)) && codec.apply(m, f) == Ok(m')
    ensures Decodes(codec, m, d, m')
  {
    assert Decode(codec, m', d, |d|) == Ok(m');
  }

  lemma LenFieldDecodes<M>(codec: Codec<M>, m: M, tag: Byte, bs: seq<Byte>, m': M)
    requires 8 <= tag < 128 && tag % 8 == 2 && codec.schema(tag / 8) == BytesKind
    requires |LenField(tag, bs)| < TWO63
    requires codec.apply(m, BytesField(tag / 8, bs)) == Ok(m')
    ensures Decodes(codec, m, LenField(tag, bs), m')
  {
    hide VarintBytes, Decode, NextField;
    LenFieldReads(codec.schema, tag, bs);
    OneFieldDecodes(codec, m, LenField(tag, bs), BytesField(tag / 8, bs), m');
  }

  lemma VarintFieldDecodes<M>(codec: Codec<M>, m: M, tag: Byte, v: Word, m': M)
    requires 8 <= tag < 128 && tag % 8 == 0 && codec.schema(tag / 8) == VarintKind
    requires |[tag] + VarintBytes(v)| < TWO63
    requires codec.apply(m, VarintField(tag / 8, v)) == Ok(m')
    ensures Decodes(codec, m, [tag] + VarintBytes(v), m')
  {
    hide ReadVarint, VarintBytes, Decode;
    var d := [tag] + VarintBytes(v);
    TagReads(tag, VarintBytes(v));
    ReadsAt([tag], v, []);
    assert d + [] == d;
    OneFieldDecodes(codec, m, d, VarintField(tag / 8, v), m');
  }

  lemma IntFieldDecodes<M>(codec: Codec<M>, m: M, tag: Byte, x: Int32, m': M)
    requires 8 <= tag < 128 && tag % 8 == 0 && codec.schema(tag / 8) == VarintKind
    requires |IntField(tag, x)| < TWO63
    requires if x == 0 then m == m' else codec.apply(m, VarintField(tag / 8, ToWord(x))) == Ok(m')
    ensures Decodes(codec, m, IntField(tag, x), m')
  {
    if x == 0 {
      NothingDecodes(codec, m);
    } else {
      VarintFieldDecodes(codec, m, tag, ToWord(x), m');
    }
  }

  lemma BoolFieldDecodes<M>(codec: Codec<M>, m: M, tag: Byte, b: bool, m': M)
    requires 8 <= tag < 128 && tag % 8 == 0 && codec.schema(tag / 8) == VarintKind
    requires if b then codec.apply(m, VarintField(tag / 8, 1)) == Ok(m') else m == m'
    ensures Decodes(codec, m, BoolField(tag, b), m')
  {
    if b {
      assert VarintBytes(1) == [1];
      assert [tag] + [1] == [tag, 1];
      VarintFieldDecodes(codec, m, tag, 1, m');
    } else {
      NothingDecodes(codec, m);
    }
  }

  lemma OptFieldDecodes<M>(codec: Codec<M>, m: M, tag: Byte, bs: seq<Byte>, m': M)
    requires 8 <= tag < 128 && tag % 8 == 2 && codec.schema(tag / 8) == BytesKind
    requires |OptField(tag, bs)| < TWO63
    requires if bs == [] then m == m' else codec.apply(m, BytesField(tag / 8, bs)) == Ok(m')
    ensures Decodes(codec, m, OptField(tag, bs), m')
  {
    if bs == [] {
      NothingDecodes(codec, m);
    } else {
      LenFieldDecodes(codec, m, tag, bs, m');
    }
  }

  /** Negative priorities and enum values outside the named ones included. */
  lemma EntryRoundTrip(isCid: CidCheck, e: Entry)
    requires isCid(e.block.keyString) && |EncodeEntry(e)| < TWO63
    ensures Decodes(EntryCodec(isCid), NO_ENTRY, EncodeEntry(e), e)
  {
    hide Decodes, LenField, IntField, BoolField;
    var codec := EntryCodec(isCid);
    var e1 := NO_ENTRY.(block := e.block);
    var e2 := e1.(priority := e.priority);
    var e3 := e2.(cancel := e.cancel);
    var e4 := e3.(wantType := e.wantType);
    var f1, f2, f3 := LenField(0x0a, e.block.keyString), IntField(0x10, e.priority), BoolField(0x18, e.cancel);
    var f4, f5 := IntField(0x20, e.wantType), BoolField(0x28, e.sendDontHave);
    Int32RoundTrip(e.priority);
    Int32RoundTrip(e.wantType);
    LenFieldDecodes(codec, NO_ENTRY, 0x0a, e.block.keyString, e1);
    IntFieldDecodes(codec, e1, 0x10, e.priority, e2);
    BoolFieldDecodes(codec, e2, 0x18, e.cancel, e3);
    IntFieldDecodes(codec, e3, 0x20, e.wantType, e4);
    BoolFieldDecodes(codec, e4, 0x28, e.sendDontHave, e);
    Then(codec, e3, f4, e4, f5, e);
    Then(codec, e2, f3, e3, f4 + f5, e);
    Then(codec, e1, f2, e2, f3 + (f4 + f5), e);
    Then(codec, NO_ENTRY, f1, e1, f2 + (f3 + (f4 + f5)), e);
  }

  lemma BlockRoundTrip(b: Block)
    requires |EncodeBlock(b)| < TWO63
    ensures Decodes(BlockCodec(), NO_BLOCK, EncodeBlock(b), b)
  {
    hide Decodes, OptField;
    var b1 := NO_BLOCK.(prefix := b.prefix);
    OptFieldDecodes(BlockCodec(), NO_BLOCK, 0x0a, b.prefix, b1);
    OptFieldDecodes(BlockCodec(), b1, 0x12, b.data, b);
    Then(BlockCodec(), NO_BLOCK, OptField(0x0a, b.prefix), b1, OptField(0x12, b.data), b);
  }

  lemma PresenceRoundTrip(isCid: CidCheck, p: BlockPresence)
    requires isCid(p.cid.keyString) && |EncodePresence(p)| < TWO63
    ensures Decodes(PresenceCodec(isCid), NO_PRESENCE, EncodePresence(p), p)
  {
    hide Decodes, LenField, IntField;
    var codec := PresenceCodec(isCid);
    var p1 := NO_PRESENCE.(cid := p.cid);
    Int32RoundTrip(p.presence);
    LenFieldDecodes(codec, NO_PRESENCE, 0x0a, p.cid.keyString, p1);
    IntFieldDecodes(codec, p1, 0x10, p.presence, p);
    Then(codec, NO_PRESENCE, LenField(0x0a, p.cid.keyString), p1, IntField(0x10, p.presence), p);
  }

  /**
   A repeated field: `grow(xs)` is the message after the elements `xs`, and one
   more element `x` takes `grow(xs)` to `grow(xs + [x])`.
   */
  lemma {:induction false} RepeatedDecodes<M, T>(codec: Codec<M>, tag: Byte, enc: T -> seq<Byte>,
                                                 grow: seq<T> -> M, done: seq<T>, xs: seq<T>)
    requires 8 <= tag < 128 && tag % 8 == 2 && codec.schema(tag / 8) == BytesKind
    requires |Repeated(tag, enc, xs)| < TWO63
    requires forall k :: 0 <= k < |xs| ==>
                           codec.apply(grow(done + xs[..k]), BytesField(tag / 8, enc(xs[k])))
                           == Ok(grow(done + xs[..k + 1]))
    ensures Decodes(codec, grow(done), Repeated(tag, enc, xs), grow(done + xs))
    decreases |xs|
  {
    hide Decodes, LenField;
    if xs == [] {
      NothingDecodes(codec, grow(done));
      assert done + xs == done;
    } else {
      var one, rest := [xs[0]], xs[1..];
      assert done + xs[..0] == done && xs[..1] == one;
      forall k | 0 <= k < |rest|
        ensures codec.apply(grow(done + one + rest[..k]), BytesField(tag / 8, enc(rest[k])))
                == Ok(grow(done + one + rest[..k + 1]))
      {
        assert done + one + rest[..k] == done + xs[..k + 1];
        assert done + one + rest[..k + 1] == done + xs[..k + 2];
        assert xs[k + 1] == rest[k];
      }
      LenFieldDecodes(codec, grow(done), tag, enc(xs[0]), grow(done + one));
      RepeatedDecodes(codec, tag, enc, grow, done + one, rest);
      Then(codec, grow(done), LenField(tag, enc(xs[0])), grow(done + one), Repeated(tag, enc, rest),
           grow(done + one + rest));
      assert done + one + rest == done + xs;
    }
  }

  /** Every element of a repeated field is shorter than the whole. */
  lemma {:induction false} ElementFits<T>(tag: Byte, enc: T -> seq<Byte>, xs: seq<T>, k: nat)
    requires k < |xs|
    ensures |enc(xs[k])| < |Repeated(tag, enc, xs)|
    decreases k
  {
    if k > 0 {
      ElementFits(tag, enc, xs[1..], k - 1);
    }
  }

  lemma WantlistRoundTrip(isCid: CidCheck, w: Wantlist)
    requires forall e :: e in w.entries ==> isCid(e.block.keyString)
    requires |EncodeWantlist(w)| < TWO63
    ensures Decodes(WantlistCodec(isCid), NO_WANTLIST, EncodeWantlist(w), w)
  {
    hide Decodes, Repeated, BoolField, EncodeEntry, Decode;
    var codec := WantlistCodec(isCid);
    var grow := (es: seq<Entry>) => Wantlist(es, false);
    forall k | 0 <= k < |w.entries|
      ensures codec.apply(grow([] + w.entries[..k]), BytesField(1, EncodeEntry(w.entries[k])))
              == Ok(grow([] + w.entries[..k + 1]))
    {
      ElementFits(0x0a, EncodeEntry, w.entries, k);
      EntryRoundTrip(isCid, w.entries[k]);
      DecodesMeans(EntryCodec(isCid), NO_ENTRY, EncodeEntry(w.entries[k]), w.entries[k]);
      assert w.entries[..k + 1] == w.entries[..k] + [w.entries[k]];
      assert [] + w.entries[..k] == w.entries[..k] && [] + w.entries[..k + 1] == w.entries[..k + 1];
    }
    RepeatedDecodes(codec, 0x0a, EncodeEntry, grow, [], w.entries);
    assert [] + w.entries == w.entries;
    BoolFieldDecodes(codec, grow(w.entries), 0x10, w.full, w);
    Then(codec, NO_WANTLIST, Repeated(0x0a, EncodeEntry, w.entries), grow(w.entries), BoolField(0x10, w.full), w);
  }

  lemma DecodesMeans<M>(codec: Codec<M>, m: M, d: seq<Byte>, m': M)
    requires Decodes(codec, m, d, m')
    ensures Decode(codec, m, d, 0) == Ok(m')
  {
  }

  /** Every CID the message carries is one the decoder accepts. */
  ghost predicate CidsOk(isCid: CidCheck, m: Message) {
    && (forall e :: e in m.wantlist.entries ==> isCid(e.block.keyString))
    && (forall p :: p in m.blockPresences ==> isCid(p.cid.keyString))
  }

  lemma BlocksDecode(isCid: CidCheck, m: Message, bs: seq<seq<Byte>>)
    requires m.blocks == [] && |Repeated(0x12, EncodeBytes, bs)| < TWO63
    ensures Decodes(MessageCodec(isCid), m, Repeated(0x12, EncodeBytes, bs), m.(blocks := bs))
  {
    hide Decodes, Repeated, Decode;
    var codec := MessageCodec(isCid);
    var grow := (xs: seq<seq<Byte>>) => m.(blocks := xs);
    forall k | 0 <= k < |bs|
      ensures codec.apply(grow([] + bs[..k]), BytesField(2, EncodeBytes(bs[k]))) == Ok(grow([] + bs[..k + 1]))
    {
      assert bs[..k + 1] == bs[..k] + [bs[k]];
      assert [] + bs[..k] == bs[..k] && [] + bs[..k + 1] == bs[..k + 1];
    }
    RepeatedDecodes(codec, 0x12, EncodeBytes, grow, [], bs);
    assert [] + bs == bs;
  }

  lemma PayloadDecodes(isCid: CidCheck, m: Message, bs: seq<Block>)
    requires m.payload == [] && |Repeated(0x1a, EncodeBlock, bs)| < TWO63
    ensures Decodes(MessageCodec(isCid), m, Repeated(0x1a, EncodeBlock, bs), m.(payload := bs))
  {
    hide Decodes, Repeated, Decode, EncodeBlock;
    var codec := MessageCodec(isCid);
    var grow := (xs: seq<Block>) => m.(payload := xs);
    forall k | 0 <= k < |bs|
      ensures codec.apply(grow([] + bs[..k]), BytesField(3, EncodeBlock(bs[k]))) == Ok(grow([] + bs[..k + 1]))
    {
      ElementFits(0x1a, EncodeBlock, bs, k);
      BlockRoundTrip(bs[k]);
      DecodesMeans(BlockCodec(), NO_BLOCK, EncodeBlock(bs[k]), bs[k]);
      assert bs[..k + 1] == bs[..k] + [bs[k]];
      assert [] + bs[..k] == bs[..k] && [] + bs[..k + 1] == bs[..k + 1];
    }
    RepeatedDecodes(codec, 0x1a, EncodeBlock, grow, [], bs);
    assert [] + bs == bs;
  }

  lemma PresencesDecode(isCid: CidCheck, m: Message, ps: seq<BlockPresence>)
    requires m.blockPresences == [] && |Repeated(0x22, EncodePresence, ps)| < TWO63
    requires forall p :: p in ps ==> isCid(p.cid.keyString)
    ensures Decodes(MessageCodec(isCid), m, Repeated(0x22, EncodePresence, ps), m.(blockPresences := ps))
  {
    hide Decodes, Repeated, Decode, EncodePresence;
    var codec := MessageCodec(isCid);
    var grow := (xs: seq<BlockPresence>) => m.(blockPresences := xs);
    forall k | 0 <= k < |ps|
      ensures codec.apply(grow([] + ps[..k]), BytesField(4, EncodePresence(ps[k]))) == Ok(grow([] + ps[..k + 1]))
    {
      ElementFits(0x22, EncodePresence, ps, k);
      PresenceRoundTrip(isCid, ps[k]);
      DecodesMeans(PresenceCodec(isCid), NO_PRESENCE, EncodePresence(ps[k]), ps[k]);
      assert ps[..k + 1] == ps[..k] + [ps[k]];
      assert [] + ps[..k] == ps[..k] && [] + ps[..k + 1] == ps[..k + 1];
    }
    RepeatedDecodes(codec, 0x22, EncodePresence, grow, [], ps);
    assert [] + ps == ps;
  }

  /** Decoding the bytes of any message with acceptable CIDs gives that message back. */
  lemma MessageRoundTrip(isCid: CidCheck, m: Message)
    requires CidsOk(isCid, m) && |EncodeMessage(m)| < TWO63
    ensures Decode(MessageCodec(isCid), NO_MESSAGE, EncodeMessage(m), 0) == Ok(m)
  {
    hide Decodes, LenField, Repeated, IntField, EncodeWantlist, Decode, VarintBytes;
    var codec := MessageCodec(isCid);
    var f1, f2 := LenField(0x0a, EncodeWantlist(m.wantlist)), Repeated(0x12, EncodeBytes, m.blocks);
    var f3, f4 := Repeated(0x1a, EncodeBlock, m.payload), Repeated(0x22, EncodePresence, m.blockPresences);
    var f5 := IntField(0x28, m.pendingBytes);
    var m1 := NO_MESSAGE.(wantlist := m.wantlist);
    var m2 := m1.(blocks := m.blocks);
    var m3 := m2.(payload := m.payload);
    var m4 := m3.(blockPresences := m.blockPresences);
    ShorterThanField(0x0a, EncodeWantlist(m.wantlist));
    WantlistRoundTrip(isCid, m.wantlist);
    DecodesMeans(WantlistCodec(isCid), NO_WANTLIST, EncodeWantlist(m.wantlist), m.wantlist);
    LenFieldDecodes(codec, NO_MESSAGE, 0x0a, EncodeWantlist(m.wantlist), m1);
    BlocksDecode(isCid, m1, m.blocks);
    PayloadDecodes(isCid, m2, m.payload);
    PresencesDecode(isCid, m3, m.blockPresences);
    Int32RoundTrip(m.pendingBytes);
    IntFieldDecodes(codec, m4, 0x28, m.pendingBytes, m);
    Then(codec, m3, f4, m4, f5, m);
    Then(codec, m2, f3, m3, f4 + f5, m);
    Then(codec, m1, f2, m2, f3 + (f4 + f5), m);
    Then(codec, NO_MESSAGE, f1, m1, f2 + (f3 + (f4 + f5)), m);
    DecodesMeans(codec, NO_MESSAGE, EncodeMessage(m), m);
  }

  // ---------- the field numbers of the format ----------

  /** Bytes that are no CID are refused, in an entry and in a presence. */
  lemma BadCidIsRefused(isCid: CidCheck, e: Entry, p: BlockPresence, bs: seq<Byte>)
    requires |bs| + 11 < TWO63 && !isCid(bs)
    ensures var d := [0x0a] + VarintBytes(|bs|) + bs;
            && Decode(EntryCodec(isCid), e, d, 0) == Err(BadCid)
            && Decode(PresenceCodec(isCid), p, d, 0) == Err(BadCid)
  {
    hide ReadVarint, VarintBytes;
    WordFits(|bs|);
    LenFieldReads(EntrySchema, 0x0a, bs);
    LenFieldReads(PresenceSchema, 0x0a, bs);
  }

  lemma LenFieldReads(schema: int -> Kind, tag: Byte, bs: seq<Byte>)
    requires 8 <= tag < 128 && tag % 8 == 2 && schema(tag / 8) == BytesKind && |LenField(tag, bs)| < TWO63
    ensures var d := LenField(tag, bs);
            NextField(schema, d, 0) == Ok((BytesField(tag / 8, bs), |d|))
  {
    hide ReadVarint, VarintBytes;
    var d := LenField(tag, bs);
    assert d == [tag] + (VarintBytes(|bs|) + bs);
    TagReads(tag, VarintBytes(|bs|) + bs);
    ReadsAt([tag], |bs|, bs);
    var start := 1 + |VarintBytes(|bs|)|;
    assert d[start..] == bs;
    assert d[start..|d|] == bs;
    assert ReadLength(d, 1) == Ok((start, |d|));
  }

  /** A wantlist entry: block 1, priority 2, cancel 3, wantType 4, sendDontHave 5. */
  lemma EntryFields(isCid: CidCheck, e: Entry, bs: seq<Byte>, v: Word)
    requires |bs| + 11 < TWO63
    ensures isCid(bs) ==> Decodes(EntryCodec(isCid), e, [0x0a] + VarintBytes(|bs|) + bs, e.(block := Cid(bs)))
    ensures Decodes(EntryCodec(isCid), e, [0x10] + VarintBytes(v), e.(priority := ToInt32(v)))
    ensures Decodes(EntryCodec(isCid), e, [0x18] + VarintBytes(v), e.(cancel := v != 0))
    ensures Decodes(EntryCodec(isCid), e, [0x20] + VarintBytes(v), e.(wantType := ToInt32(v)))
    ensures Decodes(EntryCodec(isCid), e, [0x28] + VarintBytes(v), e.(sendDontHave := v != 0))
  {
    hide Decodes, VarintBytes;
    var codec := EntryCodec(isCid);
    WordFits(v);
    WordFits(|bs|);
    if isCid(bs) {
      LenFieldDecodes(codec, e, 0x0a, bs, e.(block := Cid(bs)));
    }
    VarintFieldDecodes(codec, e, 0x10, v, e.(priority := ToInt32(v)));
    VarintFieldDecodes(codec, e, 0x18, v, e.(cancel := v != 0));
    VarintFieldDecodes(codec, e, 0x20, v, e.(wantType := ToInt32(v)));
    VarintFieldDecodes(codec, e, 0x28, v, e.(sendDontHave := v != 0));
  }

  lemma WordFits(v: Word)
    ensures |VarintBytes(v)| <= 10
  {
    hide VarintBytes;
    Pow128Values();
    PowStep(9);
    VarintShort(v, 10);
  }

  /** A block: prefix 1, data 2. A block presence: cid 1, type 2. */
  lemma BlockFields(isCid: CidCheck, b: Block, p: BlockPresence, bs: seq<Byte>, v: Word)
    requires |bs| + 11 < TWO63
    ensures Decodes(BlockCodec(), b, [0x0a] + VarintBytes(|bs|) + bs, b.(prefix := bs))
    ensures Decodes(BlockCodec(), b, [0x12] + VarintBytes(|bs|) + bs, b.(data := bs))
    ensures isCid(bs) ==> Decodes(PresenceCodec(isCid), p, [0x0a] + VarintBytes(|bs|) + bs, p.(cid := Cid(bs)))
    ensures Decodes(PresenceCodec(isCid), p, [0x10] + VarintBytes(v), p.(presence := ToInt32(v)))
  {
    hide Decodes, VarintBytes;
    WordFits(v);
    WordFits(|bs|);
    LenFieldDecodes(BlockCodec(), b, 0x0a, bs, b.(prefix := bs));
    LenFieldDecodes(BlockCodec(), b, 0x12, bs, b.(data := bs));
    if isCid(bs) {
      LenFieldDecodes(PresenceCodec(isCid), p, 0x0a, bs, p.(cid := Cid(bs)));
    }
    VarintFieldDecodes(PresenceCodec(isCid), p, 0x10, v, p.(presence := ToInt32(v)));
  }

  /** A wantlist: entries 1, full 2. */
  lemma WantlistFields(isCid: CidCheck, w: Wantlist, bs: seq<Byte>, e: Entry, v: Word)
    requires |bs| + 11 < TWO63
    ensures Decodes(EntryCodec(isCid), NO_ENTRY, bs, e) ==>
              Decodes(WantlistCodec(isCid), w, [0x0a] + VarintBytes(|bs|) + bs, w.(entries := w.entries + [e]))
    ensures Decodes(WantlistCodec(isCid), w, [0x10] + VarintBytes(v), w.(full := v != 0))
  {
    hide Decodes, VarintBytes, Decode;
    WordFits(v);
    WordFits(|bs|);
    if Decodes(EntryCodec(isCid), NO_ENTRY, bs, e) {
      DecodesMeans(EntryCodec(isCid), NO_ENTRY, bs, e);
      LenFieldDecodes(WantlistCodec(isCid), w, 0x0a, bs, w.(entries := w.entries + [e]));
    }
    VarintFieldDecodes(WantlistCodec(isCid), w, 0x10, v, w.(full := v != 0));
  }

  /** A message: wantlist 1, raw blocks 2, payload 3, block presences 4, pending bytes 5. */
  lemma MessageFields(isCid: CidCheck, m: Message, bs: seq<Byte>, w: Wantlist, b: Block, p: BlockPresence, v: Word)
    requires |bs| + 11 < TWO63
    ensures Decodes(WantlistCodec(isCid), m.wantlist, bs, w) ==>
              Decodes(MessageCodec(isCid), m, [0x0a] + VarintBytes(|bs|) + bs, m.(wantlist := w))
    ensures Decodes(MessageCodec(isCid), m, [0x12] + VarintBytes(|bs|) + bs, m.(blocks := m.blocks + [bs]))
    ensures Decodes(BlockCodec(), NO_BLOCK, bs, b) ==>
              Decodes(MessageCodec(isCid), m, [0x1a] + VarintBytes(|bs|) + bs, m.(payload := m.payload + [b]))
    ensures Decodes(PresenceCodec(isCid), NO_PRESENCE, bs, p) ==>
              Decodes(MessageCodec(isCid), m, [0x22] + VarintBytes(|bs|) + bs,
                      m.(blockPresences := m.blockPresences + [p]))
    ensures Decodes(MessageCodec(isCid), m, [0x28] + VarintBytes(v), m.(pendingBytes := ToInt32(v)))
  {
    hide Decodes, VarintBytes, Decode;
    var codec := MessageCodec(isCid);
    WordFits(v);
    WordFits(|bs|);
    if Decodes(WantlistCodec(isCid), m.wantlist, bs, w) {
      DecodesMeans(WantlistCodec(isCid), m.wantlist, bs, w);
      LenFieldDecodes(codec, m, 0x0a, bs, m.(wantlist := w));
    }
    LenFieldDecodes(codec, m, 0x12, bs, m.(blocks := m.blocks + [bs]));
    if Decodes(BlockCodec(), NO_BLOCK, bs, b) {
      DecodesMeans(BlockCodec(), NO_BLOCK, bs, b);
      LenFieldDecodes(codec, m, 0x1a, bs, m.(payload := m.payload + [b]));
    }
    if Decodes(PresenceCodec(isCid), NO_PRESENCE, bs, p) {
      DecodesMeans(PresenceCodec(isCid), NO_PRESENCE, bs, p);
      LenFieldDecodes(codec, m, 0x22, bs, m.(blockPresences := m.blockPresences + [p]));
    }
    VarintFieldDecodes(codec, m, 0x28, v, m.(pendingBytes := ToInt32(v)));
  }

  /** The enum values on the wire: a want-block and a HAVE are 0, which is not written; a want-have is 1. */
  lemma WireValues()
    ensures IntField(0x20, WANT_BLOCK) == [] && IntField(0x20, WANT_HAVE) == [0x20, 1]
    ensures IntField(0x10, PRESENCE_HAVE) == []
  {
    assert VarintBytes(1) == [1];
  }

  lemma ShorterThanField(tag: Byte, bs: seq<Byte>)
    ensures |bs| < |LenField(tag, bs)|
  {
  }
}
