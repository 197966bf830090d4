/**
 The bytes a message takes on the wire against the size the queue accounts for it. The
 accounted size leaves out the framing of each entry, and what an entry grows by when a
 second item for its key is merged into it, so the limit can be exceeded.
 */
module MessageSizes {
  import opened Types
  import opened Varints
  import opened Wantlists
  import opened QueueModel
  import BM = BitswapMessages
  import Messages
  import Marshalling

  // ---------- the bytes of a wantlist ----------

  /** The bytes of the entries for the keys, without their framing. */
  ghost function EntryBytes(msg: MsgWants, cs: seq<Cid>): nat
    requires Elems(cs) <= msg.Keys
  {
    if cs == [] then 0
    else
      assert cs[|cs| - 1] in Elems(cs);
      EntryBytes(msg, cs[..|cs| - 1]) + BM.WireSize(msg[cs[|cs| - 1]])
  }

  /** A tag and a length for each entry. */
  ghost function Framing(msg: MsgWants, cs: seq<Cid>): nat
    requires Elems(cs) <= msg.Keys
  {
    if cs == [] then 0
    else
      assert cs[|cs| - 1] in Elems(cs);
      Framing(msg, cs[..|cs| - 1]) + 1 + Sov(BM.WireSize(msg[cs[|cs| - 1]]))
  }

  ghost function Rest(cs: seq<Cid>, i: nat): seq<Cid>
    requires i < |cs|
  {
    cs[..i] + cs[i + 1..]
  }

  lemma RestLists(cs: seq<Cid>, s: set<Cid>, i: nat)
    requires IsListing(cs, s) && i < |cs|
    ensures cs[i] in s && IsListing(Rest(cs, i), s - {cs[i]})
  {
    var rest := Rest(cs, i);
    assert cs[i] in Elems(cs);
    forall c
      ensures c in Elems(rest) <==> c in s - {cs[i]}
    {
      if c in s && c != cs[i] {
        var k :| 0 <= k < |cs| && cs[k] == c;
        assert rest[if k < i then k else k - 1] == c;
      }
      if k :| 0 <= k < |rest| && rest[k] == c {
        assert cs[if k < i then k else k + 1] == c && c in Elems(cs);
      }
    }
  }

  lemma PartsOf(cs: seq<Cid>, i: nat)
    requires i < |cs|
    ensures cs[i] in Elems(cs) && Elems(Rest(cs, i)) <= Elems(cs)
    ensures cs[|cs| - 1] in Elems(cs) && Elems(cs[..|cs| - 1]) <= Elems(cs)
  {
  }

  /** The order of the listing does not matter: any key can be taken out first. */
  lemma {:induction false} BytesWithout(msg: MsgWants, cs: seq<Cid>, i: nat)
    requires Elems(cs) <= msg.Keys && i < |cs|
    ensures cs[i] in msg && Elems(Rest(cs, i)) <= msg.Keys
    ensures EntryBytes(msg, cs) == EntryBytes(msg, Rest(cs, i)) + BM.WireSize(msg[cs[i]])
    decreases |cs|
  {
    hide BM.WireSize, Elems;
    PartsOf(cs, i);
    var n := |cs| - 1;
    if i < n {
      var init := cs[..n];
      BytesWithout(msg, init, i);
      var rest := Rest(cs, i);
      assert rest[..|rest| - 1] == Rest(init, i) && rest[|rest| - 1] == cs[n];
    } else {
      assert Rest(cs, i) == cs[..n];
    }
  }

  /** An entry of another key does not count. */
  lemma {:induction false} BytesSame(msg: MsgWants, msg': MsgWants, cs: seq<Cid>)
    requires Elems(cs) <= msg.Keys && Elems(cs) <= msg'.Keys && forall c :: c in cs ==> msg[c] == msg'[c]
    ensures EntryBytes(msg, cs) == EntryBytes(msg', cs)
  {
    if cs != [] {
      var init := cs[..|cs| - 1];
      assert forall c :: c in init ==> c in Elems(cs);
      assert cs[|cs| - 1] in Elems(cs);
      BytesSame(msg, msg', init);
    }
  }

  // ---------- what the queue accounts for ----------

  /** What an entry grows by, or shrinks, when an item is merged into it. */
  ghost function Growth(items: seq<Item>, supportsHave: bool): int {
    if items == [] then 0
    else
      var n, last := |items| - 1, items[|items| - 1];
      var before, after := MsgOf(items[..n], supportsHave), MsgOf(items, supportsHave);
      Growth(items[..n], supportsHave)
      + if last.Key() in before then BM.WireSize(after[last.Key()]) - BM.WireSize(before[last.Key()]) else 0
  }

  /** How many items found their key in the message already. */
  ghost function Repeats(items: seq<Item>, supportsHave: bool): nat {
    if items == [] then 0
    else
      var n := |items| - 1;
      Repeats(items[..n], supportsHave) + if items[n].Key() in MsgOf(items[..n], supportsHave) then 1 else 0
  }

  /** The entries take exactly the accounted size and what they grew by. */
  lemma {:induction false} AccountedIs(items: seq<Item>, supportsHave: bool, cs: seq<Cid>)
    requires IsListing(cs, MsgOf(items, supportsHave).Keys)
    ensures EntryBytes(MsgOf(items, supportsHave), cs) == SizeOf(items, supportsHave) + Growth(items, supportsHave)
  {
    hide BM.WireSize, BM.MergeEntry, BM.NewEntry, Distinct;
    if items != [] {
      var n, last := |items| - 1, items[|items| - 1];
      var before, after, c := MsgOf(items[..n], supportsHave), MsgOf(items, supportsHave), last.Key();
      assert c in after && c in Elems(cs);
      var i :| 0 <= i < |cs| && cs[i] == c;
      BytesWithout(after, cs, i);
      RestLists(cs, after.Keys, i);
      var rest := Rest(cs, i);
      assert c !in Elems(rest);
      BytesSame(after, before, rest);
      if c in before {
        assert before.Keys == after.Keys;
        AccountedIs(items[..n], supportsHave, cs);
        BytesWithout(before, cs, i);
      } else {
        assert before.Keys == after.Keys - {c};
        FirstIsWire(before, last, supportsHave);
        AccountedIs(items[..n], supportsHave, rest);
      }
    } else {
      NoneListed(cs);
    }
  }

  lemma FirstIsWire(msg: MsgWants, item: Item, supportsHave: bool)
    requires item.Key() !in msg
    ensures PutItem(msg, item, supportsHave)[item.Key()] == item.Wire(supportsHave)
  {
  }

  lemma NoneListed(cs: seq<Cid>)
    requires IsListing(cs, {})
    ensures cs == []
  {
    FirstInSet(cs, {});
  }

  lemma FirstInSet(cs: seq<Cid>, s: set<Cid>)
    requires IsListing(cs, s)
    ensures cs == [] || cs[0] in s
  {
    if cs != [] {
      assert cs[0] in Elems(cs);
    }
  }

  // ---------- how much an entry grows ----------

  /** The most an entry grows by in one merge: a ten-byte priority with its tag, and two flags. */
  const MERGE_GROWTH := 15

  lemma WireSizeIs(e: BM.Entry)
    ensures BM.WireSize(e)
            == |Messages.LenField(0x0a, e.want.cid.keyString)| + |Messages.IntField(0x10, e.want.priority)|
                              + (if e.cancel then 2 else 0) + |Messages.IntField(0x20, e.want.wantType)|
                              + (if e.sendDontHave then 2 else 0)
  {
  }

  lemma IntFieldBound(tag: Byte, x: Int32)
    ensures |Messages.IntField(tag, x)| <= 11
  {
    hide Sov, BitLen;
    Marshalling.IntFieldSize(tag, x);
    if x != 0 {
      SovBound(ToWord(x));
    }
  }

  lemma SovBound(x: Word)
    ensures Sov(x) <= 10
  {
    hide Sov, VarintBytes, Pow128;
    SovIsVarintLength(x);
    Pow128Values();
    PowStep(9);
    VarintShort(x, 10);
  }

  lemma MergeGrows(e: BM.Entry, priority: Int32, cancel: bool, wantType: Int32, sendDontHave: bool)
    ensures BM.WireSize(BM.MergeEntry(e, priority, cancel, wantType, sendDontHave)) <= BM.WireSize(e) + MERGE_GROWTH
  {
    hide Messages.IntField, Messages.LenField, BM.WireSize;
    var e' := BM.MergeEntry(e, priority, cancel, wantType, sendDontHave);
    WireSizeIs(e);
    WireSizeIs(e');
    IntFieldBound(0x10, e'.want.priority);
    assert e'.want.wantType == e.want.wantType || |Messages.IntField(0x20, e'.want.wantType)| == 0 by {
      NoField(0x20);
    }
  }

  lemma NoField(tag: Byte)
    ensures Messages.IntField(tag, WANT_BLOCK) == []
  {
  }

  /** Without repeated keys nothing grows, and each repetition adds a bounded number of bytes. */
  lemma {:induction false} GrowthBound(items: seq<Item>, supportsHave: bool)
    ensures Growth(items, supportsHave) <= MERGE_GROWTH * Repeats(items, supportsHave)
    ensures Repeats(items, supportsHave) == 0 ==> Growth(items, supportsHave) == 0
  {
    hide BM.WireSize, BM.MergeEntry;
    if items != [] {
      var n, last := |items| - 1, items[|items| - 1];
      GrowthBound(items[..n], supportsHave);
      var before, w := MsgOf(items[..n], supportsHave), last.Wire(supportsHave);
      if last.Key() in before {
        MergeGrows(before[last.Key()], w.want.priority, w.cancel, w.want.wantType, w.sendDontHave);
      }
    }
  }

  // ---------- the whole message ----------

  ghost function MsgWith(msg: MsgWants): BM.Msg {
    BM.NewMsg(false).(wantlist := msg)
  }

  lemma {:induction false} EntriesEncoded(msg: MsgWants, cs: seq<Cid>)
    requires Elems(cs) <= msg.Keys
    ensures |Messages.Repeated(0x0a, Messages.EncodeEntry, BM.EntriesPB(MsgWith(msg), cs))|
            == EntryBytes(msg, cs) + Framing(msg, cs)
  {
    hide Messages.EncodeEntry, Messages.LenField, Sov;
    if cs != [] {
      var init, c := cs[..|cs| - 1], cs[|cs| - 1];
      assert forall d :: d in init ==> d in Elems(cs);
      assert c in Elems(cs);
      EntriesEncoded(msg, init);
      var es := BM.EntriesPB(MsgWith(msg), init);
      assert BM.EntriesPB(MsgWith(msg), cs) == es + [BM.ToPB(msg[c])];
      Marshalling.RepeatedPush(0x0a, Messages.EncodeEntry, es, BM.ToPB(msg[c]));
      Marshalling.LenFieldSize(0x0a, Messages.EncodeEntry(BM.ToPB(msg[c])));
    }
  }

  lemma OnlyWantlist(pb: Messages.Message)
    requires pb.blocks == [] && pb.payload == [] && pb.blockPresences == [] && pb.pendingBytes == 0 && !pb.wantlist.full
    ensures var n := |Messages.Repeated(0x0a, Messages.EncodeEntry, pb.wantlist.entries)|;
            |Messages.EncodeMessage(pb)| == 1 + Sov(n) + n
  {
    hide Messages.EncodeEntry, Messages.EncodePresence, Messages.EncodeBlock, Messages.LenField, Sov;
    var w := Messages.EncodeWantlist(pb.wantlist);
    assert w == Messages.Repeated(0x0a, Messages.EncodeEntry, pb.wantlist.entries);
    Marshalling.LenFieldSize(0x0a, w);
  }

  lemma ProtoShape(h: BM.Hashing, msg: MsgWants, pb: Messages.Message) returns (cs: seq<Cid>)
    requires BM.IsProtoOf(h, MsgWith(msg), pb)
    ensures IsListing(cs, msg.Keys) && pb.wantlist.entries == BM.EntriesPB(MsgWith(msg), cs)
    ensures pb.blocks == [] && pb.payload == [] && pb.blockPresences == [] && pb.pendingBytes == 0 && !pb.wantlist.full
  {
    hide Distinct, BM.EntriesPB;
    var m := MsgWith(msg);
    cs :| IsListing(cs, m.wantlist.Keys) && pb.wantlist.entries == BM.EntriesPB(m, cs);
    var none1 :| IsListing(none1, m.blocks.Keys) && pb.payload == BM.PayloadPB(h, m, none1);
    var none2 :| IsListing(none2, m.blockPresences.Keys) && pb.blockPresences == BM.PresencesPB(m, none2);
    NoneListed(none1);
    NoneListed(none2);
  }

  /**
   The exact size on the wire of a message that an extraction builds: the accounted size,
   what its entries grew by, the framing of each entry, and the framing of the wantlist.
   */
  lemma WireSizeOfMessage(h: BM.Hashing, cut: Cut, pb: Messages.Message) returns (cs: seq<Cid>)
    requires cut.n <= |cut.Items()| && BM.IsProtoOf(h, MsgWith(Message(cut)), pb)
    ensures IsListing(cs, Message(cut).Keys)
    ensures var items := cut.Items()[..cut.n];
            var n := SizeOf(items, cut.supportsHave) + Growth(items, cut.supportsHave) + Framing(Message(cut), cs);
            n >= 0 && |Messages.EncodeMessage(pb)| == 1 + Sov(n) + n
  {
    hide MsgOf, SizeOf, Growth, Framing, EntryBytes, Cut.Items, Sov, Messages.EncodeMessage, BM.IsProtoOf, BM.EntriesPB,
         Messages.Repeated, Distinct;
    cs := ProtoShape(h, Message(cut), pb);
    AccountedIs(cut.Items()[..cut.n], cut.supportsHave, cs);
    EntriesEncoded(Message(cut), cs);
    OnlyWantlist(pb);
  }

  /** The size of the last item that was taken. */
  ghost function LastSize(items: seq<Item>, supportsHave: bool): nat {
    if items == [] then 0 else BM.WireSize(items[|items| - 1].Wire(supportsHave))
  }

  /**
   How far a message can go over the limit: its last item, growth per repeated key, and
   framing. What was taken before the last item was below the limit, if there was any.
   */
  lemma WireSizeBound(h: BM.Hashing, q: Q, cut: Cut, max: int, pb: Messages.Message) returns (cs: seq<Cid>)
    requires CutOf(q, cut, max) && BM.IsProtoOf(h, MsgWith(Message(cut)), pb)
    ensures IsListing(cs, Message(cut).Keys)
    ensures var items := cut.Items()[..cut.n];
            exists n: nat :: |Messages.EncodeMessage(pb)| == 1 + Sov(n) + n
              && n <= (if cut.n <= 1 then 0 else max - 1) + LastSize(items, cut.supportsHave)
                      + MERGE_GROWTH * Repeats(items, cut.supportsHave) + Framing(Message(cut), cs)
  {
    hide MsgOf, Growth, Framing, Cut.Items, Sov, Messages.EncodeMessage, Distinct, BM.WireSize, SortedListing, Repeats,
         BM.IsProtoOf;
    var items := cut.Items()[..cut.n];
    cs := WireSizeOfMessage(h, cut, pb);
    GrowthBound(items, cut.supportsHave);
    if cut.n > 0 {
      assert items[..cut.n - 1] == cut.Items()[..cut.n - 1];
      assert cut.n > 1 ==> SizeOf(items[..cut.n - 1], cut.supportsHave) < max;
      assert SizeOf(items[..0], cut.supportsHave) == 0;
    }
  }

  // ---------- the limit is exceeded ----------

  const MAX_MESSAGE_SIZE := 1024 * 1024 * 2

  /** Every message that leaves something behind is over the limit, unless a key was repeated in it. */
  lemma LeftBehindIsOver(h: BM.Hashing, q: Q, cut: Cut, max: int, pb: Messages.Message)
    requires CutOf(q, cut, max) && BM.IsProtoOf(h, MsgWith(Message(cut)), pb)
    requires cut.n < |cut.Items()| && Repeats(cut.Items()[..cut.n], cut.supportsHave) == 0
    ensures |Messages.EncodeMessage(pb)| > max + 1
  {
    hide MsgOf, SizeOf, Growth, Framing, Cut.Items, Sov, Messages.EncodeMessage, Distinct, BM.WireSize, SortedListing,
         Repeats, BM.IsProtoOf;
    var items := cut.Items()[..cut.n];
    var cs := WireSizeOfMessage(h, cut, pb);
    GrowthBound(items, cut.supportsHave);
    SovPositive(SizeOf(items, cut.supportsHave) + Growth(items, cut.supportsHave) + Framing(Message(cut), cs));
  }

  ghost function OneWant(c: Cid): Entry {
    Entry(c, MAX_PRIORITY, WANT_BLOCK)
  }

  ghost function OneWantSize(c: Cid): nat {
    BM.WireSize(PeerItem(OneWant(c)).Wire(true))
  }

  /** One want whose accounted size is just below the limit, in a message that is over it. */
  lemma LimitIsExceeded(h: BM.Hashing, c: Cid, max: int, pb: Messages.Message)
    requires BM.IsProtoOf(h, MsgWith(Message(Cut(true, [], [OneWant(c)], [], 1))), pb)
    requires OneWantSize(c) < max <= OneWantSize(c) + 3
    ensures var q, cut := Q(map[c := OneWant(c)], map[], map[], map[], {}, MAX_PRIORITY - 1),
                          Cut(true, [], [OneWant(c)], [], 1);
            && Inv(q) && CutOf(q, cut, max) && SizeOf(cut.Items()[..1], true) < max < |Messages.EncodeMessage(pb)|
  {
    hide Messages.EncodeMessage, BM.WireSize, BM.IsProtoOf, Sov;
    var e := OneWant(c);
    var cut := Cut(true, [], [e], [], 1);
    var items := cut.Items();
    assert items == [PeerItem(e)] && items[..1] == items && items[..0] == [];
    assert SizeOf(items, true) == BM.WireSize(PeerItem(e).Wire(true));
    assert Elems(cut.cancels) == {};
    var cs := WireSizeOfMessage(h, cut, pb);
    assert Growth(items, true) == 0;
    FramingPositive(Message(cut), cs, c);
    SovPositive(SizeOf(items, true) + Growth(items, true) + Framing(Message(cut), cs));
  }

  lemma FramingPositive(msg: MsgWants, cs: seq<Cid>, c: Cid)
    requires Elems(cs) <= msg.Keys && c in Elems(cs)
    ensures Framing(msg, cs) >= 2
  {
    hide Sov, BM.WireSize;
    assert cs != [];
    assert cs[|cs| - 1] in Elems(cs);
    SovPositive(BM.WireSize(msg[cs[|cs| - 1]]));
  }

  lemma SovPositive(x: nat)
    ensures Sov(x) >= 1
  {
    SovIsVarintLength(x);
  }

  /** So it is for the limit that is set, with a key of a suitable length. */
  lemma MaxMessageSizeIsExceeded(h: BM.Hashing, c: Cid, pb: Messages.Message)
    requires BM.IsProtoOf(h, MsgWith(Message(Cut(true, [], [OneWant(c)], [], 1))), pb)
    requires |c.keyString| == MAX_MESSAGE_SIZE - 13
    ensures OneWantSize(c) == MAX_MESSAGE_SIZE - 1 && |Messages.EncodeMessage(pb)| > MAX_MESSAGE_SIZE
  {
    hide Messages.EncodeMessage, BM.WireSize, BM.IsProtoOf, Sov, Messages.LenField, Messages.IntField, Cut.Items;
    WireSizeIs(PeerItem(OneWant(c)).Wire(true));
    Marshalling.LenFieldSize(0x0a, c.keyString);
    Marshalling.IntFieldSize(0x10, MAX_PRIORITY);
    NoField(0x20);
    SovValues();
    LimitIsExceeded(h, c, MAX_MESSAGE_SIZE, pb);
  }

  lemma SovValues()
    ensures Sov(MAX_MESSAGE_SIZE - 13) == 3 && Sov(MAX_PRIORITY) == 5
  {
    hide Sov, VarintBytes;
    SovIsVarintLength(MAX_MESSAGE_SIZE - 13);
    SovIsVarintLength(MAX_PRIORITY);
    VarintBytesStep(2097139);
    VarintBytesStep(16383);
    VarintBytesStep(127);
    VarintBytesStep(0x7fff_ffff);
    VarintBytesStep(0xff_ffff);
    VarintBytesStep(0x1_ffff);
    VarintBytesStep(0x3ff);
    VarintBytesStep(7);
  }
}
