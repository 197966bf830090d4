/**
 The size pass and the right-to-left in-place writer. Both are proved against
 the forward serializer: the sizes are its lengths, and the writer puts exactly
 its bytes so that they end where the buffer ends, touching nothing else.
 */
module Marshalling {
  import opened Types
  import opened Varints
  import opened Messages

  // ---------- sizes ----------

  lemma LenFieldSize(tag: Byte, bs: seq<Byte>)
    ensures |LenField(tag, bs)| == 1 + |bs| + Sov(|bs|)
  {
    SovIsVarintLength(|bs|);
  }

  lemma IntFieldSize(tag: Byte, x: Int32)
    ensures |IntField(tag, x)| == if x == 0 then 0 else 1 + Sov(ToWord(x))
  {
    SovIsVarintLength(ToWord(x));
  }

  method EntrySize(e: Entry) returns (n: nat)
    ensures n == |EncodeEntry(e)|
  {
    hide LenField, IntField, Sov;
    LenFieldSize(0x0a, e.block.keyString);
    IntFieldSize(0x10, e.priority);
    IntFieldSize(0x20, e.wantType);
    var l := |e.block.keyString|;
    n := 1 + l + Sov(l);
    if e.priority != 0 {
      n := n + 1 + Sov(ToWord(e.priority));
    }
    if e.cancel {
      n := n + 2;
    }
    if e.wantType != 0 {
      n := n + 1 + Sov(ToWord(e.wantType));
    }
    if e.sendDontHave {
      n := n + 2;
    }
  }

  method BlockSize(b: Block) returns (n: nat)
    ensures n == |EncodeBlock(b)|
  {
    hide LenField, Sov;
    LenFieldSize(0x0a, b.prefix);
    LenFieldSize(0x12, b.data);
    n := 0;
    var l := |b.prefix|;
    if l > 0 {
      n := n + 1 + l + Sov(l);
    }
    l := |b.data|;
    if l > 0 {
      n := n + 1 + l + Sov(l);
    }
  }

  method PresenceSize(p: BlockPresence) returns (n: nat)
    ensures n == |EncodePresence(p)|
  {
    hide LenField, IntField, Sov;
    LenFieldSize(0x0a, p.cid.keyString);
    IntFieldSize(0x10, p.presence);
    var l := |p.cid.keyString|;
    n := 1 + l + Sov(l);
    if p.presence != 0 {
      n := n + 1 + Sov(ToWord(p.presence));
    }
  }

  lemma {:induction false} RepeatedPush<T>(tag: Byte, enc: T -> seq<Byte>, xs: seq<T>, x: T)
    ensures Repeated(tag, enc, xs + [x]) == Repeated(tag, enc, xs) + LenField(tag, enc(x))
  {
    hide LenField;
    if xs == [] {
      assert [x][1..] == [] && [] + [x] == [x];
      assert Repeated(tag, enc, [x]) == LenField(tag, enc(x)) + Repeated(tag, enc, []);
    } else {
      RepeatedPush(tag, enc, xs[1..], x);
      assert (xs + [x])[1..] == xs[1..] + [x];
    }
  }

  method WantlistSize(w: Wantlist) returns (n: nat)
    ensures n == |EncodeWantlist(w)|
  {
    hide LenField, EncodeEntry, Sov;
    n := 0;
    for i := 0 to |w.entries|
      invariant n == |Repeated(0x0a, EncodeEntry, w.entries[..i])|
    {
      RepeatedPush(0x0a, EncodeEntry, w.entries[..i], w.entries[i]);
      assert w.entries[..i + 1] == w.entries[..i] + [w.entries[i]];
      LenFieldSize(0x0a, EncodeEntry(w.entries[i]));
      var l := EntrySize(w.entries[i]);
      n := n + 1 + l + Sov(l);
    }
    assert w.entries[..|w.entries|] == w.entries;
    if w.full {
      n := n + 2;
    }
  }

  method MessageSize(m: Message) returns (n: nat)
    ensures n == |EncodeMessage(m)|
  {
    hide LenField, IntField, EncodeWantlist, EncodeBlock, EncodePresence, Repeated, Sov;
    RepeatedNone(0x12, EncodeBytes);
    RepeatedNone(0x1a, EncodeBlock);
    RepeatedNone(0x22, EncodePresence);
    LenFieldSize(0x0a, EncodeWantlist(m.wantlist));
    IntFieldSize(0x28, m.pendingBytes);
    var l := WantlistSize(m.wantlist);
    n := 1 + l + Sov(l);
    ghost var n1 := n;
    for i := 0 to |m.blocks|
      invariant n == n1 + |Repeated(0x12, EncodeBytes, m.blocks[..i])|
    {
      RepeatedPush(0x12, EncodeBytes, m.blocks[..i], m.blocks[i]);
      assert m.blocks[..i + 1] == m.blocks[..i] + [m.blocks[i]];
      LenFieldSize(0x12, EncodeBytes(m.blocks[i]));
      l := |m.blocks[i]|;
      n := n + 1 + l + Sov(l);
    }
    assert m.blocks[..|m.blocks|] == m.blocks;
    ghost var n2 := n;
    for i := 0 to |m.payload|
      invariant n == n2 + |Repeated(0x1a, EncodeBlock, m.payload[..i])|
    {
      RepeatedPush(0x1a, EncodeBlock, m.payload[..i], m.payload[i]);
      assert m.payload[..i + 1] == m.payload[..i] + [m.payload[i]];
      LenFieldSize(0x1a, EncodeBlock(m.payload[i]));
      l := BlockSize(m.payload[i]);
      n := n + 1 + l + Sov(l);
    }
    assert m.payload[..|m.payload|] == m.payload;
    ghost var n3 := n;
    for i := 0 to |m.blockPresences|
      invariant n == n3 + |Repeated(0x22, EncodePresence, m.blockPresences[..i])|
    {
      RepeatedPush(0x22, EncodePresence, m.blockPresences[..i], m.blockPresences[i]);
      assert m.blockPresences[..i + 1] == m.blockPresences[..i] + [m.blockPresences[i]];
      LenFieldSize(0x22, EncodePresence(m.blockPresences[i]));
      l := PresenceSize(m.blockPresences[i]);
      n := n + 1 + l + Sov(l);
    }
    assert m.blockPresences[..|m.blockPresences|] == m.blockPresences;
    if m.pendingBytes != 0 {
      n := n + 1 + Sov(ToWord(m.pendingBytes));
    }
  }

  lemma RepeatedNone<T>(tag: Byte, enc: T -> seq<Byte>)
    ensures forall xs: seq<T> :: Repeated(tag, enc, xs[..0]) == []
  {
  }

  // ---------- writing from the right ----------

  lemma PatchNone(s: seq<Byte>, end: nat)
    requires end <= |s|
    ensures Patch(s, end, []) == s
  {
  }

  /** Writes the tag byte in front of what ends at `i`. */
  method PutTag(dAtA: array<Byte>, i: nat, tag: Byte) returns (j: nat)
    requires 1 <= i <= dAtA.Length
    modifies dAtA
    ensures j == i - 1 && dAtA[..] == Patch(old(dAtA[..]), i, [tag])
  {
    j := i - 1;
    PatchByte(dAtA[..], i, tag);
    dAtA[j] := tag;
  }

  method PutBool(dAtA: array<Byte>, i: nat, tag: Byte, b: bool) returns (j: nat)
    requires |BoolField(tag, b)| <= i <= dAtA.Length
    modifies dAtA
    ensures j == i - |BoolField(tag, b)|
    ensures dAtA[..] == Patch(old(dAtA[..]), i, BoolField(tag, b))
  {
    hide Patch;
    j := i;
    PatchNone(dAtA[..], i);
    if b {
      PatchTwice(dAtA[..], i, [tag], [1]);
      assert [tag] + [1] == [tag, 1];
      j := PutTag(dAtA, j, 1);
      j := PutTag(dAtA, j, tag);
    }
  }

  method PutInt(dAtA: array<Byte>, i: nat, tag: Byte, x: Int32) returns (j: nat)
    requires |IntField(tag, x)| <= i <= dAtA.Length
    modifies dAtA
    ensures j == i - |IntField(tag, x)|
    ensures dAtA[..] == Patch(old(dAtA[..]), i, IntField(tag, x))
  {
    hide Patch, VarintBytes;
    j := i;
    PatchNone(dAtA[..], i);
    if x != 0 {
      PatchTwice(dAtA[..], i, [tag], VarintBytes(ToWord(x)));
      j := EncodeVarint(dAtA, j, ToWord(x));
      j := PutTag(dAtA, j, tag);
    }
  }

  /** Copies `bs` so that it ends at `i`. */
  method PutBytes(dAtA: array<Byte>, i: nat, bs: seq<Byte>) returns (j: nat)
    requires |bs| <= i <= dAtA.Length
    modifies dAtA
    ensures j == i - |bs| && dAtA[..] == Patch(old(dAtA[..]), i, bs)
  {
    j := i - |bs|;
    forall k | 0 <= k < |bs| {
      dAtA[j + k] := bs[k];
    }
    assert dAtA[j..i] == bs;
    assert dAtA[..] == dAtA[..j] + dAtA[j..i] + dAtA[i..];
  }

  /** Writes the length `size` and the tag in front of the value `bs`, which ends at `end` and begins at `i`. */
  method PutHeader(dAtA: array<Byte>, i: nat, tag: Byte, size: nat,
                   ghost before: seq<Byte>, ghost end: nat, ghost bs: seq<Byte>) returns (j: nat)
    requires |before| == dAtA.Length < TWO63 && end <= |before| && |LenField(tag, bs)| <= end
    requires size == |bs| && i == end - size
    requires dAtA[..] == Patch(before, end, bs)
    modifies dAtA
    ensures j == end - |LenField(tag, bs)|
    ensures dAtA[..] == Patch(before, end, LenField(tag, bs))
  {
    hide Patch, VarintBytes;
    PatchTwice(before, end, VarintBytes(size), bs);
    PatchTwice(before, end, [tag], VarintBytes(size) + bs);
    assert [tag] + (VarintBytes(size) + bs) == LenField(tag, bs);
    j := EncodeVarint(dAtA, i, size);
    j := PutTag(dAtA, j, tag);
  }

  method PutLen(dAtA: array<Byte>, i: nat, tag: Byte, bs: seq<Byte>) returns (j: nat)
    requires |LenField(tag, bs)| <= i <= dAtA.Length < TWO63
    modifies dAtA
    ensures j == i - |LenField(tag, bs)|
    ensures dAtA[..] == Patch(old(dAtA[..]), i, LenField(tag, bs))
  {
    hide Patch;
    ghost var before := dAtA[..];
    j := PutBytes(dAtA, i, bs);
    j := PutHeader(dAtA, j, tag, |bs|, before, i, bs);
  }

  // ---------- the five messages; each writes into dAtA[..end] and returns its size ----------

  method MarshalEntry(e: Entry, dAtA: array<Byte>, end: nat) returns (size: nat)
    requires |EncodeEntry(e)| <= end <= dAtA.Length < TWO63
    modifies dAtA
    ensures size == |EncodeEntry(e)|
    ensures dAtA[..] == Patch(old(dAtA[..]), end, EncodeEntry(e))
  {
    hide Patch, LenField, IntField, BoolField;
    ghost var before: seq<Byte> := dAtA[..];
    ghost var f1, f2, f3 := LenField(0x0a, e.block.keyString), IntField(0x10, e.priority), BoolField(0x18, e.cancel);
    ghost var f4, f5 := IntField(0x20, e.wantType), BoolField(0x28, e.sendDontHave);
    PatchTwice(before, end, f4, f5);
    PatchTwice(before, end, f3, f4 + f5);
    PatchTwice(before, end, f2, f3 + (f4 + f5));
    PatchTwice(before, end, f1, f2 + (f3 + (f4 + f5)));
    var i := end;
    i := PutBool(dAtA, i, 0x28, e.sendDontHave);
    i := PutInt(dAtA, i, 0x20, e.wantType);
    i := PutBool(dAtA, i, 0x18, e.cancel);
    i := PutInt(dAtA, i, 0x10, e.priority);
    i := PutLen(dAtA, i, 0x0a, e.block.keyString);
    size := end - i;
  }

  method MarshalBlock(b: Block, dAtA: array<Byte>, end: nat) returns (size: nat)
    requires |EncodeBlock(b)| <= end <= dAtA.Length < TWO63
    modifies dAtA
    ensures size == |EncodeBlock(b)|
    ensures dAtA[..] == Patch(old(dAtA[..]), end, EncodeBlock(b))
  {
    hide Patch, LenField;
    PatchNone(dAtA[..], end);
    PatchTwice(dAtA[..], end, OptField(0x0a, b.prefix), OptField(0x12, b.data));
    var i := end;
    if |b.data| > 0 {
      i := PutLen(dAtA, i, 0x12, b.data);
    }
    PatchNone(dAtA[..], i);
    if |b.prefix| > 0 {
      i := PutLen(dAtA, i, 0x0a, b.prefix);
    }
    size := end - i;
  }

  method MarshalPresence(p: BlockPresence, dAtA: array<Byte>, end: nat) returns (size: nat)
    requires |EncodePresence(p)| <= end <= dAtA.Length < TWO63
    modifies dAtA
    ensures size == |EncodePresence(p)|
    ensures dAtA[..] == Patch(old(dAtA[..]), end, EncodePresence(p))
  {
    hide Patch, LenField, IntField;
    PatchTwice(dAtA[..], end, LenField(0x0a, p.cid.keyString), IntField(0x10, p.presence));
    var i := end;
    i := PutInt(dAtA, i, 0x10, p.presence);
    i := PutLen(dAtA, i, 0x0a, p.cid.keyString);
    size := end - i;
  }

  /** The elements from `k` on, given those from `k + 1` on. */
  lemma RepeatedFrom<T>(tag: Byte, enc: T -> seq<Byte>, xs: seq<T>, k: nat)
    requires k < |xs|
    ensures Repeated(tag, enc, xs[k..]) == LenField(tag, enc(xs[k])) + Repeated(tag, enc, xs[k + 1..])
    ensures |enc(xs[k])| <= |LenField(tag, enc(xs[k]))|
  {
    assert xs[k..][1..] == xs[k + 1..];
  }

  lemma {:induction false} SuffixFits<T>(tag: Byte, enc: T -> seq<Byte>, xs: seq<T>, k: nat)
    requires k <= |xs|
    ensures |Repeated(tag, enc, xs[k..])| <= |Repeated(tag, enc, xs)|
    decreases k
  {
    hide LenField;
    if k == 0 {
      assert xs[0..] == xs;
    } else {
      SuffixFits(tag, enc, xs, k - 1);
      RepeatedFrom(tag, enc, xs, k - 1);
    }
  }

  method MarshalEntries(xs: seq<Entry>, dAtA: array<Byte>, end: nat) returns (i: nat)
    requires |Repeated(0x0a, EncodeEntry, xs)| <= end <= dAtA.Length < TWO63
    modifies dAtA
    ensures i == end - |Repeated(0x0a, EncodeEntry, xs)|
    ensures dAtA[..] == Patch(old(dAtA[..]), end, Repeated(0x0a, EncodeEntry, xs))
  {
    hide Patch, LenField, Repeated, EncodeEntry;
    ghost var before: seq<Byte> := dAtA[..];
    PatchNone(before, end);
    i := end;
    var iNdEx := |xs|;
    RepeatedEnd(0x0a, EncodeEntry, xs);
    while iNdEx > 0
      invariant 0 <= iNdEx <= |xs|
      invariant |Repeated(0x0a, EncodeEntry, xs[iNdEx..])| <= end
      invariant i == end - |Repeated(0x0a, EncodeEntry, xs[iNdEx..])|
      invariant dAtA[..] == Patch(before, end, Repeated(0x0a, EncodeEntry, xs[iNdEx..]))
    {
      iNdEx := iNdEx - 1;
      SuffixFits(0x0a, EncodeEntry, xs, iNdEx);
      RepeatedFrom(0x0a, EncodeEntry, xs, iNdEx);
      ghost var now: seq<Byte> := dAtA[..];
      PatchTwice(before, end, LenField(0x0a, EncodeEntry(xs[iNdEx])), Repeated(0x0a, EncodeEntry, xs[iNdEx + 1..]));
      var size := MarshalEntry(xs[iNdEx], dAtA, i);
      i := PutHeader(dAtA, i - size, 0x0a, size, now, i, EncodeEntry(xs[iNdEx]));
    }
    assert xs[0..] == xs;
  }

  lemma RepeatedEnd<T>(tag: Byte, enc: T -> seq<Byte>, xs: seq<T>)
    ensures Repeated(tag, enc, xs[|xs|..]) == []
  {
  }

  method MarshalPayload(xs: seq<Block>, dAtA: array<Byte>, end: nat) returns (i: nat)
    requires |Repeated(0x1a, EncodeBlock, xs)| <= end <= dAtA.Length < TWO63
    modifies dAtA
    ensures i == end - |Repeated(0x1a, EncodeBlock, xs)|
    ensures dAtA[..] == Patch(old(dAtA[..]), end, Repeated(0x1a, EncodeBlock, xs))
  {
    hide Patch, LenField, Repeated, EncodeBlock;
    ghost var before: seq<Byte> := dAtA[..];
    PatchNone(before, end);
    i := end;
    var iNdEx := |xs|;
    RepeatedEnd(0x1a, EncodeBlock, xs);
    while iNdEx > 0
      invariant 0 <= iNdEx <= |xs|
      invariant |Repeated(0x1a, EncodeBlock, xs[iNdEx..])| <= end
      invariant i == end - |Repeated(0x1a, EncodeBlock, xs[iNdEx..])|
      invariant dAtA[..] == Patch(before, end, Repeated(0x1a, EncodeBlock, xs[iNdEx..]))
    {
      iNdEx := iNdEx - 1;
      SuffixFits(0x1a, EncodeBlock, xs, iNdEx);
      RepeatedFrom(0x1a, EncodeBlock, xs, iNdEx);
      ghost var now: seq<Byte> := dAtA[..];
      PatchTwice(before, end, LenField(0x1a, EncodeBlock(xs[iNdEx])), Repeated(0x1a, EncodeBlock, xs[iNdEx + 1..]));
      var size := MarshalBlock(xs[iNdEx], dAtA, i);
      i := PutHeader(dAtA, i - size, 0x1a, size, now, i, EncodeBlock(xs[iNdEx]));
    }
    assert xs[0..] == xs;
  }

  method MarshalPresences(xs: seq<BlockPresence>, dAtA: array<Byte>, end: nat) returns (i: nat)
    requires |Repeated(0x22, EncodePresence, xs)| <= end <= dAtA.Length < TWO63
    modifies dAtA
    ensures i == end - |Repeated(0x22, EncodePresence, xs)|
    ensures dAtA[..] == Patch(old(dAtA[..]), end, Repeated(0x22, EncodePresence, xs))
  {
    hide Patch, LenField, Repeated, EncodePresence;
    ghost var before: seq<Byte> := dAtA[..];
    PatchNone(before, end);
    i := end;
    var iNdEx := |xs|;
    RepeatedEnd(0x22, EncodePresence, xs);
    while iNdEx > 0
      invariant 0 <= iNdEx <= |xs|
      invariant |Repeated(0x22, EncodePresence, xs[iNdEx..])| <= end
      invariant i == end - |Repeated(0x22, EncodePresence, xs[iNdEx..])|
      invariant dAtA[..] == Patch(before, end, Repeated(0x22, EncodePresence, xs[iNdEx..]))
    {
      iNdEx := iNdEx - 1;
      SuffixFits(0x22, EncodePresence, xs, iNdEx);
      RepeatedFrom(0x22, EncodePresence, xs, iNdEx);
      ghost var now: seq<Byte> := dAtA[..];
      PatchTwice(before, end, LenField(0x22, EncodePresence(xs[iNdEx])),
                 Repeated(0x22, EncodePresence, xs[iNdEx + 1..]));
      var size := MarshalPresence(xs[iNdEx], dAtA, i);
      i := PutHeader(dAtA, i - size, 0x22, size, now, i, EncodePresence(xs[iNdEx]));
    }
    assert xs[0..] == xs;
  }

  method MarshalRawBlocks(xs: seq<seq<Byte>>, dAtA: array<Byte>, end: nat) returns (i: nat)
    requires |Repeated(0x12, EncodeBytes, xs)| <= end <= dAtA.Length < TWO63
    modifies dAtA
    ensures i == end - |Repeated(0x12, EncodeBytes, xs)|
    ensures dAtA[..] == Patch(old(dAtA[..]), end, Repeated(0x12, EncodeBytes, xs))
  {
    hide Patch, LenField, Repeated;
    ghost var before: seq<Byte> := dAtA[..];
    PatchNone(before, end);
    i := end;
    var iNdEx := |xs|;
    RepeatedEnd(0x12, EncodeBytes, xs);
    while iNdEx > 0
      invariant 0 <= iNdEx <= |xs|
      invariant |Repeated(0x12, EncodeBytes, xs[iNdEx..])| <= end
      invariant i == end - |Repeated(0x12, EncodeBytes, xs[iNdEx..])|
      invariant dAtA[..] == Patch(before, end, Repeated(0x12, EncodeBytes, xs[iNdEx..]))
    {
      iNdEx := iNdEx - 1;
      SuffixFits(0x12, EncodeBytes, xs, iNdEx);
      RepeatedFrom(0x12, EncodeBytes, xs, iNdEx);
      PatchTwice(before, end, LenField(0x12, xs[iNdEx]), Repeated(0x12, EncodeBytes, xs[iNdEx + 1..]));
      i := PutLen(dAtA, i, 0x12, xs[iNdEx]);
    }
    assert xs[0..] == xs;
  }

  method MarshalWantlist(w: Wantlist, dAtA: array<Byte>, end: nat) returns (size: nat)
    requires |EncodeWantlist(w)| <= end <= dAtA.Length < TWO63
    modifies dAtA
    ensures size == |EncodeWantlist(w)|
    ensures dAtA[..] == Patch(old(dAtA[..]), end, EncodeWantlist(w))
  {
    hide Patch, Repeated, BoolField;
    PatchTwice(dAtA[..], end, Repeated(0x0a, EncodeEntry, w.entries), BoolField(0x10, w.full));
    var i := PutBool(dAtA, end, 0x10, w.full);
    i := MarshalEntries(w.entries, dAtA, i);
    size := end - i;
  }

  method MarshalMessage(m: Message, dAtA: array<Byte>, end: nat) returns (size: nat)
    requires |EncodeMessage(m)| <= end <= dAtA.Length < TWO63
    modifies dAtA
    ensures size == |EncodeMessage(m)|
    ensures dAtA[..] == Patch(old(dAtA[..]), end, EncodeMessage(m))
  {
    hide Patch, Repeated, LenField, IntField, EncodeWantlist;
    ghost var before: seq<Byte> := dAtA[..];
    ghost var f1, f2 := LenField(0x0a, EncodeWantlist(m.wantlist)), Repeated(0x12, EncodeBytes, m.blocks);
    ghost var f3, f4 := Repeated(0x1a, EncodeBlock, m.payload), Repeated(0x22, EncodePresence, m.blockPresences);
    ghost var f5 := IntField(0x28, m.pendingBytes);
    PatchTwice(before, end, f4, f5);
    PatchTwice(before, end, f3, f4 + f5);
    PatchTwice(before, end, f2, f3 + (f4 + f5));
    PatchTwice(before, end, f1, f2 + (f3 + (f4 + f5)));
    ShorterThanField(0x0a, EncodeWantlist(m.wantlist));
    var i := end;
    i := PutInt(dAtA, i, 0x28, m.pendingBytes);
    i := MarshalPresences(m.blockPresences, dAtA, i);
    i := MarshalPayload(m.payload, dAtA, i);
    i := MarshalRawBlocks(m.blocks, dAtA, i);
    ghost var now: seq<Byte> := dAtA[..];
    var n := MarshalWantlist(m.wantlist, dAtA, i);
    i := PutHeader(dAtA, i - n, 0x0a, n, now, i, EncodeWantlist(m.wantlist));
    size := end - i;
  }

  /** A buffer of the computed size is filled completely, with the bytes of the forward serializer. */
  method Marshal(m: Message) returns (bytes: seq<Byte>)
    requires |EncodeMessage(m)| < TWO63
    ensures bytes == EncodeMessage(m)
  {
    hide EncodeMessage;
    var size := MessageSize(m);
    var dAtA := new Byte[size](_ => 0);
    var n := MarshalMessage(m, dAtA, size);
    bytes := dAtA[..n];
  }
}
