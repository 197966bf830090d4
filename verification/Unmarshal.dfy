/**
 The looped parsers: one loop per message over an index into the buffer, with
 varints, lengths and skipped fields read in place. Each is proved to return
 exactly what the fold over fields returns, errors included.
 */
module Unmarshalling {
  import opened Types
  import opened Varints
  import opened Wire
  import opened Messages

  method SkipMessage(dAtA: seq<Byte>) returns (r: Result<nat, Error>)
    ensures r == SkipFrom(dAtA, 0, 0)
  {
    hide ReadVarint;
    var l, iNdEx, depth := |dAtA|, 0, 0;
    while iNdEx < l
      invariant 0 <= iNdEx && 0 <= depth
      invariant SkipFrom(dAtA, 0, 0) == SkipFrom(dAtA, iNdEx, depth)
      decreases l - iNdEx
    {
      ghost var start := iNdEx;
      var wire := DecodeVarint(dAtA, iNdEx, TWO64);
      if wire.Err? {
        return Err(wire.error);
      }
      iNdEx := wire.value.1;
      var wireType := wire.value.0 % 8;
      match wireType {
        case 0 =>
          var v := DecodeVarint(dAtA, iNdEx, TWO64);
          if v.Err? {
            return Err(v.error);
          }
          iNdEx := v.value.1;
        case 1 =>
          iNdEx := iNdEx + 8;
        case 2 =>
          var length := DecodeVarint(dAtA, iNdEx, TWO64);
          if length.Err? {
            return Err(length.error);
          }
          if length.value.0 >= TWO63 {
            return Err(InvalidLength);
          }
          iNdEx := length.value.1 + length.value.0;
          if iNdEx >= TWO63 {
            return Err(InvalidLength);
          }
        case 3 =>
          depth := depth + 1;
        case 4 =>
          if depth == 0 {
            return Err(UnexpectedEndOfGroup);
          }
          depth := depth - 1;
        case 5 =>
          iNdEx := iNdEx + 4;
        case _ =>
          return Err(IllegalWireType);
      }
      if depth == 0 {
        return Ok(iNdEx);
      }
    }
    return Err(UnexpectedEOF);
  }

  method ReadBounds(dAtA: seq<Byte>, i: nat) returns (r: Result<(nat, nat), Error>)
    requires i <= |dAtA|
    ensures r == ReadLength(dAtA, i)
  {
    hide ReadVarint;
    var msglen := DecodeVarint(dAtA, i, TWO64);
    if msglen.Err? {
      return Err(msglen.error);
    }
    if msglen.value.0 >= TWO63 {
      return Err(InvalidLength);
    }
    var postIndex := msglen.value.1 + msglen.value.0;
    if postIndex >= TWO63 {
      return Err(InvalidLength);
    }
    if postIndex > |dAtA| {
      return Err(UnexpectedEOF);
    }
    return Ok((msglen.value.1, postIndex));
  }

  /** Skips the unknown field that begins at `preIndex`. */
  method SkipUnknown(dAtA: seq<Byte>, preIndex: nat) returns (r: Result<nat, Error>)
    requires preIndex < |dAtA|
    ensures match SkipFrom(dAtA[preIndex..], 0, 0)
            case Err(e) => r == Err(e)
            case Ok(n) =>
              r == if preIndex + n >= TWO63 then Err(InvalidLength)
                   else if preIndex + n > |dAtA| then Err(UnexpectedEOF)
                   else Ok(preIndex + n)
  {
    hide SkipFrom;
    var skippy := SkipMessage(dAtA[preIndex..]);
    if skippy.Err? {
      return Err(skippy.error);
    }
    if preIndex + skippy.value >= TWO63 {
      return Err(InvalidLength);
    }
    if preIndex + skippy.value > |dAtA| {
      return Err(UnexpectedEOF);
    }
    return Ok(preIndex + skippy.value);
  }

  /** The tag of the field at `i`: its number, its wire type and the index behind it. */
  method ReadTag(dAtA: seq<Byte>, i: nat) returns (r: Result<(Int32, nat, nat), Error>)
    requires i < |dAtA|
    ensures match ReadVarint(dAtA, i)
            case Err(e) => r == Err(e)
            case Ok(tag) =>
              r == if tag.0 % 8 == 4 then Err(EndGroupForNonGroup)
                   else if ToInt32(tag.0 / 8) <= 0 then Err(IllegalTag)
                   else Ok((ToInt32(tag.0 / 8), tag.0 % 8, tag.1))
  {
    hide ReadVarint;
    var wire := DecodeVarint(dAtA, i, TWO64);
    if wire.Err? {
      return Err(wire.error);
    }
    var fieldNum, wireType := ToInt32(wire.value.0 / 8), wire.value.0 % 8;
    if wireType == 4 {
      return Err(EndGroupForNonGroup);
    }
    if fieldNum <= 0 {
      return Err(IllegalTag);
    }
    return Ok((fieldNum, wireType, wire.value.1));
  }

  /** Reads a varint into an int32 field. */
  method ReadInt32(dAtA: seq<Byte>, i: nat) returns (r: Result<(Int32, nat), Error>)
    requires i <= |dAtA|
    ensures match ReadVarint(dAtA, i)
            case Err(e) => r == Err(e)
            case Ok(v) => r == Ok((ToInt32(v.0), v.1))
  {
    hide ReadVarint;
    var v := DecodeVarint(dAtA, i, TWO32);
    if v.Err? {
      return Err(v.error);
    }
    return Ok((ToInt32(v.value.0), v.value.1));
  }

  /** Reads a varint into a bool field. */
  method ReadBool(dAtA: seq<Byte>, i: nat) returns (r: Result<(bool, nat), Error>)
    requires i <= |dAtA|
    ensures match ReadVarint(dAtA, i)
            case Err(e) => r == Err(e)
            case Ok(v) => r == Ok((v.0 != 0, v.1))
  {
    hide ReadVarint;
    var v := DecodeVarint(dAtA, i, TWO64);
    if v.Err? {
      return Err(v.error);
    }
    return Ok((v.value.0 != 0, v.value.1));
  }

  method UnmarshalEntry(isCid: CidCheck, e: Entry, dAtA: seq<Byte>) returns (r: Result<Entry, Error>)
    ensures r == Decode(EntryCodec(isCid), e, dAtA, 0)
  {
    hide ReadVarint, ReadLength, SkipFrom, ToInt32;
    ghost var codec := EntryCodec(isCid);
    var m, iNdEx := e, 0;
    while iNdEx < |dAtA|
      invariant 0 <= iNdEx <= |dAtA|
      invariant Decode(codec, e, dAtA, 0) == Decode(codec, m, dAtA, iNdEx)
      decreases |dAtA| - iNdEx
    {
      var preIndex := iNdEx;
      var tag := ReadTag(dAtA, iNdEx);
      if tag.Err? {
        return Err(tag.error);
      }
      var (fieldNum, wireType, at) := tag.value;
      if fieldNum == 1 {
        if wireType != 2 {
          return Err(WrongWireType);
        }
        var b := ReadBounds(dAtA, at);
        if b.Err? {
          return Err(b.error);
        }
        var c := DecodeCid(isCid, dAtA[b.value.0..b.value.1]);
        if c.Err? {
          return Err(c.error);
        }
        m := m.(block := c.value);
        iNdEx := b.value.1;
      } else if 2 <= fieldNum <= 5 {
        if wireType != 0 {
          return Err(WrongWireType);
        }
        if fieldNum == 2 || fieldNum == 4 {
          var v := ReadInt32(dAtA, at);
          if v.Err? {
            return Err(v.error);
          }
          m := if fieldNum == 2 then m.(priority := v.value.0) else m.(wantType := v.value.0);
          iNdEx := v.value.1;
        } else {
          var v := ReadBool(dAtA, at);
          if v.Err? {
            return Err(v.error);
          }
          m := if fieldNum == 3 then m.(cancel := v.value.0) else m.(sendDontHave := v.value.0);
          iNdEx := v.value.1;
        }
      } else {
        var next := SkipUnknown(dAtA, preIndex);
        if next.Err? {
          return Err(next.error);
        }
        iNdEx := next.value;
      }
    }
    return Ok(m);
  }

  method UnmarshalWantlist(isCid: CidCheck, w: Wantlist, dAtA: seq<Byte>) returns (r: Result<Wantlist, Error>)
    ensures r == Decode(WantlistCodec(isCid), w, dAtA, 0)
  {
    hide ReadVarint, ReadLength, SkipFrom, ToInt32, EntryCodec;
    ghost var codec := WantlistCodec(isCid);
    var m, iNdEx := w, 0;
    while iNdEx < |dAtA|
      invariant 0 <= iNdEx <= |dAtA|
      invariant Decode(codec, w, dAtA, 0) == Decode(codec, m, dAtA, iNdEx)
      decreases |dAtA| - iNdEx
    {
      var preIndex := iNdEx;
      var tag := ReadTag(dAtA, iNdEx);
      if tag.Err? {
        return Err(tag.error);
      }
      var (fieldNum, wireType, at) := tag.value;
      if fieldNum == 1 {
        if wireType != 2 {
          return Err(WrongWireType);
        }
        var b := ReadBounds(dAtA, at);
        if b.Err? {
          return Err(b.error);
        }
        var e := UnmarshalEntry(isCid, NO_ENTRY, dAtA[b.value.0..b.value.1]);
        if e.Err? {
          return Err(e.error);
        }
        m := m.(entries := m.entries + [e.value]);
        iNdEx := b.value.1;
      } else if fieldNum == 2 {
        if wireType != 0 {
          return Err(WrongWireType);
        }
        var v := ReadBool(dAtA, at);
        if v.Err? {
          return Err(v.error);
        }
        m := m.(full := v.value.0);
        iNdEx := v.value.1;
      } else {
        var next := SkipUnknown(dAtA, preIndex);
        if next.Err? {
          return Err(next.error);
        }
        iNdEx := next.value;
      }
    }
    return Ok(m);
  }

  method UnmarshalBlock(b0: Block, dAtA: seq<Byte>) returns (r: Result<Block, Error>)
    ensures r == Decode(BlockCodec(), b0, dAtA, 0)
  {
    hide ReadVarint, ReadLength, SkipFrom, ToInt32;
    ghost var codec := BlockCodec();
    var m, iNdEx := b0, 0;
    while iNdEx < |dAtA|
      invariant 0 <= iNdEx <= |dAtA|
      invariant Decode(codec, b0, dAtA, 0) == Decode(codec, m, dAtA, iNdEx)
      decreases |dAtA| - iNdEx
    {
      var preIndex := iNdEx;
      var tag := ReadTag(dAtA, iNdEx);
      if tag.Err? {
        return Err(tag.error);
      }
      var (fieldNum, wireType, at) := tag.value;
      if fieldNum == 1 || fieldNum == 2 {
        if wireType != 2 {
          return Err(WrongWireType);
        }
        var b := ReadBounds(dAtA, at);
        if b.Err? {
          return Err(b.error);
        }
        var bytes := dAtA[b.value.0..b.value.1];
        m := if fieldNum == 1 then m.(prefix := bytes) else m.(data := bytes);
        iNdEx := b.value.1;
      } else {
        var next := SkipUnknown(dAtA, preIndex);
        if next.Err? {
          return Err(next.error);
        }
        iNdEx := next.value;
      }
    }
    return Ok(m);
  }

  method UnmarshalPresence(isCid: CidCheck, p: BlockPresence, dAtA: seq<Byte>) returns (r: Result<BlockPresence, Error>)
    ensures r == Decode(PresenceCodec(isCid), p, dAtA, 0)
  {
    hide ReadVarint, ReadLength, SkipFrom, ToInt32;
    ghost var codec := PresenceCodec(isCid);
    var m, iNdEx := p, 0;
    while iNdEx < |dAtA|
      invariant 0 <= iNdEx <= |dAtA|
      invariant Decode(codec, p, dAtA, 0) == Decode(codec, m, dAtA, iNdEx)
      decreases |dAtA| - iNdEx
    {
      var preIndex := iNdEx;
      var tag := ReadTag(dAtA, iNdEx);
      if tag.Err? {
        return Err(tag.error);
      }
      var (fieldNum, wireType, at) := tag.value;
      if fieldNum == 1 {
        if wireType != 2 {
          return Err(WrongWireType);
        }
        var b := ReadBounds(dAtA, at);
        if b.Err? {
          return Err(b.error);
        }
        var c := DecodeCid(isCid, dAtA[b.value.0..b.value.1]);
        if c.Err? {
          return Err(c.error);
        }
        m := m.(cid := c.value);
        iNdEx := b.value.1;
      } else if fieldNum == 2 {
        if wireType != 0 {
          return Err(WrongWireType);
        }
        var v := ReadInt32(dAtA, at);
        if v.Err? {
          return Err(v.error);
        }
        m := m.(presence := v.value.0);
        iNdEx := v.value.1;
      } else {
        var next := SkipUnknown(dAtA, preIndex);
        if next.Err? {
          return Err(next.error);
        }
        iNdEx := next.value;
      }
    }
    return Ok(m);
  }

  /** One length-delimited field of a message, its bytes already cut out. */
  method ApplyBytes(isCid: CidCheck, m: Message, fieldNum: Int32, bytes: seq<Byte>) returns (r: Result<Message, Error>)
    requires 1 <= fieldNum <= 4
    ensures r == ApplyMessage(isCid, m, BytesField(fieldNum, bytes))
  {
    hide Decode, WantlistCodec, BlockCodec, PresenceCodec;
    if fieldNum == 1 {
      var w := UnmarshalWantlist(isCid, m.wantlist, bytes);
      r := if w.Ok? then Ok(m.(wantlist := w.value)) else Err(w.error);
    } else if fieldNum == 2 {
      r := Ok(m.(blocks := m.blocks + [bytes]));
    } else if fieldNum == 3 {
      var b := UnmarshalBlock(NO_BLOCK, bytes);
      r := if b.Ok? then Ok(m.(payload := m.payload + [b.value])) else Err(b.error);
    } else {
      var p := UnmarshalPresence(isCid, NO_PRESENCE, bytes);
      r := if p.Ok? then Ok(m.(blockPresences := m.blockPresences + [p.value])) else Err(p.error);
    }
  }

  method UnmarshalMessage(isCid: CidCheck, m0: Message, dAtA: seq<Byte>) returns (r: Result<Message, Error>)
    ensures r == Decode(MessageCodec(isCid), m0, dAtA, 0)
  {
    hide ReadVarint, ReadLength, SkipFrom, ToInt32, WantlistCodec, BlockCodec, PresenceCodec;
    ghost var codec := MessageCodec(isCid);
    var m, iNdEx := m0, 0;
    while iNdEx < |dAtA|
      invariant 0 <= iNdEx <= |dAtA|
      invariant Decode(codec, m0, dAtA, 0) == Decode(codec, m, dAtA, iNdEx)
      decreases |dAtA| - iNdEx
    {
      var preIndex := iNdEx;
      var tag := ReadTag(dAtA, iNdEx);
      if tag.Err? {
        return Err(tag.error);
      }
      var (fieldNum, wireType, at) := tag.value;
      if 1 <= fieldNum <= 4 {
        if wireType != 2 {
          return Err(WrongWireType);
        }
        var b := ReadBounds(dAtA, at);
        if b.Err? {
          return Err(b.error);
        }
        var m' := ApplyBytes(isCid, m, fieldNum, dAtA[b.value.0..b.value.1]);
        if m'.Err? {
          return Err(m'.error);
        }
        m := m'.value;
        iNdEx := b.value.1;
      } else if fieldNum == 5 {
        if wireType != 0 {
          return Err(WrongWireType);
        }
        var v := ReadInt32(dAtA, at);
        if v.Err? {
          return Err(v.error);
        }
        m := m.(pendingBytes := v.value.0);
        iNdEx := v.value.1;
      } else {
        var next := SkipUnknown(dAtA, preIndex);
        if next.Err? {
          return Err(next.error);
        }
        iNdEx := next.value;
      }
    }
    return Ok(m);
  }
}
