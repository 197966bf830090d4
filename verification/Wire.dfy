/**
 Fields on the wire: one field read at an index, unknown fields skipped, a
 message decoded by folding its fields. The decoder is generic in the message:
 a `Codec` gives the kind of each field number and what a field does.
 */
module Wire {
  import opened Types
  import opened Varints

  /** What a message expects under a field number. */
  datatype Kind = VarintKind | BytesKind | UnknownKind

  datatype Field =
    | VarintField(num: int, v: Word)
    | BytesField(num: int, bs: seq<Byte>)
    | Skipped

  datatype Codec<!M> = Codec(schema: int -> Kind, apply: (M, Field) -> Result<M, Error>)

  // ---------- skipping ----------

  /** The length of the value behind a tag of the given wire type, 3 and 4 having none. */
  function ValueEnd(d: seq<Byte>, i: nat, wireType: nat): (r: Result<nat, Error>)
    requires i <= |d|
    ensures r.Ok? ==> i <= r.value
  {
    match wireType
    case 0 => (match ReadVarint(d, i) case Ok(v) => Ok(v.1) case Err(e) => Err(e))
    case 1 => Ok(i + 8)
    case 2 =>
      (match ReadVarint(d, i)
       case Err(e) => Err(e)
       case Ok(v) =>
         if v.0 >= TWO63 then Err(InvalidLength)
         else if v.1 + v.0 >= TWO63 then Err(InvalidLength)
         else Ok(v.1 + v.0))
    case 5 => Ok(i + 4)
    case _ => if wireType == 3 || wireType == 4 then Ok(i) else Err(IllegalWireType)
  }

  /** The index behind the field that begins at `i`, inside `depth` open groups. */
  function SkipFrom(d: seq<Byte>, i: nat, depth: nat): (r: Result<nat, Error>)
    ensures r.Ok? ==> i < r.value
    decreases |d| - i
  {
    if i >= |d| then Err(UnexpectedEOF)
    else
      match ReadVarint(d, i)
      case Err(e) => Err(e)
      case Ok(tag) =>
        var wireType := tag.0 % 8;
        if wireType == 4 && depth == 0 then Err(UnexpectedEndOfGroup)
        else
          match ValueEnd(d, tag.1, wireType)
          case Err(e) => Err(e)
          case Ok(j) =>
            var depth' := if wireType == 3 then depth + 1 else if wireType == 4 then depth - 1 else depth;
            if depth' == 0 then Ok(j) else SkipFrom(d, j, depth')
  }

  // ---------- one field ----------

  /** A length-delimited value at `i`: its bounds. */
  function ReadLength(d: seq<Byte>, i: nat): (r: Result<(nat, nat), Error>)
    requires i <= |d|
    ensures r.Ok? ==> i < r.value.0 <= r.value.1 <= |d|
  {
    match ReadVarint(d, i)
    case Err(e) => Err(e)
    case Ok(v) =>
      if v.0 >= TWO63 then Err(InvalidLength)
      else if v.1 + v.0 >= TWO63 then Err(InvalidLength)
      else if v.1 + v.0 > |d| then Err(UnexpectedEOF)
      else Ok((v.1, v.1 + v.0))
  }

  /** The field at `i` and the index behind it. */
  function NextField(schema: int -> Kind, d: seq<Byte>, i: nat): (r: Result<(Field, nat), Error>)
    requires i < |d|
    ensures r.Ok? ==> i < r.value.1 <= |d|
  {
    match ReadVarint(d, i)
    case Err(e) => Err(e)
    case Ok(tag) =>
      var fieldNum := ToInt32(tag.0 / 8);
      var wireType := tag.0 % 8;
      if wireType == 4 then Err(EndGroupForNonGroup)
      else if fieldNum <= 0 then Err(IllegalTag)
      else
        match schema(fieldNum)
        case BytesKind =>
          if wireType != 2 then Err(WrongWireType)
          else
            (match ReadLength(d, tag.1)
             case Err(e) => Err(e)
             case Ok(b) => Ok((BytesField(fieldNum, d[b.0..b.1]), b.1)))
        case VarintKind =>
          if wireType != 0 then Err(WrongWireType)
          else
            (match ReadVarint(d, tag.1)
             case Err(e) => Err(e)
             case Ok(v) => Ok((VarintField(fieldNum, v.0), v.1)))
        case UnknownKind =>
          (match SkipFrom(d[i..], 0, 0)
           case Err(e) => Err(e)
           case Ok(n) =>
             if i + n >= TWO63 then Err(InvalidLength)
             else if i + n > |d| then Err(UnexpectedEOF)
             else Ok((Skipped, i + n)))
  }

  /** Applies to `m` the fields of `d` from `i` on. */
  function Decode<M>(codec: Codec<M>, m: M, d: seq<Byte>, i: nat): Result<M, Error>
    requires i <= |d|
    decreases |d| - i
  {
    if i == |d| then Ok(m)
    else
      match NextField(codec.schema, d, i)
      case Err(e) => Err(e)
      case Ok(f) =>
        match codec.apply(m, f.0)
        case Err(e) => Err(e)
        case Ok(m') => Decode(codec, m', d, f.1)
  }

  /** What makes a field unreadable, in the order in which it is found out. */
  lemma FieldRefused(schema: int -> Kind, d: seq<Byte>, i: nat)
    requires i < |d|
    ensures match ReadVarint(d, i)
            case Err(e) => NextField(schema, d, i) == Err(e)
            case Ok(tag) =>
              var num, wireType := ToInt32(tag.0 / 8), tag.0 % 8;
              if wireType == 4 then NextField(schema, d, i) == Err(EndGroupForNonGroup)
              else if num <= 0 then NextField(schema, d, i) == Err(IllegalTag)
              else
                && (schema(num) == BytesKind && wireType != 2 ==> NextField(schema, d, i) == Err(WrongWireType))
                && (schema(num) == VarintKind && wireType != 0 ==> NextField(schema, d, i) == Err(WrongWireType))
                && (schema(num) == BytesKind && wireType == 2 ==>
                      match ReadVarint(d, tag.1)
                      case Err(e) => NextField(schema, d, i) == Err(e)
                      case Ok(len) =>
                        if len.0 >= TWO63 || len.1 + len.0 >= TWO63 then NextField(schema, d, i) == Err(InvalidLength)
                        else if len.1 + len.0 > |d| then NextField(schema, d, i) == Err(UnexpectedEOF)
                        else NextField(schema, d, i)
                             == Ok((BytesField(num, d[len.1..len.1 + len.0]), len.1 + len.0)))
  {
    hide ReadVarint, SkipFrom;
  }

  // ---------- the decoder is a fold ----------

  /** Both fail, or both succeed with the same value. */
  ghost predicate SameOutcome<T>(r: Result<T, Error>, r': Result<T, Error>) {
    r == r' || (r.Err? && r'.Err?)
  }

  /** The same value, at indices that are `k` apart. */
  ghost predicate Shifted<T>(r: Result<(T, nat), Error>, r': Result<(T, nat), Error>, k: nat) {
    match r
    case Ok(v) => r' == Ok((v.0, v.1 + k))
    case Err(_) => r'.Err?
  }

  lemma ReadVarintShift(a: seq<Byte>, b: seq<Byte>, i: nat)
    requires i <= |b|
    ensures Shifted(ReadVarint(b, i), ReadVarint(a + b, |a| + i), |a|)
  {
    var d := a + b;
    assert d[|a| + i..] == b[i..];
    if ReadVarint(b, i).Ok? {
      var j := ReadVarint(b, i).value.1;
      assert d[|a| + i..|a| + j] == b[i..j];
    }
  }

  lemma NextFieldShift(schema: int -> Kind, a: seq<Byte>, b: seq<Byte>, i: nat)
    requires i < |b| && |a| + |b| < TWO63
    ensures Shifted(NextField(schema, b, i), NextField(schema, a + b, |a| + i), |a|)
  {
    hide ReadVarint, SkipFrom;
    ReadVarintShift(a, b, i);
    var d := a + b;
    assert d[|a| + i..] == b[i..];
    if ReadVarint(b, i).Ok? {
      var j := ReadVarint(b, i).value.1;
      ReadVarintShift(a, b, j);
      if ReadLength(b, j).Ok? {
        var bounds := ReadLength(b, j).value;
        assert d[|a| + bounds.0..|a| + bounds.1] == b[bounds.0..bounds.1];
      }
    }
  }

  lemma {:induction false} DecodeShift<M>(codec: Codec<M>, m: M, a: seq<Byte>, b: seq<Byte>, i: nat)
    requires i <= |b| && |a| + |b| < TWO63
    ensures SameOutcome(Decode(codec, m, b, i), Decode(codec, m, a + b, |a| + i))
    decreases |b| - i
  {
    hide NextField;
    if i < |b| {
      NextFieldShift(codec.schema, a, b, i);
      if NextField(codec.schema, b, i).Ok? {
        var f := NextField(codec.schema, b, i).value;
        if codec.apply(m, f.0).Ok? {
          DecodeShift(codec, codec.apply(m, f.0).value, a, b, f.1);
        }
      }
    }
  }

  lemma {:induction false} VarintLenPrefix(a: seq<Byte>, b: seq<Byte>, k: nat)
    requires VarintLen(a, k).Ok?
    ensures VarintLen(a + b, k) == VarintLen(a, k)
    decreases |a|
  {
    if a[0] >= 128 {
      VarintLenPrefix(a[1..], b, k + 1);
      assert (a + b)[1..] == a[1..] + b;
    }
  }

  lemma ReadVarintPrefix(a: seq<Byte>, b: seq<Byte>, i: nat)
    requires i <= |a| && ReadVarint(a, i).Ok?
    ensures ReadVarint(a + b, i) == ReadVarint(a, i)
  {
    VarintLenPrefix(a[i..], b, 0);
    assert (a + b)[i..] == a[i..] + b;
    var j := ReadVarint(a, i).value.1;
    assert (a + b)[i..j] == a[i..j];
  }

  lemma {:induction false} SkipPrefix(a: seq<Byte>, b: seq<Byte>, i: nat, depth: nat)
    requires SkipFrom(a, i, depth).Ok?
    ensures SkipFrom(a + b, i, depth) == SkipFrom(a, i, depth)
    decreases |a| - i
  {
    hide ReadVarint;
    ReadVarintPrefix(a, b, i);
    var tag := ReadVarint(a, i).value;
    var wireType := tag.0 % 8;
    if wireType == 0 || wireType == 2 {
      ReadVarintPrefix(a, b, tag.1);
    }
    var j := ValueEnd(a, tag.1, wireType).value;
    var depth' := if wireType == 3 then depth + 1 else if wireType == 4 then depth - 1 else depth;
    if depth' != 0 {
      SkipPrefix(a, b, j, depth');
    }
  }

  lemma NextFieldPrefix(schema: int -> Kind, a: seq<Byte>, b: seq<Byte>, i: nat)
    requires i < |a| && NextField(schema, a, i).Ok?
    ensures NextField(schema, a + b, i) == NextField(schema, a, i)
  {
    hide ReadVarint, SkipFrom;
    var d := a + b;
    ReadVarintPrefix(a, b, i);
    var tag := ReadVarint(a, i).value;
    match schema(ToInt32(tag.0 / 8))
    case BytesKind =>
      ReadVarintPrefix(a, b, tag.1);
      var bounds := ReadLength(a, tag.1).value;
      assert d[bounds.0..bounds.1] == a[bounds.0..bounds.1];
    case VarintKind =>
      ReadVarintPrefix(a, b, tag.1);
    case UnknownKind =>
      SkipPrefix(a[i..], b, 0, 0);
      assert d[i..] == a[i..] + b;
  }

  lemma {:induction false} DecodePrefix<M>(codec: Codec<M>, m: M, a: seq<Byte>, b: seq<Byte>, i: nat)
    requires i <= |a| && Decode(codec, m, a, i).Ok?
    ensures Decode(codec, m, a + b, i) == Decode(codec, Decode(codec, m, a, i).value, a + b, |a|)
    decreases |a| - i
  {
    hide NextField;
    if i < |a| {
      NextFieldPrefix(codec.schema, a, b, i);
      var f := NextField(codec.schema, a, i).value;
      DecodePrefix(codec, codec.apply(m, f.0).value, a, b, f.1);
    }
  }

  /** If `a` decodes, then decoding `a + b` is decoding `b` from where `a` left off. */
  lemma DecodeConcat<M>(codec: Codec<M>, m: M, a: seq<Byte>, b: seq<Byte>)
    requires |a| + |b| < TWO63 && Decode(codec, m, a, 0).Ok?
    ensures SameOutcome(Decode(codec, m, a + b, 0), Decode(codec, Decode(codec, m, a, 0).value, b, 0))
  {
    DecodePrefix(codec, m, a, b, 0);
    DecodeShift(codec, Decode(codec, m, a, 0).value, a, b, 0);
  }

  // ---------- unknown fields ----------

  /** The bytes of one varint, of any encoding the readers accept. */
  ghost predicate IsVarint(bs: seq<Byte>) {
    && 1 <= |bs| <= 10
    && bs[|bs| - 1] < 128
    && forall i :: 0 <= i < |bs| - 1 ==> bs[i] >= 128
  }

  /** A field of any wire type, groups nesting to any depth. */
  datatype AnyField =
    | AnyVarint(tag: seq<Byte>, v: seq<Byte>)
    | AnyFixed64(tag: seq<Byte>, bs: seq<Byte>)
    | AnyBytes(tag: seq<Byte>, len: seq<Byte>, bs: seq<Byte>)
    | AnyGroup(tag: seq<Byte>, fields: FieldList, endTag: seq<Byte>)
    | AnyFixed32(tag: seq<Byte>, bs: seq<Byte>)

  datatype FieldList = NoFields | MoreFields(head: AnyField, tail: FieldList)

  ghost predicate IsTag(bs: seq<Byte>, wireType: nat) {
    IsVarint(bs) && Raw(bs) % TWO64 % 8 == wireType
  }

  ghost predicate WellFormed(f: AnyField) {
    match f
    case AnyVarint(tag, v) => IsTag(tag, 0) && IsVarint(v)
    case AnyFixed64(tag, bs) => IsTag(tag, 1) && |bs| == 8
    case AnyBytes(tag, len, bs) => IsTag(tag, 2) && IsVarint(len) && Raw(len) % TWO64 == |bs|
    case AnyGroup(tag, fields, endTag) => IsTag(tag, 3) && AllWellFormed(fields) && IsTag(endTag, 4)
    case AnyFixed32(tag, bs) => IsTag(tag, 5) && |bs| == 4
  }

  ghost predicate AllWellFormed(fs: FieldList) {
    match fs
    case NoFields => true
    case MoreFields(head, tail) => WellFormed(head) && AllWellFormed(tail)
  }

  function FieldBytes(f: AnyField): seq<Byte> {
    match f
    case AnyVarint(tag, v) => tag + v
    case AnyFixed64(tag, bs) => tag + bs
    case AnyBytes(tag, len, bs) => tag + len + bs
    case AnyGroup(tag, fields, endTag) => tag + ListBytes(fields) + endTag
    case AnyFixed32(tag, bs) => tag + bs
  }

  function ListBytes(fs: FieldList): seq<Byte> {
    match fs
    case NoFields => []
    case MoreFields(head, tail) => FieldBytes(head) + ListBytes(tail)
  }

  /** The bytes `bs` stand at `i` in `d`. */
  ghost predicate StandsAt(d: seq<Byte>, i: nat, bs: seq<Byte>) {
    i + |bs| <= |d| && d[i..i + |bs|] == bs
  }

  lemma StandsTwo(d: seq<Byte>, i: nat, a: seq<Byte>, b: seq<Byte>)
    requires StandsAt(d, i, a + b)
    ensures StandsAt(d, i, a) && StandsAt(d, i + |a|, b)
  {
    assert d[i..i + |a|] == (a + b)[..|a|];
    assert d[i + |a|..i + |a| + |b|] == (a + b)[|a|..];
  }

  lemma {:induction false} VarintLenOf(bs: seq<Byte>, rest: seq<Byte>, k: nat)
    requires 1 <= |bs| && |bs| + k <= 10 && bs[|bs| - 1] < 128
    requires forall i :: 0 <= i < |bs| - 1 ==> bs[i] >= 128
    ensures VarintLen(bs + rest, k) == Ok(|bs|)
    decreases |bs|
  {
    if |bs| > 1 {
      VarintLenOf(bs[1..], rest, k + 1);
      assert (bs + rest)[1..] == bs[1..] + rest;
    }
  }

  lemma ReadVarintAt(d: seq<Byte>, i: nat, bs: seq<Byte>)
    requires IsVarint(bs) && StandsAt(d, i, bs)
    ensures ReadVarint(d, i) == Ok((Raw(bs) % TWO64, i + |bs|))
  {
    VarintLenOf(bs, d[i + |bs|..], 0);
    assert d[i..] == bs + d[i + |bs|..];
  }

  lemma SkipStep(d: seq<Byte>, i: nat, tag: (Word, nat), j: nat, depth: nat)
    requires i < |d| && ReadVarint(d, i) == Ok(tag) && ValueEnd(d, tag.1, tag.0 % 8) == Ok(j)
    requires !(tag.0 % 8 == 4 && depth == 0)
    ensures var wireType := tag.0 % 8;
            var depth' := if wireType == 3 then depth + 1 else if wireType == 4 then depth - 1 else depth;
            SkipFrom(d, i, depth) == if depth' == 0 then Ok(j) else SkipFrom(d, j, depth')
  {
  }

  /** A field that is not a group is skipped in one step. */
  lemma SkipPlain(d: seq<Byte>, i: nat, f: AnyField, depth: nat)
    requires WellFormed(f) && !f.AnyGroup? && StandsAt(d, i, FieldBytes(f)) && |d| < TWO63
    ensures SkipFrom(d, i, depth)
            == if depth == 0 then Ok(i + |FieldBytes(f)|) else SkipFrom(d, i + |FieldBytes(f)|, depth)
  {
    hide ReadVarint, SkipFrom, IsVarint, Raw;
    NotEmptyVarint(f.tag);
    match f
    case AnyVarint(tag, v) =>
      StandsTwo(d, i, tag, v);
      ReadVarintAt(d, i, tag);
      ReadVarintAt(d, i + |tag|, v);
      SkipStep(d, i, (Raw(tag) % TWO64, i + |tag|), i + |FieldBytes(f)|, depth);
    case AnyFixed64(tag, bs) =>
      StandsTwo(d, i, tag, bs);
      ReadVarintAt(d, i, tag);
      SkipStep(d, i, (Raw(tag) % TWO64, i + |tag|), i + |FieldBytes(f)|, depth);
    case AnyBytes(tag, len, bs) =>
      StandsTwo(d, i, tag + len, bs);
      StandsTwo(d, i, tag, len);
      ReadVarintAt(d, i, tag);
      ReadVarintAt(d, i + |tag|, len);
      SkipStep(d, i, (Raw(tag) % TWO64, i + |tag|), i + |FieldBytes(f)|, depth);
    case AnyFixed32(tag, bs) =>
      StandsTwo(d, i, tag, bs);
      ReadVarintAt(d, i, tag);
      SkipStep(d, i, (Raw(tag) % TWO64, i + |tag|), i + |FieldBytes(f)|, depth);
  }

  /** Any well-formed field, with all its nested groups, is skipped to its end. */
  lemma {:induction false} SkipField(d: seq<Byte>, i: nat, f: AnyField, depth: nat)
    requires WellFormed(f) && StandsAt(d, i, FieldBytes(f)) && |d| < TWO63
    ensures SkipFrom(d, i, depth)
            == if depth == 0 then Ok(i + |FieldBytes(f)|) else SkipFrom(d, i + |FieldBytes(f)|, depth)
    decreases f
  {
    hide ReadVarint, IsVarint, SkipFrom, Raw;
    if f.AnyGroup? {
      StandsTwo(d, i, f.tag + ListBytes(f.fields), f.endTag);
      StandsTwo(d, i, f.tag, ListBytes(f.fields));
      NotEmptyVarint(f.endTag);
      NotEmptyVarint(f.tag);
      var body := i + |f.tag|;
      var end := body + |ListBytes(f.fields)|;
      ReadVarintAt(d, i, f.tag);
      SkipStep(d, i, (Raw(f.tag) % TWO64, body), body, depth);
      SkipList(d, body, f.fields, depth + 1);
      ReadVarintAt(d, end, f.endTag);
      SkipStep(d, end, (Raw(f.endTag) % TWO64, end + |f.endTag|), end + |f.endTag|, depth + 1);
    } else {
      SkipPlain(d, i, f, depth);
    }
  }

  lemma {:induction false} SkipList(d: seq<Byte>, i: nat, fs: FieldList, depth: nat)
    requires AllWellFormed(fs) && StandsAt(d, i, ListBytes(fs)) && |d| < TWO63 && depth > 0
    ensures SkipFrom(d, i, depth) == SkipFrom(d, i + |ListBytes(fs)|, depth)
    decreases fs
  {
    hide SkipFrom, FieldBytes, WellFormed;
    match fs
    case NoFields =>
    case MoreFields(head, tail) =>
      StandsTwo(d, i, FieldBytes(head), ListBytes(tail));
      SkipField(d, i, head, depth);
      SkipList(d, i + |FieldBytes(head)|, tail, depth);
  }

  lemma NotEmptyVarint(bs: seq<Byte>)
    requires IsVarint(bs)
    ensures |bs| >= 1
  {
  }

  /** The field number of a field, as the decoders compute it: an int32 cut from the tag. */
  ghost function FieldNumber(f: AnyField): int {
    ToInt32(Raw(f.tag) % TWO64 / 8)
  }

  ghost predicate IgnoresSkipped<M(!new)>(codec: Codec<M>) {
    forall m: M :: codec.apply(m, Skipped) == Ok(m)
  }

  /** A well-formed field of unknown number decodes to the message unchanged. */
  lemma UnknownFieldDecodes<M(!new)>(codec: Codec<M>, m: M, f: AnyField)
    requires WellFormed(f) && |FieldBytes(f)| < TWO63
    requires FieldNumber(f) > 0 && codec.schema(FieldNumber(f)) == UnknownKind
    requires IgnoresSkipped(codec)
    ensures Decode(codec, m, FieldBytes(f), 0) == Ok(m)
  {
    hide ReadVarint, SkipFrom, IsVarint;
    var d := FieldBytes(f);
    assert d[0..|d|] == d && d[0..] == d;
    SkipField(d, 0, f, 0);
    TagFirst(f);
    ReadVarintAt(d, 0, f.tag);
    assert NextField(codec.schema, d, 0) == Ok((Skipped, |d|));
  }

  lemma TagFirst(f: AnyField)
    requires WellFormed(f)
    ensures IsVarint(f.tag) && StandsAt(FieldBytes(f), 0, f.tag) && Raw(f.tag) % TWO64 % 8 != 4
  {
    assert FieldBytes(f)[..|f.tag|] == f.tag;
  }

  /**
   Inserting any well-formed unknown field between two groups of fields changes
   nothing: neither the result, nor whether there is one.
   */
  lemma UnknownFieldChangesNothing<M(!new)>(codec: Codec<M>, m: M, a: seq<Byte>, f: AnyField, b: seq<Byte>)
    requires Decode(codec, m, a, 0).Ok?
    requires WellFormed(f) && |a| + |FieldBytes(f)| + |b| < TWO63
    requires FieldNumber(f) > 0 && codec.schema(FieldNumber(f)) == UnknownKind
    requires IgnoresSkipped(codec)
    ensures SameOutcome(Decode(codec, m, a + FieldBytes(f) + b, 0), Decode(codec, m, a + b, 0))
  {
    hide Decode, WellFormed, FieldBytes, FieldNumber, IgnoresSkipped;
    var m1 := Decode(codec, m, a, 0).value;
    DecodeConcat(codec, m, a, b);
    assert a + FieldBytes(f) + b == a + (FieldBytes(f) + b);
    DecodeConcat(codec, m, a, FieldBytes(f) + b);
    UnknownFieldDecodes(codec, m1, f);
    DecodeConcat(codec, m1, FieldBytes(f), b);
  }
}
