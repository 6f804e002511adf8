/** The loops of the decoder, which fill buffers and advance a cursor, proved against the
    functions of AbiDecode and AbiTypes. */
module AbiLoops {
  import opened Words
  import opened AbiTypes
  import opened AbiDecode

  /** The members decoded so far, followed by what the rest gives. */
  function Then<T>(front: seq<T>, rest: Result<seq<T>>): Result<seq<T>> {
    if rest.Ok? then Ok(front + rest.value) else rest
  }

  lemma ThenNone<T>(rest: Result<seq<T>>)
    ensures Then([], rest) == rest
  {
    if rest.Ok? {
      assert [] + rest.value == rest.value;
    }
  }

  lemma ThenDone<T>(front: seq<T>)
    ensures Then(front, Ok([])) == Ok(front)
  {
    assert front + [] == front;
  }

  lemma ThenOne<T>(front: seq<T>, x: T, rest: Result<seq<T>>)
    ensures Then(front, Then([x], rest)) == Then(front + [x], rest)
  {
    if rest.Ok? {
      assert front + ([x] + rest.value) == front + [x] + rest.value;
    }
  }

  function Plus(total: nat, rest: Result<nat>): Result<nat> {
    if rest.Ok? then Ok(total + rest.value) else rest
  }

  /** staticHeadSize: the sizes of the members are summed up to the first error. */
  method SumStaticHeadSize(f: Field) returns (r: Result<nat>)
    ensures r == StaticHeadSize(f)
    decreases f
  {
    match f
    case Struct(fs) =>
      var total: nat := 0;
      for i := 0 to |fs|
        invariant StaticHeadSizes(fs) == Plus(total, StaticHeadSizes(fs[i..]))
      {
        assert fs[i..][0] == fs[i] && fs[i..][1..] == fs[i + 1..];
        hide StaticHeadSize;
        var s := SumStaticHeadSize(fs[i]);
        if s.Err? {
          return s;
        }
        total := total + s.value;
      }
      return Ok(total);
    case StructNil => return Err(InvalidSchema);
    case Bytes | String | Array(_) | ArrayNil | Unknown => return Err(UnsupportedType);
    case _ => return Ok(32);
  }

  /** decodeWordUint64: the number a word holds, when it fits 64 bits. */
  method DecodeWordUint64(word: seq<Byte>) returns (r: Result<nat>)
    ensures r == if |word| == 32 && FromBigEndian(word) < TWO_64
                 then Ok(FromBigEndian(word)) else Err(InvalidData)
  {
    if |word| != 32 {
      return Err(InvalidData);
    }
    WordFitsUint64(word);
    for i := 0 to 24
      invariant forall k :: 0 <= k < i ==> word[k] == 0
    {
      if word[i] != 0 {
        return Err(InvalidData);
      }
    }
    return Ok(FromBigEndian(word[24..]));
  }

  method DecodeData(fields: seq<Field>, data: seq<Byte>) returns (r: Result<seq<Value>>)
    requires |data| < MAX_LENGTH
    ensures r == Decode(fields, data)
  {
    if |data| % 32 != 0 {
      return Err(InvalidData);
    }
    r := DecodeTuple(data, fields, 0, |data|, 0);
  }

  /** tupleAt: the cursor walks over the heads while out is filled. */
  method DecodeTuple(data: seq<Byte>, fields: seq<Field>, start: nat, end: nat, depth: nat)
    returns (r: Result<seq<Value>>)
    requires Located(data, start) && end == |data|
    ensures r == TupleAt(data, fields, start, depth)
    decreases fields, 2
  {
    var level := depth + 1;
    if level > MAX_DEPTH {
      return Err(DepthLimit);
    }
    r := DecodeFields(data, fields, start, end, level);
  }

  method DecodeFields(data: seq<Byte>, fields: seq<Field>, start: nat, end: nat, level: nat)
    returns (r: Result<seq<Value>>)
    requires Located(data, start) && end == |data| && level <= MAX_DEPTH
    ensures r == FieldsAt(data, fields, start, start, level)
    decreases fields, 1
  {
    hide SlotAt, IsDynamic, StaticHeadSize, FieldsAt, Then, Located;
    var out := new Value[|fields|];
    var cursor: nat := start;
    ThenNone(FieldsAt(data, fields, start, start, level));
    assert out[..0] == [] && fields[0..] == fields;
    for i := 0 to |fields|
      invariant Located(data, cursor)
      invariant FieldsAt(data, fields, start, start, level)
             == Then(out[..i], FieldsAt(data, fields[i..], start, cursor, level))
    {
      assert fields[i..][0] == fields[i] && fields[i..][1..] == fields[i + 1..];
      var size: nat := 32;
      if !IsDynamic(fields[i]) {
        var s := SumStaticHeadSize(fields[i]);
        if s.Err? {
          StopTuple(data, fields[i..], out[..i], start, cursor, level);
          return Err(s.error);
        }
        size := s.value;
      }
      if cursor + size > end {
        StopTuple(data, fields[i..], out[..i], start, cursor, level);
        return Err(InvalidData);
      }
      var v := DecodeSlot(data, fields[i], start, cursor, end, level);
      if v.Err? {
        StopTuple(data, fields[i..], out[..i], start, cursor, level);
        return Err(v.error);
      }
      StepTuple(data, fields[i..], start, cursor, level, size, v.value);
      ThenOne(out[..i], v.value, FieldsAt(data, fields[i + 1..], start, cursor + size, level));
      out[i] := v.value;
      cursor := cursor + size;
      assert out[..i + 1] == out[..i] + [v.value];
    }
    assert out[..|fields|] == out[..] && fields[|fields|..] == [];
    NoFieldsAt(data, start, cursor, level);
    ThenDone(out[..]);
    return Ok(out[..]);
  }

  lemma StepTuple(data: seq<Byte>, fs: seq<Field>, base: nat, cursor: nat, depth: nat, size: nat, v: Value)
    requires fs != [] && SlotSize(fs[0]) == Ok(size) && depth <= MAX_DEPTH
    requires Located(data, base) && Located(data, cursor) && cursor + size <= |data|
    requires SlotAt(data, fs[0], base, cursor, depth) == Ok(v)
    ensures Located(data, cursor + size)
    ensures FieldsAt(data, fs, base, cursor, depth) == Then([v], FieldsAt(data, fs[1..], base, cursor + size, depth))
  {
    hide SlotAt, IsDynamic, StaticHeadSize;
  }

  /** The first field of the rest fails, so the whole tuple does. */
  lemma StopTuple(data: seq<Byte>, fs: seq<Field>, front: seq<Value>, base: nat, cursor: nat, depth: nat)
    requires fs != [] && depth <= MAX_DEPTH && Located(data, base) && Located(data, cursor)
    ensures SlotSize(fs[0]).Err? ==>
              Then(front, FieldsAt(data, fs, base, cursor, depth)) == Err(SlotSize(fs[0]).error)
    ensures SlotSize(fs[0]).Ok? && cursor + SlotSize(fs[0]).value > |data| ==>
              Then(front, FieldsAt(data, fs, base, cursor, depth)) == Err(InvalidData)
    ensures SlotSize(fs[0]).Ok? && cursor + SlotSize(fs[0]).value <= |data| ==>
              var v := SlotAt(data, fs[0], base, cursor, depth);
              v.Err? ==> Then(front, FieldsAt(data, fs, base, cursor, depth)) == Err(v.error)
  {
    hide SlotAt, IsDynamic, StaticHeadSize;
  }

  lemma StepElem(data: seq<Byte>, elem: Field, n: nat, base: nat, cursor: nat, depth: nat, size: nat, v: Value)
    requires SlotSize(elem) == Ok(size) && depth <= MAX_DEPTH && n > 0
    requires Located(data, base) && Located(data, cursor)
    requires IsDynamic(elem) ==> cursor + 32 * n <= |data|
    requires SlotAt(data, elem, base, cursor, depth) == Ok(v)
    ensures Located(data, cursor + size)
    ensures ElemsAt(data, elem, n, base, cursor, depth)
         == Then([v], ElemsAt(data, elem, n - 1, base, cursor + size, depth))
  {
    hide SlotAt, IsDynamic, StaticHeadSize;
  }

  lemma StopElems(data: seq<Byte>, elem: Field, n: nat, front: seq<Value>, base: nat, cursor: nat, depth: nat)
    requires SlotSize(elem).Ok? && depth <= MAX_DEPTH && n > 0
    requires Located(data, base) && Located(data, cursor)
    requires IsDynamic(elem) ==> cursor + 32 * n <= |data|
    ensures var v := SlotAt(data, elem, base, cursor, depth);
            v.Err? ==> Then(front, ElemsAt(data, elem, n, base, cursor, depth)) == Err(v.error)
  {
    hide SlotAt, IsDynamic, StaticHeadSize;
  }

  /** The loop body shared by tupleAt and arrayAt: follow an offset, or read in place. */
  method DecodeSlot(data: seq<Byte>, f: Field, base: nat, cursor: nat, end: nat, depth: nat)
    returns (r: Result<Value>)
    requires Located(data, base) && Located(data, cursor) && end == |data| && depth <= MAX_DEPTH
    requires IsDynamic(f) ==> cursor + 32 <= end
    ensures r == SlotAt(data, f, base, cursor, depth)
    decreases f, 3
  {
    hide ValueAt, StaticValue, IsDynamic, OffsetTarget;
    if !IsDynamic(f) {
      r := DecodeStatic(data, f, cursor, end, depth);
      return;
    }
    var pos := FollowOffset(data, base, cursor, end);
    if pos.Err? {
      return Err(pos.error);
    }
    r := DecodeValue(data, f, pos.value, end, depth);
  }

  /** The offset word at the cursor and the checks on it. */
  method FollowOffset(data: seq<Byte>, base: nat, cursor: nat, end: nat) returns (r: Result<nat>)
    requires Located(data, base) && end == |data| && cursor + 32 <= end
    ensures r == OffsetTarget(data, base, cursor)
  {
    hide FromBigEndian;
    var offset := DecodeWordUint64(data[cursor..cursor + 32]);
    if offset.Err? {
      return Err(offset.error);
    }
    var pos := AddUint64(base, offset.value);
    if pos < base || pos > end || offset.value % 32 != 0 {
      return Err(InvalidData);
    }
    return Ok(pos);
  }

  method DecodeValue(data: seq<Byte>, f: Field, pos: nat, end: nat, depth: nat) returns (r: Result<Value>)
    requires Located(data, pos) && end == |data| && depth <= MAX_DEPTH
    ensures r == ValueAt(data, f, pos, depth)
    decreases f, 2
  {
    hide TupleAt, ArrayAt, BytesAt, StaticValue;
    match f
    case Bytes =>
      var b := BytesAt(data, pos);
      return if b.Ok? then Ok(VBytes(b.value)) else Err(b.error);
    case String =>
      var b := BytesAt(data, pos);
      return if b.Ok? then Ok(VString(b.value)) else Err(b.error);
    case Struct(fs) =>
      var vs := DecodeTuple(data, fs, pos, end, depth);
      return if vs.Ok? then Ok(VList(vs.value)) else Err(vs.error);
    case Array(e) =>
      var vs := DecodeArray(data, e, pos, end, depth);
      return if vs.Ok? then Ok(VList(vs.value)) else Err(vs.error);
    case StructNil => return Err(InvalidSchema);
    case ArrayNil => return Err(InvalidSchema);
    case _ => r := DecodeStatic(data, f, pos, end, depth);
  }

  method DecodeStatic(data: seq<Byte>, f: Field, pos: nat, end: nat, depth: nat) returns (r: Result<Value>)
    requires Located(data, pos) && end == |data| && depth <= MAX_DEPTH
    ensures r == StaticValue(data, f, pos, depth)
    decreases f, 1
  {
    hide TupleAt, FromBigEndian;
    if pos + 32 > end {
      return Err(InvalidData);
    }
    var word := data[pos..pos + 32];
    match f
    case Uint8 =>
      var v := DecodeWordUint64(word);
      return if v.Err? || v.value > 255 then Err(InvalidData) else Ok(VUint8(v.value));
    case Uint32 =>
      var v := DecodeWordUint64(word);
      return if v.Err? || v.value > 0xFFFF_FFFF then Err(InvalidData) else Ok(VUint32(v.value));
    case Uint64 =>
      var v := DecodeWordUint64(word);
      return if v.Err? then Err(v.error) else Ok(VUint64(v.value));
    case Uint256 => return Ok(VBig(FromBigEndian(word)));
    case Bytes32 => return Ok(VBytes32(word));
    case Bool =>
      var v := DecodeWordUint64(word);
      return if v.Err? || v.value > 1 then Err(InvalidData) else Ok(VBool(v.value == 1));
    case Address =>
      for i := pos to pos + 12
        invariant forall k :: pos <= k < i ==> data[k] == 0
      {
        if data[i] != 0 {
          return Err(InvalidData);
        }
      }
      return Ok(VBytes(data[pos + 12..pos + 32]));
    case Struct(fs) =>
      var vs := DecodeTuple(data, fs, pos, end, depth);
      return if vs.Ok? then Ok(VList(vs.value)) else Err(vs.error);
    case StructNil => return Err(InvalidSchema);
    case _ => return Err(UnsupportedType);
  }

  /** arrayAt: after the length and bound checks, out is filled element by element. */
  method DecodeArray(data: seq<Byte>, elem: Field, pos: nat, end: nat, depth: nat)
    returns (r: Result<seq<Value>>)
    requires Located(data, pos) && end == |data|
    ensures r == ArrayAt(data, elem, pos, depth)
    decreases elem, 5
  {
    hide ElemsAt, FromBigEndian, Product64, IsDynamic, StaticHeadSize;
    var level := depth + 1;
    if level > MAX_DEPTH {
      return Err(DepthLimit);
    }
    if pos + 32 > end {
      return Err(InvalidData);
    }
    var length := DecodeWordUint64(data[pos..pos + 32]);
    if length.Err? {
      return Err(length.error);
    }
    var n := length.value;
    if n > (end - pos) / 32 {
      return Err(InvalidData);
    }
    var headStart := pos + 32;
    var size := 32;
    if IsDynamic(elem) {
      if headStart + 32 * n > end {
        return Err(InvalidData);
      }
    } else {
      var s := SumStaticHeadSize(elem);
      if s.Err? {
        return Err(s.error);
      }
      size := s.value;
      if Product64(headStart, n, size) > end {
        return Err(InvalidData);
      }
    }
    r := DecodeElems(data, elem, n, size, headStart, end, level);
  }

  method DecodeElems(data: seq<Byte>, elem: Field, n: nat, size: nat, headStart: nat, end: nat, depth: nat)
    returns (r: Result<seq<Value>>)
    requires Located(data, headStart) && end == |data| && depth <= MAX_DEPTH
    requires IsDynamic(elem) ==> headStart + 32 * n <= end
    requires SlotSize(elem) == Ok(size)
    ensures r == ElemsAt(data, elem, n, headStart, headStart, depth)
    decreases elem, 4
  {
    hide SlotAt, IsDynamic, StaticHeadSize, Located;
    var out := new Value[n];
    var i := 0;
    ghost var cursor := headStart;
    ThenNone(ElemsAt(data, elem, n, headStart, headStart, depth));
    assert out[..0] == [];
    while i < n
      invariant 0 <= i <= n && cursor == headStart + i * size && Located(data, cursor)
      invariant IsDynamic(elem) ==> cursor + 32 * (n - i) <= end
      invariant ElemsAt(data, elem, n, headStart, headStart, depth)
             == Then(out[..i], ElemsAt(data, elem, n - i, headStart, cursor, depth))
    {
      hide ElemsAt, Then, SlotSize;
      var v := DecodeSlot(data, elem, headStart, headStart + i * size, end, depth);
      if v.Err? {
        StopElems(data, elem, n - i, out[..i], headStart, cursor, depth);
        return Err(v.error);
      }
      StepElem(data, elem, n - i, headStart, cursor, depth, size, v.value);
      ThenOne(out[..i], v.value, ElemsAt(data, elem, n - i - 1, headStart, cursor + size, depth));
      out[i] := v.value;
      assert out[..i + 1] == out[..i] + [v.value];
      assert (i + 1) * size == i * size + size;
      cursor := cursor + size;
      i := i + 1;
    }
    assert out[..n] == out[..];
    ThenDone(out[..]);
    return Ok(out[..]);
  }
}
