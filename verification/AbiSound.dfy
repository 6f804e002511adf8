/** Soundness of the decoder: what a successful decoding yields inhabits the schema and nests no
    deeper than the limit, and a runtime panic has its cause in the data. */
module AbiSound {
  import opened Words
  import opened AbiTypes
  import opened AbiDecode

  /** The value inhabits the field and fits below a decoder that is `depth` levels deep. */
  predicate Typed(f: Field, v: Value, depth: nat) {
    HasType(f, v) && depth + Depth(f, v) <= MAX_DEPTH
  }

  predicate AllTyped(fs: seq<Field>, vs: seq<Value>, depth: nat) {
    HaveTypes(fs, vs) && depth + MaxDepth(fs, vs) <= MAX_DEPTH
  }

  /** Read as a length, the word at p passes the check of bytesAt because an int overflows. */
  predicate OverflowingLength(data: seq<Byte>, p: nat)
    requires p + 32 <= |data|
  {
    var n := FromBigEndian(data[p..p + 32]);
    TWO_63 <= PaddedEnd(p, n) && n <= TWO_64 - 32
  }

  ghost predicate HasOverflowingLength(data: seq<Byte>) {
    exists p: nat | p + 32 <= |data| && p % 32 == 0 :: OverflowingLength(data, p)
  }

  ghost predicate Sound(data: seq<Byte>, f: Field, r: Result<Value>, depth: nat) {
    && (r.Ok? ==> Typed(f, r.value, depth))
    && (r == Err(Panic) ==> HasOverflowingLength(data))
  }

  ghost predicate AllSound(data: seq<Byte>, fs: seq<Field>, r: Result<seq<Value>>, depth: nat) {
    && (r.Ok? ==> AllTyped(fs, r.value, depth))
    && (r == Err(Panic) ==> HasOverflowingLength(data))
  }

  lemma AllTypedCons(f: Field, v: Value, fs: seq<Field>, vs: seq<Value>, depth: nat)
    requires Typed(f, v, depth) && AllTyped(fs, vs, depth)
    ensures AllTyped([f] + fs, [v] + vs, depth)
  {
    assert ([f] + fs)[1..] == fs && ([v] + vs)[1..] == vs;
  }

  /** Every decoded list has the type its schema says, for every schema and every input; and
      data without an overflowing length word never makes the decoder panic. */
  lemma DecodeSound(fields: seq<Field>, data: seq<Byte>)
    requires |data| < MAX_LENGTH
    ensures var r := Decode(fields, data);
            && (r.Ok? ==> HaveTypes(fields, r.value) && MaxDepth(fields, r.value) < 256)
            && (r == Err(Panic) ==> HasOverflowingLength(data))
  {
    if |data| % 32 == 0 {
      TupleSound(data, fields, 0, 0);
    }
  }

  lemma {:induction false} TupleSound(data: seq<Byte>, fields: seq<Field>, start: nat, depth: nat)
    requires Located(data, start)
    ensures AllSound(data, fields, TupleAt(data, fields, start, depth), depth + 1)
    decreases fields, 2
  {
    hide FieldsAt, AllTyped, HasOverflowingLength;
    if depth + 1 <= MAX_DEPTH {
      FieldsSound(data, fields, start, start, depth + 1);
    }
  }

  lemma {:induction false} FieldsSound(data: seq<Byte>, fields: seq<Field>, base: nat, cursor: nat, depth: nat)
    requires Located(data, base) && Located(data, cursor) && depth <= MAX_DEPTH
    ensures AllSound(data, fields, FieldsAt(data, fields, base, cursor, depth), depth)
    decreases fields, 1
  {
    hide SlotAt, Typed, IsDynamic, StaticHeadSize, HasOverflowingLength;
    if fields != [] && SlotSize(fields[0]).Ok? && cursor + SlotSize(fields[0]).value <= |data| {
      var next := cursor + SlotSize(fields[0]).value;
      var slot := SlotAt(data, fields[0], base, cursor, depth);
      SlotSound(data, fields[0], base, cursor, depth);
      if slot.Ok? {
        var rest := FieldsAt(data, fields[1..], base, next, depth);
        FieldsSound(data, fields[1..], base, next, depth);
        if rest.Ok? {
          AllTypedCons(fields[0], slot.value, fields[1..], rest.value, depth);
          assert fields == [fields[0]] + fields[1..];
        }
      }
    }
  }

  lemma {:induction false} SlotSound(data: seq<Byte>, f: Field, base: nat, cursor: nat, depth: nat)
    requires Located(data, base) && Located(data, cursor) && depth <= MAX_DEPTH
    requires IsDynamic(f) ==> cursor + 32 <= |data|
    ensures Sound(data, f, SlotAt(data, f, base, cursor, depth), depth)
    decreases f, 3
  {
    hide ValueAt, StaticValue, Typed, IsDynamic, HasOverflowingLength;
    if !IsDynamic(f) {
      StaticSound(data, f, cursor, depth);
    } else if OffsetTarget(data, base, cursor).Ok? {
      ValueSound(data, f, OffsetTarget(data, base, cursor).value, depth);
    }
  }

  lemma {:induction false} ValueSound(data: seq<Byte>, f: Field, pos: nat, depth: nat)
    requires Located(data, pos) && depth <= MAX_DEPTH
    ensures Sound(data, f, ValueAt(data, f, pos, depth), depth)
    decreases f, 2
  {
    hide TupleAt, ArrayAt, BytesAt, StaticValue, HasOverflowingLength;
    match f
    case Struct(fs) => TupleSound(data, fs, pos, depth);
    case Array(e) => ArraySound(data, e, pos, depth);
    case Bytes | String => BytesSound(data, pos);
    case StructNil | ArrayNil =>
    case _ => StaticSound(data, f, pos, depth);
  }

  lemma BytesSound(data: seq<Byte>, pos: nat)
    requires Located(data, pos)
    ensures BytesAt(data, pos) == Err(Panic) ==> HasOverflowingLength(data)
    ensures BytesAt(data, pos).Ok? ==> |BytesAt(data, pos).value| + 32 <= |data|
  {
    BytesAtExact(data, pos);
    if BytesAt(data, pos) == Err(Panic) {
      assert OverflowingLength(data, pos);
    }
  }

  lemma {:induction false} StaticSound(data: seq<Byte>, f: Field, pos: nat, depth: nat)
    requires Located(data, pos) && depth <= MAX_DEPTH
    ensures Sound(data, f, StaticValue(data, f, pos, depth), depth)
    ensures f.Bool? && StaticValue(data, f, pos, depth).Ok? ==>
              WordAt(data, pos) == Ok(if StaticValue(data, f, pos, depth).value.flag then 1 else 0)
    decreases f, 1
  {
    hide TupleAt, FromBigEndian, HasOverflowingLength, Repeat, HaveTypes, MaxDepth, Pow256;
    if f.Struct? {
      TupleSound(data, f.fields, pos, depth);
    }
  }

  /** An accepted array has as many elements as its length word says, all of the element type. */
  lemma {:induction false} ArraySound(data: seq<Byte>, elem: Field, pos: nat, depth: nat)
    requires Located(data, pos)
    ensures ArraySoundness(data, elem, ArrayAt(data, elem, pos, depth), pos, depth + 1)
    decreases elem, 5
  {
    hide ArrayAt, ElemsAt, ArraySoundness, ArrayRejected, IsDynamic, SlotSize, WordAt;
    if ArrayRejected(data, elem, pos, depth) {
      RejectedSound(data, elem, pos, depth);
    } else {
      ArrayRuns(data, elem, pos, depth);
      ElemsSound(data, elem, WordAt(data, pos).value, pos + 32, pos + 32, depth + 1);
      ElemsToArray(data, elem, ArrayAt(data, elem, pos, depth), pos, depth + 1, WordAt(data, pos).value);
    }
  }

  ghost predicate ArraySoundness(data: seq<Byte>, elem: Field, r: Result<seq<Value>>, pos: nat, depth: nat)
  {
    && (r.Ok? ==> pos + 32 <= |data| && WordAt(data, pos) == Ok(|r.value|) && |r.value| < TWO_63
                  && AllTyped(Repeat(elem, |r.value|), r.value, depth))
    && (r == Err(Panic) ==> HasOverflowingLength(data))
  }

  lemma RejectedSound(data: seq<Byte>, elem: Field, pos: nat, depth: nat)
    requires Located(data, pos) && ArrayRejected(data, elem, pos, depth)
    ensures ArraySoundness(data, elem, ArrayAt(data, elem, pos, depth), pos, depth + 1)
  {
    hide ArrayAt, AllTyped, HasOverflowingLength;
  }

  lemma ElemsToArray(data: seq<Byte>, elem: Field, r: Result<seq<Value>>, pos: nat, depth: nat, n: nat)
    requires Buffer(data) && pos + 32 <= |data| && WordAt(data, pos) == Ok(n) && n <= |data|
    requires (r.Ok? ==> |r.value| == n) && AllSound(data, Repeat(elem, n), r, depth)
    ensures ArraySoundness(data, elem, r, pos, depth)
  {
    hide AllTyped, HasOverflowingLength, WordAt, Repeat;
  }

  /** The array is refused before its elements are looked at. */
  predicate ArrayRejected(data: seq<Byte>, elem: Field, pos: nat, depth: nat)
    requires Located(data, pos)
    ensures ArrayRejected(data, elem, pos, depth) ==>
              ArrayAt(data, elem, pos, depth).Err? && ArrayAt(data, elem, pos, depth) != Err(Panic)
  {
    || depth + 1 > MAX_DEPTH
    || pos + 32 > |data|
    || WordAt(data, pos).Err?
    || WordAt(data, pos).value > (|data| - pos) / 32
    || SlotSize(elem).Err?
    || (if IsDynamic(elem) then pos + 32 + 32 * WordAt(data, pos).value
        else Product64(pos + 32, WordAt(data, pos).value, SlotSize(elem).value)) > |data|
  }

  lemma ArrayRuns(data: seq<Byte>, elem: Field, pos: nat, depth: nat)
    requires Located(data, pos) && !ArrayRejected(data, elem, pos, depth)
    ensures Located(data, pos + 32) && depth + 1 <= MAX_DEPTH && SlotSize(elem).Ok? && WordAt(data, pos).Ok?
    ensures WordAt(data, pos).value <= |data|
    ensures IsDynamic(elem) ==> pos + 32 + 32 * WordAt(data, pos).value <= |data|
    ensures ArrayAt(data, elem, pos, depth) ==
            ElemsAt(data, elem, WordAt(data, pos).value, pos + 32, pos + 32, depth + 1)
  {
    hide ElemsAt, IsDynamic, StaticHeadSize, Product64;
  }

  lemma {:induction false} ElemsSound(data: seq<Byte>, elem: Field, n: nat, base: nat, cursor: nat, depth: nat)
    requires Located(data, base) && Located(data, cursor) && depth <= MAX_DEPTH
    requires IsDynamic(elem) ==> cursor + 32 * n <= |data|
    requires SlotSize(elem).Ok?
    ensures var r := ElemsAt(data, elem, n, base, cursor, depth);
            (r.Ok? ==> |r.value| == n) && AllSound(data, Repeat(elem, n), r, depth)
    decreases elem, 4, n
  {
    hide SlotAt, Typed, IsDynamic, StaticHeadSize, HasOverflowingLength;
    if n > 0 {
      var next := cursor + SlotSize(elem).value;
      var slot := SlotAt(data, elem, base, cursor, depth);
      SlotSound(data, elem, base, cursor, depth);
      if slot.Ok? {
        var rest := ElemsAt(data, elem, n - 1, base, next, depth);
        ElemsSound(data, elem, n - 1, base, next, depth);
        if rest.Ok? {
          AllTypedCons(elem, slot.value, Repeat(elem, n - 1), rest.value, depth);
        }
      }
    }
  }
}
