/** Laws of the whole decoder: canonicalisation, injectivity of the encoding, extension of the
    data, stripped padding, and the inputs on which the laws stop. */
module AbiLaws {
  import opened Words
  import opened AbiTypes
  import opened AbiDecode
  import opened AbiEncode
  import opened AbiSound
  import opened AbiRoundTrip

  // ---------------------------------------------------------------- canonical form

  /** Re-encoding what was decoded and decoding again gives the same list, whatever layout the
      accepted data had; with empty structs, exactly when the values fit that encoding. */
  lemma Canonicalise(fs: seq<Field>, data: seq<Byte>)
    requires AllWellFormed(fs) && |data| < MAX_LENGTH && Decode(fs, data).Ok?
    ensures var vs := Decode(fs, data).value;
            && AllEncodable(fs, vs)
            && var e := EncodeTuple(fs, vs);
               |e| < MAX_LENGTH ==>
                 && (Decode(fs, e) == Ok(vs) <==> TupleFits(|e|, fs, vs, 0))
                 && (AllNoEmpty(fs) ==> Decode(fs, e) == Ok(vs))
  {
    hide Decode, EncodeTuple, TupleFits, MaxDepth, HaveTypes;
    DecodeSound(fs, data);
    var vs := Decode(fs, data).value;
    if |EncodeTuple(fs, vs)| < MAX_LENGTH {
      RoundTripExact(fs, vs);
      if AllNoEmpty(fs) {
        RoundTrip(fs, vs);
      }
    }
  }

  /** Two lists with the same encoding are the same list. */
  lemma EncodingInjective(fs: seq<Field>, vs: seq<Value>, ws: seq<Value>)
    requires AllEncodable(fs, vs) && AllEncodable(fs, ws) && AllNoEmpty(fs)
    requires 1 + MaxDepth(fs, vs) <= MAX_DEPTH && 1 + MaxDepth(fs, ws) <= MAX_DEPTH
    requires EncodeTuple(fs, vs) == EncodeTuple(fs, ws) && |EncodeTuple(fs, vs)| < MAX_LENGTH
    ensures vs == ws
  {
    RoundTrip(fs, vs);
    RoundTrip(fs, ws);
  }

  /** An encoding that lost fewer than 32 trailing zero bytes decodes as before once padded. */
  lemma StrippedRoundTrip(fs: seq<Field>, vs: seq<Value>, k: nat)
    requires AllEncodable(fs, vs) && AllNoEmpty(fs) && |EncodeTuple(fs, vs)| < MAX_LENGTH
    requires k < 32 && k <= |EncodeTuple(fs, vs)|
    requires forall i :: |EncodeTuple(fs, vs)| - k <= i < |EncodeTuple(fs, vs)| ==> EncodeTuple(fs, vs)[i] == 0
    ensures var e := EncodeTuple(fs, vs);
            && PadTo32(e[..|e| - k]) == e
            && Decode(fs, PadTo32(e[..|e| - k])) == Limited(1 + MaxDepth(fs, vs), vs)
  {
    hide EncodeTuple, Decode, MaxDepth, AllWellFormed, AllNoEmpty, HaveTypes;
    var e := EncodeTuple(fs, vs);
    EncodeTupleLength(fs, vs);
    PadRestores(e, k);
    RoundTrip(fs, vs);
  }

  lemma PadRestores(e: seq<Byte>, k: nat)
    requires |e| % 32 == 0 && k < 32 && k <= |e|
    requires forall i :: |e| - k <= i < |e| ==> e[i] == 0
    ensures PadTo32(e[..|e| - k]) == e
  {
    var p := PadTo32(e[..|e| - k]);
    assert |p| == |e|;
    assert p[..|e| - k] == e[..|e| - k];
    assert forall i :: |e| - k <= i < |e| ==> p[i] == e[i];
    assert forall i :: 0 <= i < |e| - k ==> p[i] == p[..|e| - k][i] == e[..|e| - k][i] == e[i];
  }

  // ---------------------------------------------------------------- extension

  /** Whole words after accepted data change nothing. */
  lemma Extension(fs: seq<Field>, data: seq<Byte>, ext: seq<Byte>)
    requires |ext| % 32 == 0 && |data + ext| < MAX_LENGTH
    requires Decode(fs, data).Ok?
    ensures Decode(fs, data + ext) == Decode(fs, data)
  {
    TupleExtends(data, ext, fs, 0, 0);
  }

  predicate Extended(data: seq<Byte>, ext: seq<Byte>, pos: int) {
    Located(data, pos) && Located(data + ext, pos)
  }

  lemma SliceExtends(data: seq<Byte>, ext: seq<Byte>, i: nat, j: nat)
    requires i <= j <= |data|
    ensures (data + ext)[i..j] == data[i..j]
  {
  }

  lemma {:induction false} TupleExtends(data: seq<Byte>, ext: seq<Byte>, fs: seq<Field>, start: nat, depth: nat)
    requires Extended(data, ext, start) && TupleAt(data, fs, start, depth).Ok?
    ensures TupleAt(data + ext, fs, start, depth) == TupleAt(data, fs, start, depth)
    decreases fs, 2
  {
    hide FieldsAt;
    FieldsExtend(data, ext, fs, start, start, depth + 1);
  }

  lemma {:induction false} FieldsExtend(data: seq<Byte>, ext: seq<Byte>, fs: seq<Field>,
                                        base: nat, cursor: nat, depth: nat)
    requires Extended(data, ext, base) && Extended(data, ext, cursor) && depth <= MAX_DEPTH
    requires FieldsAt(data, fs, base, cursor, depth).Ok?
    ensures FieldsAt(data + ext, fs, base, cursor, depth) == FieldsAt(data, fs, base, cursor, depth)
    decreases fs, 1
  {
    hide SlotAt, IsDynamic, StaticHeadSize;
    if fs != [] {
      SlotExtends(data, ext, fs[0], base, cursor, depth);
      FieldsExtend(data, ext, fs[1..], base, cursor + SlotSize(fs[0]).value, depth);
    }
  }

  lemma {:induction false} SlotExtends(data: seq<Byte>, ext: seq<Byte>, f: Field, base: nat, cursor: nat, depth: nat)
    requires Extended(data, ext, base) && Extended(data, ext, cursor) && depth <= MAX_DEPTH
    requires IsDynamic(f) ==> cursor + 32 <= |data|
    requires SlotAt(data, f, base, cursor, depth).Ok?
    ensures SlotAt(data + ext, f, base, cursor, depth) == SlotAt(data, f, base, cursor, depth)
    decreases f, 3
  {
    hide ValueAt, StaticValue, IsDynamic, FromBigEndian, AddUint64;
    if IsDynamic(f) {
      SliceExtends(data, ext, cursor, cursor + 32);
      ValueExtends(data, ext, f, OffsetTarget(data, base, cursor).value, depth);
    } else {
      StaticExtends(data, ext, f, cursor, depth);
    }
  }

  lemma {:induction false} ValueExtends(data: seq<Byte>, ext: seq<Byte>, f: Field, pos: nat, depth: nat)
    requires Extended(data, ext, pos) && depth <= MAX_DEPTH
    requires ValueAt(data, f, pos, depth).Ok?
    ensures ValueAt(data + ext, f, pos, depth) == ValueAt(data, f, pos, depth)
    decreases f, 2
  {
    hide TupleAt, ArrayAt, BytesAt, StaticValue;
    match f
    case Bytes | String => BytesExtend(data, ext, pos);
    case Struct(fs) => TupleExtends(data, ext, fs, pos, depth);
    case Array(e) => ArrayExtends(data, ext, e, pos, depth);
    case StructNil | ArrayNil =>
    case _ => StaticExtends(data, ext, f, pos, depth);
  }

  lemma BytesExtend(data: seq<Byte>, ext: seq<Byte>, pos: nat)
    requires Extended(data, ext, pos) && BytesAt(data, pos).Ok?
    ensures BytesAt(data + ext, pos) == BytesAt(data, pos)
  {
    hide BytesAt, FromBigEndian;
    BytesAtExact(data, pos);
    BytesAtExact(data + ext, pos);
    SliceExtends(data, ext, pos, pos + 32);
    var n := FromBigEndian(data[pos..pos + 32]);
    SliceExtends(data, ext, pos + 32, pos + 32 + n);
  }

  lemma {:induction false} StaticExtends(data: seq<Byte>, ext: seq<Byte>, f: Field, pos: nat, depth: nat)
    requires Extended(data, ext, pos) && depth <= MAX_DEPTH
    requires StaticValue(data, f, pos, depth).Ok?
    ensures StaticValue(data + ext, f, pos, depth) == StaticValue(data, f, pos, depth)
    decreases f, 1
  {
    hide TupleAt, FromBigEndian;
    SliceExtends(data, ext, pos, pos + 32);
    SliceExtends(data, ext, pos + 12, pos + 32);
    if f.Struct? {
      TupleExtends(data, ext, f.fields, pos, depth);
    }
  }

  lemma {:induction false} ArrayExtends(data: seq<Byte>, ext: seq<Byte>, elem: Field, pos: nat, depth: nat)
    requires Extended(data, ext, pos) && ArrayAt(data, elem, pos, depth).Ok?
    ensures ArrayAt(data + ext, elem, pos, depth) == ArrayAt(data, elem, pos, depth)
    decreases elem, 5
  {
    hide ArrayAt, ElemsAt, ArrayRejected, IsDynamic, SlotSize, WordAt;
    ArrayStillRuns(data, ext, elem, pos, depth);
    ArrayRuns(data, elem, pos, depth);
    ArrayRuns(data + ext, elem, pos, depth);
    ElemsExtend(data, ext, elem, WordAt(data, pos).value, pos + 32, pos + 32, depth + 1);
  }

  lemma ArrayStillRuns(data: seq<Byte>, ext: seq<Byte>, elem: Field, pos: nat, depth: nat)
    requires Extended(data, ext, pos) && !ArrayRejected(data, elem, pos, depth)
    ensures !ArrayRejected(data + ext, elem, pos, depth)
    ensures pos + 32 <= |data| && WordAt(data + ext, pos) == WordAt(data, pos)
  {
    hide ArrayAt, IsDynamic, SlotSize, FromBigEndian, Product64;
    SliceExtends(data, ext, pos, pos + 32);
  }

  lemma {:induction false} ElemsExtend(data: seq<Byte>, ext: seq<Byte>, elem: Field, n: nat,
                                       base: nat, cursor: nat, depth: nat)
    requires Extended(data, ext, base) && Extended(data, ext, cursor) && depth <= MAX_DEPTH
    requires IsDynamic(elem) ==> cursor + 32 * n <= |data|
    requires SlotSize(elem).Ok? && ElemsAt(data, elem, n, base, cursor, depth).Ok?
    ensures ElemsAt(data + ext, elem, n, base, cursor, depth) == ElemsAt(data, elem, n, base, cursor, depth)
    decreases elem, 4, n
  {
    hide SlotAt, ElemsAt, IsDynamic, SlotSize, ConsResult;
    if n > 0 {
      var size := SlotSize(elem).value;
      FirstElem(data, elem, n, base, cursor, depth);
      SlotExtends(data, ext, elem, base, cursor, depth);
      ElemsStep(data, elem, n, base, cursor, depth, size);
      RestOk(SlotAt(data, elem, base, cursor, depth), ElemsAt(data, elem, n - 1, base, cursor + size, depth));
      ElemsExtend(data, ext, elem, n - 1, base, cursor + size, depth);
      ElemsStep(data + ext, elem, n, base, cursor, depth, size);
    } else {
      NoneLeft(data, elem, base, cursor, depth);
      NoneLeft(data + ext, elem, base, cursor, depth);
    }
  }

  lemma RestOk(first: Result<Value>, rest: Result<seq<Value>>)
    requires ConsResult(first, rest).Ok?
    ensures first.Ok? && rest.Ok?
  {
  }

  lemma NoneLeft(data: seq<Byte>, elem: Field, base: nat, cursor: nat, depth: nat)
    requires Located(data, base) && Located(data, cursor) && depth <= MAX_DEPTH && SlotSize(elem).Ok?
    requires IsDynamic(elem) ==> cursor <= |data|
    ensures ElemsAt(data, elem, 0, base, cursor, depth) == Ok([])
  {
  }

  /** The first of several elements decodes, and ends inside the buffer. */
  lemma FirstElem(data: seq<Byte>, elem: Field, n: nat, base: nat, cursor: nat, depth: nat)
    requires Located(data, base) && Located(data, cursor) && depth <= MAX_DEPTH && n > 0
    requires SlotSize(elem).Ok? && (IsDynamic(elem) ==> cursor + 32 * n <= |data|)
    requires ElemsAt(data, elem, n, base, cursor, depth).Ok?
    ensures SlotAt(data, elem, base, cursor, depth).Ok? && Located(data, cursor + SlotSize(elem).value)
  {
    hide SlotAt, IsDynamic, StaticHeadSize;
    AddAligned(cursor, SlotSize(elem).value);
  }

  // ---------------------------------------------------------------- where the laws stop

  /** A bytes length of 2^63 passes the bound check through overflow, and make panics. */
  lemma PanicExample()
    ensures Decode([Bytes], Word(32) + Word(TWO_63)) == Err(Panic)
  {
    hide BytesAt, OffsetTarget, FromBigEndian, ToBigEndian, Word, Pow256;
    var data := Word(32) + Word(TWO_63);
    Pow256Constants();
    assert At(data, 0, Word(32)) && At(data, 32, Word(TWO_63));
    WordRoundTrip(data, 0, 32);
    WordRoundTrip(data, 32, TWO_63);
    OffsetTargetExact(data, 0, 0);
    BytesAtExact(data, 32);
    assert SlotAt(data, Bytes, 0, 0, 1) == Err(Panic);
    assert FieldsAt(data, [Bytes], 0, 0, 1) == Err(Panic);
  }

  /** A struct without members takes no space, but is read only where a whole word is left: it is
      refused exactly there where none is, or below the depth limit. */
  lemma EmptyStruct(data: seq<Byte>, pos: nat, depth: nat)
    requires Located(data, pos) && depth <= MAX_DEPTH
    ensures StaticHeadSize(Struct([])) == Ok(0)
    ensures StaticValue(data, Struct([]), pos, depth) ==
            if pos + 32 > |data| then Err(InvalidData)
            else if depth + 1 > MAX_DEPTH then Err(DepthLimit)
            else Ok(VList([]))
  {
    assert TupleAt(data, [], pos, depth) == if depth + 1 > MAX_DEPTH then Err(DepthLimit) else Ok([]);
  }

  /** The word w encodes both of these tuples; with the empty struct at its end the first is
      refused, and with a word after it the second is not. */
  lemma EmptyStructExample(w: seq<Byte>)
    requires |w| == 32
    ensures AllEncodable([Bytes32, Struct([])], [VBytes32(w), VList([])])
    ensures EncodeTuple([Bytes32, Struct([])], [VBytes32(w), VList([])]) == w
    ensures Decode([Bytes32, Struct([])], w).Err?
    ensures AllEncodable([Struct([]), Bytes32], [VList([]), VBytes32(w)])
    ensures EncodeTuple([Struct([]), Bytes32], [VList([]), VBytes32(w)]) == w
    ensures Decode([Struct([]), Bytes32], w) == Ok([VList([]), VBytes32(w)])
  {
    hide Decode, EncodeTuple, TupleFits, MaxDepth, AllWellFormed, HaveTypes;
    EmptyLast(w);
    EmptyFirst(w);
    RoundTripExact([Bytes32, Struct([])], [VBytes32(w), VList([])]);
    RoundTripExact([Struct([]), Bytes32], [VList([]), VBytes32(w)]);
  }

  lemma EmptyLast(w: seq<Byte>)
    requires |w| == 32
    ensures var fs, vs := [Bytes32, Struct([])], [VBytes32(w), VList([])];
            AllEncodable(fs, vs) && EncodeTuple(fs, vs) == w && !TupleFits(32, fs, vs, 0)
  {
    var fs, vs := [Bytes32, Struct([])], [VBytes32(w), VList([])];
    Parts(w);
    assert fs[1..] == [Struct([])] && vs[1..] == [VList([])];
    assert Heads(fs[1..], vs[1..], 32) == [] && Tails(fs[1..], vs[1..]) == [];
    assert HeadsSize(fs) == 32;
    assert !Fits(32, Struct([]), VList([]), 32);
    assert !FieldsFit(32, fs[1..], vs[1..], 0, 32, 32);
  }

  lemma EmptyFirst(w: seq<Byte>)
    requires |w| == 32
    ensures var fs, vs := [Struct([]), Bytes32], [VList([]), VBytes32(w)];
            AllEncodable(fs, vs) && EncodeTuple(fs, vs) == w && TupleFits(32, fs, vs, 0) && MaxDepth(fs, vs) == 1
  {
    var fs, vs := [Struct([]), Bytes32], [VList([]), VBytes32(w)];
    Parts(w);
    assert fs[1..] == [Bytes32] && vs[1..] == [VBytes32(w)];
    assert Heads(fs[1..], vs[1..], 32) == w && Tails(fs[1..], vs[1..]) == [];
    assert HeadsSize(fs) == 32;
    assert Fits(32, Struct([]), VList([]), 0);
    assert FieldsFit(32, fs[1..], vs[1..], 0, 0, 32);
  }

  /** The two members on their own. */
  lemma Parts(w: seq<Byte>)
    requires |w| == 32
    ensures Encodable(Struct([]), VList([])) && AllEncodable([Struct([])], [VList([])])
    ensures Encodable(Bytes32, VBytes32(w)) && AllEncodable([Bytes32], [VBytes32(w)])
    ensures !AnyDynamic([Bytes32]) && !AnyDynamic([Struct([])])
    ensures SlotSizeOf(Bytes32) == 32 && SlotSizeOf(Struct([])) == 0
    ensures HeadsSize([Bytes32]) == 32 && HeadsSize([Struct([])]) == 0
    ensures Encode(Struct([]), VList([])) == [] && Encode(Bytes32, VBytes32(w)) == w
    ensures Heads([Bytes32], [VBytes32(w)], 32) == w && Heads([Struct([])], [VList([])], 32) == []
    ensures Depth(Struct([]), VList([])) == 1 && MaxDepth([Bytes32], [VBytes32(w)]) == 0
  {
    assert [Bytes32][1..] == [] && [Struct([])][1..] == [];
    assert [VBytes32(w)][1..] == [] && [VList([])][1..] == [];
    assert HaveTypes([], []) && AllWellFormed([]);
    assert HasType(Struct([]), VList([])) && HasType(Bytes32, VBytes32(w));
    assert AllEncodable([], []) && EncodeTuple([], []) == [];
  }
}
