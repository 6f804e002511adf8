/** Decoding an encoding, wherever it lies in a buffer and whatever follows it. */
module AbiRoundTrip {
  import opened Words
  import opened AbiTypes
  import opened AbiDecode
  import opened AbiEncode

  /** The bytes e are in the buffer at position p. */
  predicate At(data: seq<Byte>, p: int, e: seq<Byte>) {
    0 <= p && p + |e| <= |data| && data[p..p + |e|] == e
  }

  lemma AtConcat(data: seq<Byte>, p: int, a: seq<Byte>, b: seq<Byte>)
    requires At(data, p, a + b)
    ensures At(data, p, a) && At(data, p + |a|, b)
    ensures p + |a| + |b| <= |data|
  {
    var all := data[p..p + |a + b|];
    assert data[p..p + |a|] == all[..|a|] == a;
    assert data[p + |a|..p + |a| + |b|] == all[|a|..] == b;
  }

  lemma PrefixAt(data: seq<Byte>, p: nat, e: seq<Byte>, n: nat)
    requires At(data, p, e) && n <= |e|
    ensures p + n <= |data| && data[p..p + n] == e[..n]
  {
    assert data[p..p + n] == data[p..p + |e|][..n];
  }

  lemma StaysLocated(data: seq<Byte>, p: nat, n: nat)
    requires Located(data, p) && n % 32 == 0 && p + n <= |data|
    ensures Located(data, p + n) && |data| < TWO_63
  {
  }

  /** What the decoder answers for a value whose nesting reaches level `depth`. */
  function Limited<T>(depth: nat, x: T): Result<T> {
    if depth <= MAX_DEPTH then Ok(x) else Err(DepthLimit)
  }

  // ---------------------------------------------------------------- room in the data

  /** The value, encoded at `pos` of data of the given size, meets the checks that the decoder makes
      on a whole word where the encoding may take less: a static struct is only read where a whole
      word is left, and an array has no more elements than words are left from its length on. Only
      structs without members can miss them, since these take no space. */
  predicate Fits(size: nat, f: Field, v: Value, pos: nat)
    requires Encodable(f, v)
    decreases v, 2
  {
    match f
    case Struct(fs) => (IsDynamic(f) || pos + 32 <= size) && TupleFits(size, fs, v.vs, pos)
    case Array(e) =>
      RepeatWellFormed(e, |v.vs|);
      pos + 32 * |v.vs| <= size && TupleFits(size, Repeat(e, |v.vs|), v.vs, pos + 32)
    case _ => true
  }

  predicate TupleFits(size: nat, fs: seq<Field>, vs: seq<Value>, pos: nat)
    requires AllEncodable(fs, vs)
    decreases vs, 1
  {
    FieldsFit(size, fs, vs, pos, pos, HeadsSize(fs))
  }

  predicate FieldsFit(size: nat, fs: seq<Field>, vs: seq<Value>, base: nat, cursor: nat, off: nat)
    requires AllEncodable(fs, vs)
    decreases vs, 0
  {
    fs == []
    || (Fits(size, fs[0], vs[0], if IsDynamic(fs[0]) then base + off else cursor)
        && FieldsFit(size, fs[1..], vs[1..], base, cursor + SlotSizeOf(fs[0]), NextOffset(fs[0], vs[0], off)))
  }

  /** Without empty structs everything fits. */
  lemma {:induction false} AlwaysFits(size: nat, f: Field, v: Value, pos: nat)
    requires Encodable(f, v) && NoEmpty(f) && pos + |Encode(f, v)| <= size
    ensures Fits(size, f, v, pos)
    decreases v, 2
  {
    hide EncodeTuple, TupleFits, HaveTypes, AllWellFormed, AllNoEmpty, Word, Repeat;
    EncodeLength(f, v);
    match f
    case Struct(fs) =>
      if !IsDynamic(f) {
        WellFormedStaticSize(f);
      }
      TupleAlwaysFits(size, fs, v.vs, pos);
    case Array(e) =>
      var n := |v.vs|;
      RepeatWellFormed(e, n);
      RepeatHeadsSize(e, n);
      EncodeTupleLength(Repeat(e, n), v.vs);
      AtLeastWords(n, SlotSizeOf(e));
      TupleAlwaysFits(size, Repeat(e, n), v.vs, pos + 32);
    case _ =>
  }

  lemma {:induction false} TupleAlwaysFits(size: nat, fs: seq<Field>, vs: seq<Value>, pos: nat)
    requires AllEncodable(fs, vs) && AllNoEmpty(fs) && pos + |EncodeTuple(fs, vs)| <= size
    ensures TupleFits(size, fs, vs, pos)
    decreases vs, 1
  {
    hide FieldsFit, EncodeTuple, HaveTypes, AllWellFormed, AllNoEmpty, HeadsSize, Tails;
    EncodeTupleLength(fs, vs);
    FieldsAlwaysFit(size, fs, vs, pos, pos, HeadsSize(fs));
  }

  lemma {:induction false} FieldsAlwaysFit(size: nat, fs: seq<Field>, vs: seq<Value>, base: nat, cursor: nat, off: nat)
    requires AllEncodable(fs, vs) && AllNoEmpty(fs)
    requires cursor + HeadsSize(fs) <= size && base + off + |Tails(fs, vs)| <= size
    ensures FieldsFit(size, fs, vs, base, cursor, off)
    decreases vs, 0
  {
    hide Fits, Encode, HasType, IsDynamic, WellFormed, NoEmpty;
    if fs != [] {
      var f, v := fs[0], vs[0];
      EncodeLength(f, v);
      AlwaysFits(size, f, v, if IsDynamic(f) then base + off else cursor);
      FieldsAlwaysFit(size, fs[1..], vs[1..], base, cursor + SlotSizeOf(f), NextOffset(f, v, off));
    }
  }

  // ---------------------------------------------------------------- round trip

  /** The answer for a value: the value when it fits, or the depth error when it nests too deep,
      and some error when it does not fit. */
  predicate Answers<T(==)>(r: Result<T>, fits: bool, depth: nat, x: T) {
    if fits then r == Limited(depth, x) else r.Err?
  }

  /** Decoding the encoding of a tuple gives the tuple back, except that it is refused, with the
      depth error and no other, exactly when its nesting exceeds the limit. */
  lemma RoundTrip(fs: seq<Field>, vs: seq<Value>)
    requires AllEncodable(fs, vs) && AllNoEmpty(fs) && |EncodeTuple(fs, vs)| < MAX_LENGTH
    ensures Decode(fs, EncodeTuple(fs, vs)) == if MaxDepth(fs, vs) < 256 then Ok(vs) else Err(DepthLimit)
  {
    hide EncodeTuple, Decode, MaxDepth, HaveTypes, AllWellFormed, TupleFits;
    RoundTripExact(fs, vs);
    TupleAlwaysFits(|EncodeTuple(fs, vs)|, fs, vs, 0);
  }

  /** With empty structs in the schema: exactly when the values fit the encoding. */
  lemma RoundTripExact(fs: seq<Field>, vs: seq<Value>)
    requires AllEncodable(fs, vs) && |EncodeTuple(fs, vs)| < MAX_LENGTH
    ensures var e := EncodeTuple(fs, vs);
            if TupleFits(|e|, fs, vs, 0)
            then Decode(fs, e) == if MaxDepth(fs, vs) < 256 then Ok(vs) else Err(DepthLimit)
            else Decode(fs, e).Err?
  {
    hide EncodeTuple, TupleAt, MaxDepth, HaveTypes, AllWellFormed, AnyDynamic, StaticHeadSizes, TupleFits;
    var data := EncodeTuple(fs, vs);
    EncodeTupleLength(fs, vs);
    assert data[0..0 + |data|] == data;
    TupleRoundTrip(data, fs, vs, 0, 0);
  }

  lemma {:induction false} TupleRoundTrip(data: seq<Byte>, fs: seq<Field>, vs: seq<Value>, pos: nat, depth: nat)
    requires AllEncodable(fs, vs) && Located(data, pos) && At(data, pos, EncodeTuple(fs, vs))
    ensures Answers(TupleAt(data, fs, pos, depth), TupleFits(|data|, fs, vs, pos), depth + 1 + MaxDepth(fs, vs), vs)
    decreases vs, 1
  {
    hide FieldsAt, Heads, Tails, MaxDepth, HeadsSize, AllWellFormed, HaveTypes, FieldsFit;
    if depth + 1 <= MAX_DEPTH {
      var off := HeadsSize(fs);
      HeadsLength(fs, vs, off);
      AtConcat(data, pos, Heads(fs, vs, off), Tails(fs, vs));
      FieldsRoundTrip(data, fs, vs, pos, pos, off, depth + 1);
    }
  }

  lemma {:induction false} FieldsRoundTrip(data: seq<Byte>, fs: seq<Field>, vs: seq<Value>,
                                           base: nat, cursor: nat, off: nat, depth: nat)
    requires AllEncodable(fs, vs) && depth <= MAX_DEPTH
    requires Located(data, base) && Located(data, cursor) && off % 32 == 0
    requires At(data, cursor, Heads(fs, vs, off)) && At(data, base + off, Tails(fs, vs))
    ensures Answers(FieldsAt(data, fs, base, cursor, depth), FieldsFit(|data|, fs, vs, base, cursor, off),
                    depth + MaxDepth(fs, vs), vs)
    decreases vs, 0
  {
    hide FieldsAt, SlotAt, SlotSize, Encode, HasType, WellFormed, IsDynamic, StaticHeadSize, Depth, At, Located, Word,
      Fits, Answers, Heads, Tails;
    if fs != [] {
      var f, v := fs[0], vs[0];
      var size, rest := SlotSizeOf(f), MaxDepth(fs[1..], vs[1..]);
      var there, next := if IsDynamic(f) then base + off else cursor, NextOffset(f, v, off);
      HeadSlot(data, fs, vs, base, cursor, off);
      SlotRoundTrip(data, f, v, base, cursor, off, depth);
      FieldsRoundTrip(data, fs[1..], vs[1..], base, cursor + size, next, depth);
      FieldsAtStep(data, fs, base, cursor, depth, size, Fits(|data|, f, v, there), depth + Depth(f, v), v,
        FieldsFit(|data|, fs[1..], vs[1..], base, cursor + size, next), depth + rest, vs[1..]);
      assert vs == [v] + vs[1..];
    } else {
      NoFieldsAt(data, base, cursor, depth);
      AnswersNone<Value>(depth);
    }
  }

  /** Where the tail of the next dynamic member goes. */
  function NextOffset(f: Field, v: Value, off: nat): nat
    requires Encodable(f, v)
  {
    off + if IsDynamic(f) then |Encode(f, v)| else 0
  }

  /** The first head and tail of a tuple, and the rest of both, are where the offsets say. */
  lemma HeadSlot(data: seq<Byte>, fs: seq<Field>, vs: seq<Value>, base: nat, cursor: nat, off: nat)
    requires AllEncodable(fs, vs) && fs != [] && Located(data, cursor) && off % 32 == 0
    requires At(data, cursor, Heads(fs, vs, off)) && At(data, base + off, Tails(fs, vs))
    ensures IsDynamic(fs[0]) ==>
              At(data, cursor, Word(off)) && At(data, base + off, Encode(fs[0], vs[0]))
    ensures !IsDynamic(fs[0]) ==> At(data, cursor, Encode(fs[0], vs[0]))
    ensures var size, next := SlotSizeOf(fs[0]), NextOffset(fs[0], vs[0], off);
            && Located(data, cursor + size) && next % 32 == 0
            && At(data, cursor + size, Heads(fs[1..], vs[1..], next)) && At(data, base + next, Tails(fs[1..], vs[1..]))
  {
    hide SlotSize, Encode, HasType, WellFormed, IsDynamic, StaticHeadSize, At, Located, Word, Heads, Tails;
    var e, next := Encode(fs[0], vs[0]), NextOffset(fs[0], vs[0], off);
    EncodeLength(fs[0], vs[0]);
    FirstParts(fs, vs, off);
    if IsDynamic(fs[0]) {
      assert (off + |e|) % 32 == 0 by { hide *; }
      AtConcat(data, cursor, Word(off), Heads(fs[1..], vs[1..], next));
      AtConcat(data, base + off, e, Tails(fs[1..], vs[1..]));
    } else {
      AtConcat(data, cursor, e, Heads(fs[1..], vs[1..], next));
      assert [] + Tails(fs[1..], vs[1..]) == Tails(fs[1..], vs[1..]);
    }
    StaysLocated(data, cursor, SlotSizeOf(fs[0]));
  }

  lemma FirstParts(fs: seq<Field>, vs: seq<Value>, off: nat)
    requires AllEncodable(fs, vs) && fs != []
    ensures var next := NextOffset(fs[0], vs[0], off);
            && Heads(fs, vs, off) == FirstHead(fs[0], vs[0], off) + Heads(fs[1..], vs[1..], next)
            && Tails(fs, vs) == FirstTail(fs[0], vs[0]) + Tails(fs[1..], vs[1..])
  {
    hide Encode, HasType, WellFormed, IsDynamic, Word;
  }

  function FirstHead(f: Field, v: Value, off: nat): seq<Byte>
    requires Encodable(f, v)
  {
    if IsDynamic(f) then Word(off) else Encode(f, v)
  }

  function FirstTail(f: Field, v: Value): seq<Byte>
    requires Encodable(f, v)
  {
    if IsDynamic(f) then Encode(f, v) else []
  }

  lemma AnswersNone<T>(depth: nat)
    ensures depth <= MAX_DEPTH ==> Answers<seq<T>>(Ok([]), true, depth, [])
  {
  }

  lemma FieldsAtStep(data: seq<Byte>, fs: seq<Field>, base: nat, cursor: nat, depth: nat,
                     size: nat, fits: bool, d: nat, v: Value, restFits: bool, ds: nat, vs: seq<Value>)
    requires fs != [] && SlotSize(fs[0]) == Ok(size) && depth <= MAX_DEPTH
    requires Located(data, base) && Located(data, cursor) && Located(data, cursor + size)
    requires Answers(SlotAt(data, fs[0], base, cursor, depth), fits, d, v)
    requires Answers(FieldsAt(data, fs[1..], base, cursor + size, depth), restFits, ds, vs)
    ensures Answers(FieldsAt(data, fs, base, cursor, depth), fits && restFits, if d > ds then d else ds, [v] + vs)
  {
    hide SlotAt, IsDynamic, StaticHeadSize, SlotSize;
  }

  lemma {:induction false} SlotRoundTrip(data: seq<Byte>, f: Field, v: Value,
                                         base: nat, cursor: nat, off: nat, depth: nat)
    requires Encodable(f, v) && depth <= MAX_DEPTH
    requires Located(data, base) && Located(data, cursor) && off % 32 == 0
    requires IsDynamic(f) ==> At(data, cursor, Word(off)) && At(data, base + off, Encode(f, v))
    requires !IsDynamic(f) ==> At(data, cursor, Encode(f, v))
    ensures Answers(SlotAt(data, f, base, cursor, depth),
                    Fits(|data|, f, v, if IsDynamic(f) then base + off else cursor), depth + Depth(f, v), v)
    decreases v, 4
  {
    hide ValueAt, StaticValue, Encode, HasType, WellFormed, Depth, IsDynamic, Fits, OffsetTarget, Word;
    if IsDynamic(f) {
      OffsetRoundTrip(data, base, cursor, off);
      ValueRoundTrip(data, f, v, base + off, depth);
    } else {
      StaticRoundTrip(data, f, v, cursor, depth);
    }
  }

  lemma OffsetRoundTrip(data: seq<Byte>, base: nat, cursor: nat, off: nat)
    requires Located(data, base) && At(data, cursor, Word(off)) && off % 32 == 0 && base + off <= |data|
    ensures OffsetTarget(data, base, cursor) == Ok(base + off)
  {
    hide OffsetTarget, FromBigEndian, Word;
    WordRoundTrip(data, cursor, off);
    OffsetTargetExact(data, base, cursor);
  }

  lemma WordRoundTrip(data: seq<Byte>, pos: nat, n: nat)
    requires At(data, pos, Word(n)) && IsUint64(n)
    ensures FromBigEndian(data[pos..pos + 32]) == n && WordAt(data, pos) == Ok(n)
  {
    Pow256Constants();
    FromToBigEndian(n, 32);
  }

  lemma {:induction false} ValueRoundTrip(data: seq<Byte>, f: Field, v: Value, pos: nat, depth: nat)
    requires Encodable(f, v) && IsDynamic(f) && depth <= MAX_DEPTH
    requires Located(data, pos) && At(data, pos, Encode(f, v))
    ensures Answers(ValueAt(data, f, pos, depth), Fits(|data|, f, v, pos), depth + Depth(f, v), v)
    decreases v, 3
  {
    hide TupleAt, ArrayAt, BytesAt, EncodeTuple, At, StaticValue, TupleFits, MaxDepth;
    match f
    case Bytes | String => BytesRoundTrip(data, v.b, pos);
    case Struct(fs) => TupleRoundTrip(data, fs, v.vs, pos, depth);
    case Array(e) =>
      RepeatWellFormed(e, |v.vs|);
      ArrayRoundTrip(data, e, v.vs, pos, depth);
  }

  lemma BytesRoundTrip(data: seq<Byte>, b: seq<Byte>, pos: nat)
    requires Located(data, pos) && At(data, pos, Word(|b|) + PadTo32(b))
    ensures BytesAt(data, pos) == Ok(b)
  {
    hide BytesAt, WordAt, FromBigEndian, Word, PadTo32;
    AtConcat(data, pos, Word(|b|), PadTo32(b));
    WordRoundTrip(data, pos, |b|);
    BytesAtExact(data, pos);
    PrefixAt(data, pos + 32, PadTo32(b), |b|);
  }

  lemma {:induction false} ArrayRoundTrip(data: seq<Byte>, e: Field, vs: seq<Value>, pos: nat, depth: nat)
    requires WellFormed(e) && AllEncodable(Repeat(e, |vs|), vs) && |vs| < TWO_63 && Located(data, pos)
    requires At(data, pos, Word(|vs|) + EncodeTuple(Repeat(e, |vs|), vs))
    ensures Answers(ArrayAt(data, e, pos, depth),
                    pos + 32 * |vs| <= |data| && TupleFits(|data|, Repeat(e, |vs|), vs, pos + 32),
                    depth + 1 + MaxDepth(Repeat(e, |vs|), vs), vs)
    decreases vs, 2
  {
    hide ArrayAt, ElemsAt, FieldsAt, EncodeTuple, Heads, Tails, IsDynamic, StaticHeadSize, WellFormed, HaveTypes,
      AllWellFormed, MaxDepth, HeadsSize, Located, SlotSize, SlotSizeOf, Repeat, At, Word, FromBigEndian, WordAt,
      FieldsFit;
    if depth + 1 <= MAX_DEPTH {
      var n, fs, size := |vs|, Repeat(e, |vs|), SlotSizeOf(e);
      var off, headStart := HeadsSize(fs), pos + 32;
      RepeatHeadsSize(e, n);
      HeadsLength(fs, vs, off);
      AtConcat(data, pos, Word(n), EncodeTuple(fs, vs));
      EncodeTupleParts(data, fs, vs, headStart);
      StaysLocated(data, pos, 32);
      WordRoundTrip(data, pos, n);
      if pos + 32 * n <= |data| {
        FieldsRoundTrip(data, fs, vs, headStart, headStart, off, depth + 1);
        ElemsAreFields(data, e, n, headStart, headStart, depth + 1);
        ArrayAtStep(data, e, n, pos, depth);
      } else {
        ArrayTooLong(data, e, n, pos, depth);
      }
    } else {
      ArrayTooDeep(data, e, pos, depth);
    }
  }

  lemma ArrayTooDeep(data: seq<Byte>, e: Field, pos: nat, depth: nat)
    requires Located(data, pos) && depth + 1 > MAX_DEPTH
    ensures ArrayAt(data, e, pos, depth) == Err(DepthLimit)
  {
  }

  lemma ArrayTooLong(data: seq<Byte>, e: Field, n: nat, pos: nat, depth: nat)
    requires Located(data, pos) && pos + 32 <= |data| && WordAt(data, pos) == Ok(n) && pos + 32 * n > |data|
    ensures ArrayAt(data, e, pos, depth).Err?
  {
    hide ElemsAt, IsDynamic, StaticHeadSize, WordAt;
    assert n > (|data| - pos) / 32;
  }

  /** An array whose head is in the buffer passes the checks of arrayAt. */
  lemma ArrayAtStep(data: seq<Byte>, e: Field, n: nat, pos: nat, depth: nat)
    requires Located(data, pos) && WellFormed(e) && depth + 1 <= MAX_DEPTH
    requires Located(data, pos + 32) && pos + 32 * n <= |data|
    requires pos + 32 + n * SlotSizeOf(e) <= |data|
    requires WordAt(data, pos) == Ok(n)
    ensures ArrayAt(data, e, pos, depth) == ElemsAt(data, e, n, pos + 32, pos + 32, depth + 1)
  {
    hide ElemsAt, IsDynamic, StaticHeadSize, WellFormed, WordAt, ToInt64;
    assert n <= (|data| - pos) / 32;
  }

  lemma EncodeTupleParts(data: seq<Byte>, fs: seq<Field>, vs: seq<Value>, pos: nat)
    requires AllEncodable(fs, vs) && At(data, pos, EncodeTuple(fs, vs))
    ensures At(data, pos, Heads(fs, vs, HeadsSize(fs)))
    ensures At(data, pos + HeadsSize(fs), Tails(fs, vs))
  {
    HeadsLength(fs, vs, HeadsSize(fs));
    AtConcat(data, pos, Heads(fs, vs, HeadsSize(fs)), Tails(fs, vs));
  }

  lemma AtLeastWords(n: nat, size: nat)
    ensures size >= 32 ==> n * size >= 32 * n
    ensures n > 0 ==> n * size == size + (n - 1) * size && (n - 1) * size >= 0
  {
  }

  /** Array elements whose heads are in the buffer decode as the fields of a tuple. */
  lemma {:induction false} ElemsAreFields(data: seq<Byte>, elem: Field, n: nat, base: nat, cursor: nat, depth: nat)
    requires Located(data, base) && Located(data, cursor) && depth <= MAX_DEPTH
    requires WellFormed(elem) && cursor + n * SlotSizeOf(elem) <= |data|
    requires IsDynamic(elem) ==> cursor + 32 * n <= |data|
    ensures ElemsAt(data, elem, n, base, cursor, depth) == FieldsAt(data, Repeat(elem, n), base, cursor, depth)
    decreases n
  {
    hide SlotAt, IsDynamic, WellFormed, SlotSize, SlotSizeOf, Located, ElemsAt, FieldsAt, ConsResult, Repeat;
    if n > 0 {
      var size := SlotSizeOf(elem);
      AtLeastWords(n, size);
      StaysLocated(data, cursor, size);
      ElemsAreFields(data, elem, n - 1, base, cursor + size, depth);
      ElemsStep(data, elem, n, base, cursor, depth, size);
      RepeatStep(data, elem, n, base, cursor, depth, size);
    } else {
      NoElems(data, elem, base, cursor, depth);
    }
  }

  function ConsResult(first: Result<Value>, rest: Result<seq<Value>>): Result<seq<Value>> {
    if first.Err? then Err(first.error) else if rest.Err? then rest else Ok([first.value] + rest.value)
  }

  lemma NoElems(data: seq<Byte>, elem: Field, base: nat, cursor: nat, depth: nat)
    requires Located(data, base) && Located(data, cursor) && depth <= MAX_DEPTH && SlotSize(elem).Ok?
    requires IsDynamic(elem) ==> cursor <= |data|
    ensures ElemsAt(data, elem, 0, base, cursor, depth) == FieldsAt(data, Repeat(elem, 0), base, cursor, depth)
  {
  }

  lemma ElemsStep(data: seq<Byte>, elem: Field, n: nat, base: nat, cursor: nat, depth: nat, size: nat)
    requires Located(data, base) && Located(data, cursor) && Located(data, cursor + size) && depth <= MAX_DEPTH
    requires n > 0 && SlotSize(elem) == Ok(size) && (IsDynamic(elem) ==> cursor + 32 * n <= |data|)
    ensures ElemsAt(data, elem, n, base, cursor, depth) ==
            ConsResult(SlotAt(data, elem, base, cursor, depth), ElemsAt(data, elem, n - 1, base, cursor + size, depth))
  {
    hide SlotAt, IsDynamic, StaticHeadSize, WellFormed;
  }

  lemma RepeatStep(data: seq<Byte>, elem: Field, n: nat, base: nat, cursor: nat, depth: nat, size: nat)
    requires Located(data, base) && Located(data, cursor) && Located(data, cursor + size) && depth <= MAX_DEPTH
    requires n > 0 && SlotSize(elem) == Ok(size) && (IsDynamic(elem) ==> cursor + 32 <= |data|)
    ensures FieldsAt(data, Repeat(elem, n), base, cursor, depth) ==
            ConsResult(SlotAt(data, elem, base, cursor, depth),
                   FieldsAt(data, Repeat(elem, n - 1), base, cursor + size, depth))
  {
    hide SlotAt, IsDynamic, StaticHeadSize, WellFormed;
    assert Repeat(elem, n)[1..] == Repeat(elem, n - 1);
  }

  lemma {:induction false} StaticRoundTrip(data: seq<Byte>, f: Field, v: Value, pos: nat, depth: nat)
    requires Encodable(f, v) && !IsDynamic(f) && depth <= MAX_DEPTH
    requires Located(data, pos) && At(data, pos, Encode(f, v))
    ensures Answers(StaticValue(data, f, pos, depth), Fits(|data|, f, v, pos), depth + Depth(f, v), v)
    decreases v, 2
  {
    hide ToBigEndian, FromBigEndian, Pow256, TupleAt, EncodeTuple, MaxDepth, HaveTypes, AllWellFormed, AnyDynamic,
      TupleFits;
    EncodeLength(f, v);
    WellFormedStaticSize(f);
    match f
    case Uint8 => WordRoundTrip(data, pos, v.n);
    case Uint32 => WordRoundTrip(data, pos, v.n);
    case Uint64 => WordRoundTrip(data, pos, v.n);
    case Uint256 => FromToBigEndian(v.n, 32);
    case Bool => WordRoundTrip(data, pos, if v.flag then 1 else 0);
    case Address =>
      AtConcat(data, pos, Zeros(12), v.b);
      assert forall i :: pos <= i < pos + 12 ==> data[i] == data[pos..pos + 12][i - pos];
    case Struct(fs) => TupleRoundTrip(data, fs, v.vs, pos, depth);
    case Bytes32 =>
  }
}
