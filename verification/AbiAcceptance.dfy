/** What the decoder accepts and when it panics, for every schema: conditions on the numbers in the
    words of the data, in arithmetic without overflow, and without results or errors. */
module AbiAcceptance {
  import opened Words
  import opened AbiTypes
  import opened AbiDecode
  import opened AbiSound

  /** The number in the word at p. */
  function NumberAt(data: seq<Byte>, p: nat): nat
    requires p + 32 <= |data|
  {
    FromBigEndian(data[p..p + 32])
  }

  /** The padded content that the length word at p announces is in the data. */
  predicate LengthFits(data: seq<Byte>, p: nat) {
    p + 32 <= |data| && PaddedEnd(p, NumberAt(data, p)) <= |data|
  }

  /** There is a length word at p, and it overflows the bound check. */
  predicate LengthOverflows(data: seq<Byte>, p: nat) {
    p + 32 <= |data| && OverflowingLength(data, p)
  }

  /** The offset word at `head`, of a tuple or array based at `base`, leads to a position in the data. */
  predicate PointsInto(data: seq<Byte>, base: nat, head: nat) {
    head + 32 <= |data| && NumberAt(data, head) % 32 == 0 && base + NumberAt(data, head) <= |data|
  }

  // ---------------------------------------------------------------- acceptance

  predicate FieldsAccepted(data: seq<Byte>, fs: seq<Field>, base: nat, cursor: nat, depth: nat)
    decreases fs, 1
  {
    fs == []
    || (SlotAccepted(data, fs[0], base, cursor, depth)
        && FieldsAccepted(data, fs[1..], base, cursor + SlotSize(fs[0]).value, depth))
  }

  predicate TupleAccepted(data: seq<Byte>, fs: seq<Field>, pos: nat, depth: nat)
    decreases fs, 2
  {
    depth < 256 && FieldsAccepted(data, fs, pos, pos, depth + 1)
  }

  predicate SlotAccepted(data: seq<Byte>, f: Field, base: nat, head: nat, depth: nat)
    ensures SlotAccepted(data, f, base, head, depth) ==> SlotSize(f).Ok? && head + SlotSize(f).value <= |data|
    decreases f, 3
  {
    && SlotSize(f).Ok? && head + SlotSize(f).value <= |data|
    && if IsDynamic(f) then PointsInto(data, base, head) && ValueAccepted(data, f, base + NumberAt(data, head), depth)
       else StaticAccepted(data, f, head, depth)
  }

  predicate StaticAccepted(data: seq<Byte>, f: Field, pos: nat, depth: nat)
    decreases f, 1
  {
    && pos + 32 <= |data|
    && match f
       case Uint8 => NumberAt(data, pos) < 0x100
       case Uint32 => NumberAt(data, pos) < 0x1_0000_0000
       case Uint64 => NumberAt(data, pos) < TWO_64
       case Uint256 | Bytes32 => true
       case Bool => NumberAt(data, pos) <= 1
       case Address => forall i :: pos <= i < pos + 12 ==> data[i] == 0
       case Struct(fs) => TupleAccepted(data, fs, pos, depth)
       case _ => false
  }

  predicate ValueAccepted(data: seq<Byte>, f: Field, pos: nat, depth: nat)
    decreases f, 2
  {
    match f
    case Bytes | String => LengthFits(data, pos)
    case Struct(fs) => TupleAccepted(data, fs, pos, depth)
    case Array(e) =>
      Opens(data, e, pos, depth) && ElemsAccepted(data, e, NumberAt(data, pos), pos + 32, pos + 32, depth + 1)
    case _ => false
  }

  /** An array at pos has room for its elements: no more than words left, and their heads in the data. */
  predicate Opens(data: seq<Byte>, elem: Field, pos: nat, depth: nat)
    ensures Opens(data, elem, pos, depth) ==> pos + 32 <= |data|
  {
    && depth < 256 && pos + 32 <= |data| && pos + 32 * NumberAt(data, pos) <= |data|
    && SlotSize(elem).Ok? && HeadsEnd(pos, NumberAt(data, pos), SlotSize(elem).value) <= |data|
  }

  /** Where the heads of n elements end, whose count is at pos. */
  function HeadsEnd(pos: nat, n: nat, size: nat): nat {
    pos + 32 + n * size
  }

  predicate ElemsAccepted(data: seq<Byte>, elem: Field, n: nat, base: nat, cursor: nat, depth: nat)
    decreases elem, 4, n
  {
    n == 0
    || (SlotAccepted(data, elem, base, cursor, depth)
        && ElemsAccepted(data, elem, n - 1, base, cursor + SlotSize(elem).value, depth))
  }

  // ---------------------------------------------------------------- overflow

  /** Some field gets to a length word that overflows, and all fields before it are accepted. */
  predicate FieldsOverflow(data: seq<Byte>, fs: seq<Field>, base: nat, cursor: nat, depth: nat)
    decreases fs, 1
  {
    fs != []
    && (SlotOverflows(data, fs[0], base, cursor, depth)
        || (SlotAccepted(data, fs[0], base, cursor, depth)
            && FieldsOverflow(data, fs[1..], base, cursor + SlotSize(fs[0]).value, depth)))
  }

  predicate TupleOverflows(data: seq<Byte>, fs: seq<Field>, pos: nat, depth: nat)
    decreases fs, 2
  {
    depth < 256 && FieldsOverflow(data, fs, pos, pos, depth + 1)
  }

  predicate SlotOverflows(data: seq<Byte>, f: Field, base: nat, head: nat, depth: nat)
    decreases f, 3
  {
    IsDynamic(f) && PointsInto(data, base, head) && ValueOverflows(data, f, base + NumberAt(data, head), depth)
  }

  predicate ValueOverflows(data: seq<Byte>, f: Field, pos: nat, depth: nat)
    decreases f, 2
  {
    match f
    case Bytes | String => LengthOverflows(data, pos)
    case Struct(fs) => TupleOverflows(data, fs, pos, depth)
    case Array(e) =>
      Opens(data, e, pos, depth) && ElemsOverflow(data, e, NumberAt(data, pos), pos + 32, pos + 32, depth + 1)
    case _ => false
  }

  predicate ElemsOverflow(data: seq<Byte>, elem: Field, n: nat, base: nat, cursor: nat, depth: nat)
    decreases elem, 4, n
  {
    n > 0
    && (SlotOverflows(data, elem, base, cursor, depth)
        || (SlotAccepted(data, elem, base, cursor, depth)
            && ElemsOverflow(data, elem, n - 1, base, cursor + SlotSize(elem).value, depth)))
  }

  // ---------------------------------------------------------------- exactness

  /** The result is a success, or a panic, exactly under these conditions. */
  predicate Exact<T>(r: Result<T>, accepted: bool, overflows: bool) {
    (r.Ok? <==> accepted) && (r == Err(Panic) <==> overflows)
  }

  /** For every schema and every data: what is accepted, and what panics. */
  lemma DecodeExact(fs: seq<Field>, data: seq<Byte>)
    requires |data| < MAX_LENGTH
    ensures Decode(fs, data).Ok? <==> |data| % 32 == 0 && TupleAccepted(data, fs, 0, 0)
    ensures Decode(fs, data) == Err(Panic) <==> |data| % 32 == 0 && TupleOverflows(data, fs, 0, 0)
  {
    hide TupleAt, TupleAccepted, TupleOverflows;
    if |data| % 32 == 0 {
      TupleExact(data, fs, 0, 0);
    }
  }

  lemma {:induction false} TupleExact(data: seq<Byte>, fs: seq<Field>, pos: nat, depth: nat)
    requires Located(data, pos)
    ensures Exact(TupleAt(data, fs, pos, depth), TupleAccepted(data, fs, pos, depth),
                  TupleOverflows(data, fs, pos, depth))
    decreases fs, 2
  {
    hide FieldsAt, FieldsAccepted, FieldsOverflow;
    if depth + 1 <= MAX_DEPTH {
      FieldsExact(data, fs, pos, pos, depth + 1);
    }
  }

  lemma {:induction false} FieldsExact(data: seq<Byte>, fs: seq<Field>, base: nat, cursor: nat, depth: nat)
    requires Located(data, base) && Located(data, cursor) && depth <= MAX_DEPTH
    ensures Exact(FieldsAt(data, fs, base, cursor, depth), FieldsAccepted(data, fs, base, cursor, depth),
                  FieldsOverflow(data, fs, base, cursor, depth))
    decreases fs, 1
  {
    hide SlotAt, SlotAccepted, SlotOverflows, IsDynamic, StaticHeadSize, SlotSize;
    if fs != [] {
      NoSlot(data, fs[0], base, cursor, depth);
      if SlotSize(fs[0]).Ok? && cursor + SlotSize(fs[0]).value <= |data| {
        AddAligned(cursor, SlotSize(fs[0]).value);
        SlotExact(data, fs[0], base, cursor, depth);
        FieldsExact(data, fs[1..], base, cursor + SlotSize(fs[0]).value, depth);
      }
    }
  }

  /** Where the head of a field does not fit it neither is accepted nor overflows. */
  lemma NoSlot(data: seq<Byte>, f: Field, base: nat, cursor: nat, depth: nat)
    ensures SlotSize(f).Err? || cursor + SlotSize(f).value > |data| ==>
              !SlotAccepted(data, f, base, cursor, depth) && !SlotOverflows(data, f, base, cursor, depth)
    ensures IsDynamic(f) && SlotSize(f).Ok? ==> SlotSize(f).value == 32
  {
    hide StaticHeadSize, IsDynamic, NumberAt, ValueOverflows;
  }

  lemma {:induction false} SlotExact(data: seq<Byte>, f: Field, base: nat, cursor: nat, depth: nat)
    requires Located(data, base) && Located(data, cursor) && depth <= MAX_DEPTH
    requires SlotSize(f).Ok? && (IsDynamic(f) ==> cursor + 32 <= |data|)
    ensures Exact(SlotAt(data, f, base, cursor, depth), SlotAccepted(data, f, base, cursor, depth),
                  SlotOverflows(data, f, base, cursor, depth))
    decreases f, 3
  {
    hide ValueAt, StaticValue, ValueAccepted, ValueOverflows, StaticAccepted, OffsetTarget, NumberAt, IsDynamic;
    if IsDynamic(f) {
      TargetAt(data, base, cursor);
      if OffsetTarget(data, base, cursor).Ok? {
        ValueExact(data, f, OffsetTarget(data, base, cursor).value, depth);
      }
    } else {
      StaticExact(data, f, cursor, depth);
    }
  }

  lemma TargetAt(data: seq<Byte>, base: nat, head: nat)
    requires Located(data, base) && head + 32 <= |data|
    ensures OffsetTarget(data, base, head) ==
            if PointsInto(data, base, head) then Ok(base + NumberAt(data, head)) else Err(InvalidData)
  {
    hide FromBigEndian, OffsetTarget;
    OffsetTargetExact(data, base, head);
  }

  lemma {:induction false} ValueExact(data: seq<Byte>, f: Field, pos: nat, depth: nat)
    requires Located(data, pos) && depth <= MAX_DEPTH && IsDynamic(f)
    ensures Exact(ValueAt(data, f, pos, depth), ValueAccepted(data, f, pos, depth), ValueOverflows(data, f, pos, depth))
    decreases f, 2
  {
    hide TupleAt, ArrayAt, BytesAt, StaticValue, TupleAccepted, TupleOverflows, LengthFits, LengthOverflows, Opens,
      ElemsAccepted, ElemsOverflow;
    match f
    case Bytes | String => LengthAt(data, pos);
    case Struct(fs) => TupleExact(data, fs, pos, depth);
    case Array(e) => ArrayExact(data, e, pos, depth);
    case ArrayNil =>
  }

  lemma LengthAt(data: seq<Byte>, p: nat)
    requires Located(data, p)
    ensures Exact(BytesAt(data, p), LengthFits(data, p), LengthOverflows(data, p))
  {
    hide BytesAt, FromBigEndian, PaddedEnd;
    BytesAtExact(data, p);
  }

  lemma WordIsNumber(data: seq<Byte>, pos: nat)
    requires pos + 32 <= |data|
    ensures WordAt(data, pos) == if NumberAt(data, pos) < TWO_64 then Ok(NumberAt(data, pos)) else Err(InvalidData)
  {
    hide FromBigEndian;
  }

  lemma {:induction false} StaticExact(data: seq<Byte>, f: Field, pos: nat, depth: nat)
    requires Located(data, pos) && depth <= MAX_DEPTH && !IsDynamic(f) && SlotSize(f).Ok?
    ensures Exact(StaticValue(data, f, pos, depth), StaticAccepted(data, f, pos, depth), false)
    ensures StaticAccepted(data, f, pos, depth) ==> pos + SlotSize(f).value <= |data|
    decreases f, 1
  {
    hide TupleAt, FromBigEndian, TupleAccepted, AnyDynamic, StaticHeadSizes, WordAt, NumberAt;
    if pos + 32 <= |data| {
      WordIsNumber(data, pos);
    }
    if f.Struct? {
      TupleExact(data, f.fields, pos, depth);
      StaticNeverOverflows(data, f.fields, pos, pos, depth + 1);
    }
  }

  lemma {:induction false} StaticNeverOverflows(data: seq<Byte>, fs: seq<Field>, base: nat, cursor: nat, depth: nat)
    requires !AnyDynamic(fs)
    ensures !FieldsOverflow(data, fs, base, cursor, depth)
  {
    hide SlotAccepted, IsDynamic, PointsInto, ValueOverflows, SlotSize;
    if fs != [] && SlotAccepted(data, fs[0], base, cursor, depth) {
      StaticNeverOverflows(data, fs[1..], base, cursor + SlotSize(fs[0]).value, depth);
    }
  }

  lemma {:induction false} ArrayExact(data: seq<Byte>, elem: Field, pos: nat, depth: nat)
    requires Located(data, pos)
    ensures var open := Opens(data, elem, pos, depth);
            Exact(ArrayAt(data, elem, pos, depth),
                  open && ElemsAccepted(data, elem, NumberAt(data, pos), pos + 32, pos + 32, depth + 1),
                  open && ElemsOverflow(data, elem, NumberAt(data, pos), pos + 32, pos + 32, depth + 1))
    decreases elem, 5
  {
    hide ArrayAt, ElemsAt, ArrayRejected, Opens, NumberAt, WordAt, IsDynamic, SlotSize, ElemsAccepted, ElemsOverflow;
    BoundsExact(data, elem, pos, depth);
    if !ArrayRejected(data, elem, pos, depth) {
      ArrayRuns(data, elem, pos, depth);
      ElemsExact(data, elem, NumberAt(data, pos), pos + 32, pos + 32, depth + 1);
      if !Opens(data, elem, pos, depth) {
        NoRoom(data, elem, pos, depth);
      }
    }
  }

  /** What the bounds of arrayAt let through: an array with room, or one of static elements for
      which their product wraps. */
  lemma BoundsExact(data: seq<Byte>, elem: Field, pos: nat, depth: nat)
    requires Located(data, pos)
    ensures Opens(data, elem, pos, depth) ==> !ArrayRejected(data, elem, pos, depth)
    ensures !ArrayRejected(data, elem, pos, depth) ==>
              && pos + 32 <= |data| && WordAt(data, pos) == Ok(NumberAt(data, pos)) && SlotSize(elem).Ok?
              && (!Opens(data, elem, pos, depth) ==>
                    !IsDynamic(elem) && HeadsEnd(pos, NumberAt(data, pos), SlotSize(elem).value) > |data|)
  {
    hide WordAt, NumberAt, IsDynamic, StaticHeadSize, Product64, ArrayAt;
    if pos + 32 <= |data| {
      var n := NumberAt(data, pos);
      WordIsNumber(data, pos);
      WordsLeft(n, pos, |data|);
    }
  }

  /** Where the product wraps some element is out of the data, so that the array is refused all the
      same. */
  lemma NoRoom(data: seq<Byte>, elem: Field, pos: nat, depth: nat)
    requires pos + 32 <= |data| && SlotSize(elem).Ok? && !IsDynamic(elem)
    requires HeadsEnd(pos, NumberAt(data, pos), SlotSize(elem).value) > |data|
    ensures !ElemsAccepted(data, elem, NumberAt(data, pos), pos + 32, pos + 32, depth + 1)
    ensures !ElemsOverflow(data, elem, NumberAt(data, pos), pos + 32, pos + 32, depth + 1)
  {
    hide NumberAt, IsDynamic, SlotSize, ElemsAccepted, ElemsOverflow;
    var n := NumberAt(data, pos);
    if ElemsAccepted(data, elem, n, pos + 32, pos + 32, depth + 1) && n > 0 {
      ElemsInData(data, elem, n, pos + 32, pos + 32, depth + 1);
    }
    ElemsNeverOverflow(data, elem, n, pos + 32, pos + 32, depth + 1);
  }

  /** The heads of accepted elements are in the data. */
  lemma {:induction false} ElemsInData(data: seq<Byte>, elem: Field, n: nat, base: nat, cursor: nat, depth: nat)
    requires n > 0 && ElemsAccepted(data, elem, n, base, cursor, depth)
    ensures SlotSize(elem).Ok? && cursor + n * SlotSize(elem).value <= |data|
  {
    hide SlotAccepted, SlotSize;
    var size := SlotSize(elem).value;
    if n > 1 {
      ElemsInData(data, elem, n - 1, base, cursor + size, depth);
      assert n * size == (n - 1) * size + size;
    }
  }

  lemma {:induction false} ElemsNeverOverflow(data: seq<Byte>, elem: Field, n: nat, base: nat, cursor: nat, depth: nat)
    requires !IsDynamic(elem)
    ensures !ElemsOverflow(data, elem, n, base, cursor, depth)
  {
    hide SlotAccepted, IsDynamic, SlotSize, PointsInto, ValueOverflows;
    if n > 0 && SlotAccepted(data, elem, base, cursor, depth) {
      ElemsNeverOverflow(data, elem, n - 1, base, cursor + SlotSize(elem).value, depth);
    }
  }

  lemma WordsLeft(n: nat, pos: nat, length: nat)
    requires pos <= length
    ensures n <= (length - pos) / 32 <==> pos + 32 * n <= length
  {
  }

  lemma {:induction false} ElemsExact(data: seq<Byte>, elem: Field, n: nat, base: nat, cursor: nat, depth: nat)
    requires Located(data, base) && Located(data, cursor) && depth <= MAX_DEPTH
    requires SlotSize(elem).Ok? && (IsDynamic(elem) ==> cursor + 32 * n <= |data|)
    ensures Exact(ElemsAt(data, elem, n, base, cursor, depth), ElemsAccepted(data, elem, n, base, cursor, depth),
                  ElemsOverflow(data, elem, n, base, cursor, depth))
    decreases elem, 4, n
  {
    hide SlotAt, SlotAccepted, SlotOverflows, IsDynamic, StaticHeadSize, PointsInto;
    if n > 0 {
      SlotExact(data, elem, base, cursor, depth);
      if SlotAccepted(data, elem, base, cursor, depth) {
        AddAligned(cursor, SlotSize(elem).value);
        ElemsExact(data, elem, n - 1, base, cursor + SlotSize(elem).value, depth);
      }
    }
  }
}
