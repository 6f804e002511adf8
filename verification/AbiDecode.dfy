/** The decoder as functions over a data buffer and positions in it.

    Every position is proved to be a multiple of the word size inside the buffer: that is the
    precondition Located, checked at every call. The parameter `end` of the Go code is always
    len(data), and the guard of tupleAt on start and end follows from Located. */
module AbiDecode {
  import opened Words
  import opened AbiTypes

  /** A buffer the decoder works on: whole words, and a length that fits a Go int. */
  predicate Buffer(data: seq<Byte>) {
    |data| % 32 == 0 && |data| < MAX_LENGTH
  }

  predicate Located(data: seq<Byte>, pos: int) {
    Buffer(data) && 0 <= pos <= |data| && pos % 32 == 0
  }

  function Decode(fields: seq<Field>, data: seq<Byte>): (r: Result<seq<Value>>)
    requires |data| < MAX_LENGTH
  {
    if |data| % 32 != 0 then Err(InvalidData) else TupleAt(data, fields, 0, 0)
  }

  function TupleAt(data: seq<Byte>, fields: seq<Field>, start: nat, depth: nat): (r: Result<seq<Value>>)
    requires Located(data, start)
    decreases fields, 2
  {
    if depth + 1 > MAX_DEPTH then Err(DepthLimit)
    else FieldsAt(data, fields, start, start, depth + 1)
  }

  /** The fields of a tuple based at `base`, the first of which has its head at `cursor`. */
  function FieldsAt(data: seq<Byte>, fields: seq<Field>, base: nat, cursor: nat, depth: nat): (r: Result<seq<Value>>)
    requires Located(data, base) && Located(data, cursor) && depth <= MAX_DEPTH
    ensures r.Ok? && StaticHeadSizes(fields).Ok? ==> cursor + StaticHeadSizes(fields).value <= |data|
    decreases fields, 1
  {
    if fields == [] then Ok([])
    else
      var size :- SlotSize(fields[0]);
      if cursor + size > |data| then Err(InvalidData)
      else
        var v :- SlotAt(data, fields[0], base, cursor, depth);
        AddAligned(cursor, size);
        var vs :- FieldsAt(data, fields[1..], base, cursor + size, depth);
        Ok([v] + vs)
  }

  lemma NoFieldsAt(data: seq<Byte>, base: nat, cursor: nat, depth: nat)
    requires Located(data, base) && Located(data, cursor) && depth <= MAX_DEPTH
    ensures FieldsAt(data, [], base, cursor, depth) == Ok([])
  {
  }

  /** One head slot at `cursor` of a tuple or array based at `base`: an offset to follow, or
      the value itself. */
  function SlotAt(data: seq<Byte>, f: Field, base: nat, cursor: nat, depth: nat): (r: Result<Value>)
    requires Located(data, base) && Located(data, cursor) && depth <= MAX_DEPTH
    requires IsDynamic(f) ==> cursor + 32 <= |data|
    ensures r.Ok? && StaticHeadSize(f).Ok? ==> cursor + StaticHeadSize(f).value <= |data|
    decreases f, 3
  {
    if IsDynamic(f) then
      var pos :- OffsetTarget(data, base, cursor);
      ValueAt(data, f, pos, depth)
    else
      StaticValue(data, f, cursor, depth)
  }

  /** The position an offset word refers to; the sum is made in 64 bits and may wrap. */
  function OffsetTarget(data: seq<Byte>, base: nat, cursor: nat): (r: Result<nat>)
    requires Located(data, base) && cursor + 32 <= |data|
    ensures r.Ok? ==> base <= r.value && Located(data, r.value)
  {
    var offset :- WordAt(data, cursor);
    var pos := AddUint64(base, offset);
    if pos < base || pos > |data| || offset % 32 != 0 then Err(InvalidData)
    else
      AddAligned(base, offset);
      Ok(pos)
  }

  function ValueAt(data: seq<Byte>, f: Field, pos: nat, depth: nat): (r: Result<Value>)
    requires Located(data, pos) && depth <= MAX_DEPTH
    decreases f, 2
  {
    match f
    case Bytes =>
      var b :- BytesAt(data, pos);
      Ok(VBytes(b))
    case String =>
      var b :- BytesAt(data, pos);
      Ok(VString(b))
    case Struct(fs) =>
      var vs :- TupleAt(data, fs, pos, depth);
      Ok(VList(vs))
    case Array(e) =>
      var vs :- ArrayAt(data, e, pos, depth);
      Ok(VList(vs))
    case StructNil => Err(InvalidSchema)
    case ArrayNil => Err(InvalidSchema)
    case _ => StaticValue(data, f, pos, depth)
  }

  function StaticValue(data: seq<Byte>, f: Field, pos: nat, depth: nat): (r: Result<Value>)
    requires Located(data, pos) && depth <= MAX_DEPTH
    ensures r.Ok? && StaticHeadSize(f).Ok? ==> pos + StaticHeadSize(f).value <= |data|
    decreases f, 1
  {
    if pos + 32 > |data| then Err(InvalidData)
    else
      match f
      case Uint8 =>
        var r := WordAt(data, pos);
        if r.Err? || r.value > 255 then Err(InvalidData) else Ok(VUint8(r.value))
      case Uint32 =>
        var r := WordAt(data, pos);
        if r.Err? || r.value > 0xFFFF_FFFF then Err(InvalidData) else Ok(VUint32(r.value))
      case Uint64 =>
        var n :- WordAt(data, pos);
        Ok(VUint64(n))
      case Uint256 => Ok(VBig(FromBigEndian(data[pos..pos + 32])))
      case Bytes32 => Ok(VBytes32(data[pos..pos + 32]))
      case Bool =>
        var r := WordAt(data, pos);
        if r.Err? || r.value > 1 then Err(InvalidData) else Ok(VBool(r.value == 1))
      case Address =>
        if exists i :: pos <= i < pos + 12 && data[i] != 0 then Err(InvalidData)
        else Ok(VBytes(data[pos + 12..pos + 32]))
      case Struct(fs) =>
        var vs :- TupleAt(data, fs, pos, depth);
        Ok(VList(vs))
      case StructNil => Err(InvalidSchema)
      case _ => Err(UnsupportedType)
  }

  function ArrayAt(data: seq<Byte>, elem: Field, pos: nat, depth: nat): (r: Result<seq<Value>>)
    requires Located(data, pos)
    decreases elem, 5
  {
    if depth + 1 > MAX_DEPTH then Err(DepthLimit)
    else if pos + 32 > |data| then Err(InvalidData)
    else
      var n :- WordAt(data, pos);
      if n > (|data| - pos) / 32 then Err(InvalidData)
      else
        var headStart := pos + 32;
        AddAligned(pos, 32);
        if IsDynamic(elem) then
          if headStart + 32 * n > |data| then Err(InvalidData)
          else ElemsAt(data, elem, n, headStart, headStart, depth + 1)
        else
          var size :- StaticHeadSize(elem);
          if Product64(headStart, n, size) > |data| then Err(InvalidData)
          else ElemsAt(data, elem, n, headStart, headStart, depth + 1)
  }

  /** The Go expression base + n * size, which may wrap. */
  function Product64(base: nat, n: nat, size: nat): (r: int)
    ensures base + n * size < TWO_63 ==> r == base + n * size
  {
    ToInt64(base + ToInt64(n * size))
  }

  /** When it wraps, it is the int that differs from the true value by a multiple of 2^64. */
  lemma Product64Wraps(base: nat, n: nat, size: nat) returns (k: int)
    ensures IsInt64(Product64(base, n, size)) && base + n * size == Product64(base, n, size) + k * TWO_64
  {
    var product := n * size;
    var i := Wraps(product);
    var j := Wraps(base + ToInt64(product));
    k := i + j;
  }

  lemma Wraps(x: int) returns (k: int)
    ensures IsInt64(ToInt64(x)) && x == ToInt64(x) + k * TWO_64
  {
    k := (x + TWO_63) / TWO_64;
  }

  /** The last n elements of an array based at `base`, with heads from `cursor` on. No bound is
      checked here: a dynamic head is inside the buffer because of the check in ArrayAt, and a
      static element because the element before it was decoded. */
  function ElemsAt(data: seq<Byte>, elem: Field, n: nat, base: nat, cursor: nat, depth: nat): (r: Result<seq<Value>>)
    requires Located(data, base) && Located(data, cursor) && depth <= MAX_DEPTH
    requires IsDynamic(elem) ==> cursor + 32 * n <= |data|
    requires SlotSize(elem).Ok?
    decreases elem, 4, n
  {
    if n == 0 then Ok([])
    else
      var v :- SlotAt(data, elem, base, cursor, depth);
      AddAligned(cursor, SlotSize(elem).value);
      var vs :- ElemsAt(data, elem, n - 1, base, cursor + SlotSize(elem).value, depth);
      Ok([v] + vs)
  }

  function BytesAt(data: seq<Byte>, pos: nat): (r: Result<seq<Byte>>)
    requires Located(data, pos)
  {
    if pos + 32 > |data| then Err(InvalidData)
    else
      var length :- WordAt(data, pos);
      var padded := RoundUp32(length);
      var start := pos + 32;
      if AddUint64(start, padded) > |data| || padded < length then Err(InvalidData)
      else if ToInt64(length) < 0 then Err(Panic)  // make with a negative length
      else if !(start <= AddUint64(start, length) <= |data|) then Err(Panic)  // slice out of range
      else Ok(data[start..AddUint64(start, length)])
  }

  /** The word at pos as a uint64. */
  function WordAt(data: seq<Byte>, pos: nat): (r: Result<nat>)
    requires pos + 32 <= |data|
    ensures r.Ok? ==> IsUint64(r.value)
  {
    var n := FromBigEndian(data[pos..pos + 32]);
    if n < TWO_64 then Ok(n) else Err(InvalidData)
  }

  /** The offset check is exact although its sum may wrap: it lets through the multiples of 32
      whose true sum with the base is in the buffer, and nothing else. */
  lemma OffsetTargetExact(data: seq<Byte>, base: nat, cursor: nat)
    requires Located(data, base) && cursor + 32 <= |data|
    ensures var n := FromBigEndian(data[cursor..cursor + 32]);
            OffsetTarget(data, base, cursor) ==
              if n % 32 == 0 && base + n <= |data| then Ok(base + n) else Err(InvalidData)
  {
  }

  /** Where the padded content of a byte string of length n ends, whose length word is at pos. */
  function PaddedEnd(pos: nat, n: nat): (end: nat)
    ensures pos + 32 + n <= end < pos + 32 + n + 32
  {
    pos + 32 + (n + 31) / 32 * 32
  }

  /** The two checks of bytesAt on a length n, and what its make and slice expressions then do. */
  lemma LengthChecks(pos: nat, n: nat, size: nat)
    requires pos + 32 <= size < MAX_LENGTH && IsUint64(n)
    ensures var end, start := PaddedEnd(pos, n), pos + 32;
            && (AddUint64(start, RoundUp32(n)) > size || RoundUp32(n) < n <==>
                end > size && (end < TWO_63 || n > TWO_64 - 32))
            && (end <= size ==> ToInt64(n) >= 0 && AddUint64(start, n) == start + n)
            && (TWO_63 <= end ==> ToInt64(n) < 0 || !(start <= AddUint64(start, n) <= size))
  {
    hide RoundUp32, AddUint64;
    RoundUp32Exact(n);
  }

  /** What bytesAt answers, in arithmetic without overflow: the content when its padded length
      fits the buffer, a runtime panic when start + padded length leaves the int range, and an
      error otherwise. A length above 2^64 - 32 is an error: its padded length wraps to 0. */
  lemma BytesAtExact(data: seq<Byte>, pos: nat)
    requires Located(data, pos)
    ensures var start := pos + 32;
            BytesAt(data, pos) ==
              if start > |data| then Err(InvalidData)
              else
                var n := FromBigEndian(data[pos..start]);
                var end := PaddedEnd(pos, n);
                if end <= |data| then Ok(data[start..start + n])
                else if TWO_63 <= end && n <= TWO_64 - 32 then Err(Panic)
                else Err(InvalidData)
  {
    hide FromBigEndian, RoundUp32, AddUint64, ToInt64, PaddedEnd;
    var start := pos + 32;
    if start <= |data| {
      var n := FromBigEndian(data[pos..start]);
      if n < TWO_64 {
        LengthChecks(pos, n, |data|);
      }
    }
  }
}
