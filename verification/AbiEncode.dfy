/** The encoder of the Solidity contract ABI specification, section "Formal Specification of the
    Encoding": a tuple is the heads of its members followed by their tails, the head of a dynamic
    member being the offset of its tail from the start of the tuple. */
module AbiEncode {
  import opened Words
  import opened AbiTypes

  predicate Encodable(f: Field, v: Value) {
    WellFormed(f) && HasType(f, v)
  }

  predicate AllEncodable(fs: seq<Field>, vs: seq<Value>) {
    AllWellFormed(fs) && HaveTypes(fs, vs)
  }

  /** The data filled up with zero bytes to a whole number of words. */
  function PadTo32(b: seq<Byte>): (p: seq<Byte>)
    ensures |p| == (|b| + 31) / 32 * 32
    ensures |p| % 32 == 0 && |b| <= |p| < |b| + 32
    ensures p[..|b|] == b
    ensures forall i :: |b| <= i < |p| ==> p[i] == 0
  {
    if |b| % 32 == 0 then b else b + Zeros(32 - |b| % 32)
  }

  /** Bytes of the head of a tuple. */
  function HeadsSize(fs: seq<Field>): (n: nat)
    requires AllWellFormed(fs)
    ensures n % 32 == 0
  {
    if fs == [] then 0 else SlotSizeOf(fs[0]) + HeadsSize(fs[1..])
  }

  function SlotSizeOf(f: Field): (n: nat)
    requires WellFormed(f)
    ensures SlotSize(f) == Ok(n) && n % 32 == 0 && (NoEmpty(f) ==> n >= 32)
  {
    if IsDynamic(f) then 32
    else
      WellFormedStaticSize(f);
      StaticHeadSize(f).value
  }

  function Encode(f: Field, v: Value): seq<Byte>
    requires Encodable(f, v)
    decreases v, 2
  {
    match f
    case Uint8 => Word(v.n)
    case Uint32 => Word(v.n)
    case Uint64 => Word(v.n)
    case Uint256 => Word(v.n)
    case Bytes32 => v.b
    case Bytes => Word(|v.b|) + PadTo32(v.b)
    case String => Word(|v.b|) + PadTo32(v.b)
    case Bool => Word(if v.flag then 1 else 0)
    case Address => Zeros(12) + v.b
    case Struct(fs) => EncodeTuple(fs, v.vs)
    case Array(e) =>
      RepeatWellFormed(e, |v.vs|);
      Word(|v.vs|) + EncodeTuple(Repeat(e, |v.vs|), v.vs)
  }

  function EncodeTuple(fs: seq<Field>, vs: seq<Value>): seq<Byte>
    requires AllEncodable(fs, vs)
    decreases vs, 1
  {
    Heads(fs, vs, HeadsSize(fs)) + Tails(fs, vs)
  }

  /** The heads of the members, when the tail of the first one goes to offset `off`. */
  function Heads(fs: seq<Field>, vs: seq<Value>, off: nat): seq<Byte>
    requires AllEncodable(fs, vs)
    decreases vs, 0
  {
    if fs == [] then []
    else if IsDynamic(fs[0]) then Word(off) + Heads(fs[1..], vs[1..], off + |Encode(fs[0], vs[0])|)
    else Encode(fs[0], vs[0]) + Heads(fs[1..], vs[1..], off)
  }

  function Tails(fs: seq<Field>, vs: seq<Value>): seq<Byte>
    requires AllEncodable(fs, vs)
    decreases vs, 0
  {
    if fs == [] then []
    else if IsDynamic(fs[0]) then Encode(fs[0], vs[0]) + Tails(fs[1..], vs[1..])
    else Tails(fs[1..], vs[1..])
  }

  // ---------------------------------------------------------------- lengths

  /** An encoding is a whole number of words, and a static one has the size the decoder
      computes from the schema. */
  lemma {:induction false} EncodeLength(f: Field, v: Value)
    requires Encodable(f, v)
    ensures |Encode(f, v)| % 32 == 0
    ensures !IsDynamic(f) ==> StaticHeadSize(f) == Ok(|Encode(f, v)|)
    decreases v, 2
  {
    hide EncodeTuple, HaveTypes, PadTo32, Word, Repeat;
    match f
    case Struct(fs) => EncodeTupleLength(fs, v.vs);
    case Array(e) =>
      RepeatWellFormed(e, |v.vs|);
      EncodeTupleLength(Repeat(e, |v.vs|), v.vs);
    case _ =>
  }

  lemma {:induction false} EncodeTupleLength(fs: seq<Field>, vs: seq<Value>)
    requires AllEncodable(fs, vs)
    ensures |EncodeTuple(fs, vs)| == HeadsSize(fs) + |Tails(fs, vs)|
    ensures |EncodeTuple(fs, vs)| % 32 == 0
    ensures !AnyDynamic(fs) ==> StaticHeadSizes(fs) == Ok(|EncodeTuple(fs, vs)|)
    decreases vs, 1
  {
    hide Heads, Tails, HaveTypes, AllWellFormed, AnyDynamic, StaticHeadSizes;
    HeadsLength(fs, vs, HeadsSize(fs));
    TailsLength(fs, vs);
    StaticHeadsSize(fs);
  }

  lemma {:induction false} HeadsLength(fs: seq<Field>, vs: seq<Value>, off: nat)
    requires AllEncodable(fs, vs)
    ensures |Heads(fs, vs, off)| == HeadsSize(fs)
    decreases vs, 0
  {
    hide Encode, HasType, IsDynamic, WellFormed;
    if fs != [] {
      EncodeLength(fs[0], vs[0]);
      var next := if IsDynamic(fs[0]) then off + |Encode(fs[0], vs[0])| else off;
      HeadsLength(fs[1..], vs[1..], next);
    }
  }

  lemma {:induction false} TailsLength(fs: seq<Field>, vs: seq<Value>)
    requires AllEncodable(fs, vs)
    ensures |Tails(fs, vs)| % 32 == 0
    ensures !AnyDynamic(fs) ==> Tails(fs, vs) == []
    decreases vs, 0
  {
    hide Encode, HasType, IsDynamic, WellFormed;
    if fs != [] {
      EncodeLength(fs[0], vs[0]);
      TailsLength(fs[1..], vs[1..]);
    }
  }

  lemma {:induction false} StaticHeadsSize(fs: seq<Field>)
    requires AllWellFormed(fs)
    ensures !AnyDynamic(fs) ==> StaticHeadSizes(fs) == Ok(HeadsSize(fs))
  {
    if fs != [] {
      StaticHeadsSize(fs[1..]);
    }
  }

  lemma {:induction false} RepeatHeadsSize(f: Field, n: nat)
    requires WellFormed(f)
    ensures AllWellFormed(Repeat(f, n)) && HeadsSize(Repeat(f, n)) == n * SlotSizeOf(f)
  {
    hide SlotSizeOf, WellFormed;
    RepeatWellFormed(f, n);
    if n > 0 {
      RepeatHeadsSize(f, n - 1);
      assert Repeat(f, n)[1..] == Repeat(f, n - 1);
    }
  }

  ghost predicate PartOf(e: seq<Byte>, all: seq<Byte>) {
    exists front, back :: all == front + e + back
  }

  /** The encoding of a dynamic member is a part of the tails of its tuple. */
  lemma {:induction false} MemberFits(fs: seq<Field>, vs: seq<Value>, i: nat)
    requires AllEncodable(fs, vs) && i < |fs| && IsDynamic(fs[i])
    ensures Encodable(fs[i], vs[i]) && PartOf(Encode(fs[i], vs[i]), Tails(fs, vs))
    decreases i
  {
    hide Encode, HasType, IsDynamic, WellFormed, PartOf;
    var rest := Tails(fs[1..], vs[1..]);
    if i > 0 {
      MemberFits(fs[1..], vs[1..], i - 1);
      if IsDynamic(fs[0]) {
        PartOfConcat(Encode(fs[i], vs[i]), Encode(fs[0], vs[0]), rest);
      }
    } else {
      PartOfFront(Encode(fs[0], vs[0]), rest);
    }
  }

  lemma PartOfConcat(e: seq<Byte>, front: seq<Byte>, all: seq<Byte>)
    requires PartOf(e, all)
    ensures PartOf(e, front + all)
  {
    var left, right :| all == left + e + right;
    assert front + all == (front + left) + e + right;
  }

  lemma PartOfFront(e: seq<Byte>, rest: seq<Byte>)
    ensures PartOf(e, e + rest)
  {
    assert e + rest == [] + e + rest;
  }
}
