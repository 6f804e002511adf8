/** The encoder the tests of the decoder build their fixtures with. It takes one word per member
    for the size of a head, and so differs from the specification's encoding on some values: on
    which ones is settled here. */
module AbiFixtures {
  import opened Words
  import opened AbiTypes
  import opened AbiDecode
  import opened AbiEncode
  import opened AbiRoundTrip

  function Fixture(f: Field, v: Value): seq<Byte>
    requires Encodable(f, v)
    decreases v, 2
  {
    match f
    case Struct(fs) => FixtureTuple(fs, v.vs)
    case Array(e) =>
      RepeatWellFormed(e, |v.vs|);
      Word(|v.vs|) + FixtureTuple(Repeat(e, |v.vs|), v.vs)
    case _ => Encode(f, v)
  }

  function FixtureTuple(fs: seq<Field>, vs: seq<Value>): seq<Byte>
    requires AllEncodable(fs, vs)
    decreases vs, 1
  {
    FixtureHeads(fs, vs, 32 * |fs|) + FixtureTails(fs, vs)
  }

  function FixtureHeads(fs: seq<Field>, vs: seq<Value>, off: nat): seq<Byte>
    requires AllEncodable(fs, vs)
    decreases vs, 0
  {
    if fs == [] then []
    else if IsDynamic(fs[0]) then Word(off) + FixtureHeads(fs[1..], vs[1..], off + |Fixture(fs[0], vs[0])|)
    else Fixture(fs[0], vs[0]) + FixtureHeads(fs[1..], vs[1..], off)
  }

  function FixtureTails(fs: seq<Field>, vs: seq<Value>): seq<Byte>
    requires AllEncodable(fs, vs)
    decreases vs, 0
  {
    if fs == [] then []
    else if IsDynamic(fs[0]) then Fixture(fs[0], vs[0]) + FixtureTails(fs[1..], vs[1..])
    else FixtureTails(fs[1..], vs[1..])
  }

  // ---------------------------------------------------------------- lengths

  lemma {:induction false} FixtureLength(f: Field, v: Value)
    requires Encodable(f, v)
    ensures |Fixture(f, v)| == |Encode(f, v)|
    decreases v, 2
  {
    hide FixtureTuple, EncodeTuple, HaveTypes, PadTo32, Word, Repeat;
    match f
    case Struct(fs) => FixtureTupleLength(fs, v.vs);
    case Array(e) =>
      RepeatWellFormed(e, |v.vs|);
      FixtureTupleLength(Repeat(e, |v.vs|), v.vs);
    case _ =>
  }

  lemma {:induction false} FixtureTupleLength(fs: seq<Field>, vs: seq<Value>)
    requires AllEncodable(fs, vs)
    ensures |FixtureTuple(fs, vs)| == |EncodeTuple(fs, vs)|
    decreases vs, 1
  {
    hide FixtureHeads, FixtureTails, Heads, Tails, HaveTypes, AllWellFormed;
    FixturePartsLength(fs, vs, 32 * |fs|, HeadsSize(fs));
  }

  lemma {:induction false} FixturePartsLength(fs: seq<Field>, vs: seq<Value>, a: nat, b: nat)
    requires AllEncodable(fs, vs)
    ensures |FixtureHeads(fs, vs, a)| == |Heads(fs, vs, b)|
    ensures |FixtureTails(fs, vs)| == |Tails(fs, vs)|
    decreases vs, 0
  {
    hide Fixture, Encode, HasType, IsDynamic, WellFormed;
    if fs != [] {
      FixtureLength(fs[0], vs[0]);
      var n := if IsDynamic(fs[0]) then |Encode(fs[0], vs[0])| else 0;
      FixturePartsLength(fs[1..], vs[1..], a + n, b + n);
    }
  }

  // ---------------------------------------------------------------- where it is right

  /** In every tuple of the value that has a dynamic member, the head takes one word per member. */
  predicate Plain(f: Field, v: Value)
    requires Encodable(f, v)
    decreases v, 2
  {
    match f
    case Struct(fs) => PlainTuple(fs, v.vs)
    case Array(e) =>
      RepeatWellFormed(e, |v.vs|);
      PlainTuple(Repeat(e, |v.vs|), v.vs)
    case _ => true
  }

  predicate PlainTuple(fs: seq<Field>, vs: seq<Value>)
    requires AllEncodable(fs, vs)
    decreases vs, 1
  {
    (AnyDynamic(fs) ==> HeadsSize(fs) == 32 * |fs|) && AllPlain(fs, vs)
  }

  predicate AllPlain(fs: seq<Field>, vs: seq<Value>)
    requires AllEncodable(fs, vs)
    decreases vs, 0
  {
    fs == [] || (Plain(fs[0], vs[0]) && AllPlain(fs[1..], vs[1..]))
  }

  lemma ConcatEqual(a: seq<Byte>, b: seq<Byte>, c: seq<Byte>, d: seq<Byte>)
    requires |a| == |c|
    ensures a + b == c + d <==> a == c && b == d
  {
    if a + b == c + d {
      assert a == (a + b)[..|a|] == c;
      assert b == (a + b)[|a|..] == d;
    }
  }

  lemma WordInjective(a: nat, b: nat)
    requires a < TWO_64 && b < TWO_64
    ensures Word(a) == Word(b) <==> a == b
  {
    hide ToBigEndian, FromBigEndian, Pow256;
    Pow256Constants();
    FromToBigEndian(a, 32);
    FromToBigEndian(b, 32);
  }

  const MAX_MEMBERS: nat := 0x400_0000_0000_0000

  /** No list in the value has 2^58 members: the size of its heads is an int. */
  predicate Countable(v: Value) {
    v.VList? ==> |v.vs| < MAX_MEMBERS && AllCountable(v.vs)
  }

  predicate AllCountable(vs: seq<Value>) {
    vs == [] || (Countable(vs[0]) && AllCountable(vs[1..]))
  }

  /** Without empty structs every value whose encoding has a length is countable. */
  lemma {:induction false} NoEmptyCountable(f: Field, v: Value)
    requires Encodable(f, v) && NoEmpty(f) && |Encode(f, v)| < MAX_LENGTH
    ensures Countable(v)
    decreases v, 2
  {
    hide EncodeTuple, HaveTypes, PadTo32, Word, Repeat;
    match f
    case Struct(fs) => TupleCountable(fs, v.vs);
    case Array(e) =>
      RepeatWellFormed(e, |v.vs|);
      TupleCountable(Repeat(e, |v.vs|), v.vs);
    case _ =>
  }

  lemma {:induction false} TupleCountable(fs: seq<Field>, vs: seq<Value>)
    requires AllEncodable(fs, vs) && AllNoEmpty(fs) && |EncodeTuple(fs, vs)| < MAX_LENGTH
    ensures |vs| < MAX_MEMBERS && AllCountable(vs)
    decreases vs, 1
  {
    hide Heads, Tails, AnyDynamic, HaveTypes, AllWellFormed, AllNoEmpty;
    HeadsLength(fs, vs, HeadsSize(fs));
    HeadsAtLeastWords(fs);
    SameLength(fs, vs);
    MembersCountable(fs, vs, HeadsSize(fs));
  }

  lemma SameLength(fs: seq<Field>, vs: seq<Value>)
    requires HaveTypes(fs, vs)
    ensures |fs| == |vs|
  {
  }

  lemma {:induction false} MembersCountable(fs: seq<Field>, vs: seq<Value>, off: nat)
    requires AllEncodable(fs, vs) && AllNoEmpty(fs) && |Heads(fs, vs, off)| + |Tails(fs, vs)| < MAX_LENGTH
    ensures AllCountable(vs)
    decreases vs, 0
  {
    hide Encode, HasType, IsDynamic, WellFormed, NoEmpty, Word;
    if fs != [] {
      NoEmptyCountable(fs[0], vs[0]);
      MembersCountable(fs[1..], vs[1..], if IsDynamic(fs[0]) then off + |Encode(fs[0], vs[0])| else off);
    }
  }

  /** The fixture of a value is its encoding exactly when the value is plain. */
  lemma {:induction false} FixtureAgrees(f: Field, v: Value)
    requires Encodable(f, v) && Countable(v) && |Encode(f, v)| < MAX_LENGTH
    ensures Fixture(f, v) == Encode(f, v) <==> Plain(f, v)
    decreases v, 2
  {
    hide FixtureTuple, EncodeTuple, PlainTuple, HaveTypes, PadTo32, Word, Repeat;
    match f
    case Struct(fs) => FixtureTupleAgrees(fs, v.vs);
    case Array(e) =>
      RepeatWellFormed(e, |v.vs|);
      var fs := Repeat(e, |v.vs|);
      FixtureTupleAgrees(fs, v.vs);
      ConcatEqual(Word(|v.vs|), FixtureTuple(fs, v.vs), Word(|v.vs|), EncodeTuple(fs, v.vs));
    case _ =>
  }

  /** For a tuple: exactly when no head offset is needed or all slots are single words, here and
      in every nested tuple. */
  lemma {:induction false} FixtureTupleAgrees(fs: seq<Field>, vs: seq<Value>)
    requires AllEncodable(fs, vs) && |vs| < MAX_MEMBERS && AllCountable(vs) && |EncodeTuple(fs, vs)| < MAX_LENGTH
    ensures FixtureTuple(fs, vs) == EncodeTuple(fs, vs) <==> PlainTuple(fs, vs)
    decreases vs, 1
  {
    hide FixtureHeads, FixtureTails, Heads, Tails, AllPlain, AnyDynamic, HaveTypes, AllWellFormed, AllCountable;
    var a, b := 32 * |fs|, HeadsSize(fs);
    HeadsLength(fs, vs, b);
    SameLength(fs, vs);
    FixturePartsLength(fs, vs, a, b);
    ConcatEqual(FixtureHeads(fs, vs, a), FixtureTails(fs, vs), Heads(fs, vs, b), Tails(fs, vs));
    FixturePartsAgree(fs, vs, a, b);
  }

  lemma {:induction false} HeadsAtLeastWords(fs: seq<Field>)
    requires AllWellFormed(fs) && AllNoEmpty(fs)
    ensures HeadsSize(fs) >= 32 * |fs|
  {
    if fs != [] {
      HeadsAtLeastWords(fs[1..]);
    }
  }

  lemma {:induction false} FixturePartsAgree(fs: seq<Field>, vs: seq<Value>, a: nat, b: nat)
    requires AllEncodable(fs, vs) && AllCountable(vs)
    requires |Heads(fs, vs, b)| + |Tails(fs, vs)| < MAX_LENGTH
    requires a + |Tails(fs, vs)| < TWO_64 && b + |Tails(fs, vs)| < TWO_64
    ensures FixtureHeads(fs, vs, a) == Heads(fs, vs, b) && FixtureTails(fs, vs) == Tails(fs, vs)
            <==> (AnyDynamic(fs) ==> a == b) && AllPlain(fs, vs)
    decreases vs, 0
  {
    hide Fixture, Encode, Plain, HasType, IsDynamic, WellFormed, Countable, Word;
    if fs != [] {
      var f, v, fs', vs' := fs[0], vs[0], fs[1..], vs[1..];
      FixtureLength(f, v);
      FixtureAgrees(f, v);
      if IsDynamic(f) {
        var n := |Encode(f, v)|;
        FixturePartsAgree(fs', vs', a + n, b + n);
        WordInjective(a, b);
        ConcatEqual(Word(a), FixtureHeads(fs', vs', a + n), Word(b), Heads(fs', vs', b + n));
        ConcatEqual(Fixture(f, v), FixtureTails(fs', vs'), Encode(f, v), Tails(fs', vs'));
      } else {
        FixturePartsAgree(fs', vs', a, b);
        ConcatEqual(Fixture(f, v), FixtureHeads(fs', vs', a), Encode(f, v), Heads(fs', vs', b));
      }
    }
  }

  function PairFields(): (fs: seq<Field>)
    ensures |fs| == 2
  {
    [Struct([Uint8, Uint8]), Bytes]
  }

  function PairValues(): (vs: seq<Value>)
    ensures |vs| == 2
  {
    [VList([VUint8(1), VUint8(2)]), VBytes([])]
  }

  lemma PairEncodable()
    ensures AllEncodable(PairFields(), PairValues()) && MaxDepth(PairFields(), PairValues()) == 1
    ensures Encodable(PairFields()[0], PairValues()[0]) && Depth(PairFields()[0], PairValues()[0]) == 1
    ensures NoEmpty(PairFields()[0]) && AllNoEmpty(PairFields()) && Countable(PairValues()[0])
    ensures !IsDynamic(PairFields()[0]) && StaticHeadSize(PairFields()[0]) == Ok(64)
    ensures Encodable(Bytes, VBytes([]))
    ensures AllEncodable([Bytes], [VBytes([])]) && PairFields()[1..] == [Bytes] && PairValues()[1..] == [VBytes([])]
  {
    assert [Uint8, Uint8][1..] == [Uint8] && [VUint8(1), VUint8(2)][1..] == [VUint8(2)];
    assert PairFields()[1..] == [Bytes] && PairValues()[1..] == [VBytes([])];
    assert AllEncodable([Uint8], [VUint8(2)]) && AllEncodable([Bytes], [VBytes([])]);
    assert AllEncodable([Uint8, Uint8], [VUint8(1), VUint8(2)]);
    assert MaxDepth([Bytes], [VBytes([])]) == 0 && MaxDepth([Uint8], [VUint8(2)]) == 0;
    assert MaxDepth([Uint8, Uint8], [VUint8(1), VUint8(2)]) == 0;
    assert StaticHeadSizes([Uint8]) == Ok(32);
    assert !AnyDynamic([Uint8]);
  }

  lemma PairFixture()
    ensures AllEncodable(PairFields(), PairValues()) && Encodable(PairFields()[0], PairValues()[0])
    ensures FixtureTuple(PairFields(), PairValues()) == Fixture(PairFields()[0], PairValues()[0]) + Word(64) + Word(0)
  {
    hide Word, AllEncodable, Encodable, Depth, MaxDepth;
    PairEncodable();
    assert Fixture(Bytes, VBytes([])) == Word(0);
    assert FixtureTails([Bytes], [VBytes([])]) == Word(0);
    assert FixtureHeads([Bytes], [VBytes([])], 64) == Word(64);
  }

  /** An offset of 64 for the byte string leads to the word it stands in, which as a length is too
      long for the data. */
  lemma PairRefused(data: seq<Byte>)
    requires |data| == 128 && At(data, 64, Word(64))
    requires SlotAt(data, PairFields()[0], 0, 0, 1).Ok?
    ensures Decode(PairFields(), data) == Err(InvalidData)
  {
    hide SlotAt, BytesAt, OffsetTarget, FromBigEndian, Word, Pow256, IsDynamic, StaticHeadSize;
    PairEncodable();
    Pow256Constants();
    WordRoundTrip(data, 64, 64);
    OffsetTargetExact(data, 0, 64);
    BytesAtExact(data, 64);
    BytesSlot(data, 64);
    assert FieldsAt(data, [Bytes], 0, 64, 1) == Err(InvalidData);
  }

  lemma BytesSlot(data: seq<Byte>, cursor: nat)
    requires Located(data, 0) && Located(data, cursor) && cursor + 32 <= |data|
    requires OffsetTarget(data, 0, cursor) == Ok(cursor) && BytesAt(data, cursor) == Err(InvalidData)
    ensures SlotSize(Bytes) == Ok(32) && SlotAt(data, Bytes, 0, cursor, 1) == Err(InvalidData)
  {
    hide BytesAt, OffsetTarget;
  }

  /** Two numbers in a struct next to an empty byte string: the decoder refuses the fixture of this
      tuple, and takes its encoding. */
  lemma PairAndBytes()
    ensures AllEncodable(PairFields(), PairValues())
    ensures Decode(PairFields(), FixtureTuple(PairFields(), PairValues())) == Err(InvalidData)
    ensures Decode(PairFields(), EncodeTuple(PairFields(), PairValues())) == Ok(PairValues())
  {
    hide Word, AllEncodable, Encodable, Fixture, FixtureTuple, Encode, EncodeTuple, Decode, MaxDepth, Countable,
      PairFields, PairValues;
    PairEncodable();
    PairFixture();
    var f, v := PairFields()[0], PairValues()[0];
    var data := FixtureTuple(PairFields(), PairValues());
    FixtureTupleLength(PairFields(), PairValues());
    EncodeLength(f, v);
    FixtureAgrees(f, v);
    PairPlain();
    assert At(data, 0, Encode(f, v)) && At(data, 64, Word(64));
    AlwaysFits(|data|, f, v, 0);
    SlotRoundTrip(data, f, v, 0, 0, 0, 1);
    PairRefused(data);
    RoundTrip(PairFields(), PairValues());
  }

  lemma PairPlain()
    ensures Encodable(PairFields()[0], PairValues()[0]) && Plain(PairFields()[0], PairValues()[0])
  {
    hide HeadsSize;
    PairEncodable();
    assert [Uint8, Uint8][1..] == [Uint8] && [VUint8(1), VUint8(2)][1..] == [VUint8(2)];
    assert AllPlain([Uint8], [VUint8(2)]) && AllPlain([Uint8, Uint8], [VUint8(1), VUint8(2)]);
  }

  // ---------------------------------------------------------------- the loops of encodeTuple

  function Flatten(parts: seq<seq<Byte>>): seq<Byte> {
    if parts == [] then [] else Flatten(parts[..|parts| - 1]) + parts[|parts| - 1]
  }

  lemma FlattenNext(parts: seq<seq<Byte>>, i: nat)
    requires i < |parts|
    ensures Flatten(parts[..i + 1]) == Flatten(parts[..i]) + parts[i]
  {
    assert parts[..i + 1][..i] == parts[..i];
  }

  lemma {:induction false} RestEncodable(fs: seq<Field>, vs: seq<Value>, i: nat)
    requires AllEncodable(fs, vs) && i <= |fs|
    ensures |vs| == |fs| && AllEncodable(fs[i..], vs[i..])
    ensures i < |fs| ==> Encodable(fs[i], vs[i])
    decreases i
  {
    hide WellFormed, HasType;
    if i > 0 {
      RestEncodable(fs[1..], vs[1..], i - 1);
      assert fs[1..][i - 1..] == fs[i..] && vs[1..][i - 1..] == vs[i..];
    } else {
      assert fs[0..] == fs && vs[0..] == vs;
    }
  }

  function Member(fs: seq<Field>, vs: seq<Value>, i: nat): seq<Byte>
    requires AllEncodable(fs, vs) && i < |fs|
  {
    RestEncodable(fs, vs, i);
    Fixture(fs[i], vs[i])
  }

  /** The tails collected before member i: those of the dynamic members, in order. */
  ghost predicate Collected(fs: seq<Field>, vs: seq<Value>, tails: seq<seq<Byte>>, count: seq<nat>, i: nat)
    requires AllEncodable(fs, vs) && i <= |fs|
  {
    && |count| == i + 1 && count[0] == 0 && count[i] == |tails|
    && forall j :: 0 <= j < i ==>
         count[j] <= |tails|
         && count[j + 1] == count[j] + (if IsDynamic(fs[j]) then 1 else 0)
         && (IsDynamic(fs[j]) ==> count[j] < |tails| && tails[count[j]] == Member(fs, vs, j))
  }

  lemma CollectedNone(fs: seq<Field>, vs: seq<Value>)
    requires AllEncodable(fs, vs)
    ensures Collected(fs, vs, [], [0], 0)
  {
  }

  lemma CollectedNext(fs: seq<Field>, vs: seq<Value>, tails: seq<seq<Byte>>, count: seq<nat>, i: nat)
    requires AllEncodable(fs, vs) && i < |fs| && Collected(fs, vs, tails, count, i)
    ensures var tails' := if IsDynamic(fs[i]) then tails + [Member(fs, vs, i)] else tails;
            Collected(fs, vs, tails', count + [|tails'|], i + 1)
  {
    hide Encodable, AllEncodable, Member, IsDynamic;
  }

  /** The heads, once the offsets are filled in. */
  ghost predicate Filled(fs: seq<Field>, vs: seq<Value>, tails: seq<seq<Byte>>, count: seq<nat>, heads: seq<seq<Byte>>)
    requires AllEncodable(fs, vs)
  {
    && |heads| == |fs| && |count| == |fs| + 1
    && forall j :: 0 <= j < |fs| ==>
         count[j] <= |tails|
         && heads[j] == if IsDynamic(fs[j]) then Word(32 * |fs| + |Flatten(tails[..count[j]])|) else Member(fs, vs, j)
  }

  /** encodeTuple of the fixtures: heads and tails are built first, the offsets are the running
      sums of the tails, and are filled in afterwards. */
  method EncodeTupleInLoops(fs: seq<Field>, vs: seq<Value>) returns (out: seq<Byte>)
    requires AllEncodable(fs, vs)
    ensures out == FixtureTuple(fs, vs)
  {
    hide *;
    var head, tails, tailOf, count := BuildParts(fs, vs);
    var offsets := SumOffsets(tails, |fs| * 32);
    FillOffsets(fs, vs, head, tails, tailOf, offsets, count);
    var heads := Join([], head[..]);
    out := Join(heads, tails);
    HeadsWhole(fs, vs, head[..], tails, count);
    TailsWhole(fs, vs, tails, count);
    WholeTuple(fs, vs);
  }

  method BuildParts(fs: seq<Field>, vs: seq<Value>)
    returns (head: array<seq<Byte>>, tails: seq<seq<Byte>>, tailOf: array<int>, ghost count: seq<nat>)
    requires AllEncodable(fs, vs)
    ensures fresh(head) && fresh(tailOf) && head.Length == tailOf.Length == |fs|
    ensures |count| == |fs| + 1 && count[0] == 0 && Collected(fs, vs, tails, count, |fs|)
    ensures forall j :: 0 <= j < |fs| ==> tailOf[j] == if IsDynamic(fs[j]) then count[j] else -1
    ensures forall j :: 0 <= j < |fs| && !IsDynamic(fs[j]) ==> head[j] == Member(fs, vs, j)
  {
    hide Encodable, AllEncodable, Member, IsDynamic, Collected;
    CollectedNone(fs, vs);
    head := new seq<Byte>[|fs|](_ => []);
    tails := [];
    tailOf := new int[|fs|](_ => -1);
    count := [0];
    for i := 0 to |fs|
      invariant |count| == i + 1 && count[0] == 0 && count[i] == |tails| && Collected(fs, vs, tails, count, i)
      invariant forall j :: 0 <= j < i ==> tailOf[j] == if IsDynamic(fs[j]) then count[j] else -1
      invariant forall j :: 0 <= j < i && !IsDynamic(fs[j]) ==> head[j] == Member(fs, vs, j)
      invariant forall j :: i <= j < |fs| ==> tailOf[j] == -1
    {
      CollectedNext(fs, vs, tails, count, i);
      if IsDynamic(fs[i]) {
        tailOf[i] := |tails|;
        tails := tails + [Member(fs, vs, i)];
      } else {
        head[i] := Member(fs, vs, i);
      }
      count := count + [|tails|];
    }
  }

  /** Offset k is the size of all heads plus that of the tails before tail k. */
  method SumOffsets(tails: seq<seq<Byte>>, headSize: nat) returns (offsets: seq<nat>)
    ensures |offsets| == |tails|
    ensures forall k :: 0 <= k < |tails| ==> offsets[k] == headSize + |Flatten(tails[..k])|
  {
    offsets := [];
    var cum := 0;
    for i := 0 to |tails|
      invariant cum == |Flatten(tails[..i])|
      invariant |offsets| == i && forall k :: 0 <= k < i ==> offsets[k] == headSize + |Flatten(tails[..k])|
    {
      FlattenNext(tails, i);
      offsets := offsets + [headSize + cum];
      cum := cum + |tails[i]|;
    }
  }

  method FillOffsets(fs: seq<Field>, vs: seq<Value>, head: array<seq<Byte>>, tails: seq<seq<Byte>>,
                     tailOf: array<int>, offsets: seq<nat>, ghost count: seq<nat>)
    requires AllEncodable(fs, vs) && head.Length == tailOf.Length == |fs|
    requires Collected(fs, vs, tails, count, |fs|)
    requires forall j :: 0 <= j < |fs| ==> tailOf[j] == if IsDynamic(fs[j]) then count[j] else -1
    requires forall j :: 0 <= j < |fs| && !IsDynamic(fs[j]) ==> head[j] == Member(fs, vs, j)
    requires |offsets| == |tails|
    requires forall k :: 0 <= k < |tails| ==> offsets[k] == |fs| * 32 + |Flatten(tails[..k])|
    modifies head
    ensures Filled(fs, vs, tails, count, head[..])
  {
    hide Encodable, AllEncodable, Member, IsDynamic, Word, Flatten;
    for i := 0 to |fs|
      invariant forall j :: 0 <= j < |fs| && !IsDynamic(fs[j]) ==> head[j] == Member(fs, vs, j)
      invariant forall j :: 0 <= j < i && IsDynamic(fs[j]) ==> head[j] == Word(32 * |fs| + |Flatten(tails[..count[j]])|)
    {
      if tailOf[i] >= 0 {
        head[i] := Word(offsets[tailOf[i]]);
      }
    }
  }

  method Join(start: seq<Byte>, parts: seq<seq<Byte>>) returns (out: seq<Byte>)
    ensures out == start + Flatten(parts)
  {
    out := start;
    for i := 0 to |parts|
      invariant out == start + Flatten(parts[..i])
    {
      FlattenNext(parts, i);
      out := out + parts[i];
    }
    assert parts[..|parts|] == parts;
  }

  lemma TailsStep(fs: seq<Field>, vs: seq<Value>, i: nat)
    requires AllEncodable(fs, vs) && i < |fs|
    ensures |vs| == |fs| && AllEncodable(fs[i..], vs[i..]) && AllEncodable(fs[i + 1..], vs[i + 1..])
    ensures FixtureTails(fs[i..], vs[i..]) ==
              (if IsDynamic(fs[i]) then Member(fs, vs, i) else []) + FixtureTails(fs[i + 1..], vs[i + 1..])
  {
    hide Encodable, AllEncodable, Fixture, IsDynamic;
    RestEncodable(fs, vs, i);
    RestEncodable(fs, vs, i + 1);
    assert fs[i..][1..] == fs[i + 1..] && vs[i..][1..] == vs[i + 1..];
  }

  lemma HeadsStep(fs: seq<Field>, vs: seq<Value>, i: nat, off: nat)
    requires AllEncodable(fs, vs) && i < |fs|
    ensures |vs| == |fs| && AllEncodable(fs[i..], vs[i..]) && AllEncodable(fs[i + 1..], vs[i + 1..])
    ensures FixtureHeads(fs[i..], vs[i..], off) ==
              if IsDynamic(fs[i]) then Word(off) + FixtureHeads(fs[i + 1..], vs[i + 1..], off + |Member(fs, vs, i)|)
              else Member(fs, vs, i) + FixtureHeads(fs[i + 1..], vs[i + 1..], off)
  {
    hide Encodable, AllEncodable, Fixture, IsDynamic, Word;
    RestEncodable(fs, vs, i);
    RestEncodable(fs, vs, i + 1);
    assert fs[i..][1..] == fs[i + 1..] && vs[i..][1..] == vs[i + 1..];
  }

  lemma {:induction false} TailsAreParts(fs: seq<Field>, vs: seq<Value>, tails: seq<seq<Byte>>, count: seq<nat>, i: nat)
    requires AllEncodable(fs, vs) && i <= |fs| && Collected(fs, vs, tails, count, |fs|)
    ensures |vs| == |fs| && AllEncodable(fs[i..], vs[i..]) && count[i] <= |tails|
    ensures Flatten(tails[..count[i]]) + FixtureTails(fs[i..], vs[i..]) == Flatten(tails)
    decreases |fs| - i
  {
    hide Encodable, AllEncodable, Member, IsDynamic, FixtureTails, Flatten;
    if i < |fs| {
      TailsStep(fs, vs, i);
      TailsAreParts(fs, vs, tails, count, i + 1);
      if IsDynamic(fs[i]) {
        FlattenNext(tails, count[i]);
      }
    } else {
      RestEncodable(fs, vs, i);
      NoParts(fs[i..], vs[i..]);
      assert tails[..count[i]] == tails;
    }
  }

  lemma NoParts(fs: seq<Field>, vs: seq<Value>)
    requires AllEncodable(fs, vs) && fs == []
    ensures FixtureTails(fs, vs) == [] && forall off: nat :: FixtureHeads(fs, vs, off) == []
  {
  }

  lemma {:induction false} HeadsAreParts(fs: seq<Field>, vs: seq<Value>, heads: seq<seq<Byte>>,
                                         tails: seq<seq<Byte>>, count: seq<nat>, i: nat)
    requires AllEncodable(fs, vs) && i <= |fs|
    requires Collected(fs, vs, tails, count, |fs|) && Filled(fs, vs, tails, count, heads)
    ensures |vs| == |fs| && AllEncodable(fs[i..], vs[i..]) && count[i] <= |tails|
    ensures Flatten(heads) ==
            Flatten(heads[..i]) + FixtureHeads(fs[i..], vs[i..], 32 * |fs| + |Flatten(tails[..count[i]])|)
    decreases |fs| - i
  {
    hide Encodable, AllEncodable, Member, IsDynamic, FixtureHeads, Flatten, Word;
    if i < |fs| {
      var off := 32 * |fs| + |Flatten(tails[..count[i]])|;
      HeadsStep(fs, vs, i, off);
      HeadsAreParts(fs, vs, heads, tails, count, i + 1);
      FlattenNext(heads, i);
      if IsDynamic(fs[i]) {
        FlattenNext(tails, count[i]);
      }
    } else {
      RestEncodable(fs, vs, i);
      NoParts(fs[i..], vs[i..]);
      assert heads[..i] == heads;
    }
  }

  lemma EmptyFlat()
    ensures Flatten([]) == []
  {
  }

  lemma TailsWhole(fs: seq<Field>, vs: seq<Value>, tails: seq<seq<Byte>>, count: seq<nat>)
    requires AllEncodable(fs, vs) && Collected(fs, vs, tails, count, |fs|)
    ensures Flatten(tails) == FixtureTails(fs, vs)
  {
    TailsAreParts(fs, vs, tails, count, 0);
    hide AllEncodable, FixtureTails, Flatten, Member, IsDynamic;
    assert fs[0..] == fs && vs[0..] == vs;
    assert tails[..count[0]] == [];
    EmptyFlat();
    assert [] + FixtureTails(fs, vs) == FixtureTails(fs, vs);
  }

  lemma HeadsWhole(fs: seq<Field>, vs: seq<Value>, heads: seq<seq<Byte>>, tails: seq<seq<Byte>>, count: seq<nat>)
    requires AllEncodable(fs, vs) && Collected(fs, vs, tails, count, |fs|) && Filled(fs, vs, tails, count, heads)
    ensures Flatten(heads) == FixtureHeads(fs, vs, 32 * |fs|)
  {
    HeadsAreParts(fs, vs, heads, tails, count, 0);
    hide AllEncodable, FixtureHeads, Flatten, Member, IsDynamic, Filled, Word;
    assert fs[0..] == fs && vs[0..] == vs;
    assert tails[..count[0]] == [] && heads[..0] == [];
    EmptyFlat();
    assert [] + FixtureHeads(fs, vs, 32 * |fs|) == FixtureHeads(fs, vs, 32 * |fs|);
  }

  lemma WholeTuple(fs: seq<Field>, vs: seq<Value>)
    requires AllEncodable(fs, vs)
    ensures FixtureTuple(fs, vs) == FixtureHeads(fs, vs, 32 * |fs|) + FixtureTails(fs, vs)
  {
    hide FixtureHeads, FixtureTails;
  }
}
