/** When the decoder panics, for the schemas of packets, orders and acknowledgements, and what that
    means for the texts the indexer reads. The conditions are about words of the data. */
module AbiPanics {
  import opened Words
  import opened AbiTypes
  import opened AbiDecode
  import opened AbiAcceptance
  import opened AbiEncode
  import opened AbiRoundTrip
  import opened Hex
  import opened Zkgm
  import opened Items

  // ---------------------------------------------------------------- one word per field

  /** Every field takes one word of the head. */
  predicate WordHeads(fs: seq<Field>) {
    forall i :: 0 <= i < |fs| ==> SlotSize(fs[i]) == Ok(32)
  }

  ghost predicate OverflowsIn(data: seq<Byte>, fs: seq<Field>, base: nat, cursor: nat, depth: nat) {
    exists i :: 0 <= i < |fs| && OverflowsFirst(data, fs, base, cursor, depth, i)
  }

  /** Field i overflows, and the fields before it are accepted. */
  predicate OverflowsFirst(data: seq<Byte>, fs: seq<Field>, base: nat, cursor: nat, depth: nat, i: nat)
    requires i < |fs|
  {
    && SlotOverflows(data, fs[i], base, cursor + 32 * i, depth)
    && forall j :: 0 <= j < i ==> SlotAccepted(data, fs[j], base, cursor + 32 * j, depth)
  }

  /** Such a schema panics exactly on whole words in which one field overflows, all before it being
      accepted. */
  lemma FlatPanics(fs: seq<Field>, data: seq<Byte>)
    requires WordHeads(fs) && |data| < MAX_LENGTH
    ensures Decode(fs, data) == Err(Panic) <==> |data| % 32 == 0 && OverflowsIn(data, fs, 0, 0, 1)
  {
    hide Decode, FieldsOverflow, OverflowsIn, TupleAccepted;
    DecodeExact(fs, data);
    SomeFieldOverflows(data, fs, 0, 0, 1);
  }

  lemma {:induction false} SomeFieldOverflows(data: seq<Byte>, fs: seq<Field>, base: nat, cursor: nat, depth: nat)
    requires WordHeads(fs)
    ensures FieldsOverflow(data, fs, base, cursor, depth) <==> OverflowsIn(data, fs, base, cursor, depth)
  {
    hide SlotAccepted, SlotOverflows, SlotSize, OverflowsFirst;
    if fs != [] {
      SomeFieldOverflows(data, fs[1..], base, cursor + 32, depth);
      FirstOrLater(data, fs, base, cursor, depth);
    }
  }

  lemma FirstOrLater(data: seq<Byte>, fs: seq<Field>, base: nat, cursor: nat, depth: nat)
    requires fs != []
    ensures OverflowsIn(data, fs, base, cursor, depth) <==>
              SlotOverflows(data, fs[0], base, cursor, depth)
              || (SlotAccepted(data, fs[0], base, cursor, depth)
                  && OverflowsIn(data, fs[1..], base, cursor + 32, depth))
  {
    hide SlotAccepted, SlotOverflows;
    if i :| 0 <= i < |fs| && OverflowsFirst(data, fs, base, cursor, depth, i) {
      if i > 0 {
        assert SlotAccepted(data, fs[0], base, cursor + 32 * 0, depth);
        forall j | 0 <= j < i - 1
          ensures SlotAccepted(data, fs[1..][j], base, cursor + 32 + 32 * j, depth)
        {
          assert SlotAccepted(data, fs[j + 1], base, cursor + 32 * (j + 1), depth);
        }
        assert OverflowsFirst(data, fs[1..], base, cursor + 32, depth, i - 1);
      }
    }
    if SlotOverflows(data, fs[0], base, cursor, depth) {
      assert OverflowsFirst(data, fs, base, cursor, depth, 0);
    }
    if SlotAccepted(data, fs[0], base, cursor, depth) && OverflowsIn(data, fs[1..], base, cursor + 32, depth) {
      var i :| 0 <= i < |fs[1..]| && OverflowsFirst(data, fs[1..], base, cursor + 32, depth, i);
      forall j | 0 <= j < i + 1
        ensures SlotAccepted(data, fs[j], base, cursor + 32 * j, depth)
      {
        if j > 0 {
          assert SlotAccepted(data, fs[1..][j - 1], base, cursor + 32 + 32 * (j - 1), depth);
        }
      }
      assert OverflowsFirst(data, fs, base, cursor, depth, i + 1);
    }
  }

  // ---------------------------------------------------------------- the schemas in use

  /** Token orders of both versions. */
  lemma OrderPanics(data: seq<Byte>)
    requires |data| < MAX_LENGTH
    ensures Decode(ORDER_V1_FIELDS, data) == Err(Panic) <==>
              |data| % 32 == 0 && OverflowsIn(data, ORDER_V1_FIELDS, 0, 0, 1)
    ensures Decode(ORDER_V2_FIELDS, data) == Err(Panic) <==>
              |data| % 32 == 0 && OverflowsIn(data, ORDER_V2_FIELDS, 0, 0, 1)
  {
    hide OverflowsIn, Decode;
    FlatPanics(ORDER_V1_FIELDS, data);
    FlatPanics(ORDER_V2_FIELDS, data);
  }

  /** The offset word at `head`, of a tuple based at `base`, leads to a length word that overflows. */
  predicate LeadsToOverflow(data: seq<Byte>, base: nat, head: nat) {
    PointsInto(data, base, head) && LengthOverflows(data, base + NumberAt(data, head))
  }

  /** The second word leads to a length word that overflows. */
  predicate AckOverflows(data: seq<Byte>) {
    |data| % 32 == 0 && LeadsToOverflow(data, 0, 32)
  }

  lemma AckDataPanics(data: seq<Byte>)
    requires |data| < MAX_LENGTH
    ensures Decode(ACK_FIELDS, data) == Err(Panic) <==> AckOverflows(data)
  {
    hide Decode, LengthOverflows, NumberAt, FieldsOverflow, SlotOverflows, SlotAccepted, TupleAccepted;
    DecodeExact(ACK_FIELDS, data);
    WordSlot(data, Uint256, 0, 0, 1);
    StringSlot(data, Bytes, 0, 32, 1);
    assert ACK_FIELDS == [Uint256] + [Bytes] && [Bytes] == [Bytes] + [];
    HeadOverflows(data, Uint256, [Bytes], 0, 0, 1);
    HeadOverflows(data, Bytes, [], 0, 32, 1);
    NoField(data, 0, 64, 1);
  }

  lemma WordSlot(data: seq<Byte>, f: Field, base: nat, head: nat, depth: nat)
    requires f.Uint256? || f.Bytes32? || f.Uint8?
    ensures SlotSize(f) == Ok(32) && !SlotOverflows(data, f, base, head, depth)
    ensures SlotAccepted(data, f, base, head, depth) <==>
              head + 32 <= |data| && (f.Uint8? ==> NumberAt(data, head) < 256)
  {
    hide NumberAt;
  }

  lemma StringSlot(data: seq<Byte>, f: Field, base: nat, head: nat, depth: nat)
    requires f.Bytes? || f.String?
    ensures SlotSize(f) == Ok(32) && (SlotOverflows(data, f, base, head, depth) <==> LeadsToOverflow(data, base, head))
  {
    hide NumberAt, LengthOverflows;
  }

  lemma HeadOverflows(data: seq<Byte>, f: Field, rest: seq<Field>, base: nat, cursor: nat, depth: nat)
    requires SlotSize(f) == Ok(32)
    ensures FieldsOverflow(data, [f] + rest, base, cursor, depth) <==>
              SlotOverflows(data, f, base, cursor, depth)
              || (SlotAccepted(data, f, base, cursor, depth)
                  && FieldsOverflow(data, rest, base, cursor + 32, depth))
  {
    hide SlotOverflows, SlotAccepted, SlotSize;
    assert ([f] + rest)[1..] == rest;
  }

  lemma NoField(data: seq<Byte>, base: nat, cursor: nat, depth: nat)
    ensures !FieldsOverflow(data, [], base, cursor, depth)
  {
  }

  /** The third word leads to an instruction that is in the data and whose version and opcode are
      bytes, and the offset of its operand to a length word that overflows. */
  predicate PacketOverflows(data: seq<Byte>) {
    |data| % 32 == 0 && PointsInto(data, 0, 64) && InstructionOverflows(data, NumberAt(data, 64))
  }

  predicate InstructionOverflows(data: seq<Byte>, o: nat) {
    && o + 96 <= |data| && NumberAt(data, o) < 256 && NumberAt(data, o + 32) < 256
    && LeadsToOverflow(data, o, o + 64)
  }

  lemma PacketDataPanics(data: seq<Byte>)
    requires |data| < MAX_LENGTH
    ensures Decode(PACKET_FIELDS, data) == Err(Panic) <==> PacketOverflows(data)
  {
    hide Decode, NumberAt, FieldsOverflow, SlotOverflows, SlotAccepted, TupleAccepted, InstructionOverflows;
    var instruction := Struct(INSTRUCTION_FIELDS);
    DecodeExact(PACKET_FIELDS, data);
    WordSlot(data, Bytes32, 0, 0, 1);
    WordSlot(data, Uint256, 0, 32, 1);
    InstructionSlot(data);
    assert PACKET_FIELDS == [Bytes32] + [Uint256, instruction] && [Uint256, instruction] == [Uint256] + [instruction];
    assert [instruction] == [instruction] + [];
    HeadOverflows(data, Bytes32, [Uint256, instruction], 0, 0, 1);
    HeadOverflows(data, Uint256, [instruction], 0, 32, 1);
    HeadOverflows(data, instruction, [], 0, 64, 1);
    NoField(data, 0, 96, 1);
  }

  lemma InstructionSlot(data: seq<Byte>)
    ensures SlotSize(Struct(INSTRUCTION_FIELDS)) == Ok(32)
    ensures SlotOverflows(data, Struct(INSTRUCTION_FIELDS), 0, 64, 1) <==>
              PointsInto(data, 0, 64) && InstructionOverflows(data, NumberAt(data, 64))
  {
    hide NumberAt, FieldsOverflow, InstructionOverflows;
    assert INSTRUCTION_FIELDS[1..][1..] == [Bytes];
    assert AnyDynamic([Bytes]);
    if PointsInto(data, 0, 64) {
      OperandOverflows(data, NumberAt(data, 64));
    }
  }

  lemma OperandOverflows(data: seq<Byte>, o: nat)
    ensures FieldsOverflow(data, INSTRUCTION_FIELDS, o, o, 2) <==> InstructionOverflows(data, o)
  {
    hide NumberAt, FieldsOverflow, SlotOverflows, SlotAccepted, LengthOverflows;
    WordSlot(data, Uint8, o, o, 2);
    WordSlot(data, Uint8, o, o + 32, 2);
    StringSlot(data, Bytes, o, o + 64, 2);
    assert INSTRUCTION_FIELDS == [Uint8] + [Uint8, Bytes] && [Uint8, Bytes] == [Uint8] + [Bytes];
    assert [Bytes] == [Bytes] + [];
    HeadOverflows(data, Uint8, [Uint8, Bytes], o, o, 2);
    HeadOverflows(data, Uint8, [Bytes], o, o + 32, 2);
    HeadOverflows(data, Bytes, [], o, o + 64, 2);
    NoField(data, o, o + 96, 2);
  }

  // ---------------------------------------------------------------- texts

  /** An acknowledgement panics exactly when it is the hex of data that, padded, overflows. */
  lemma AckTextPanics(text: Text)
    ensures AckOutcome(text) == AckPanics <==>
              text != "" && FromHex(text).Some? && AckOverflows(PadTo32(FromHex(text).value))
  {
    hide Decode, FromHex, AckOverflows, Pow256, HaveTypes, RenderBytes, PadTo32;
    if FromHex(text).Some? {
      AckDataPanics(PadTo32(FromHex(text).value));
      NoMismatch(text);
    }
  }

  /** Reading packet data panics exactly when the packet does, or it holds a token order of a known
      version that does. */
  lemma PacketTextPanics(text: Text)
    ensures DecodePacket(text).Crashed? <==> FromHex(text).Some? && PacketOverflows(PadTo32(FromHex(text).value))
    ensures Order(text).Crashed? <==>
              DecodePacket(text).Crashed?
              || (DecodePacket(text).Good?
                  && var i := DecodePacket(text).value.instruction;
                     i.opcode == OPCODE_TOKEN_ORDER
                     && ((i.version == 1 && OverflowsIn(PadTo32(i.operand), ORDER_V1_FIELDS, 0, 0, 1))
                         || (i.version == 2 && OverflowsIn(PadTo32(i.operand), ORDER_V2_FIELDS, 0, 0, 1))))
  {
    hide Decode, FromHex, PacketOverflows, OverflowsIn, Pow256, HaveTypes, PadTo32;
    if FromHex(text).Some? {
      PacketDataPanics(PadTo32(FromHex(text).value));
      NoMismatch(text);
    }
    if DecodePacket(text).Good? {
      DecodedOperandFits(text);
      OrderPanics(PadTo32(DecodePacket(text).value.instruction.operand));
    }
  }

  /** A write_ack whose content has the length 2^63: reading the item panics. */
  lemma PanicItem() returns (text: Text, item: Item)
    ensures AckOutcome(text) == AckPanics
    ensures item == Call(ChainEvent(WriteAck("hash", text), "tx", false)) && ParseItemFields(item).Panicked?
  {
    text := PanicText();
    item := Call(ChainEvent(WriteAck("hash", text), "tx", false));
    hide AckOutcome, FormatTxHash;
  }

  lemma PanicText() returns (text: Text)
    ensures AckOutcome(text) == AckPanics
  {
    hide FromBigEndian, Word, Pow256, AckOutcome, EncodeHex, FromHex, AckOverflows, PadTo32;
    var data := Word(0) + Word(64) + Word(TWO_63);
    PanicData(data);
    FromHexRoundTrip(data);
    text := EncodeHex(data);
    AckTextPanics(text);
  }

  lemma PanicData(data: seq<Byte>)
    requires data == Word(0) + Word(64) + Word(TWO_63)
    ensures |data| == 96 && PadTo32(data) == data && AckOverflows(data)
  {
    hide FromBigEndian, Word, Pow256;
    assert At(data, 32, Word(64)) && At(data, 64, Word(TWO_63));
    WordRoundTrip(data, 32, 64);
    WordRoundTrip(data, 64, TWO_63);
  }
}
