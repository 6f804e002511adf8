/** The UCS03-ZKGM layer over the ABI decoder: packets, acknowledgements and token orders. */
module Zkgm {
  import opened Words
  import opened AbiTypes
  import opened AbiDecode
  import opened AbiEncode
  import opened AbiSound
  import opened AbiRoundTrip
  import opened Hex

  const OPCODE_TOKEN_ORDER: nat := 3

  const INSTRUCTION_FIELDS: seq<Field> := [Uint8, Uint8, Bytes]
  const PACKET_FIELDS: seq<Field> := [Bytes32, Uint256, Struct(INSTRUCTION_FIELDS)]
  const ORDER_V1_FIELDS: seq<Field> :=
    [Bytes, Bytes, Bytes, Uint256, String, String, Uint8, Uint256, Bytes, Uint256]
  const ORDER_V2_FIELDS: seq<Field> :=
    [Bytes, Bytes, Bytes, Uint256, Bytes, Uint256, Uint8, Bytes]
  const ACK_FIELDS: seq<Field> := [Uint256, Bytes]

  datatype Instruction = Instruction(version: nat, opcode: nat, operand: seq<Byte>)
  datatype Packet = Packet(salt: seq<Byte>, path: nat, instruction: Instruction)
  datatype TokenOrder = TokenOrder(
    sender: seq<Byte>, receiver: seq<Byte>, baseToken: seq<Byte>, baseAmount: nat,
    quoteToken: seq<Byte>, quoteAmount: nat)
  datatype Ack = Ack(tag: nat, innerAck: seq<Byte>)

  datatype ZkgmError =
    | NotHex
    | NotAbi(error: Error)
    | FieldCount
    | TypeMismatch
    | NotTokenOrder
    | UnknownVersion

  /** A result, an error, or the end of the process: the runtime panic of the ABI decoder. */
  datatype Answer<+T> = Good(value: T) | Bad(error: ZkgmError) | Crashed

  function DecoderError<T>(e: Error): Answer<T> {
    if e == Panic then Crashed else Bad(NotAbi(e))
  }

  // ---------------------------------------------------------------- decoding

  function DecodePacket(hexData: Text): Answer<Packet>
  {
    var data := FromHex(hexData);
    if data.None? then Bad(NotHex)
    else
      var vals := Decode(PACKET_FIELDS, PadTo32(data.value));
      if vals.Err? then DecoderError(vals.error)
      else if |vals.value| != 3 then Bad(FieldCount)
      else if !vals.value[0].VBytes32? || !vals.value[1].VBig? || !vals.value[2].VList? then Bad(TypeMismatch)
      else
        var instr := ParseInstruction(vals.value[2].vs);
        if instr.Bad? then Bad(instr.error)
        else Good(Packet(vals.value[0].b, vals.value[1].n, instr.value))
  }

  function ParseInstruction(vals: seq<Value>): (r: Answer<Instruction>)
    ensures !r.Crashed?
  {
    if |vals| != 3 then Bad(FieldCount)
    else if !vals[0].VUint8? || !vals[1].VUint8? || !vals[2].VBytes? then Bad(TypeMismatch)
    else Good(Instruction(vals[0].n, vals[1].n, vals[2].b))
  }

  function DecodeAck(hexData: Text): Answer<Ack>
  {
    var data := FromHex(hexData);
    if data.None? then Bad(NotHex)
    else
      var vals := Decode(ACK_FIELDS, PadTo32(data.value));
      if vals.Err? then DecoderError(vals.error)
      else if |vals.value| != 2 then Bad(FieldCount)
      else if !vals.value[0].VBig? || !vals.value[1].VBytes? then Bad(TypeMismatch)
      else Good(Ack(vals.value[0].n, vals.value[1].b))
  }

  function DecodeTokenOrder(p: Packet): (r: Answer<TokenOrder>)
    requires FitsBuffer(p.instruction.operand)
    ensures r == Bad(NotTokenOrder) <==> p.instruction.opcode != 3
  {
    if p.instruction.opcode != OPCODE_TOKEN_ORDER then Bad(NotTokenOrder)
    else
      var operand := PadTo32(p.instruction.operand);
      match p.instruction.version
      case 1 => DecodeOrder(ORDER_V1_FIELDS, operand, 8, 9)
      case 2 => DecodeOrder(ORDER_V2_FIELDS, operand, 4, 5)
      case _ => Bad(UnknownVersion)
  }

  /** decodeTokenOrderV1 and decodeTokenOrderV2, which differ in the schema and in where the
      quote token and the quote amount stand. */
  function DecodeOrder(fields: seq<Field>, operand: seq<Byte>, quoteToken: nat, quoteAmount: nat): Answer<TokenOrder>
    requires |fields| >= 4 && quoteToken < |fields| && quoteAmount < |fields| && |operand| < MAX_LENGTH
  {
    var vals := Decode(fields, operand);
    if vals.Err? then DecoderError(vals.error)
    else
      DecodeSound(fields, operand);
      var vs := vals.value;
      Good(TokenOrder(AsBytes(vs[0]), AsBytes(vs[1]), AsBytes(vs[2]), AsBigInt(vs[3]),
                      AsBytes(vs[quoteToken]), AsBigInt(vs[quoteAmount])))
  }

  /** A value of another type reads as no bytes. */
  function AsBytes(v: Value): seq<Byte> {
    if v.VBytes? then v.b else []
  }

  /** A value of another type reads as zero. */
  function AsBigInt(v: Value): nat {
    if v.VBig? then v.n else 0
  }

  /** Text that is not hex, or data the ABI decoder refuses with an error. */
  predicate HexOrAbiError(e: ZkgmError) {
    e.NotHex? || (e.NotAbi? && e.error != Panic)
  }

  /** The field counts and types the decoder returns are the ones the callers test for, so the
      only errors left are text that is not hex and data the ABI decoder refuses. */
  lemma NoMismatch(hexData: Text)
    ensures DecodePacket(hexData).Bad? ==> HexOrAbiError(DecodePacket(hexData).error)
    ensures DecodeAck(hexData).Bad? ==> HexOrAbiError(DecodeAck(hexData).error)
  {
    hide Decode, FromHex, Pow256, HaveTypes;
    if FromHex(hexData).Some? {
      var data := PadTo32(FromHex(hexData).value);
      DecodeSound(PACKET_FIELDS, data);
      DecodeSound(ACK_FIELDS, data);
      if Decode(ACK_FIELDS, data).Ok? {
        MemberTypes(ACK_FIELDS, Decode(ACK_FIELDS, data).value);
      }
      if Decode(PACKET_FIELDS, data).Ok? {
        var vs := Decode(PACKET_FIELDS, data).value;
        MemberTypes(PACKET_FIELDS, vs);
        assert HasType(PACKET_FIELDS[2], vs[2]);
        MemberTypes(INSTRUCTION_FIELDS, vs[2].vs);
      }
    }
  }

  /** A decoded order is made of the members themselves: the nil and zero that stand for a value
      of another type are never used. */
  lemma OrderMembers(fields: seq<Field>, operand: seq<Byte>, quoteToken: nat, quoteAmount: nat)
    requires |operand| < MAX_LENGTH
    requires (fields, quoteToken, quoteAmount) == (ORDER_V1_FIELDS, 8, 9)
          || (fields, quoteToken, quoteAmount) == (ORDER_V2_FIELDS, 4, 5)
    requires Decode(fields, operand).Ok?
    ensures var vs := Decode(fields, operand).value;
            && |vs| == |fields|
            && vs[0].VBytes? && vs[1].VBytes? && vs[2].VBytes? && vs[3].VBig?
            && vs[quoteToken].VBytes? && vs[quoteAmount].VBig?
            && DecodeOrder(fields, operand, quoteToken, quoteAmount)
            == Good(TokenOrder(vs[0].b, vs[1].b, vs[2].b, vs[3].n, vs[quoteToken].b, vs[quoteAmount].n))
  {
    hide Decode, Pow256;
    DecodeSound(fields, operand);
    MemberTypes(fields, Decode(fields, operand).value);
  }

  lemma {:induction false} MemberTypes(fs: seq<Field>, vs: seq<Value>)
    requires HaveTypes(fs, vs)
    ensures |vs| == |fs| && forall i :: 0 <= i < |fs| ==> HasType(fs[i], vs[i])
  {
    if fs != [] {
      MemberTypes(fs[1..], vs[1..]);
    }
  }

  // ---------------------------------------------------------------- encoding

  predicate ValidPacket(p: Packet) {
    && |p.salt| == 32 && p.path < Pow256(32)
    && p.instruction.version < 256 && p.instruction.opcode < 256
    && FitsBuffer(p.instruction.operand)
  }

  predicate ValidOrder(o: TokenOrder) {
    && o.baseAmount < Pow256(32) && o.quoteAmount < Pow256(32)
    && FitsBuffer(o.sender) && FitsBuffer(o.receiver) && FitsBuffer(o.baseToken) && FitsBuffer(o.quoteToken)
  }

  predicate ValidAck(a: Ack) {
    a.tag < Pow256(32) && FitsBuffer(a.innerAck)
  }

  predicate FitsBuffer(b: seq<Byte>) {
    |b| + 32 < MAX_LENGTH
  }

  /** What a token order carries besides the members the indexer reads. */
  datatype Form =
    | V1(symbol: seq<Byte>, name: seq<Byte>, decimals: nat, path: nat)
    | V2(kind: nat, metadata: seq<Byte>)
  {
    predicate Valid() {
      match this
      case V1(symbol, name, decimals, path) =>
        FitsBuffer(symbol) && FitsBuffer(name) && decimals < 256 && path < Pow256(32)
      case V2(kind, metadata) => kind < 256 && FitsBuffer(metadata)
    }

    function Version(): nat {
      if V1? then 1 else 2
    }

    function Fields(): seq<Field> {
      if V1? then ORDER_V1_FIELDS else ORDER_V2_FIELDS
    }

    function Values(o: TokenOrder): seq<Value> {
      match this
      case V1(symbol, name, decimals, path) =>
        [VBytes(o.sender), VBytes(o.receiver), VBytes(o.baseToken), VBig(o.baseAmount), VString(symbol),
         VString(name), VUint8(decimals), VBig(path), VBytes(o.quoteToken), VBig(o.quoteAmount)]
      case V2(kind, metadata) =>
        [VBytes(o.sender), VBytes(o.receiver), VBytes(o.baseToken), VBig(o.baseAmount), VBytes(o.quoteToken),
         VBig(o.quoteAmount), VUint8(kind), VBytes(metadata)]
    }
  }

  function PacketValues(p: Packet): seq<Value> {
    [VBytes32(p.salt), VBig(p.path),
     VList([VUint8(p.instruction.version), VUint8(p.instruction.opcode), VBytes(p.instruction.operand)])]
  }

  function EncodePacket(p: Packet): seq<Byte>
    requires ValidPacket(p)
  {
    PacketEncodable(p);
    EncodeTuple(PACKET_FIELDS, PacketValues(p))
  }

  function EncodeOrder(o: TokenOrder, form: Form): seq<Byte>
    requires ValidOrder(o) && form.Valid()
  {
    OrderEncodable(o, form);
    EncodeTuple(form.Fields(), form.Values(o))
  }

  function EncodeAck(a: Ack): seq<Byte>
    requires ValidAck(a)
  {
    AckEncodable(a);
    EncodeTuple(ACK_FIELDS, [VBig(a.tag), VBytes(a.innerAck)])
  }

  /** Types and depths of a list, member by member. */
  lemma ListEncodable(fs: seq<Field>, vs: seq<Value>, d: nat)
    requires |fs| == |vs|
    requires forall i :: 0 <= i < |fs| ==> Encodable(fs[i], vs[i]) && Depth(fs[i], vs[i]) <= d
    ensures AllEncodable(fs, vs) && MaxDepth(fs, vs) <= d
  {
    if fs != [] {
      ListEncodable(fs[1..], vs[1..], d);
    }
  }

  lemma ListNoEmpty(fs: seq<Field>)
    requires forall i :: 0 <= i < |fs| ==> NoEmpty(fs[i])
    ensures AllNoEmpty(fs)
  {
    if fs != [] {
      ListNoEmpty(fs[1..]);
    }
  }

  lemma NoneEmpty()
    ensures AllNoEmpty(PACKET_FIELDS) && AllNoEmpty(ACK_FIELDS)
    ensures AllNoEmpty(ORDER_V1_FIELDS) && AllNoEmpty(ORDER_V2_FIELDS)
  {
    hide AllNoEmpty;
    ListNoEmpty(INSTRUCTION_FIELDS);
    ListNoEmpty(PACKET_FIELDS);
    ListNoEmpty(ACK_FIELDS);
    ListNoEmpty(ORDER_V1_FIELDS);
    ListNoEmpty(ORDER_V2_FIELDS);
  }

  lemma PacketEncodable(p: Packet)
    requires ValidPacket(p)
    ensures AllEncodable(PACKET_FIELDS, PacketValues(p)) && MaxDepth(PACKET_FIELDS, PacketValues(p)) <= 1
  {
    hide Pow256;
    ListEncodable(INSTRUCTION_FIELDS, PacketValues(p)[2].vs, 0);
    ListEncodable(PACKET_FIELDS, PacketValues(p), 1);
  }

  lemma OrderEncodable(o: TokenOrder, form: Form)
    requires ValidOrder(o) && form.Valid()
    ensures AllEncodable(form.Fields(), form.Values(o)) && MaxDepth(form.Fields(), form.Values(o)) <= 0
  {
    hide Pow256;
    ListEncodable(form.Fields(), form.Values(o), 0);
  }

  lemma AckEncodable(a: Ack)
    requires ValidAck(a)
    ensures var vs := [VBig(a.tag), VBytes(a.innerAck)];
            AllEncodable(ACK_FIELDS, vs) && MaxDepth(ACK_FIELDS, vs) <= 0
  {
    hide Pow256;
    ListEncodable(ACK_FIELDS, [VBig(a.tag), VBytes(a.innerAck)], 0);
  }

  // ---------------------------------------------------------------- round trips

  /** Text that fromHex and padTo32 turn into the given bytes. */
  predicate Carries(text: Text, data: seq<Byte>) {
    FromHex(text).Some? && PadTo32(FromHex(text).value) == data
  }

  lemma PacketRoundTrip(p: Packet, text: Text)
    requires ValidPacket(p) && Carries(text, EncodePacket(p))
    ensures DecodePacket(text) == Good(p)
  {
    NoneEmpty();
    hide Decode, EncodeTuple, FromHex, Pow256, HaveTypes, HasType, MaxDepth, AllWellFormed, AllNoEmpty;
    PacketEncodable(p);
    RoundTrip(PACKET_FIELDS, PacketValues(p));
  }

  lemma OrderRoundTrip(p: Packet, o: TokenOrder, form: Form)
    requires ValidOrder(o) && form.Valid()
    requires p.instruction.opcode == 3 && p.instruction.version == (if form.V1? then 1 else 2)
    requires FitsBuffer(p.instruction.operand) && PadTo32(p.instruction.operand) == EncodeOrder(o, form)
    ensures DecodeTokenOrder(p) == Good(o)
  {
    NoneEmpty();
    hide Decode, EncodeTuple, FromHex, Pow256, HaveTypes, HasType, MaxDepth, AllWellFormed, AllNoEmpty;
    OrderEncodable(o, form);
    RoundTrip(form.Fields(), form.Values(o));
  }

  lemma AckRoundTrip(a: Ack, text: Text)
    requires ValidAck(a) && Carries(text, EncodeAck(a))
    ensures DecodeAck(text) == Good(a)
  {
    NoneEmpty();
    hide Decode, EncodeTuple, FromHex, Pow256, HaveTypes, HasType, MaxDepth, AllWellFormed, AllNoEmpty;
    AckEncodable(a);
    RoundTrip(ACK_FIELDS, [VBig(a.tag), VBytes(a.innerAck)]);
  }

  /** The packet that carries a token order. */
  function OrderPacket(salt: seq<Byte>, path: nat, o: TokenOrder, form: Form): Packet
    requires ValidOrder(o) && form.Valid()
  {
    Packet(salt, path, Instruction(form.Version(), OPCODE_TOKEN_ORDER, EncodeOrder(o, form)))
  }

  /** A token order of either version, encoded as the operand of a packet, and the packet as hex
      with or without "0x", comes out of the two decoding steps unchanged. */
  lemma LayeredRoundTrip(salt: seq<Byte>, path: nat, o: TokenOrder, form: Form, text: Text)
    requires ValidOrder(o) && form.Valid() && ValidPacket(OrderPacket(salt, path, o, form))
    requires var hex := EncodeHex(EncodePacket(OrderPacket(salt, path, o, form)));
             text == hex || text == "0x" + hex
    ensures var p := OrderPacket(salt, path, o, form);
            && DecodePacket(text) == Good(p) && DecodeTokenOrder(p) == Good(o)
            && p.instruction.opcode == 3 && p.instruction.version == (if form.V1? then 1 else 2)
  {
    hide DecodeTokenOrder, DecodePacket, EncodePacket, EncodeOrder, EncodeHex, Carries;
    var p := OrderPacket(salt, path, o, form);
    PacketWhole(p);
    OrderWhole(o, form);
    CarriesHex(EncodePacket(p), text);
    PacketRoundTrip(p, text);
    OrderRoundTrip(p, o, form);
  }

  lemma CarriesHex(data: seq<Byte>, text: Text)
    requires |data| % 32 == 0 && (text == EncodeHex(data) || text == "0x" + EncodeHex(data))
    ensures Carries(text, data) && |data| < TWO_63 - 64
  {
    hide EncodeHex, FromHex;
    FromHexRoundTrip(data);
  }

  lemma PacketWhole(p: Packet)
    requires ValidPacket(p)
    ensures |EncodePacket(p)| % 32 == 0 && |p.instruction.operand| <= |EncodePacket(p)|
  {
    hide EncodeTuple, Pow256;
    PacketEncodable(p);
    var vs := PacketValues(p);
    EncodeTupleLength(PACKET_FIELDS, vs);
    MemberFits(PACKET_FIELDS, vs, 2);
    EncodeTupleLength(INSTRUCTION_FIELDS, vs[2].vs);
    MemberFits(INSTRUCTION_FIELDS, vs[2].vs, 2);
  }

  lemma OrderWhole(o: TokenOrder, form: Form)
    requires ValidOrder(o) && form.Valid()
    ensures |EncodeOrder(o, form)| % 32 == 0
  {
    OrderEncodable(o, form);
    EncodeTupleLength(form.Fields(), form.Values(o));
  }
}
