/** Voyager items as the relayer stores them, after JSON decoding, and the matching fields the
    indexer reads from them. */
module Items {
  import opened Words
  import opened Options
  import opened AbiTypes
  import opened AbiDecode
  import opened AbiEncode
  import opened AbiSound
  import opened Base64
  import opened Hex
  import opened Zkgm

  datatype PacketEvent = PacketEvent(data: Text, hash: string, channel: int, timeout: int)

  /** The event inside a make_chain_event or make_full_event message. BadEvent is one whose
      value does not decode. */
  datatype Event =
    | PacketSend(packet: PacketEvent)
    | PacketRecv(packet: PacketEvent)
    | WriteAck(hash: string, acknowledgement: Text)
    | OtherEvent
    | BadEvent

  datatype Datagram = PacketTimeout(timeout: int, channel: int) | BadTimeout | OtherDatagram

  /** One event of a promise batch; absent JSON members read as zero. */
  datatype BatchEntry = BatchEntry(kind: string, timeout: int, channel: int)

  datatype Message =
    | ChainEvent(event: Event, txHash: string, gno: bool)
    | FullEvent(event: Event, txHash: string, gno: bool)
    | Multicall(datagrams: seq<Datagram>)
    | OtherMessage

  datatype Item = Call(message: Message) | Promise(batches: seq<seq<BatchEntry>>) | OtherItem

  const PACKET_SEND := "packet_send"
  const PACKET_RECV := "packet_recv"
  const WRITE_ACK := "write_ack"

  datatype ItemFields = ItemFields(
    eventType: string, timeout: int, channel: int, hash: string, txHash: string,
    ackSuccess: bool, ackError: string)

  /** The key that stands in for the packet hash a timeout datagram does not carry. */
  datatype TimeoutKey = TimeoutKey(timeout: int, channel: int)

  // ---------------------------------------------------------------- transaction hashes

  /** formatTxHash: the hashes of gno are stored as hex but shown in base64. */
  function FormatTxHash(txHash: string, gno: bool): string {
    if txHash == "" || !gno then txHash
    else
      var b := FromHex(txHash);
      if b.None? then txHash else EncodeBase64(b.value)
  }

  /** The formatted hash stands for the same bytes, or is the hash itself; and it is empty, which
      keeps tx_in from being set, exactly for an empty hash and for the bare prefix "0x" on gno. */
  lemma TxHashFaithful(txHash: string, gno: bool)
    ensures var s := FormatTxHash(txHash, gno);
            && (if gno && FromHex(txHash).Some? then DecodeBase64(s) == FromHex(txHash) else s == txHash)
            && (s == "" <==> txHash == "" || (gno && txHash == "0x"))
  {
    if gno && FromHex(txHash).Some? {
      DecodeEncodeBase64(FromHex(txHash).value);
      assert "0x" <= txHash ==> txHash == "0x" + txHash[2..];
    }
  }

  // ---------------------------------------------------------------- parsing

  function ParseItemFields(item: Item): Reading<ItemFields> {
    match item
    case Call(ChainEvent(PacketSend(p), tx, gno)) =>
      Found(ItemFields(PACKET_SEND, p.timeout, p.channel, p.hash, FormatTxHash(tx, gno), false, ""))
    case Call(ChainEvent(PacketRecv(p), tx, gno)) =>
      Found(ItemFields(PACKET_RECV, p.timeout, p.channel, p.hash, FormatTxHash(tx, gno), false, ""))
    case Call(ChainEvent(WriteAck(hash, ack), tx, gno)) => AckFields(hash, ack, FormatTxHash(tx, gno))
    case Call(FullEvent(WriteAck(hash, ack), tx, gno)) => AckFields(hash, ack, FormatTxHash(tx, gno))
    case Promise(batches) =>
      var e := FirstTimed(batches);
      if e.None? then Nothing
      else Found(ItemFields(e.value.kind, e.value.timeout, e.value.channel, "", "", false, ""))
    case _ => Nothing
  }

  function AckFields(hash: string, ack: Text, tx: string): Reading<ItemFields> {
    match AckOutcome(ack)
    case AckRead(success, error) => Found(ItemFields(WRITE_ACK, 0, 0, hash, tx, success, error))
    case AckPanics => Panicked
  }

  /** The first batch entry with a timeout, batch by batch. */
  function FirstTimed(batches: seq<seq<BatchEntry>>): Option<BatchEntry> {
    if batches == [] then None
    else
      var e := FirstTimedIn(batches[0]);
      if e.Some? then e else FirstTimed(batches[1..])
  }

  function FirstTimedIn(batch: seq<BatchEntry>): Option<BatchEntry> {
    if batch == [] then None
    else if batch[0].timeout != 0 then Some(batch[0])
    else FirstTimedIn(batch[1..])
  }

  /** The keys of the packet_timeout datagrams of a multicall item. */
  function Timeouts(item: Item): seq<TimeoutKey> {
    match item
    case Call(Multicall(datagrams)) => TimeoutKeys(datagrams)
    case _ => []
  }

  function TimeoutKeys(ds: seq<Datagram>): seq<TimeoutKey> {
    if ds == [] then []
    else
      var last := ds[|ds| - 1];
      TimeoutKeys(ds[..|ds| - 1]) + (if last.PacketTimeout? then [TimeoutKey(last.timeout, last.channel)] else [])
  }

  /** ParsePacketTimeouts, which appends key by key. */
  method ParsePacketTimeouts(item: Item) returns (out: seq<TimeoutKey>)
    ensures out == Timeouts(item)
    ensures forall k :: k in out <==>
              item.Call? && item.message.Multicall? && PacketTimeout(k.timeout, k.channel) in item.message.datagrams
  {
    if !item.Call? || !item.message.Multicall? {
      return [];
    }
    var items := item.message.datagrams;
    out := [];
    for i := 0 to |items|
      invariant out == TimeoutKeys(items[..i])
      invariant forall k :: k in out <==> PacketTimeout(k.timeout, k.channel) in items[..i]
    {
      assert items[..i + 1][..i] == items[..i] && items[..i + 1] == items[..i] + [items[i]];
      if items[i].PacketTimeout? {
        out := out + [TimeoutKey(items[i].timeout, items[i].channel)];
      }
    }
    assert items[..|items|] == items;
  }

  /** No item is read both ways, so the order of the two readings does not matter. */
  lemma NeverBoth(item: Item)
    ensures ParseItemFields(item).Nothing? || Timeouts(item) == []
  {
  }

  // ---------------------------------------------------------------- kinds of items

  /** A write_ack for the hash, in either message form. */
  predicate IsAck(item: Item, hash: string, ack: Text, tx: string, gno: bool) {
    || item == Call(ChainEvent(WriteAck(hash, ack), tx, gno))
    || item == Call(FullEvent(WriteAck(hash, ack), tx, gno))
  }

  ghost predicate AckOf(item: Item, hash: string) {
    exists ack, tx, gno :: IsAck(item, hash, ack, tx, gno)
  }

  /** A packet event, sent or received, in either message form. */
  predicate IsPacket(item: Item, p: PacketEvent, tx: string, gno: bool) {
    || item == Call(ChainEvent(PacketSend(p), tx, gno)) || item == Call(ChainEvent(PacketRecv(p), tx, gno))
    || item == Call(FullEvent(PacketSend(p), tx, gno)) || item == Call(FullEvent(PacketRecv(p), tx, gno))
  }

  ghost predicate PacketOf(item: Item, p: PacketEvent) {
    exists tx, gno :: IsPacket(item, p, tx, gno)
  }

  /** A promise whose first entry with a timeout, in the order of its batches, is e. */
  ghost predicate IsPromise(item: Item, e: BatchEntry) {
    item.Promise? && exists i, j :: FirstTimedAt(item.batches, i, j) && item.batches[i][j] == e
  }

  ghost predicate FirstTimedAt(batches: seq<seq<BatchEntry>>, i: int, j: int) {
    && 0 <= i < |batches| && 0 <= j < |batches[i]| && batches[i][j].timeout != 0
    && (forall k :: 0 <= k < j ==> batches[i][k].timeout == 0)
    && (forall m, k :: 0 <= m < i && 0 <= k < |batches[m]| ==> batches[m][k].timeout == 0)
  }

  /** The search for it finds the first one, and exactly when there is one. */
  lemma {:induction false} FirstTimedExact(batches: seq<seq<BatchEntry>>)
    ensures var e := FirstTimed(batches);
            && (e.None? ==> forall i, j :: 0 <= i < |batches| && 0 <= j < |batches[i]| ==> batches[i][j].timeout == 0)
            && (e.Some? ==> exists i, j :: FirstTimedAt(batches, i, j) && batches[i][j] == e.value)
  {
    if batches != [] {
      var j := FirstInBatch(batches[0]);
      if FirstTimedIn(batches[0]).Some? {
        assert FirstTimedAt(batches, 0, j);
      } else {
        FirstTimedExact(batches[1..]);
        if FirstTimed(batches[1..]).Some? {
          var i, k :| FirstTimedAt(batches[1..], i, k) && batches[1..][i][k] == FirstTimed(batches[1..]).value;
          assert forall m :: 0 < m < |batches| ==> batches[m] == batches[1..][m - 1];
          assert FirstTimedAt(batches, i + 1, k) && batches[i + 1][k] == FirstTimed(batches).value;
        } else {
          assert forall m :: 0 < m < |batches| ==> batches[m] == batches[1..][m - 1];
        }
      }
    }
  }

  lemma {:induction false} FirstInBatch(batch: seq<BatchEntry>) returns (j: nat)
    ensures var e := FirstTimedIn(batch);
            && (e.None? ==> forall k :: 0 <= k < |batch| ==> batch[k].timeout == 0)
            && (e.Some? ==> j < |batch| && batch[j] == e.value && e.value.timeout != 0
                            && forall k :: 0 <= k < j ==> batch[k].timeout == 0)
  {
    j := 0;
    if batch != [] && batch[0].timeout == 0 {
      j := FirstInBatch(batch[1..]);
      j := j + 1;
      assert forall k :: 0 < k < |batch| ==> batch[k] == batch[1..][k - 1];
    }
  }

  lemma OnlyFirst(batches: seq<seq<BatchEntry>>, i: int, j: int, k: int, l: int)
    requires FirstTimedAt(batches, i, j) && FirstTimedAt(batches, k, l)
    ensures i == k && j == l
  {
  }

  /** So a promise is read as its first entry with a timeout. */
  lemma PromiseRead(item: Item, e: BatchEntry)
    requires item.Promise?
    ensures IsPromise(item, e) <==> FirstTimed(item.batches) == Some(e)
    ensures IsPromise(item, e) ==>
              ParseItemFields(item) == Found(ItemFields(e.kind, e.timeout, e.channel, "", "", false, ""))
  {
    FirstTimedExact(item.batches);
    if IsPromise(item, e) {
      var i, j :| FirstTimedAt(item.batches, i, j) && item.batches[i][j] == e;
      assert FirstTimed(item.batches).Some?;
      var k, l :| FirstTimedAt(item.batches, k, l) && item.batches[k][l] == FirstTimed(item.batches).value;
      OnlyFirst(item.batches, i, j, k, l);
    }
  }

  // ---------------------------------------------------------------- acknowledgements

  datatype AckReading = AckRead(success: bool, error: string) | AckPanics

  /** decodeAckOutcome: success and error text; an absent acknowledgement, or one refused with an
      error, counts as success. */
  function AckOutcome(ack: Text): AckReading {
    if ack == "" then AckRead(true, "")
    else
      match DecodeAck(ack)
      case Good(a) => if a.tag != 0 then AckRead(true, "") else AckRead(false, RenderBytes(a.innerAck))
      case Bad(_) => AckRead(true, "")
      case Crashed => AckPanics
  }

  /** An encoded acknowledgement is a success exactly when its 256-bit tag is not zero, and its
      content becomes the error text otherwise. */
  lemma AckOutcomeOfEncoded(a: Ack, text: Text)
    requires ValidAck(a) && Carries(text, EncodeAck(a))
    ensures AckOutcome(text) == if a.tag != 0 then AckRead(true, "") else AckRead(false, RenderBytes(a.innerAck))
  {
    hide EncodeAck, DecodeAck, RenderBytes;
    AckNotEmpty(a);
    AckRoundTrip(a, text);
  }

  /** When an acknowledgement is a failure: when it is hex of data that, padded, decodes as a tag of
      zero and a text. An absent one, one that is not hex, and one the decoder refuses with an error
      are successes. */
  lemma AckOutcomeExact(ack: Text)
    ensures ack == "" || FromHex(ack).None? ==> AckOutcome(ack) == AckRead(true, "")
    ensures ack != "" && FromHex(ack).Some? ==>
              AckOutcome(ack) ==
              match Decode([Uint256, Bytes], PadTo32(FromHex(ack).value))
              case Err(Panic) => AckPanics
              case Err(_) => AckRead(true, "")
              case Ok(vs) =>
                if |vs| == 2 && vs[0] == VBig(0) && vs[1].VBytes? then AckRead(false, RenderBytes(vs[1].b))
                else AckRead(true, "")
  {
    hide Decode, FromHex, RenderBytes, PadTo32;
    NoMismatch(ack);
  }

  lemma AckNotEmpty(a: Ack)
    requires ValidAck(a)
    ensures EncodeAck(a) != []
  {
    hide Pow256;
    AckEncodable(a);
    EncodeTupleLength(ACK_FIELDS, [VBig(a.tag), VBytes(a.innerAck)]);
    assert HeadsSize(ACK_FIELDS) >= 32;
  }

  // ---------------------------------------------------------------- rendering

  predicate Printable(b: seq<Byte>) {
    forall i :: 0 <= i < |b| ==> 32 <= b[i] <= 126
  }

  function Chars(b: seq<Byte>): (s: string)
    ensures |s| == |b|
  {
    seq(|b|, i requires 0 <= i < |b| => b[i] as char)
  }

  function TrimZeros(b: seq<Byte>): (t: seq<Byte>)
    ensures |t| <= |b| && b == t + Zeros(|b| - |t|)
    ensures t != [] ==> t[|t| - 1] != 0
  {
    if b == [] || b[|b| - 1] != 0 then b
    else
      var t := TrimZeros(b[..|b| - 1]);
      assert b == b[..|b| - 1] + [0];
      t
  }

  /** renderBytes: the text without trailing zero bytes when it is printable ASCII, and hex of
      all bytes otherwise. */
  function RenderBytes(b: seq<Byte>): string {
    var t := TrimZeros(b);
    if Printable(t) then Chars(t) else "0x" + EncodeHex(b)
  }

  /** The text is printable. The bytes are its characters up to trailing zeros, or it is hex that
      reads back as the bytes; the text alone does not say which. */
  lemma RenderFaithful(b: seq<Byte>)
    ensures var s := RenderBytes(b);
            && (forall i :: 0 <= i < |s| ==> ' ' <= s[i] <= '~')
            && ((exists k: nat :: k <= |b| && s == Chars(b[..|b| - k]) && b == b[..|b| - k] + Zeros(k))
                || (|s| >= 2 && s[..2] == "0x" && FromHex(s) == Some(b)))
  {
    var t := TrimZeros(b);
    var s := RenderBytes(b);
    if Printable(t) {
      var k := |b| - |t|;
      assert b[..|b| - k] == t;
    } else {
      FromHexRoundTrip(b);
      HexPrintable(b);
    }
  }

  /** What is kept as text: bytes that are all from 32 to 126, but for zeros at the end. Everything
      else becomes 0x and hex. */
  lemma RenderExactly(b: seq<Byte>, k: nat)
    requires k <= |b| && (k > 0 ==> b[k - 1] != 0) && forall i :: k <= i < |b| ==> b[i] == 0
    ensures (forall i :: 0 <= i < k ==> 32 <= b[i] <= 126) ==>
              |RenderBytes(b)| == k && forall i :: 0 <= i < k ==> RenderBytes(b)[i] as int == b[i] as int
    ensures (exists i :: 0 <= i < k && !(32 <= b[i] <= 126)) ==> RenderBytes(b) == "0x" + EncodeHex(b)
  {
    var t := TrimZeros(b);
    assert forall i :: |t| <= i < |b| ==> b[i] == 0;
    assert t != [] ==> b[|t| - 1] == t[|t| - 1];
    assert |t| == k;
    assert t == b[..k];
  }

  /** One unprintable byte and four characters give the same text. */
  lemma RenderCollision()
    ensures RenderBytes([255]) == "0xff" && RenderBytes([48, 120, 102, 102]) == "0xff"
    ensures TrimZeros([255]) != TrimZeros([48, 120, 102, 102])
  {
    var text: seq<Byte> := [48, 120, 102, 102];
    assert TrimZeros([255]) == [255] && TrimZeros(text) == text;
    assert EncodeHex([255]) == [DigitChar(15), DigitChar(15)] + EncodeHex([255][1..]);
    assert Chars(text) == [48 as char, 120 as char, 102 as char, 102 as char] == "0xff";
  }

  /** The bytes are unprintable, and the others spell out their hex text. */
  predicate Spells(b: seq<Byte>, other: seq<Byte>) {
    Printable(TrimZeros(b)) && !Printable(TrimZeros(other)) && Chars(TrimZeros(b)) == "0x" + EncodeHex(other)
  }

  /** Which bytes are rendered alike: printable ones that agree up to trailing zeros, unprintable
      ones only if equal, and beyond that exactly an unprintable string and the characters of its
      hex text. */
  lemma RenderedAlike(a: seq<Byte>, b: seq<Byte>)
    ensures RenderBytes(a) == RenderBytes(b) <==>
              || (Printable(TrimZeros(a)) && TrimZeros(a) == TrimZeros(b))
              || a == b
              || Spells(a, b) || Spells(b, a)
  {
    hide TrimZeros, Printable, EncodeHex, Chars;
    CharsInjective(TrimZeros(a), TrimZeros(b));
    HexInjective(a, b);
    assert ("0x" + EncodeHex(a))[2..] == EncodeHex(a) && ("0x" + EncodeHex(b))[2..] == EncodeHex(b);
  }

  /** A text that does not start with "0x" determines its bytes up to trailing zeros. */
  lemma RenderDetermines(a: seq<Byte>, b: seq<Byte>)
    requires RenderBytes(a) == RenderBytes(b) && !("0x" <= RenderBytes(a))
    ensures TrimZeros(a) == TrimZeros(b)
  {
    hide TrimZeros, Printable, EncodeHex, Chars;
    RenderedAlike(a, b);
  }

  lemma CharsInjective(a: seq<Byte>, b: seq<Byte>)
    ensures Chars(a) == Chars(b) <==> a == b
  {
    if Chars(a) == Chars(b) {
      forall i | 0 <= i < |a|
        ensures a[i] == b[i]
      {
        assert Chars(a)[i] == Chars(b)[i];
      }
    }
  }

  lemma HexInjective(a: seq<Byte>, b: seq<Byte>)
    ensures EncodeHex(a) == EncodeHex(b) <==> a == b
  {
    DecodeEncodeHex(a);
    DecodeEncodeHex(b);
  }

  lemma {:induction false} HexPrintable(b: seq<Byte>)
    ensures forall i :: 0 <= i < |EncodeHex(b)| ==> ' ' <= EncodeHex(b)[i] <= '~'
  {
    if b != [] {
      HexPrintable(b[1..]);
    }
  }

  /** The decimal digits of a number, as big.Int prints it. */
  function Decimal(n: nat): (s: string)
    ensures s != "" && forall i :: 0 <= i < |s| ==> '0' <= s[i] <= '9'
  {
    (if n < 10 then "" else Decimal(n / 10)) + [DigitChar(n % 10)]
  }

  function FromDecimal(s: string): nat
    requires forall i :: 0 <= i < |s| ==> Digit(s[i]).Some?
  {
    if s == "" then 0 else 10 * FromDecimal(s[..|s| - 1]) + Digit(s[|s| - 1]).value
  }

  lemma {:induction false} DecimalRoundTrip(n: nat)
    ensures FromDecimal(Decimal(n)) == n
  {
    hide Digit, DigitChar;
    var s := Decimal(n);
    assert s[|s| - 1] == DigitChar(n % 10);
    if n < 10 {
      assert s[..|s| - 1] == "";
    } else {
      DecimalRoundTrip(n / 10);
      assert s[..|s| - 1] == Decimal(n / 10);
    }
  }

  // ---------------------------------------------------------------- packet data

  /** The columns of a bridge record that come from its token order. */
  class BridgeRecord {
    var fromAddress: string
    var toAddress: string
    var baseToken: string
    var baseAmount: string
    var quoteToken: string
    var quoteAmount: string

    constructor ()
      ensures fromAddress == toAddress == baseToken == baseAmount == quoteToken == quoteAmount == ""
    {
      fromAddress, toAddress, baseToken, baseAmount, quoteToken, quoteAmount := "", "", "", "", "", "";
    }

    /** The record shows this order. */
    predicate Shows(o: TokenOrder)
      reads this
    {
      && fromAddress == RenderBytes(o.sender) && toAddress == RenderBytes(o.receiver)
      && baseToken == RenderBytes(o.baseToken) && baseAmount == Decimal(o.baseAmount)
      && quoteToken == RenderBytes(o.quoteToken) && quoteAmount == Decimal(o.quoteAmount)
    }

    /** decodePacketData: all six columns are filled from the order, or none is touched. */
    method DecodePacketData(hexData: Text) returns (failed: bool, panicked: bool)
      modifies this
      ensures Order(hexData).Good? ==> Shows(Order(hexData).value)
      ensures !Order(hexData).Good? ==> unchanged(this)
      ensures failed <==> hexData != "" && Order(hexData).Bad? && Order(hexData).error != NotTokenOrder
      ensures panicked <==> Order(hexData).Crashed?
    {
      hide DecodePacket, DecodeTokenOrder, RenderBytes, Decimal;
      if hexData == "" {
        PacketNotEmpty();
        return false, false;
      }
      var zkgm := DecodePacket(hexData);
      if !zkgm.Good? {
        NoMismatch(hexData);
        return zkgm.Bad?, zkgm.Crashed?;
      }
      if zkgm.value.instruction.opcode != OPCODE_TOKEN_ORDER {
        return false, false;
      }
      DecodedOperandFits(hexData);
      var order := DecodeTokenOrder(zkgm.value);
      if !order.Good? {
        return order.Bad?, order.Crashed?;
      }
      fromAddress := RenderBytes(order.value.sender);
      toAddress := RenderBytes(order.value.receiver);
      baseToken := RenderBytes(order.value.baseToken);
      baseAmount := Decimal(order.value.baseAmount);
      quoteToken := RenderBytes(order.value.quoteToken);
      quoteAmount := Decimal(order.value.quoteAmount);
      return false, false;
    }
  }

  lemma DecodedOperandFits(hexData: Text)
    requires DecodePacket(hexData).Good?
    ensures FitsBuffer(DecodePacket(hexData).value.instruction.operand)
  {
    hide Decode, Pow256, FromHex, HaveTypes;
    var data := PadTo32(FromHex(hexData).value);
    DecodeSound(PACKET_FIELDS, data);
    var vs := Decode(PACKET_FIELDS, data).value;
    MemberTypes(PACKET_FIELDS, vs);
    assert HasType(PACKET_FIELDS[2], vs[2]);
    MemberTypes(INSTRUCTION_FIELDS, vs[2].vs);
    assert HasType(INSTRUCTION_FIELDS[2], vs[2].vs[2]);
  }

  /** Both decoding steps on the text of a packet. */
  function Order(hexData: Text): Answer<TokenOrder> {
    match DecodePacket(hexData)
    case Bad(e) => Bad(e)
    case Crashed => Crashed
    case Good(p) =>
      DecodedOperandFits(hexData);
      DecodeTokenOrder(p)
  }

  lemma PacketNotEmpty()
    ensures DecodePacket("").Bad?
  {
    hide TupleAt;
    assert FromHex("") == Some([]) && PadTo32([]) == [];
    NothingToDecode(PACKET_FIELDS);
  }

  lemma NothingToDecode(fs: seq<Field>)
    requires fs != [] && WellFormed(fs[0]) && NoEmpty(fs[0])
    ensures Decode(fs, []) == Err(InvalidData)
  {
    hide SlotSize, SlotAt, WellFormed, NoEmpty;
    assert SlotSizeOf(fs[0]) >= 32;
    assert FieldsAt([], fs, 0, 0, 1) == Err(InvalidData);
  }
}
