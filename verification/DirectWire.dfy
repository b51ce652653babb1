/** The wire form of one telemetry update: a 32-byte header, the key and the value, each clipped to
  * fixed limits. Multi-byte integers are little-endian; a double is its eight raw bytes.
  */
module DirectWire {

  type byte = x: int | 0 <= x < 0x100
  type octets = seq<byte>
  type raw8 = s: octets | |s| == 8 witness [0, 0, 0, 0, 0, 0, 0, 0]
  type uint64 = x: int | 0 <= x < 0x1_0000_0000_0000_0000

  const KEY_MAX: nat := 128
  const STRING_MAX: nat := 256
  const STRING_ARRAY_MAX_COUNT: nat := 32
  const HEADER_BYTES: nat := 32
  const MSG_UPSERT: byte := 1
  const FRAME_MAX: nat := 8417

  datatype Value =
    | BoolValue(flag: bool)
    | DoubleValue(raw: raw8)
    | StringValue(text: octets)
    | StringArrayValue(items: seq<octets>)

  datatype Update = Update(key: octets, value: Value, seqNo: uint64, timestampUs: uint64)

  function KeyOf(u: Update): octets { u.key }

  function ValueOf(u: Update): Value { u.value }

  // ---------------------------------------------------------------- clipping

  function Prefix<T>(s: seq<T>, n: nat): seq<T>
  {
    if |s| <= n then s else s[..n]
  }

  function ClipKey(key: octets): octets
  {
    Prefix(key, KEY_MAX)
  }

  function ClipItem(item: octets): octets
  {
    Prefix(item, STRING_MAX)
  }

  function ClipItems(items: seq<octets>): seq<octets>
  {
    var kept := Prefix(items, STRING_ARRAY_MAX_COUNT);
    seq(|kept|, i requires 0 <= i < |kept| => ClipItem(kept[i]))
  }

  function ClipValue(v: Value): Value
  {
    match v
    case BoolValue(_) => v
    case DoubleValue(_) => v
    case StringValue(text) => StringValue(ClipItem(text))
    case StringArrayValue(items) => StringArrayValue(ClipItems(items))
  }

  /** What a reader can at best see of an update. */
  function Clip(u: Update): Update
  {
    u.(key := ClipKey(u.key), value := ClipValue(u.value))
  }

  // ---------------------------------------------------------------- integers

  function Pow256(k: nat): nat
  {
    if k == 0 then 1 else 256 * Pow256(k - 1)
  }

  /** The low k bytes of n, least significant first: storing n through a k-byte field. */
  function LittleEndian(n: nat, k: nat): (bs: octets)
    ensures |bs| == k
  {
    if k == 0 then [] else [n % 256] + LittleEndian(n / 256, k - 1)
  }

  function FromLittleEndian(bs: octets): nat
  {
    if bs == [] then 0 else bs[0] + 256 * FromLittleEndian(bs[1..])
  }

  lemma {:induction false} LittleEndianRoundTrip(n: nat, k: nat)
    requires n < Pow256(k)
    ensures FromLittleEndian(LittleEndian(n, k)) == n
  {
    if k != 0 {
      assert n / 256 < Pow256(k - 1);
      LittleEndianRoundTrip(n / 256, k - 1);
      assert LittleEndian(n, k)[1..] == LittleEndian(n / 256, k - 1);
    }
  }

  lemma Pow256Values()
    ensures Pow256(2) == 0x1_0000
    ensures Pow256(8) == 0x1_0000_0000_0000_0000
  {
    assert Pow256(1) == 256;
    assert Pow256(3) == 0x100_0000;
    assert Pow256(4) == 0x1_0000_0000;
    assert Pow256(5) == 0x100_0000_0000;
    assert Pow256(6) == 0x1_0000_0000_0000;
    assert Pow256(7) == 0x100_0000_0000_0000;
  }

  // ---------------------------------------------------------------- encoding

  function EncodeItem(item: octets): (bs: octets)
  {
    LittleEndian(|item|, 2) + item
  }

  function EncodeItems(items: seq<octets>): octets
  {
    if items == [] then [] else EncodeItem(items[0]) + EncodeItems(items[1..])
  }

  function WireType(v: Value): byte
  {
    match v
    case BoolValue(_) => 1
    case DoubleValue(_) => 2
    case StringValue(_) => 3
    case StringArrayValue(_) => 4
  }

  function EncodeValue(v: Value): octets
  {
    match v
    case BoolValue(flag) => [if flag then 1 else 0]
    case DoubleValue(raw) => raw
    case StringValue(text) => ClipItem(text)
    case StringArrayValue(items) => [|ClipItems(items)|] + EncodeItems(ClipItems(items))
  }

  datatype Header = Header(messageBytes: nat, messageType: byte, valueType: byte, seqNo: uint64,
                           timestampUs: uint64, keyLen: nat, valueLen: nat)

  function EncodeHeader(h: Header): (bs: octets)
    ensures |bs| == HEADER_BYTES
  {
    LittleEndian(h.messageBytes, 2) + [h.messageType, h.valueType] + [0, 0, 0, 0]
    + LittleEndian(h.seqNo, 8) + LittleEndian(h.timestampUs, 8)
    + LittleEndian(h.keyLen, 2) + LittleEndian(h.valueLen, 2) + [0, 0, 0, 0]
  }

  function HeaderFor(u: Update): Header
  {
    var key, value := ClipKey(u.key), EncodeValue(u.value);
    Header(HEADER_BYTES + |key| + |value|, MSG_UPSERT, WireType(u.value), u.seqNo, u.timestampUs, |key|, |value|)
  }

  function Frame(u: Update): (bs: octets)
    ensures |bs| >= HEADER_BYTES
  {
    EncodeHeader(HeaderFor(u)) + ClipKey(u.key) + EncodeValue(u.value)
  }

  lemma FramePieces(u: Update)
    ensures Frame(u) == EncodeHeader(HeaderFor(u)) + ClipKey(u.key) + EncodeValue(u.value)
    ensures |Frame(u)| == HEADER_BYTES + |ClipKey(u.key)| + |EncodeValue(u.value)|
  {
  }

  // ---------------------------------------------------------------- decoding

  function DecodeHeader(bs: octets): Header
    requires |bs| == HEADER_BYTES
  {
    Pow256Bound(bs[8..16]);
    Pow256Bound(bs[16..24]);
    Pow256Values();
    Header(FromLittleEndian(bs[0..2]), bs[2], bs[3], FromLittleEndian(bs[8..16]),
           FromLittleEndian(bs[16..24]), FromLittleEndian(bs[24..26]), FromLittleEndian(bs[26..28]))
  }

  lemma {:induction false} Pow256Bound(bs: octets)
    ensures FromLittleEndian(bs) < Pow256(|bs|)
  {
    if bs != [] {
      Pow256Bound(bs[1..]);
    }
  }

  datatype Verdict = Malformed | Unsupported | Mismatch | Supported

  /** The reader's three corruption guards, in the order it applies them. */
  function Judge(h: Header): Verdict
  {
    if h.messageBytes < HEADER_BYTES then Malformed
    else if h.messageType != MSG_UPSERT then Unsupported
    else if h.messageBytes != HEADER_BYTES + h.keyLen + h.valueLen then Mismatch
    else Supported
  }

  /** Reads up to count length-prefixed items; a length that runs past the end is cut short. */
  function DecodeItems(bs: octets, offset: nat, count: nat): seq<octets>
    requires offset <= |bs|
    decreases count
  {
    if count == 0 || offset + 2 > |bs| then
      []
    else
      var start := offset + 2;
      var declared := FromLittleEndian(bs[offset..start]);
      var len := if declared <= |bs| - start then declared else |bs| - start;
      [bs[start..start + len]] + DecodeItems(bs, start + len, count - 1)
  }

  function DecodeValue(wireType: byte, bs: octets): Value
  {
    if wireType == 1 then BoolValue(|bs| >= 1 && bs[0] != 0)
    else if wireType == 2 then DoubleValue(if |bs| >= 8 then bs[..8] else [0, 0, 0, 0, 0, 0, 0, 0])
    else if wireType == 4 then StringArrayValue(if |bs| > 0 then DecodeItems(bs, 1, bs[0]) else [])
    else StringValue(bs)
  }

  function DecodeBody(h: Header, key: octets, value: octets): Update
  {
    Update(key, DecodeValue(h.valueType, value), h.seqNo, h.timestampUs)
  }

  // ---------------------------------------------------------------- round trip

  lemma {:induction false} EncodeItemsSnoc(items: seq<octets>, item: octets)
    ensures EncodeItems(items + [item]) == EncodeItems(items) + EncodeItem(item)
  {
    if items == [] {
      assert items + [item] == [item];
      assert EncodeItems([item]) == EncodeItem(item) + EncodeItems([]);
    } else {
      assert (items + [item])[1..] == items[1..] + [item];
      EncodeItemsSnoc(items[1..], item);
    }
  }

  lemma EncodeItemsStep(items: seq<octets>, i: nat)
    requires i < |items|
    ensures EncodeItems(items[..i + 1]) == EncodeItems(items[..i]) + EncodeItem(items[i])
    ensures |EncodeItems(items[..i])| + |EncodeItem(items[i])| <= |EncodeItems(items)|
  {
    assert items[..i + 1] == items[..i] + [items[i]];
    EncodeItemsSnoc(items[..i], items[i]);
    EncodeItemsPrefix(items, i + 1);
  }

  lemma {:induction false} EncodeItemsPrefix(items: seq<octets>, i: nat)
    requires i <= |items|
    ensures |EncodeItems(items[..i])| <= |EncodeItems(items)|
    decreases |items| - i
  {
    if i == |items| {
      assert items[..i] == items;
    } else {
      EncodeItemsSnoc(items[..i], items[i]);
      assert items[..i + 1] == items[..i] + [items[i]];
      EncodeItemsPrefix(items, i + 1);
    }
  }

  lemma {:induction false} EncodeItemsLength(items: seq<octets>)
    requires forall i :: 0 <= i < |items| ==> |items[i]| <= STRING_MAX
    ensures |EncodeItems(items)| <= (2 + STRING_MAX) * |items|
  {
    if items != [] {
      EncodeItemsLength(items[1..]);
    }
  }

  lemma EncodeValueLength(v: Value)
    ensures |EncodeValue(v)| <= FRAME_MAX - HEADER_BYTES - KEY_MAX
  {
    if v.StringArrayValue? {
      EncodeItemsLength(ClipItems(v.items));
    }
  }

  lemma {:induction false} DecodeItemsRoundTrip(bs: octets, offset: nat, items: seq<octets>)
    requires forall i :: 0 <= i < |items| ==> |items[i]| <= STRING_MAX
    requires offset <= |bs| && bs[offset..] == EncodeItems(items)
    ensures DecodeItems(bs, offset, |items|) == items
    decreases |items|
  {
    if items != [] {
      var size, rest := |items[0]|, EncodeItems(items[1..]);
      LittleEndianRoundTrip(size, 2) by { Pow256Values(); }
      ItemAt(bs, offset, LittleEndian(size, 2), items[0], rest);
      DecodeItemsRoundTrip(bs, offset + 2 + size, items[1..]);
    }
  }

  lemma ItemAt(bs: octets, offset: nat, len: octets, item: octets, rest: octets)
    requires offset <= |bs| && |len| == 2 && bs[offset..] == len + item + rest
    ensures bs[offset..offset + 2] == len
    ensures bs[offset + 2..offset + 2 + |item|] == item
    ensures bs[offset + 2 + |item|..] == rest
  {
    var tail := bs[offset..];
    assert bs[offset..offset + 2] == tail[..2];
    assert bs[offset + 2..offset + 2 + |item|] == tail[2..2 + |item|];
    assert bs[offset + 2 + |item|..] == tail[2 + |item|..];
  }

  lemma ValueRoundTrip(v: Value)
    ensures DecodeValue(WireType(v), EncodeValue(v)) == ClipValue(v)
  {
    match v
    case BoolValue(_) =>
    case DoubleValue(raw) => assert raw[..8] == raw;
    case StringValue(_) =>
    case StringArrayValue(items) =>
      var clipped := ClipItems(items);
      assert EncodeValue(v)[1..] == EncodeItems(clipped);
      DecodeItemsRoundTrip(EncodeValue(v), 1, clipped);
  }

  /** What is decoded from value bytes that no writer produces: a flag or a list without bytes, a short number, and
    * an unknown type, which is taken for a string.
    */
  lemma OddValues(wireType: byte, bs: octets)
    ensures bs == [] ==> DecodeValue(1, bs) == BoolValue(false) && DecodeValue(4, bs) == StringArrayValue([])
    ensures |bs| < 8 ==> DecodeValue(2, bs) == DoubleValue([0, 0, 0, 0, 0, 0, 0, 0])
    ensures wireType !in [1, 2, 4] ==> DecodeValue(wireType, bs) == StringValue(bs)
  {
  }

  lemma HeaderRoundTrip(h: Header)
    requires h.messageBytes < 0x1_0000 && h.keyLen < 0x1_0000 && h.valueLen < 0x1_0000
    ensures DecodeHeader(EncodeHeader(h)) == h
  {
    Pow256Values();
    var bs := EncodeHeader(h);
    LittleEndianRoundTrip(h.messageBytes, 2);
    LittleEndianRoundTrip(h.keyLen, 2);
    LittleEndianRoundTrip(h.valueLen, 2);
    LittleEndianRoundTrip(h.seqNo, 8);
    LittleEndianRoundTrip(h.timestampUs, 8);
    assert bs[0..2] == LittleEndian(h.messageBytes, 2);
    assert bs[8..16] == LittleEndian(h.seqNo, 8);
    assert bs[16..24] == LittleEndian(h.timestampUs, 8);
    assert bs[24..26] == LittleEndian(h.keyLen, 2);
    assert bs[26..28] == LittleEndian(h.valueLen, 2);
  }

  /** Decoding the frame of any update yields the clipped update; every guard passes, and no frame
    * is longer than 8417 bytes, so the 16-bit length fields hold the lengths exactly.
    */
  lemma FrameRoundTrip(u: Update)
    ensures |Frame(u)| <= FRAME_MAX
    ensures var h := DecodeHeader(Frame(u)[..HEADER_BYTES]);
            && Judge(h) == Supported
            && h.messageBytes == |Frame(u)|
            && h.keyLen <= |Frame(u)| - HEADER_BYTES
            && var body := Frame(u)[HEADER_BYTES..];
               DecodeBody(h, body[..h.keyLen], body[h.keyLen..]) == Clip(u)
  {
    EncodeValueLength(u.value);
    var h := HeaderFor(u);
    HeaderRoundTrip(h);
    assert Frame(u)[..HEADER_BYTES] == EncodeHeader(h);
    var body := Frame(u)[HEADER_BYTES..];
    assert body == ClipKey(u.key) + EncodeValue(u.value);
    assert body[..h.keyLen] == ClipKey(u.key);
    assert body[h.keyLen..] == EncodeValue(u.value);
    ValueRoundTrip(u.value);
  }

  /** An integer by its bytes, the least significant first. */
  function BytesSum(b0: int, b1: int, b2: int, b3: int, b4: int, b5: int, b6: int, b7: int): int
  {
    b0 + 0x100 * b1 + 0x1_0000 * b2 + 0x100_0000 * b3 + 0x1_0000_0000 * b4 + 0x100_0000_0000 * b5
    + 0x1_0000_0000_0000 * b6 + 0x100_0000_0000_0000 * b7
  }

  lemma TwoBytes(bs: octets)
    requires |bs| == 2
    ensures FromLittleEndian(bs) == BytesSum(bs[0], bs[1], 0, 0, 0, 0, 0, 0)
  {
    assert FromLittleEndian(bs[1..]) == bs[1] by { assert bs[1..][1..] == []; }
  }

  lemma EightBytes(bs: octets)
    requires |bs| == 8
    ensures FromLittleEndian(bs) == BytesSum(bs[0], bs[1], bs[2], bs[3], bs[4], bs[5], bs[6], bs[7])
  {
    assert FromLittleEndian(bs[8..]) == 0;
    assert FromLittleEndian(bs[7..]) == bs[7] by { assert bs[7..][1..] == bs[8..]; }
    assert FromLittleEndian(bs[6..]) == bs[6] + 256 * FromLittleEndian(bs[7..]) by { assert bs[6..][1..] == bs[7..]; }
    assert FromLittleEndian(bs[5..]) == bs[5] + 256 * FromLittleEndian(bs[6..]) by { assert bs[5..][1..] == bs[6..]; }
    assert FromLittleEndian(bs[4..]) == bs[4] + 256 * FromLittleEndian(bs[5..]) by { assert bs[4..][1..] == bs[5..]; }
    assert FromLittleEndian(bs[3..]) == bs[3] + 256 * FromLittleEndian(bs[4..]) by { assert bs[3..][1..] == bs[4..]; }
    assert FromLittleEndian(bs[2..]) == bs[2] + 256 * FromLittleEndian(bs[3..]) by { assert bs[2..][1..] == bs[3..]; }
    assert FromLittleEndian(bs[1..]) == bs[1] + 256 * FromLittleEndian(bs[2..]) by { assert bs[1..][1..] == bs[2..]; }
  }

  lemma ShortIsSum(n: nat)
    requires n < 0x1_0000
    ensures var bs := LittleEndian(n, 2); BytesSum(bs[0], bs[1], 0, 0, 0, 0, 0, 0) == n
  {
    hide LittleEndian, FromLittleEndian, BytesSum;
    LittleEndianRoundTrip(n, 2) by { Pow256Values(); }
    TwoBytes(LittleEndian(n, 2));
  }

  lemma LongIsSum(n: uint64)
    ensures var bs := LittleEndian(n, 8); BytesSum(bs[0], bs[1], bs[2], bs[3], bs[4], bs[5], bs[6], bs[7]) == n
  {
    hide LittleEndian, FromLittleEndian, BytesSum;
    LittleEndianRoundTrip(n, 8) by { Pow256Values(); }
    EightBytes(LittleEndian(n, 8));
  }

  lemma HeaderLayout(h: Header)
    requires h.messageBytes < 0x1_0000 && h.keyLen < 0x1_0000 && h.valueLen < 0x1_0000
    ensures var b := EncodeHeader(h);
      && BytesSum(b[0], b[1], 0, 0, 0, 0, 0, 0) == h.messageBytes && b[2] == h.messageType && b[3] == h.valueType
      && BytesSum(b[8], b[9], b[10], b[11], b[12], b[13], b[14], b[15]) == h.seqNo
      && BytesSum(b[16], b[17], b[18], b[19], b[20], b[21], b[22], b[23]) == h.timestampUs
      && BytesSum(b[24], b[25], 0, 0, 0, 0, 0, 0) == h.keyLen && BytesSum(b[26], b[27], 0, 0, 0, 0, 0, 0) == h.valueLen
      && forall i :: 4 <= i < 8 || 28 <= i < 32 ==> b[i] == 0
  {
    hide LittleEndian, BytesSum;
    ShortIsSum(h.messageBytes);
    ShortIsSum(h.keyLen);
    ShortIsSum(h.valueLen);
    LongIsSum(h.seqNo);
    LongIsSum(h.timestampUs);
  }

  /** Where a frame holds what, the same for every update: total length, type code 1, code of the value's type,
    * number, time, lengths of key and value, then the key, of at most 128 bytes, and the value; a string has at
    * most 256 bytes and a list says its number of items, at most 32, first.
    */
  lemma FrameLayout(u: Update)
    ensures var f := Frame(u);
      var keyLen := if |u.key| <= 128 then |u.key| else 128;
      var v := f[32 + keyLen..];
      && BytesSum(f[0], f[1], 0, 0, 0, 0, 0, 0) == |f| && f[2] == 1
      && BytesSum(f[8], f[9], f[10], f[11], f[12], f[13], f[14], f[15]) == u.seqNo
      && BytesSum(f[16], f[17], f[18], f[19], f[20], f[21], f[22], f[23]) == u.timestampUs
      && BytesSum(f[24], f[25], 0, 0, 0, 0, 0, 0) == keyLen && BytesSum(f[26], f[27], 0, 0, 0, 0, 0, 0) == |v|
      && (forall i :: 4 <= i < 8 || 28 <= i < 32 ==> f[i] == 0)
      && f[32..32 + keyLen] == u.key[..keyLen]
      && match u.value
         case BoolValue(flag) => f[3] == 1 && v == [if flag then 1 else 0]
         case DoubleValue(raw) => f[3] == 2 && v == raw
         case StringValue(text) => f[3] == 3 && v == text[..if |text| <= 256 then |text| else 256]
         case StringArrayValue(items) => f[3] == 4 && |v| > 0 && v[0] as int == if |items| <= 32 then |items| else 32
  {
    hide EncodeHeader, ClipItems, EncodeItems, BytesSum;
    EncodeValueLength(u.value);
    HeaderLayout(HeaderFor(u));
    var head, key, value := EncodeHeader(HeaderFor(u)), ClipKey(u.key), EncodeValue(u.value);
    var f := Frame(u);
    assert f[32..32 + |key|] == key && f[32 + |key|..] == value;
    assert forall i :: 0 <= i < 32 ==> f[i] == head[i];
    ItemsKept(u.value);
  }

  lemma ItemsKept(v: Value)
    ensures v.StringArrayValue? ==> |ClipItems(v.items)| == if |v.items| <= 32 then |v.items| else 32
  {
  }

  /** The bound is attained, so no smaller buffer would do. */
  lemma LongestFrame(u: Update)
    requires |u.key| >= KEY_MAX
    requires u.value.StringArrayValue? && |u.value.items| >= STRING_ARRAY_MAX_COUNT
    requires forall i :: 0 <= i < STRING_ARRAY_MAX_COUNT ==> |u.value.items[i]| >= STRING_MAX
    ensures |Frame(u)| == FRAME_MAX
  {
    var clipped := ClipItems(u.value.items);
    FullItemsLength(clipped);
  }

  lemma {:induction false} FullItemsLength(items: seq<octets>)
    requires forall i :: 0 <= i < |items| ==> |items[i]| == STRING_MAX
    ensures |EncodeItems(items)| == (2 + STRING_MAX) * |items|
  {
    if items != [] {
      FullItemsLength(items[1..]);
    }
  }
}
