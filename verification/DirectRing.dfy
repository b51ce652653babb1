/** The shared-memory ring: a circular byte buffer with one guard slot, written by one producer and
  * read by one consumer that drains with a cursor of its own.
  *
  * The methods copy in two segments, as memcpy does. Blit and Gather say what a circular copy
  * means one byte at a time, and every contract is stated with them.
  */
module DirectRing {
  import opened DirectWire

  const U32_LIMIT: nat := 0x1_0000_0000
  const U64_LIMIT: nat := 0x1_0000_0000_0000_0000
  const RING_MAGIC: nat := 0x53444442
  const RING_VERSION: nat := 1

  /** A 64-bit counter after n increments from zero. */
  function Counted(n: nat): uint64
  {
    n % U64_LIMIT
  }

  lemma CountedStep(n: nat, k: nat)
    ensures Counted(Counted(n + k) + 1) == Counted(n + (k + 1))
    ensures n < U64_LIMIT ==> Counted(n) == n
  {
  }

  // ---------------------------------------------------------------- index arithmetic

  /** Where n steps from index lead in a circle of the given size. */
  function Around(index: nat, n: nat, capacity: nat): (r: nat)
    requires index < capacity && n <= capacity
    ensures r < capacity
  {
    if index + n < capacity then index + n else index + n - capacity
  }

  lemma AroundAround(index: nat, i: nat, j: nat, capacity: nat)
    requires index < capacity && i + j <= capacity
    ensures Around(Around(index, i, capacity), j, capacity) == Around(index, i + j, capacity)
  {
  }

  /** The source adds in 32 bits and reduces with a remainder. */
  function Advance(cursor: nat, n: nat, capacity: nat): (r: nat)
    requires capacity > 0
    ensures r < capacity
  {
    (cursor + n) % U32_LIMIT % capacity
  }

  lemma MultipleIsFar(k: int, c: int)
    requires c >= 0
    ensures k >= 1 ==> k * c >= c
    ensures k <= -1 ==> k * c <= -c
  {
  }

  lemma ModOnce(x: nat, c: nat)
    requires c <= x < 2 * c
    ensures x % c == x - c
  {
    var k := x / c - 1;
    assert k * c == x - x % c - c;
    MultipleIsFar(k, c);
  }

  lemma AdvanceIsAround(cursor: nat, n: nat, capacity: nat)
    requires cursor < capacity && n <= capacity && cursor + n < U32_LIMIT
    ensures Advance(cursor, n, capacity) == Around(cursor, n, capacity)
  {
    if cursor + n >= capacity {
      ModOnce(cursor + n, capacity);
    }
  }

  lemma AdvanceWraps(n: nat, capacity: nat)
    requires 0 < n <= capacity < U32_LIMIT <= capacity - 1 + n
    ensures Advance(capacity - 1, n, capacity) != Around(capacity - 1, n, capacity)
  {
    var sum := capacity - 1 + n;
    ModOnce(sum, U32_LIMIT);
    assert sum - U32_LIMIT < capacity;
  }

  /** The 32-bit sum is harmless at every cursor exactly when the step fits below 2^32. */
  lemma AdvanceExact(n: nat, capacity: nat)
    requires 0 < n <= capacity < U32_LIMIT
    ensures (forall cursor: nat :: cursor < capacity ==> Advance(cursor, n, capacity) == Around(cursor, n, capacity))
            <==> capacity - 1 + n < U32_LIMIT
  {
    if capacity - 1 + n < U32_LIMIT {
      forall cursor: nat | cursor < capacity
        ensures Advance(cursor, n, capacity) == Around(cursor, n, capacity)
      {
        AdvanceIsAround(cursor, n, capacity);
      }
    } else {
      AdvanceWraps(n, capacity);
    }
  }

  // ---------------------------------------------------------------- circular copies, byte by byte

  function Blit(payload: octets, index: nat, bs: octets): (r: octets)
    requires index < |payload| && |bs| <= |payload|
    ensures |r| == |payload|
    decreases |bs|
  {
    if bs == [] then payload else Blit(payload[index := bs[0]], Around(index, 1, |payload|), bs[1..])
  }

  function Gather(payload: octets, index: nat, n: nat): (r: octets)
    requires index < |payload| && n <= |payload|
    ensures |r| == n
    decreases n
  {
    if n == 0 then [] else [payload[index]] + Gather(payload, Around(index, 1, |payload|), n - 1)
  }

  lemma {:induction false} BlitSplit(p: octets, index: nat, a: octets, b: octets)
    requires index < |p| && |a| + |b| <= |p|
    ensures Blit(p, index, a + b) == Blit(Blit(p, index, a), Around(index, |a|, |p|), b)
    decreases |a|
  {
    if a == [] {
      assert a + b == b;
    } else {
      assert (a + b)[1..] == a[1..] + b;
      BlitSplit(p[index := a[0]], Around(index, 1, |p|), a[1..], b);
    }
  }

  lemma {:induction false} BlitFlat(p: octets, index: nat, a: octets)
    requires index < |p| && index + |a| <= |p|
    ensures Blit(p, index, a) == p[..index] + a + p[index + |a|..]
    decreases |a|
  {
    if |a| == 1 {
      assert a[1..] == [];
    } else if a != [] {
      BlitFlat(p[index := a[0]], index + 1, a[1..]);
    }
  }

  lemma {:induction false} GatherSplit(p: octets, index: nat, a: nat, b: nat)
    requires index < |p| && a + b <= |p|
    ensures Gather(p, index, a + b) == Gather(p, index, a) + Gather(p, Around(index, a, |p|), b)
    decreases a
  {
    if a != 0 {
      GatherSplit(p, Around(index, 1, |p|), a - 1, b);
    }
  }

  lemma {:induction false} GatherFlat(p: octets, index: nat, n: nat)
    requires index < |p| && index + n <= |p|
    ensures Gather(p, index, n) == p[index..index + n]
    decreases n
  {
    if n == 1 {
    } else if n != 0 {
      GatherFlat(p, index + 1, n - 1);
      assert p[index..index + n] == [p[index]] + p[index + 1..index + n];
    }
  }

  lemma GatherParts(p: octets, index: nat, bs: octets, k: nat)
    requires index < |p| && k <= |bs| <= |p|
    requires Gather(p, index, |bs|) == bs
    ensures Gather(p, index, k) == bs[..k]
    ensures Gather(p, Around(index, k, |p|), |bs| - k) == bs[k..]
  {
    GatherSplit(p, index, k, |bs| - k);
    var a, b := Gather(p, index, k), Gather(p, Around(index, k, |p|), |bs| - k);
    assert bs == a + b;
  }

  /** Storing the byte just past a span extends the span and disturbs none of it. */
  lemma {:induction false} GatherPut(p: octets, index: nat, n: nat, b: byte)
    requires index < |p| && n < |p|
    ensures Gather(p[Around(index, n, |p|) := b], index, n + 1) == Gather(p, index, n) + [b]
    decreases n
  {
    var p' := p[Around(index, n, |p|) := b];
    if n == 0 {
      assert Gather(p', index, 1) == [p'[index]] + Gather(p', Around(index, 1, |p|), 0);
    } else {
      GatherPut(p, Around(index, 1, |p|), n - 1, b);
    }
  }

  lemma {:induction false} GatherBlit(p: octets, index: nat, n: nat, bs: octets)
    requires index < |p| && n + |bs| <= |p|
    ensures Gather(Blit(p, Around(index, n, |p|), bs), index, n + |bs|) == Gather(p, index, n) + bs
    decreases |bs|
  {
    if bs != [] {
      var p' := p[Around(index, n, |p|) := bs[0]];
      GatherPut(p, index, n, bs[0]);
      GatherBlit(p', index, n + 1, bs[1..]);
      assert Gather(p, index, n) + [bs[0]] + bs[1..] == Gather(p, index, n) + bs;
    }
  }

  /** A frame that fits survives the circular store and load at every start index. */
  lemma FrameSurvivesWrap(p: octets, index: nat, u: Update)
    requires index < |p| && |Frame(u)| <= |p|
    ensures Gather(Blit(p, index, Frame(u)), index, |Frame(u)|) == Frame(u)
  {
    GatherBlit(p, index, 0, Frame(u));
  }

  // ---------------------------------------------------------------- what one read returns

  datatype ReadResult = Empty | Skipped(why: Verdict) | Decoded(update: Update)

  /** The reader's memcpy stays inside the mapping: it needs room for a header, and for the key and
    * value that an accepted header declares.
    */
  predicate Readable(p: octets, cursor: nat)
    requires cursor < |p|
  {
    |p| >= HEADER_BYTES
    && var h := DecodeHeader(Gather(p, cursor, HEADER_BYTES));
       Judge(h) == Supported ==> h.keyLen <= |p| && h.valueLen <= |p|
  }

  function ReadOutcome(p: octets, cursor: nat, writeIndex: nat): (ReadResult, nat)
    requires cursor < |p|
    requires cursor != writeIndex ==> Readable(p, cursor)
  {
    if cursor == writeIndex then
      (Empty, cursor)
    else
      var h := DecodeHeader(Gather(p, cursor, HEADER_BYTES));
      match Judge(h)
      case Malformed => (Skipped(Malformed), writeIndex)
      case Unsupported => (Skipped(Unsupported), Advance(cursor, h.messageBytes, |p|))
      case Mismatch => (Skipped(Mismatch), writeIndex)
      case Supported =>
        var keyAt := Around(cursor, HEADER_BYTES, |p|);
        var valueAt := Around(keyAt, h.keyLen, |p|);
        (Decoded(DecodeBody(h, Gather(p, keyAt, h.keyLen), Gather(p, valueAt, h.valueLen))),
         Around(valueAt, h.valueLen, |p|))
  }

  lemma AroundIsMod(index: nat, n: nat, capacity: nat)
    requires index < capacity && n <= capacity
    ensures Around(index, n, capacity) == (index + n) % capacity
  {
    if index + n >= capacity {
      ModOnce(index + n, capacity);
    }
  }

  lemma ModAdds(x: nat, a: nat, b: nat, c: nat)
    requires c > 0
    ensures ((x + a) % c + b) % c == (x + (a + b)) % c
  {
    var q, r := (x + a) / c, (x + a) % c;
    assert x + a == c * q + r;
    ModMultiple(r + b, q, c);
  }

  lemma {:induction false} ModMultiple(x: nat, q: nat, c: nat)
    requires c > 0
    ensures (c * q + x) % c == x % c
  {
    if q > 0 {
      ModMultiple(x, q - 1, c);
      assert c * q + x == c * (q - 1) + x + c;
      ModStep(c * (q - 1) + x, c);
    }
  }

  lemma ModStep(x: nat, c: nat)
    requires c > 0
    ensures (x + c) % c == x % c
  {
    var k, j := x / c, (x + c) / c;
    assert x == c * k + x % c && x + c == c * j + (x + c) % c;
    MultipleIsFar(j - k - 1, c);
  }

  /** A load takes the bytes in circular order. */
  lemma {:induction false} GatherCircular(p: octets, index: nat, n: nat, i: nat)
    requires index < |p| && i < n <= |p|
    ensures Gather(p, index, n)[i] == p[(index + i) % |p|]
    decreases n
  {
    hide Around;
    if i > 0 {
      GatherCircular(p, Around(index, 1, |p|), n - 1, i - 1);
      OneOn(index, i, |p|);
    } else {
      BelowCapacity(index, |p|);
    }
  }

  lemma OneOn(index: nat, i: nat, capacity: nat)
    requires index < capacity && i > 0
    ensures (Around(index, 1, capacity) + (i - 1)) % capacity == (index + i) % capacity
  {
    hide Around;
    AroundIsMod(index, 1, capacity);
    ModAdds(index, 1, i - 1, capacity);
  }

  lemma BelowCapacity(index: nat, capacity: nat)
    requires index < capacity
    ensures index % capacity == index
  {
  }

  /** Byte i from the cursor on, in circular order. */
  function ByteAt(p: octets, cursor: nat, i: nat): byte
    requires cursor < |p|
  {
    p[(cursor + i) % |p|]
  }

  lemma HeaderAt(p: octets, cursor: nat)
    requires cursor < |p| && |p| >= 32
    ensures var h := DecodeHeader(Gather(p, cursor, 32));
      && h.messageBytes == BytesSum(ByteAt(p, cursor, 0), ByteAt(p, cursor, 1), 0, 0, 0, 0, 0, 0)
      && h.messageType == ByteAt(p, cursor, 2) && h.valueType == ByteAt(p, cursor, 3)
      && h.keyLen == BytesSum(ByteAt(p, cursor, 24), ByteAt(p, cursor, 25), 0, 0, 0, 0, 0, 0)
      && h.valueLen == BytesSum(ByteAt(p, cursor, 26), ByteAt(p, cursor, 27), 0, 0, 0, 0, 0, 0)
  {
    hide Gather, FromLittleEndian, BytesSum;
    var bs := Gather(p, cursor, 32);
    forall i | 0 <= i < 32
      ensures bs[i] == ByteAt(p, cursor, i)
    {
      GatherCircular(p, cursor, 32, i);
    }
    TwoBytes(bs[0..2]);
    TwoBytes(bs[24..26]);
    TwoBytes(bs[26..28]);
  }

  /** What the reader does with whatever it finds: a total length below a header or other than header, key and value
    * together throws away all that is unread; another type than 1 is stepped over; else the key is what follows
    * the header, and the cursor moves past the value.
    */
  lemma ReadsExactly(p: octets, cursor: nat, writeIndex: nat)
    requires cursor < |p| < U32_LIMIT - 0x1_0000 && cursor != writeIndex && Readable(p, cursor)
    ensures var total := BytesSum(ByteAt(p, cursor, 0), ByteAt(p, cursor, 1), 0, 0, 0, 0, 0, 0);
      var keyLen := BytesSum(ByteAt(p, cursor, 24), ByteAt(p, cursor, 25), 0, 0, 0, 0, 0, 0);
      var valueLen := BytesSum(ByteAt(p, cursor, 26), ByteAt(p, cursor, 27), 0, 0, 0, 0, 0, 0);
      var (result, next) := ReadOutcome(p, cursor, writeIndex);
      if total < 32 then result == Skipped(Malformed) && next == writeIndex
      else if ByteAt(p, cursor, 2) != 1 then result == Skipped(Unsupported) && next == (cursor + total) % |p|
      else if total != 32 + keyLen + valueLen then result == Skipped(Mismatch) && next == writeIndex
      else
        && result.Decoded? && |result.update.key| == keyLen <= |p|
        && (forall i :: 0 <= i < keyLen ==> result.update.key[i] == ByteAt(p, cursor, 32 + i))
        && next == (cursor + total) % |p|
  {
    hide Gather, BytesSum, DecodeHeader, DecodeValue, Around, ByteAt;
    HeaderAt(p, cursor);
    StepsOver(cursor, ByteAt(p, cursor, 0), ByteAt(p, cursor, 1), |p|);
    var h := DecodeHeader(Gather(p, cursor, 32));
    if Judge(h) == Supported {
      var keyAt := Around(cursor, 32, |p|);
      CursorPast(cursor, h.keyLen, h.valueLen, |p|);
      forall i | 0 <= i < h.keyLen
        ensures Gather(p, keyAt, h.keyLen)[i] == ByteAt(p, cursor, 32 + i)
      {
        KeyByteAt(p, cursor, h.keyLen, i);
      }
    }
  }

  lemma CursorPast(cursor: nat, keyLen: nat, valueLen: nat, capacity: nat)
    requires cursor < capacity && 32 <= capacity && keyLen <= capacity && valueLen <= capacity
    ensures Around(Around(Around(cursor, 32, capacity), keyLen, capacity), valueLen, capacity)
         == (cursor + (32 + keyLen + valueLen)) % capacity
  {
    hide Around;
    AroundIsMod(cursor, 32, capacity);
    AroundAgain(cursor, 32, keyLen, capacity);
    AroundAgain(cursor, 32 + keyLen, valueLen, capacity);
  }

  lemma AroundAgain(x: nat, a: nat, b: nat, capacity: nat)
    requires 0 < capacity && b <= capacity
    ensures Around((x + a) % capacity, b, capacity) == (x + (a + b)) % capacity
  {
    hide Around;
    AroundIsMod((x + a) % capacity, b, capacity);
    ModAdds(x, a, b, capacity);
  }

  lemma StepsOver(cursor: nat, b0: byte, b1: byte, capacity: nat)
    requires cursor < capacity < U32_LIMIT - 0x1_0000
    ensures var total := BytesSum(b0, b1, 0, 0, 0, 0, 0, 0);
      0 <= total && Advance(cursor, total, capacity) == (cursor + total) % capacity
  {
    ShortSum(b0, b1);
    hide BytesSum;
    BelowLimit(cursor + BytesSum(b0, b1, 0, 0, 0, 0, 0, 0));
  }

  lemma ShortSum(b0: byte, b1: byte)
    ensures 0 <= BytesSum(b0, b1, 0, 0, 0, 0, 0, 0) < 0x1_0000
  {
  }

  lemma BelowLimit(n: nat)
    requires n < U32_LIMIT
    ensures n % U32_LIMIT == n
  {
  }

  lemma KeyByteAt(p: octets, cursor: nat, keyLen: nat, i: nat)
    requires cursor < |p| && 32 <= |p| && i < keyLen <= |p|
    ensures Gather(p, Around(cursor, 32, |p|), keyLen)[i] == ByteAt(p, cursor, 32 + i)
  {
    hide Gather, Around;
    GatherCircular(p, Around(cursor, 32, |p|), keyLen, i);
    PastHeader(cursor, i, |p|);
  }

  lemma PastHeader(cursor: nat, i: nat, capacity: nat)
    requires cursor < capacity && 32 <= capacity
    ensures (Around(cursor, 32, capacity) + i) % capacity == (cursor + (32 + i)) % capacity
  {
    hide Around;
    AroundIsMod(cursor, 32, capacity);
    ModAdds(cursor, 32, i, capacity);
  }

  // ---------------------------------------------------------------- what the ring holds

  function Stream(us: seq<Update>): octets
  {
    if us == [] then [] else Frame(us[0]) + Stream(us[1..])
  }

  lemma {:induction false} StreamConcat(a: seq<Update>, b: seq<Update>)
    ensures Stream(a + b) == Stream(a) + Stream(b)
  {
    if a == [] {
      assert a + b == b;
    } else {
      assert (a + b)[1..] == a[1..] + b;
      StreamConcat(a[1..], b);
    }
  }

  lemma StreamHead(us: seq<Update>)
    requires us != []
    ensures 0 < |Frame(us[0])| <= |Stream(us)|
    ensures Stream(us)[..|Frame(us[0])|] == Frame(us[0])
    ensures Stream(us)[|Frame(us[0])|..] == Stream(us[1..])
  {
    HeadOf(Frame(us[0]), Stream(us[1..]));
  }

  lemma HeadOf(a: octets, b: octets)
    ensures (a + b)[..|a|] == a && (a + b)[|a|..] == b
  {
  }

  lemma StreamOne(u: Update)
    ensures Stream([u]) == Frame(u)
  {
    assert Stream([u]) == Frame(u) + Stream([]);
  }

  /** From cursor up to writeIndex the ring holds exactly the bytes bs. */
  ghost predicate HoldsBytes(p: octets, cursor: nat, writeIndex: nat, bs: octets)
  {
    && cursor < |p|
    && |bs| < |p|
    && Gather(p, cursor, |bs|) == bs
    && writeIndex == Around(cursor, |bs|, |p|)
  }

  /** From cursor up to writeIndex the ring holds exactly the frames of us, in order. */
  ghost predicate Holds(p: octets, cursor: nat, writeIndex: nat, us: seq<Update>)
  {
    HoldsBytes(p, cursor, writeIndex, Stream(us))
  }

  lemma EmptyHoldsNothing(p: octets, index: nat)
    ensures index < |p| ==> Holds(p, index, index, [])
  {
  }

  function Used(readIndex: nat, writeIndex: nat, capacity: nat): int
  {
    if writeIndex >= readIndex then writeIndex - readIndex else capacity - (readIndex - writeIndex)
  }

  /** The occupancy formula measures exactly the unread bytes. */
  lemma UsedIsUnread(p: octets, cursor: nat, writeIndex: nat, bs: octets)
    requires HoldsBytes(p, cursor, writeIndex, bs)
    ensures Used(cursor, writeIndex, |p|) == |bs|
  {
  }

  lemma BytesAppend(p: octets, cursor: nat, writeIndex: nat, bs: octets, f: octets)
    requires HoldsBytes(p, cursor, writeIndex, bs)
    requires |f| <= |p| - Used(cursor, writeIndex, |p|) - 1
    ensures HoldsBytes(Blit(p, writeIndex, f), cursor, Around(writeIndex, |f|, |p|), bs + f)
  {
    hide Gather, Blit;
    GatherBlit(p, cursor, |bs|, f);
    AroundAround(cursor, |bs|, |f|, |p|);
    RoomIs(cursor, |bs|, |p|);
  }

  /** The free space is what the unread bytes leave. */
  lemma RoomIs(cursor: nat, unread: nat, capacity: nat)
    requires cursor < capacity && unread < capacity
    ensures Used(cursor, Around(cursor, unread, capacity), capacity) == unread
  {
  }

  lemma BytesDrop(p: octets, cursor: nat, writeIndex: nat, bs: octets, k: nat)
    requires HoldsBytes(p, cursor, writeIndex, bs)
    requires k <= |bs|
    ensures HoldsBytes(p, Around(cursor, k, |p|), writeIndex, bs[k..])
  {
    GatherParts(p, cursor, bs, k);
  }

  /** A write that passes the free-space test appends its frame and leaves every unread frame intact. */
  lemma WriteAppends(p: octets, cursor: nat, writeIndex: nat, us: seq<Update>, u: Update)
    requires Holds(p, cursor, writeIndex, us)
    requires |Frame(u)| <= |p| - Used(cursor, writeIndex, |p|) - 1
    ensures Holds(Blit(p, writeIndex, Frame(u)), cursor, Around(writeIndex, |Frame(u)|, |p|), us + [u])
  {
    StreamConcat(us, [u]);
    StreamOne(u);
    BytesAppend(p, cursor, writeIndex, Stream(us), Frame(u));
  }

  /** A read returns the oldest frame, clipped, and leaves the rest; only an empty ring yields Empty. */
  lemma ReadTakesOldest(p: octets, cursor: nat, writeIndex: nat, us: seq<Update>)
    requires Holds(p, cursor, writeIndex, us)
    ensures cursor < |p| && (cursor == writeIndex <==> us == [])
    ensures us == [] ==> ReadOutcome(p, cursor, writeIndex) == (Empty, cursor)
    ensures us != [] ==>
      && Readable(p, cursor)
      && var (result, next) := ReadOutcome(p, cursor, writeIndex);
         result == Decoded(Clip(us[0])) && next < |p| && Holds(p, next, writeIndex, us[1..])
  {
    hide Frame, Clip, DecodeHeader, Gather;
    if us != [] {
      var k := |Frame(us[0])|;
      StreamHead(us);
      BytesDrop(p, cursor, writeIndex, Stream(us), k);
      GatherParts(p, cursor, Stream(us), k);
      FrameAt(p, cursor, us[0]);
    }
  }

  /** The header, key and value of a well-formed frame are found where the reader looks for them. */
  lemma PartsAt(p: octets, cursor: nat, f: octets, h: Header)
    requires cursor < |p| && HEADER_BYTES <= |f| <= |p|
    requires Gather(p, cursor, |f|) == f
    requires h == DecodeHeader(f[..HEADER_BYTES]) && Judge(h) == Supported && h.messageBytes == |f|
    ensures DecodeHeader(Gather(p, cursor, HEADER_BYTES)) == h
    ensures var keyAt := Around(cursor, HEADER_BYTES, |p|);
      && Gather(p, keyAt, h.keyLen) == f[HEADER_BYTES..][..h.keyLen]
      && Gather(p, Around(keyAt, h.keyLen, |p|), h.valueLen) == f[HEADER_BYTES..][h.keyLen..]
  {
    hide DecodeHeader, Gather;
    GatherParts(p, cursor, f, HEADER_BYTES);
    GatherParts(p, Around(cursor, HEADER_BYTES, |p|), f[HEADER_BYTES..], h.keyLen);
  }

  /** If the bytes at cursor are the frame of u, the reader decodes it and steps exactly past it. */
  lemma FrameAt(p: octets, cursor: nat, u: Update)
    requires cursor < |p| && |Frame(u)| <= |p|
    requires Gather(p, cursor, |Frame(u)|) == Frame(u)
    ensures Readable(p, cursor)
    ensures forall w: nat {:trigger ReadOutcome(p, cursor, w)} :: cursor != w ==>
      ReadOutcome(p, cursor, w) == (Decoded(Clip(u)), Around(cursor, |Frame(u)|, |p|))
  {
    hide DecodeHeader, Frame, DecodeBody;
    FrameRoundTrip(u);
    PartsAt(p, cursor, Frame(u), DecodeHeader(Frame(u)[..HEADER_BYTES]));
  }

  lemma NothingStored(p: octets, index: nat)
    requires index < |p|
    ensures Blit(p, index, []) == p && Around(index, 0, |p|) == index
  {
  }

  /** One more item decoded: the list so far and the rest still make up the whole. */
  lemma DecodeItemsStep(bs: octets, offset: nat, count: nat, items: seq<octets>)
    requires count > 0 && offset + 2 <= |bs|
    ensures var start := offset + 2;
      var declared := FromLittleEndian(bs[offset..start]);
      var len := if declared <= |bs| - start then declared else |bs| - start;
      items + DecodeItems(bs, offset, count)
      == items + [bs[start..start + len]] + DecodeItems(bs, start + len, count - 1)
  {
    hide FromLittleEndian;
  }

  lemma DecodeItemsEnd(bs: octets, offset: nat, count: nat)
    requires offset <= |bs| && (count == 0 || offset + 2 > |bs|)
    ensures DecodeItems(bs, offset, count) == []
  {
  }

  // ---------------------------------------------------------------- the ring object

  class Ring {
    const payload: array<byte>
    var magic: nat
    var version: nat
    var capacityBytes: nat
    var writeIndex: nat
    var readIndex: nat
    var publishedSeq: uint64
    var droppedCount: uint64
    var lastProducerHeartbeatUs: uint64
    var lastConsumerHeartbeatUs: uint64
    var consumerInstanceId: uint64
    var consumerReadIndex: nat

    /** An attached ring. The size bound keeps the 32-bit cursor sums exact (AdvanceExact). */
    ghost predicate Valid()
      reads this
    {
      && 0 < payload.Length == capacityBytes <= U32_LIMIT - 0x1_0000
      && writeIndex < capacityBytes
      && consumerReadIndex < capacityBytes
    }

    /** A freshly mapped, zero-filled region with no handshake in it yet. */
    constructor (bytes: nat)
      ensures fresh(payload) && payload.Length == bytes && forall i :: 0 <= i < bytes ==> payload[i] == 0
      ensures magic == version == capacityBytes == writeIndex == readIndex == consumerReadIndex == 0
      ensures publishedSeq == droppedCount == consumerInstanceId == 0
      ensures lastProducerHeartbeatUs == lastConsumerHeartbeatUs == 0
    {
      payload := new byte[bytes](_ => 0);
      magic, version, capacityBytes := 0, 0, 0;
      writeIndex, readIndex, consumerReadIndex := 0, 0, 0;
      publishedSeq, droppedCount, consumerInstanceId := 0, 0, 0;
      lastProducerHeartbeatUs, lastConsumerHeartbeatUs := 0, 0;
    }

    /** Attaching to a region that carries the handshake changes nothing; otherwise it is wiped and
      * initialised if the caller allows that, and refused if not. The capacity is cut to 32 bits.
      */
    method AttachRing(initializeIfNeeded: bool, nowUs: uint64) returns (ok: bool)
      modifies this, payload
      ensures var matched :=
          old(magic == 0x53444442 && version == 1 && capacityBytes == payload.Length % U32_LIMIT);
        && ok == (payload.Length > 0 && (matched || initializeIfNeeded))
        && (!ok || matched ==> unchanged(this) && payload[..] == old(payload[..]))
        && (ok && !matched ==>
             && magic == 0x53444442 && version == 1 && capacityBytes == payload.Length % U32_LIMIT
             && writeIndex == consumerReadIndex == readIndex == 0
             && publishedSeq == droppedCount == consumerInstanceId == 0
             && lastProducerHeartbeatUs == lastConsumerHeartbeatUs == nowUs
             && (forall i :: 0 <= i < payload.Length ==> payload[i] == 0)
             && (payload.Length < U32_LIMIT ==>
                  capacityBytes == payload.Length && Holds(payload[..], consumerReadIndex, writeIndex, [])))
    {
      if payload.Length == 0 {
        return false;
      }
      hide Gather;
      var payloadCapacity := payload.Length % U32_LIMIT;
      var needsInit := magic != RING_MAGIC || version != RING_VERSION || capacityBytes != payloadCapacity;
      if needsInit {
        if !initializeIfNeeded {
          return false;
        }
        forall i | 0 <= i < payload.Length {
          payload[i] := 0;
        }
        magic, version, capacityBytes := RING_MAGIC, RING_VERSION, payloadCapacity;
        writeIndex, readIndex, consumerReadIndex := 0, 0, 0;
        publishedSeq, droppedCount, consumerInstanceId := 0, 0, 0;
        lastProducerHeartbeatUs, lastConsumerHeartbeatUs := nowUs, nowUs;
      }
      EmptyHoldsNothing(payload[..], 0);
      return true;
    }

    method RingUsed() returns (used: nat)
      requires Valid()
      ensures used == Used(consumerReadIndex, writeIndex, capacityBytes) < capacityBytes
    {
      if writeIndex >= consumerReadIndex {
        return writeIndex - consumerReadIndex;
      }
      return capacityBytes - (consumerReadIndex - writeIndex);
    }

    /** The two-segment copy stores what a byte-by-byte circular copy would. */
    method CopyToRing(index: nat, bs: octets)
      requires Valid()
      requires index < capacityBytes && |bs| <= capacityBytes
      modifies payload
      ensures payload[..] == Blit(old(payload[..]), index, bs)
    {
      if |bs| == 0 {
        return;
      }
      ghost var p0 := payload[..];
      var first := if |bs| < capacityBytes - index then |bs| else capacityBytes - index;
      forall i | 0 <= i < first {
        payload[index + i] := bs[i];
      }
      BlitFlat(p0, index, bs[..first]);
      assert payload[..] == Blit(p0, index, bs[..first]);
      assert bs == bs[..first] + bs[first..];
      BlitSplit(p0, index, bs[..first], bs[first..]);
      if |bs| > first {
        ghost var p1 := payload[..];
        forall i | 0 <= i < |bs| - first {
          payload[i] := bs[first + i];
        }
        BlitFlat(p1, 0, bs[first..]);
        assert payload[..] == Blit(p1, 0, bs[first..]);
      }
    }

    method AdvanceCursor(cursor: nat, n: nat) returns (next: nat)
      requires Valid()
      requires cursor < capacityBytes && n <= capacityBytes && n < 0x1_0000
      ensures next == Around(cursor, n, capacityBytes)
    {
      next := Advance(cursor, n, capacityBytes);
      AdvanceIsAround(cursor, n, capacityBytes);
    }

    method CopyFromRing(index: nat, count: nat) returns (bs: octets)
      requires Valid()
      requires index < capacityBytes && count <= capacityBytes
      ensures bs == Gather(payload[..], index, count)
    {
      if count == 0 {
        return [];
      }
      var first := if count < capacityBytes - index then count else capacityBytes - index;
      bs := payload[index..index + first];
      GatherFlat(payload[..], index, first);
      GatherSplit(payload[..], index, first, count - first);
      if count > first {
        GatherFlat(payload[..], 0, count - first);
        bs := bs + payload[0..count - first];
      }
    }

    /** Stores one piece of a frame at the producer's cursor and moves the cursor past it. */
    method CopyPiece(cursor: nat, piece: octets, ghost start: nat, ghost p0: octets, ghost done: octets)
      returns (next: nat)
      requires Valid()
      requires cursor < capacityBytes && |piece| <= capacityBytes && |piece| <= FRAME_MAX
      requires |p0| == capacityBytes && start < capacityBytes && |done| + |piece| <= capacityBytes
      requires payload[..] == Blit(p0, start, done) && cursor == Around(start, |done|, capacityBytes)
      modifies payload
      ensures payload[..] == Blit(p0, start, done + piece)
      ensures next == Around(start, |done + piece|, capacityBytes)
    {
      CopyToRing(cursor, piece);
      next := AdvanceCursor(cursor, |piece|);
      BlitSplit(p0, start, done, piece);
    }

    /** The length of the value's encoding, as the 16-bit count the header carries. */
    static method ComputeValueLen(v: Value) returns (len: nat)
      ensures len == |EncodeValue(v)|
    {
      EncodeValueLength(v);
      match v
      case BoolValue(_) => len := 1;
      case DoubleValue(_) => len := 8;
      case StringValue(text) => len := if |text| < STRING_MAX then |text| else STRING_MAX;
      case StringArrayValue(items) =>
        var total := ItemsLen(items);
        len := (1 + total) % 0x1_0000;
    }

    static method ItemsLen(items: seq<octets>) returns (total: nat)
      ensures total == |EncodeItems(ClipItems(items))|
    {
      ghost var clipped := ClipItems(items);
      total := 0;
      var count := if |items| < STRING_ARRAY_MAX_COUNT then |items| else STRING_ARRAY_MAX_COUNT;
      for i := 0 to count
        invariant total == |EncodeItems(clipped[..i])|
      {
        total := total + 2;
        total := total + (if |items[i]| < STRING_MAX then |items[i]| else STRING_MAX);
        EncodeItemsStep(clipped, i);
      }
      assert clipped[..count] == clipped;
    }

    /** Either the frame does not fit and only the drop count changes, or exactly the frame's bytes
      * are stored from writeIndex on and writeIndex moves past them.
      */
    method WriteUpsert(u: Update, nowUs: uint64) returns (ok: bool, dropped: uint64)
      requires Valid()
      modifies this`writeIndex, this`publishedSeq, this`droppedCount, this`lastProducerHeartbeatUs, payload
      ensures Valid()
      ensures ok == (|Frame(u)| <= capacityBytes - Used(consumerReadIndex, old(writeIndex), capacityBytes) - 1)
      ensures dropped == droppedCount
      ensures !ok ==>
        && payload[..] == old(payload[..])
        && writeIndex == old(writeIndex) && publishedSeq == old(publishedSeq)
        && lastProducerHeartbeatUs == old(lastProducerHeartbeatUs)
        && droppedCount == Counted(old(droppedCount) + 1)
      ensures ok ==>
        && payload[..] == Blit(old(payload[..]), old(writeIndex), Frame(u))
        && writeIndex == Around(old(writeIndex), |Frame(u)|, capacityBytes)
        && publishedSeq == u.seqNo && lastProducerHeartbeatUs == nowUs
        && droppedCount == old(droppedCount)
    {
      hide Frame, EncodeHeader, EncodeValue, Blit;
      FramePieces(u);
      var keyLen := if |u.key| < KEY_MAX then |u.key| else KEY_MAX;
      var valueLen := ComputeValueLen(u.value);
      var totalBytes := HEADER_BYTES + keyLen + valueLen;
      if totalBytes >= capacityBytes {
        droppedCount := Counted(droppedCount + 1);
        return false, droppedCount;
      }
      var used := RingUsed();
      if capacityBytes - used - 1 < totalBytes {
        droppedCount := Counted(droppedCount + 1);
        return false, droppedCount;
      }
      EncodeValueLength(u.value);
      var msg := Header(totalBytes, MSG_UPSERT, WireType(u.value), u.seqNo, u.timestampUs, keyLen, valueLen);
      var cursor := CopyFrame(EncodeHeader(msg), u.key[..keyLen], u.value, valueLen);
      assert u.key[..keyLen] == ClipKey(u.key);
      writeIndex := cursor;
      publishedSeq := u.seqNo;
      lastProducerHeartbeatUs := nowUs;
      return true, droppedCount;
    }

    /** Header, key and value, piece by piece, from writeIndex on; writeIndex itself is not yet moved. */
    method CopyFrame(msgBytes: octets, key: octets, v: Value, valueLen: nat) returns (cursor: nat)
      requires Valid()
      requires valueLen == |EncodeValue(v)|
      requires |msgBytes| + |key| + valueLen <= FRAME_MAX && |msgBytes| + |key| + valueLen <= capacityBytes
      modifies payload
      ensures payload[..] == Blit(old(payload[..]), writeIndex, msgBytes + key + EncodeValue(v))
      ensures cursor == Around(writeIndex, |msgBytes + key + EncodeValue(v)|, capacityBytes)
    {
      hide Blit, EncodeValue;
      ghost var p0 := payload[..];
      ghost var start := writeIndex;
      ghost var done: octets := [];
      NothingStored(p0, start);
      cursor := CopyPiece(writeIndex, msgBytes, start, p0, done);
      done := done + msgBytes;
      if |key| > 0 {
        cursor := CopyPiece(cursor, key, start, p0, done);
      }
      assert |key| == 0 ==> done + key == done;
      done := done + key;
      if valueLen > 0 {
        cursor := CopyValue(v, cursor, start, p0, done);
      }
      assert valueLen == 0 ==> done + EncodeValue(v) == done;
      assert done == msgBytes + key;
    }

    /** The value part of a frame, piece by piece. */
    method CopyValue(v: Value, from: nat, ghost start: nat, ghost p0: octets, ghost done: octets)
      returns (cursor: nat)
      requires Valid()
      requires from < capacityBytes
      requires |p0| == capacityBytes && start < capacityBytes && |done| + |EncodeValue(v)| <= capacityBytes
      requires payload[..] == Blit(p0, start, done) && from == Around(start, |done|, capacityBytes)
      modifies payload
      ensures payload[..] == Blit(p0, start, done + EncodeValue(v))
      ensures cursor == Around(start, |done + EncodeValue(v)|, capacityBytes)
    {
      hide Blit, EncodeItems, ClipItem, LittleEndian;
      EncodeValueLength(v);
      match v
      case BoolValue(flag) =>
        cursor := CopyPiece(from, [if flag then 1 else 0], start, p0, done);
      case DoubleValue(raw) =>
        cursor := CopyPiece(from, raw, start, p0, done);
      case StringValue(text) =>
        cursor := CopyPiece(from, ClipItem(text), start, p0, done);
      case StringArrayValue(items) =>
        var count := if |items| < STRING_ARRAY_MAX_COUNT then |items| else STRING_ARRAY_MAX_COUNT;
        cursor := CopyPiece(from, [count], start, p0, done);
        cursor := CopyItems(items, count, cursor, start, p0, done + [count]);
        assert done + [count] + EncodeItems(ClipItems(items)) == done + EncodeValue(v);
    }

    method CopyItems(items: seq<octets>, count: nat, from: nat, ghost start: nat, ghost p0: octets, ghost head: octets)
      returns (cursor: nat)
      requires Valid()
      requires from < capacityBytes && count == |ClipItems(items)|
      requires |p0| == capacityBytes && start < capacityBytes
      requires |head| + |EncodeItems(ClipItems(items))| <= capacityBytes
      requires payload[..] == Blit(p0, start, head) && from == Around(start, |head|, capacityBytes)
      modifies payload
      ensures payload[..] == Blit(p0, start, head + EncodeItems(ClipItems(items)))
      ensures cursor == Around(start, |head + EncodeItems(ClipItems(items))|, capacityBytes)
    {
      hide LittleEndian, Blit;
      ghost var clipped := ClipItems(items);
      cursor := from;
      assert head + EncodeItems(clipped[..0]) == head;
      for i := 0 to count
        invariant cursor < capacityBytes
        invariant |head + EncodeItems(clipped[..i])| <= capacityBytes
        invariant cursor == Around(start, |head + EncodeItems(clipped[..i])|, capacityBytes)
        invariant payload[..] == Blit(p0, start, head + EncodeItems(clipped[..i]))
      {
        ghost var soFar := head + EncodeItems(clipped[..i]);
        EncodeItemsStep(clipped, i);
        var itemLen := if |items[i]| < STRING_MAX then |items[i]| else STRING_MAX;
        assert items[i][..itemLen] == clipped[i];
        ghost var len := LittleEndian(itemLen, 2);
        cursor := CopyPiece(cursor, LittleEndian(itemLen, 2), start, p0, soFar);
        if itemLen > 0 {
          cursor := CopyPiece(cursor, items[i][..itemLen], start, p0, soFar + len);
        }
        assert itemLen == 0 ==> soFar + len + clipped[i] == soFar + len;
        assert soFar + len + clipped[i] == head + EncodeItems(clipped[..i + 1]);
      }
      assert clipped[..count] == clipped;
    }

    /** Reads the frame at readCursor. Only the consumer's heartbeat changes. */
    method ReadNextUpsert(readCursor: nat, nowUs: uint64) returns (result: ReadResult, next: nat)
      requires Valid()
      requires readCursor < capacityBytes
      requires readCursor != writeIndex ==> Readable(payload[..], readCursor)
      modifies this`lastConsumerHeartbeatUs
      ensures (result, next) == ReadOutcome(payload[..], readCursor, writeIndex)
      ensures next < capacityBytes
      ensures lastConsumerHeartbeatUs == if result.Decoded? then nowUs else old(lastConsumerHeartbeatUs)
    {
      hide DecodeHeader, Gather, DecodeValue, Advance;
      if readCursor == writeIndex {
        return Empty, readCursor;
      }
      var msgBytes := CopyFromRing(readCursor, HEADER_BYTES);
      var msg := DecodeHeader(msgBytes);
      LengthsAre16Bit(msgBytes);
      if msg.messageBytes < HEADER_BYTES {
        return Skipped(Malformed), writeIndex;
      }
      if msg.messageType != MSG_UPSERT {
        return Skipped(Unsupported), Advance(readCursor, msg.messageBytes, capacityBytes);
      }
      if msg.messageBytes != HEADER_BYTES + (msg.keyLen + msg.valueLen) {
        return Skipped(Mismatch), writeIndex;
      }
      var cursor := AdvanceCursor(readCursor, HEADER_BYTES);
      var key: octets := [];
      if msg.keyLen > 0 {
        key := CopyFromRing(cursor, msg.keyLen);
        cursor := AdvanceCursor(cursor, msg.keyLen);
      }
      var value := ReadValue(msg.valueType, cursor, msg.valueLen);
      cursor := AdvanceCursor(cursor, msg.valueLen);
      lastConsumerHeartbeatUs := nowUs;
      return Decoded(Update(key, value, msg.seqNo, msg.timestampUs)), cursor;
    }

    method ReadValue(wireType: byte, cursor: nat, valueLen: nat) returns (value: Value)
      requires Valid()
      requires cursor < capacityBytes && valueLen <= capacityBytes
      ensures value == DecodeValue(wireType, Gather(payload[..], cursor, valueLen))
    {
      hide FromLittleEndian, Gather;
      ghost var whole := Gather(payload[..], cursor, valueLen);
      if wireType == 1 {
        var boolByte: byte := 0;
        if valueLen >= 1 {
          var one := CopyFromRing(cursor, 1);
          boolByte := one[0];
          GatherSplit(payload[..], cursor, 1, valueLen - 1);
          assert boolByte == whole[0];
        }
        return BoolValue(boolByte != 0);
      } else if wireType == 2 {
        var raw: octets := [0, 0, 0, 0, 0, 0, 0, 0];
        if valueLen >= 8 {
          raw := CopyFromRing(cursor, 8);
          GatherSplit(payload[..], cursor, 8, valueLen - 8);
          assert raw == whole[..8];
        }
        return DoubleValue(raw);
      } else if wireType == 4 {
        var bs := CopyFromRing(cursor, valueLen);
        var items := ReadItems(bs);
        return StringArrayValue(items);
      }
      var text := CopyFromRing(cursor, valueLen);
      return StringValue(text);
    }

    static method ReadItems(bs: octets) returns (items: seq<octets>)
      ensures items == if |bs| > 0 then DecodeItems(bs, 1, bs[0]) else []
    {
      hide FromLittleEndian, DecodeItems;
      items := [];
      if |bs| > 0 {
        var offset: nat := 1;
        var i: nat := 0;
        while i < bs[0] && offset + 2 <= |bs|
          invariant i <= bs[0] && offset <= |bs|
          invariant items + DecodeItems(bs, offset, bs[0] - i) == DecodeItems(bs, 1, bs[0])
          decreases bs[0] - i
        {
          DecodeItemsStep(bs, offset, bs[0] - i, items);
          var itemLen := FromLittleEndian(bs[offset..offset + 2]);
          offset := offset + 2;
          var boundedLen := if itemLen < |bs| - offset then itemLen else |bs| - offset;
          items := items + [bs[offset..offset + boundedLen]];
          offset := offset + boundedLen;
          i := i + 1;
        }
        DecodeItemsEnd(bs, offset, bs[0] - i);
        assert items + [] == items;
      }
    }
  }

  lemma LengthsAre16Bit(bs: octets)
    requires |bs| == HEADER_BYTES
    ensures var h := DecodeHeader(bs);
      h.messageBytes < 0x1_0000 && h.keyLen < 0x1_0000 && h.valueLen < 0x1_0000
  {
    Pow256Values();
    Pow256Bound(bs[0..2]);
    Pow256Bound(bs[24..26]);
    Pow256Bound(bs[26..28]);
  }
}
