/** The ring under every interleaving of one producer and one consumer at a time.
  *
  * A step is one shared-memory access: a byte stored or loaded, or an index loaded or published.
  * The producer tests free space against the published consumerReadIndex, which lags behind the
  * consumer's own cursor. A run is any list of actions; an action that is not enabled does nothing.
  */
module RingProtocol {
  import opened DirectWire
  import opened DirectRing

  datatype Producer = Resting | Storing(u: Update, stored: nat)

  datatype Consumer = Detached | Waiting | Loading(writeSeen: nat, buf: octets)

  /** The shared ring, both ends, and the history: updates published, updates handed to the current
    * consumer since it attached after the first `base` of them, and how many published frames the
    * shared consumerReadIndex has released.
    */
  datatype State = State(
    payload: octets, writeIndex: nat, consumerReadIndex: nat, dropped: nat,
    producer: Producer, consumer: Consumer, readCursor: nat,
    accepted: seq<Update>, base: nat, delivered: seq<Update>, released: nat, guardHits: nat)

  datatype Action =
    | BeginWrite(u: Update) | StoreByte | PublishWrite
    | Attach | BeginRead | LoadByte | FinishRead | PublishCursor | Detach

  function Init(capacity: nat): State
  {
    State(seq(capacity, _ => 0), 0, 0, 0, Resting, Detached, 0, [], 0, [], 0, 0)
  }

  /** How many bytes the reader copies before it acts: the header, then what the header declares. */
  function Wanted(buf: octets): nat
  {
    if |buf| < HEADER_BYTES then HEADER_BYTES
    else
      var h := DecodeHeader(buf[..HEADER_BYTES]);
      if Judge(h) == Supported then h.messageBytes else HEADER_BYTES
  }

  /** Indices lie inside the buffer; every step keeps this. */
  predicate InBounds(s: State)
  {
    s.writeIndex < |s.payload| && s.consumerReadIndex < |s.payload| && s.readCursor < |s.payload|
    && (s.consumer.Loading? ==> s.consumer.writeSeen < |s.payload|)
  }

  function Step(s: State, a: Action): State
    requires InBounds(s)
  {
    var capacity := |s.payload|;
    match a
    case BeginWrite(u) =>
      if !s.producer.Resting? then s
      else if |Frame(u)| <= capacity - Used(s.consumerReadIndex, s.writeIndex, capacity) - 1 then
        s.(producer := Storing(u, 0))
      else
        s.(dropped := s.dropped + 1)
    case StoreByte =>
      if s.producer.Storing? && s.producer.stored < |Frame(s.producer.u)| && s.producer.stored < capacity then
        var k := s.producer.stored;
        s.(payload := s.payload[Around(s.writeIndex, k, capacity) := Frame(s.producer.u)[k]],
           producer := s.producer.(stored := k + 1))
      else s
    case PublishWrite =>
      if s.producer.Storing? && s.producer.stored == |Frame(s.producer.u)| && s.producer.stored <= capacity then
        s.(writeIndex := Around(s.writeIndex, s.producer.stored, capacity),
           accepted := s.accepted + [s.producer.u], producer := Resting)
      else s
    case Attach =>
      if s.consumer.Detached? then
        s.(consumer := Waiting, readCursor := s.writeIndex, base := |s.accepted|, delivered := [])
      else s
    case BeginRead =>
      if s.consumer.Waiting? && s.readCursor != s.writeIndex then
        s.(consumer := Loading(s.writeIndex, []))
      else s
    case LoadByte =>
      if s.consumer.Loading? && |s.consumer.buf| < Wanted(s.consumer.buf) && |s.consumer.buf| < capacity then
        var buf := s.consumer.buf;
        s.(consumer := s.consumer.(buf := buf + [s.payload[Around(s.readCursor, |buf|, capacity)]]))
      else s
    case FinishRead =>
      if s.consumer.Loading? && |s.consumer.buf| == Wanted(s.consumer.buf) && |s.consumer.buf| <= capacity then
        EndRead(s, s.consumer.buf, DecodeHeader(s.consumer.buf[..HEADER_BYTES]))
      else s
    case PublishCursor =>
      if s.consumer.Waiting? then
        s.(consumerReadIndex := s.readCursor, released := s.base + |s.delivered|)
      else s
    case Detach =>
      if s.consumer.Waiting? then s.(consumer := Detached) else s
  }

  /** The reader has copied all it wants: either a guard fires and it resynchronises, or it delivers. */
  function EndRead(s: State, buf: octets, h: Header): State
    requires InBounds(s) && s.consumer.Loading? && HEADER_BYTES <= |buf| <= |s.payload|
    requires Judge(h) == Supported ==> HEADER_BYTES + h.keyLen <= |buf|
  {
    match Judge(h)
    case Malformed => s.(consumer := Waiting, readCursor := s.consumer.writeSeen, guardHits := s.guardHits + 1)
    case Unsupported =>
      s.(consumer := Waiting, readCursor := Advance(s.readCursor, h.messageBytes, |s.payload|),
         guardHits := s.guardHits + 1)
    case Mismatch => s.(consumer := Waiting, readCursor := s.consumer.writeSeen, guardHits := s.guardHits + 1)
    case Supported =>
      var body := buf[HEADER_BYTES..];
      s.(consumer := Waiting, readCursor := Around(s.readCursor, |buf|, |s.payload|),
         delivered := s.delivered + [DecodeBody(h, body[..h.keyLen], body[h.keyLen..])])
  }

  /** Where a header fails a guard, the byte steps do what ReadNextUpsert does: nothing is delivered and the cursor
    * goes where that read puts it.
    */
  lemma GuardsAgree(s: State, buf: octets, h: Header)
    requires InBounds(s) && s.consumer.Loading? && s.readCursor != s.consumer.writeSeen
    requires HEADER_BYTES <= |buf| <= |s.payload| && buf == Gather(s.payload, s.readCursor, |buf|)
    requires h == DecodeHeader(buf[..HEADER_BYTES]) && Judge(h) != Supported
    ensures Readable(s.payload, s.readCursor)
    ensures var (result, next) := ReadOutcome(s.payload, s.readCursor, s.consumer.writeSeen);
      && result == Skipped(Judge(h))
      && EndRead(s, buf, h) == s.(consumer := Waiting, readCursor := next, guardHits := s.guardHits + 1)
  {
    hide Gather, DecodeHeader;
    GatherParts(s.payload, s.readCursor, buf, HEADER_BYTES);
  }

  /** The machine starts as AttachRing leaves a wiped ring. */
  lemma InitIsWipedRing(ring: Ring)
    requires forall i :: 0 <= i < ring.payload.Length ==> ring.payload[i] == 0
    requires ring.writeIndex == ring.consumerReadIndex == 0 && ring.droppedCount == 0
    ensures var s := Init(ring.payload.Length);
      && s.payload == ring.payload[..] && s.writeIndex == ring.writeIndex
      && s.consumerReadIndex == ring.consumerReadIndex && s.dropped == ring.droppedCount
  {
  }

  lemma StepKeepsBounds(s: State, a: Action)
    requires InBounds(s)
    ensures InBounds(Step(s, a)) && |Step(s, a).payload| == |s.payload|
  {
    hide DecodeHeader, Frame, DecodeBody, Around, Advance;
  }

  function Run(s: State, actions: seq<Action>): (r: State)
    requires InBounds(s)
    ensures InBounds(r) && |r.payload| == |s.payload|
    decreases |actions|
  {
    if actions == [] then s
    else
      StepKeepsBounds(s, actions[0]);
      Run(Step(s, actions[0]), actions[1..])
  }

  // ---------------------------------------------------------------- the invariant

  function ClipAll(us: seq<Update>): seq<Update>
  {
    if us == [] then [] else ClipAll(us[..|us| - 1]) + [Clip(us[|us| - 1])]
  }

  /** The bytes of the frame being written that are already in the ring. */
  function Partial(p: Producer): octets
  {
    match p
    case Resting => []
    case Storing(u, k) => Prefix(Frame(u), k)
  }

  /** The room the producer has claimed beyond the published frames. */
  function Claimed(p: Producer): nat
  {
    match p
    case Resting => 0
    case Storing(u, _) => |Frame(u)|
  }

  /** From the published read index on, the ring holds the unreleased frames and then the partial one. */
  ghost predicate WriterInv(s: State)
  {
    && InBounds(s)
    && s.released <= |s.accepted|
    && var live := Stream(s.accepted[s.released..]);
       && |live| + Claimed(s.producer) < |s.payload|
       && (s.producer.Storing? ==> s.producer.stored <= |Frame(s.producer.u)|)
       && s.writeIndex == Around(s.consumerReadIndex, |live|, |s.payload|)
       && Gather(s.payload, s.consumerReadIndex, |live| + |Partial(s.producer)|) == live + Partial(s.producer)
  }

  function ReadCount(s: State): nat
  {
    s.base + |s.delivered|
  }

  /** The consumer stands at a frame boundary, has delivered everything before it, and what it has
    * loaded so far is the start of the next published frame.
    */
  ghost predicate ReaderInv(s: State)
    requires WriterInv(s)
  {
    s.consumer.Detached? ||
    (&& s.released <= ReadCount(s) <= |s.accepted|
     && |Stream(s.accepted[s.released..ReadCount(s)])| < |s.payload|
     && s.readCursor == Around(s.consumerReadIndex, |Stream(s.accepted[s.released..ReadCount(s)])|, |s.payload|)
     && s.delivered == ClipAll(s.accepted[s.base..ReadCount(s)])
     && (s.consumer.Loading? ==>
          && ReadCount(s) < |s.accepted|
          && s.consumer.buf <= Frame(s.accepted[ReadCount(s)])))
  }

  ghost predicate Inv(s: State)
  {
    WriterInv(s) && ReaderInv(s) && s.guardHits == 0
  }

  lemma InvInBounds(s: State)
    requires Inv(s)
    ensures InBounds(s)
  {
  }

  lemma InitInv(capacity: nat)
    requires capacity > 0
    ensures Inv(Init(capacity))
  {
  }

  // ---------------------------------------------------------------- helper facts

  lemma {:induction false} GatherAt(p: octets, index: nat, n: nat, j: nat)
    requires index < |p| && j < n <= |p|
    ensures Gather(p, index, n)[j] == p[Around(index, j, |p|)]
    decreases n
  {
    if j > 0 {
      GatherAt(p, Around(index, 1, |p|), n - 1, j - 1);
    }
  }

  lemma StreamCut(us: seq<Update>, i: nat, j: nat)
    requires i <= j <= |us|
    ensures Stream(us[i..]) == Stream(us[i..j]) + Stream(us[j..])
    ensures i < |us| ==> Stream(us[i..]) == Frame(us[i]) + Stream(us[i + 1..])
    ensures j < |us| ==> Stream(us[i..j + 1]) == Stream(us[i..j]) + Frame(us[j])
  {
    hide Frame;
    assert us[i..] == us[i..j] + us[j..];
    StreamConcat(us[i..j], us[j..]);
    if i < |us| {
      assert us[i..][1..] == us[i + 1..];
    }
    if j < |us| {
      assert us[i..j + 1] == us[i..j] + [us[j]];
      StreamConcat(us[i..j], [us[j]]);
      StreamOne(us[j]);
    }
  }

  /** The header of a frame decides how much the reader copies: exactly that frame. */
  lemma WantedIsFrame(u: Update, buf: octets)
    requires buf <= Frame(u)
    ensures |buf| < HEADER_BYTES ==> Wanted(buf) == HEADER_BYTES <= |Frame(u)|
    ensures |buf| >= HEADER_BYTES ==> Wanted(buf) == |Frame(u)|
  {
    hide DecodeHeader, Frame;
    FrameRoundTrip(u);
    if |buf| >= HEADER_BYTES {
      assert buf[..HEADER_BYTES] == Frame(u)[..HEADER_BYTES];
    }
  }

  // ---------------------------------------------------------------- every step keeps the invariant

  lemma BeginWriteInv(s: State, u: Update)
    requires Inv(s)
    ensures Inv(Step(s, BeginWrite(u)))
  {
    hide Frame, Stream, Gather, ClipAll;
    if s.producer.Resting? {
      var live := Stream(s.accepted[s.released..]);
      assert live + Partial(s.producer) == live;
      UsedIsUnread(s.payload, s.consumerReadIndex, s.writeIndex, live);
      assert Prefix(Frame(u), 0) == [];
      assert live + Partial(Storing(u, 0)) == live;
    }
  }

  lemma StoreByteInv(s: State)
    requires Inv(s)
    ensures Inv(Step(s, StoreByte))
  {
    hide Frame, Stream, Gather, ClipAll;
    if s.producer.Storing? && s.producer.stored < |Frame(s.producer.u)| {
      var live, f, k := Stream(s.accepted[s.released..]), Frame(s.producer.u), s.producer.stored;
      GatherPut(s.payload, s.consumerReadIndex, |live| + k, f[k]);
      assert Prefix(f, k + 1) == f[..k] + [f[k]];
      assert live + Prefix(f, k) + [f[k]] == live + Prefix(f, k + 1);
    }
  }

  lemma PublishWriteInv(s: State)
    requires Inv(s)
    ensures Inv(Step(s, PublishWrite))
  {
    hide Frame, Stream, Gather, ClipAll;
    if s.producer.Storing? && s.producer.stored == |Frame(s.producer.u)| {
      var s' := Step(s, PublishWrite);
      var u := s.producer.u;
      assert s'.accepted[s.released..] == s.accepted[s.released..] + [u];
      StreamConcat(s.accepted[s.released..], [u]);
      StreamOne(u);
      assert Stream(s'.accepted[s.released..]) + [] == Stream(s'.accepted[s.released..]);
      if !s.consumer.Detached? {
        var n := ReadCount(s);
        assert s'.accepted[s.released..n] == s.accepted[s.released..n];
        assert s'.accepted[s.base..n] == s.accepted[s.base..n];
      }
    }
  }

  lemma AttachInv(s: State)
    requires Inv(s)
    ensures Inv(Step(s, Attach))
  {
    hide Frame, Stream, Gather;
    if s.consumer.Detached? {
      var n := |s.accepted|;
      assert s.accepted[s.released..n] == s.accepted[s.released..];
      assert s.accepted[n..n] == [];
    }
  }

  /** The two cursors agree only when nothing is left to read. */
  lemma UnreadFrames(s: State)
    requires Inv(s) && !s.consumer.Detached?
    ensures s.readCursor == s.writeIndex <==> ReadCount(s) == |s.accepted|
    ensures Used(s.readCursor, s.writeIndex, |s.payload|) == |Stream(s.accepted[ReadCount(s)..])|
  {
    hide Frame, Stream, Gather, ClipAll;
    var n := ReadCount(s);
    StreamCut(s.accepted, s.released, n);
    if n < |s.accepted| {
      StreamCut(s.accepted, n, n);
    } else {
      assert s.accepted[n..] == [];
      StreamNone();
    }
  }

  lemma StreamNone()
    ensures Stream([]) == []
  {
  }

  lemma BeginReadInv(s: State)
    requires Inv(s)
    ensures Inv(Step(s, BeginRead))
  {
    hide Frame, Stream, Gather, ClipAll;
    if s.consumer.Waiting? {
      UnreadFrames(s);
    }
  }

  lemma LoadByteInv(s: State)
    requires Inv(s)
    ensures Inv(Step(s, LoadByte))
  {
    hide Frame, Stream, Gather, ClipAll, Wanted;
    if s.consumer.Loading? && |s.consumer.buf| < Wanted(s.consumer.buf) {
      var n, buf := ReadCount(s), s.consumer.buf;
      var f := Frame(s.accepted[n]);
      WantedIsFrame(s.accepted[n], buf);
      LoadedByte(s, |buf|);
      assert buf + [f[|buf|]] <= f;
    }
  }

  /** Byte j of the next unread frame is still in the ring, whatever the producer has stored since. */
  lemma LoadedByte(s: State, j: nat)
    requires Inv(s) && s.consumer.Loading?
    requires j < |Frame(s.accepted[ReadCount(s)])|
    ensures j < |s.payload|
    ensures s.payload[Around(s.readCursor, j, |s.payload|)] == Frame(s.accepted[ReadCount(s)])[j]
  {
    hide Frame, Stream, Gather, ClipAll, Partial, Around, WriterInv, ReaderInv;
    var n := ReadCount(s);
    UnreadSplit(s);
    UnreadPlace(s);
    var before, f := Stream(s.accepted[s.released..n]), Frame(s.accepted[n]);
    var live, partial := Stream(s.accepted[s.released..]), Partial(s.producer);
    InTheMiddle(before, f, Stream(s.accepted[n + 1..]), partial, j);
    SpanByte(s.payload, s.consumerReadIndex, live + partial, |before|, j);
  }

  /** The unreleased frames: those already read, the one being read, and the others. */
  lemma UnreadSplit(s: State)
    requires Inv(s) && s.consumer.Loading?
    ensures var n := ReadCount(s);
      && s.released <= n < |s.accepted|
      && Stream(s.accepted[s.released..])
         == Stream(s.accepted[s.released..n]) + (Frame(s.accepted[n]) + Stream(s.accepted[n + 1..]))
  {
    hide Frame, Stream, Gather, ClipAll, Partial, Around;
    StreamCut(s.accepted, s.released, ReadCount(s));
    StreamCut(s.accepted, ReadCount(s), ReadCount(s));
  }

  /** Where the unreleased frames and the partial one stand, and where among them the reader is. */
  lemma UnreadPlace(s: State)
    requires Inv(s) && s.consumer.Loading?
    ensures s.consumerReadIndex < |s.payload| && s.released <= ReadCount(s) < |s.accepted|
    ensures var bytes := Stream(s.accepted[s.released..]) + Partial(s.producer);
      |bytes| <= |s.payload| && Gather(s.payload, s.consumerReadIndex, |bytes|) == bytes
    ensures var before := Stream(s.accepted[s.released..ReadCount(s)]);
      |before| <= |s.payload| && s.readCursor == Around(s.consumerReadIndex, |before|, |s.payload|)
  {
    hide Frame, Stream, Gather, ClipAll, Partial, Around;
    PartialIsClaimed(s.producer);
    StreamCut(s.accepted, s.released, ReadCount(s));
  }

  lemma SpanByte(p: octets, index: nat, bs: octets, i: nat, j: nat)
    requires index < |p| && i + j < |bs| <= |p| && Gather(p, index, |bs|) == bs
    ensures p[Around(Around(index, i, |p|), j, |p|)] == bs[i + j]
  {
    hide Gather, Around;
    AroundAround(index, i, j, |p|);
    GatherAt(p, index, |bs|, i + j);
  }

  lemma InTheMiddle(before: octets, f: octets, rest: octets, partial: octets, j: nat)
    requires j < |f|
    ensures (before + (f + rest) + partial)[|before| + j] == f[j]
  {
  }

  lemma PartialIsClaimed(p: Producer)
    ensures |Partial(p)| <= Claimed(p)
  {
    hide Frame;
  }

  lemma FinishReadInv(s: State)
    requires Inv(s)
    ensures Inv(Step(s, FinishRead))
  {
    hide Frame, Stream, Gather, ClipAll, Wanted, DecodeHeader, DecodeBody;
    if s.consumer.Loading? && |s.consumer.buf| == Wanted(s.consumer.buf) {
      var n, buf := ReadCount(s), s.consumer.buf;
      var u := s.accepted[n];
      WantedIsFrame(u, buf);
      assert buf == Frame(u);
      FrameRoundTrip(u);
      StreamCut(s.accepted, s.released, n);
      StreamCut(s.accepted, s.released, n + 1);
      DeliveredSnoc(s.accepted, s.base, n);
    }
  }

  lemma DeliveredSnoc(us: seq<Update>, base: nat, n: nat)
    requires base <= n < |us|
    ensures ClipAll(us[base..n + 1]) == ClipAll(us[base..n]) + [Clip(us[n])]
  {
    assert us[base..n + 1][..n - base] == us[base..n];
  }

  lemma PublishCursorInv(s: State)
    requires Inv(s)
    ensures Inv(Step(s, PublishCursor))
  {
    hide Frame, Stream, Gather, ClipAll;
    if s.consumer.Waiting? {
      var n := ReadCount(s);
      var live, before := Stream(s.accepted[s.released..]), Stream(s.accepted[s.released..n]);
      StreamCut(s.accepted, s.released, n);
      var after := Stream(s.accepted[n..]);
      GatherParts(s.payload, s.consumerReadIndex, live + Partial(s.producer), |before|);
      assert (live + Partial(s.producer))[|before|..] == after + Partial(s.producer);
      assert s.accepted[n..n] == [];
      StreamNone();
    }
  }

  lemma StepInv(s: State, a: Action)
    requires Inv(s)
    ensures Inv(Step(s, a))
  {
    hide Inv, Step;
    match a
    case BeginWrite(u) => BeginWriteInv(s, u);
    case StoreByte => StoreByteInv(s);
    case PublishWrite => PublishWriteInv(s);
    case Attach => AttachInv(s);
    case BeginRead => BeginReadInv(s);
    case LoadByte => LoadByteInv(s);
    case FinishRead => FinishReadInv(s);
    case PublishCursor => PublishCursorInv(s);
    case Detach => DetachInv(s);
  }

  lemma DetachInv(s: State)
    requires Inv(s)
    ensures Inv(Step(s, Detach))
  {
    hide Frame, Stream, Gather, ClipAll;
  }

  lemma {:induction false} RunInv(s: State, actions: seq<Action>)
    requires Inv(s)
    ensures Inv(Run(s, actions))
    decreases |actions|
  {
    if actions != [] {
      StepInv(s, actions[0]);
      RunInv(Step(s, actions[0]), actions[1..]);
    }
  }

  // ---------------------------------------------------------------- main results

  /** In every run from a fresh ring, a consumer receives exactly the updates published since it
    * attached, clipped, in order, once each and without gaps; when its cursor meets the write index it
    * has received all of them; and no corruption guard ever fires.
    */
  lemma FifoInEveryRun(capacity: nat, actions: seq<Action>)
    requires capacity > 0
    ensures var s := Run(Init(capacity), actions);
      && s.guardHits == 0
      && (!s.consumer.Detached? ==>
           && s.base + |s.delivered| <= |s.accepted|
           && s.delivered == ClipAll(s.accepted[s.base..s.base + |s.delivered|])
           && (s.readCursor == s.writeIndex ==> s.delivered == ClipAll(s.accepted[s.base..])))
  {
    hide Frame, Stream, Gather, ClipAll, Run, Step;
    InitInv(capacity);
    RunInv(Init(capacity), actions);
    var s := Run(Init(capacity), actions);
    if !s.consumer.Detached? {
      UnreadFrames(s);
      if s.readCursor == s.writeIndex {
        assert s.accepted[s.base..ReadCount(s)] == s.accepted[s.base..];
      }
    }
  }

  /** In every run, the byte the producer is about to store is none of those the consumer has yet to read. */
  lemma UnreadNeverOverwritten(capacity: nat, actions: seq<Action>, j: nat)
    requires capacity > 0
    requires var s := Run(Init(capacity), actions);
      && !s.consumer.Detached? && s.producer.Storing? && s.producer.stored < |Frame(s.producer.u)|
      && j < Used(s.readCursor, s.writeIndex, |s.payload|)
    ensures var s := Run(Init(capacity), actions);
      && s.producer.stored < |s.payload| && j < |s.payload|
      && Around(s.readCursor, j, |s.payload|) != Around(s.writeIndex, s.producer.stored, |s.payload|)
  {
    hide Frame, Stream, Gather, ClipAll, Run, Step;
    InitInv(capacity);
    RunInv(Init(capacity), actions);
    var s := Run(Init(capacity), actions);
    UnreadFrames(s);
    StreamCut(s.accepted, s.released, ReadCount(s));
  }

  // ---------------------------------------------------------------- the methods are uninterrupted runs

  function Repeat(a: Action, n: nat): seq<Action>
  {
    if n == 0 then [] else [a] + Repeat(a, n - 1)
  }

  lemma {:induction false} RunConcat(s: State, a: seq<Action>, b: seq<Action>)
    requires InBounds(s)
    ensures Run(s, a + b) == Run(Run(s, a), b)
    decreases |a|
  {
    hide Step;
    if a == [] {
      assert a + b == b;
    } else {
      StepKeepsBounds(s, a[0]);
      assert (a + b)[1..] == a[1..] + b;
      RunConcat(Step(s, a[0]), a[1..], b);
    }
  }

  lemma RunOne(s: State, a: Action)
    requires InBounds(s)
    ensures Run(s, [a]) == Step(s, a)
  {
    hide Step;
    StepKeepsBounds(s, a);
    assert Run(Step(s, a), []) == Step(s, a);
  }

  lemma {:induction false} StoreRest(s: State, f: octets)
    requires InBounds(s) && s.producer.Storing? && f == Frame(s.producer.u)
    requires s.producer.stored <= |f| < |s.payload|
    ensures var k := s.producer.stored;
      Run(s, Repeat(StoreByte, |f| - k)) ==
      s.(payload := Blit(s.payload, Around(s.writeIndex, k, |s.payload|), f[k..]),
         producer := s.producer.(stored := |f|))
    decreases |f| - s.producer.stored
  {
    hide Frame;
    if s.producer.stored < |f| {
      var k := s.producer.stored;
      assert f[k..][1..] == f[k + 1..];
      assert Repeat(StoreByte, |f| - k)[1..] == Repeat(StoreByte, |f| - (k + 1));
      StoreRest(Step(s, StoreByte), f);
    }
  }

  /** Storing a frame without interruption has exactly the effect WriteUpsert states. */
  lemma UninterruptedWrite(s: State, u: Update)
    requires InBounds(s) && s.producer.Resting?
    requires |Frame(u)| <= |s.payload| - Used(s.consumerReadIndex, s.writeIndex, |s.payload|) - 1
    ensures Run(s, [BeginWrite(u)] + Repeat(StoreByte, |Frame(u)|) + [PublishWrite]) ==
            s.(payload := Blit(s.payload, s.writeIndex, Frame(u)),
               writeIndex := Around(s.writeIndex, |Frame(u)|, |s.payload|),
               accepted := s.accepted + [u])
  {
    hide Frame, Run, Blit;
    RunOne(s, BeginWrite(u));
    var s1 := Step(s, BeginWrite(u));
    StoreRest(s1, Frame(u));
    assert Frame(u)[0..] == Frame(u);
    RunConcat(s, [BeginWrite(u)], Repeat(StoreByte, |Frame(u)|));
    RunConcat(s, [BeginWrite(u)] + Repeat(StoreByte, |Frame(u)|), [PublishWrite]);
    var s2 := Run(s1, Repeat(StoreByte, |Frame(u)|));
    RunOne(s2, PublishWrite);
  }

  /** Without room for the frame the same steps only count a drop. */
  lemma RejectedWrite(s: State, u: Update)
    requires InBounds(s) && s.producer.Resting?
    requires |Frame(u)| > |s.payload| - Used(s.consumerReadIndex, s.writeIndex, |s.payload|) - 1
    ensures Run(s, [BeginWrite(u)] + Repeat(StoreByte, |Frame(u)|) + [PublishWrite]) == s.(dropped := s.dropped + 1)
  {
    hide Frame, Run;
    var s1 := Step(s, BeginWrite(u));
    RunOne(s, BeginWrite(u));
    StoresNothing(s1, |Frame(u)|);
    RunConcat(s, [BeginWrite(u)], Repeat(StoreByte, |Frame(u)|));
    RunConcat(s, [BeginWrite(u)] + Repeat(StoreByte, |Frame(u)|), [PublishWrite]);
    RunOne(s1, PublishWrite);
  }

  /** Once the consumer has published where it reads, an update is let in exactly when its frame fits beside the
    * frames not yet delivered.
    */
  lemma AdmittedExactly(s: State, u: Update)
    requires Inv(s) && s.consumer.Waiting? && s.producer.Resting?
    ensures InBounds(Step(s, PublishCursor))
    ensures Step(Step(s, PublishCursor), BeginWrite(u)).producer.Storing?
            <==> |Frame(u)| + |Stream(s.accepted[ReadCount(s)..])| < |s.payload|
  {
    hide Frame, Stream, Gather, ClipAll;
    UnreadFrames(s);
  }

  /** A consumer may leave between reads; the next one starts behind everything written so far. */
  lemma NextConsumerStartsAfresh(s: State)
    requires Inv(s) && s.consumer.Waiting?
    ensures InBounds(Step(s, Detach))
    ensures var s' := Step(Step(s, Detach), Attach);
      && s'.consumer == Waiting && s'.readCursor == s.writeIndex && s'.base == |s.accepted| && s'.delivered == []
  {
    hide Frame, Stream, Gather, ClipAll;
  }

  lemma {:induction false} StoresNothing(s: State, n: nat)
    requires InBounds(s) && s.producer.Resting?
    ensures Run(s, Repeat(StoreByte, n)) == s
  {
    if n > 0 {
      assert Repeat(StoreByte, n)[1..] == Repeat(StoreByte, n - 1);
      StoresNothing(s, n - 1);
    }
  }

  lemma {:induction false} LoadRest(s: State)
    requires Inv(s) && s.consumer.Loading?
    ensures var f := Frame(s.accepted[ReadCount(s)]);
      Run(s, Repeat(LoadByte, |f| - |s.consumer.buf|)) == s.(consumer := s.consumer.(buf := f))
    decreases |Frame(s.accepted[ReadCount(s)])| - |s.consumer.buf|
  {
    hide Frame, Wanted, Gather, Stream, ClipAll;
    var f, buf := Frame(s.accepted[ReadCount(s)]), s.consumer.buf;
    if |buf| < |f| {
      var k := |buf|;
      WantedIsFrame(s.accepted[ReadCount(s)], buf);
      LoadedByte(s, k);
      LoadByteInv(s);
      assert Repeat(LoadByte, |f| - k)[1..] == Repeat(LoadByte, |f| - (k + 1));
      assert buf + [f[k]] == f[..k + 1];
      LoadRest(Step(s, LoadByte));
    } else {
      assert buf == f;
    }
  }

  /** Loading a frame without interruption delivers exactly what ReadNextUpsert returns. */
  lemma UninterruptedRead(s: State)
    requires Inv(s) && s.consumer.Waiting? && s.readCursor != s.writeIndex
    ensures ReadCount(s) < |s.accepted| && Readable(s.payload, s.readCursor)
    ensures var n := |Frame(s.accepted[ReadCount(s)])|;
      var (result, next) := ReadOutcome(s.payload, s.readCursor, s.writeIndex);
      && result == Decoded(Clip(s.accepted[ReadCount(s)]))
      && Run(s, [BeginRead] + Repeat(LoadByte, n) + [FinishRead])
         == s.(readCursor := next, delivered := s.delivered + [result.update])
  {
    hide Frame, Run, Gather, Stream, Clip, ClipAll, ReadOutcome, Readable, Wanted, DecodeHeader, DecodeBody;
    UnreadFrames(s);
    BeginReadInv(s);
    var s1, u := Step(s, BeginRead), s.accepted[ReadCount(s)];
    var n := |Frame(u)|;
    RunOne(s, BeginRead);
    LoadRest(s1);
    RunConcat(s, [BeginRead], Repeat(LoadByte, n));
    RunConcat(s, [BeginRead] + Repeat(LoadByte, n), [FinishRead]);
    var s2 := Run(s1, Repeat(LoadByte, n));
    RunOne(s2, FinishRead);
    WantedIsFrame(u, Frame(u));
    FrameRoundTrip(u);
    FrameInPlace(s, s1);
    FrameAt(s.payload, s.readCursor, u);
  }

  lemma FrameInPlace(s: State, s1: State)
    requires Inv(s1) && s1.consumer.Loading? && s1.accepted == s.accepted && s1.payload == s.payload
    requires s1.base == s.base && s1.delivered == s.delivered && s1.readCursor == s.readCursor
    ensures |Frame(s.accepted[ReadCount(s)])| <= |s.payload|
    ensures Gather(s.payload, s.readCursor, |Frame(s.accepted[ReadCount(s)])|) == Frame(s.accepted[ReadCount(s)])
  {
    hide Frame, Stream, Gather, ClipAll, Around;
    var f := Frame(s.accepted[ReadCount(s)]);
    FrameBytesFit(s1);
    forall j: nat | j < |f|
      ensures Gather(s.payload, s.readCursor, |f|)[j] == f[j]
    {
      LoadedByte(s1, j);
      GatherAt(s.payload, s.readCursor, |f|, j);
    }
  }

  lemma FrameBytesFit(s: State)
    requires Inv(s) && s.consumer.Loading?
    ensures |Frame(s.accepted[ReadCount(s)])| <= |s.payload|
  {
    hide Frame, Stream, Gather, ClipAll;
    StreamCut(s.accepted, s.released, ReadCount(s));
    StreamCut(s.accepted, ReadCount(s), ReadCount(s));
  }
}
