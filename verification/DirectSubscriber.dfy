/** The subscriber's worker: it drains the ring with its own cursor, publishes the cursor afterwards,
  * and judges from the producer's heartbeat whether the connection is stale.
  */
module DirectSubscriber {
  import opened DirectWire
  import opened DirectRing
  import RP = RingProtocol

  datatype ConnectionState = Disconnected | Connecting | Connected | Stale

  /** The heartbeat last seen and the reader's clock when it last changed. */
  datatype Watch = Watch(heartbeatUs: uint64, changedUs: uint64)

  datatype Observation = Observation(nowUs: uint64, heartbeatUs: uint64)

  /** 64-bit subtraction wraps around. */
  function Minus(a: uint64, b: uint64): uint64
  {
    if a >= b then a - b else a - b + U64_LIMIT
  }

  function Observe(w: Watch, o: Observation): Watch
  {
    if o.heartbeatUs != w.heartbeatUs then Watch(o.heartbeatUs, o.nowUs) else w
  }

  /** The state reported after observing o, with the watch already updated. */
  function Decide(w: Watch, o: Observation, limitUs: uint64): ConnectionState
  {
    if o.heartbeatUs == 0 then
      Connecting
    else if Minus(o.nowUs, o.heartbeatUs) > limitUs then
      var quietUs := if w.changedUs == 0 then Minus(o.nowUs, o.heartbeatUs) else Minus(o.nowUs, w.changedUs);
      if quietUs > limitUs then Stale else Connected
    else
      Connected
  }

  // ---------------------------------------------------------------- a whole run of observations

  function WatchAfter(log: seq<Observation>): Watch
  {
    if log == [] then Watch(0, 0) else Observe(WatchAfter(log[..|log| - 1]), log[|log| - 1])
  }

  function Last(log: seq<Observation>): Observation
    requires log != []
  {
    log[|log| - 1]
  }

  function Reported(log: seq<Observation>, limitUs: uint64): ConnectionState
    requires log != []
  {
    Decide(WatchAfter(log), Last(log), limitUs)
  }

  predicate ClockRuns(log: seq<Observation>)
  {
    forall i, j :: 0 <= i <= j < |log| ==> log[i].nowUs <= log[j].nowUs
  }

  /** j is where the heartbeat now seen was first seen: it has not changed since. */
  predicate UnchangedSince(log: seq<Observation>, j: nat)
    requires log != []
  {
    && j < |log|
    && (forall i :: j <= i < |log| ==> log[i].heartbeatUs == Last(log).heartbeatUs)
    && (j > 0 ==> log[j - 1].heartbeatUs != Last(log).heartbeatUs)
  }

  lemma {:induction false} WatchRemembers(log: seq<Observation>, j: nat)
    requires log != [] && UnchangedSince(log, j) && Last(log).heartbeatUs != 0
    ensures WatchAfter(log) == Watch(Last(log).heartbeatUs, log[j].nowUs)
  {
    var n := |log| - 1;
    if j < n {
      assert Last(log[..n]) == log[n - 1];
      WatchRemembers(log[..n], j);
    } else if n > 0 {
      WatchSeesLast(log[..n]);
    }
  }

  lemma {:induction false} WatchSeesLast(log: seq<Observation>)
    requires log != []
    ensures WatchAfter(log).heartbeatUs == Last(log).heartbeatUs
  {
    if |log| > 1 {
      WatchSeesLast(log[..|log| - 1]);
    }
  }

  /** The difference is the one whose sum with b is a in 64 bits. */
  lemma MinusWraps(a: uint64, b: uint64)
    ensures (b + Minus(a, b)) % 0x1_0000_0000_0000_0000 == a
  {
  }

  /** Connecting is reported exactly while the ring holds no heartbeat, and a heartbeat that is at most the limit
    * old, or was seen to change at most that long ago, is always reported Connected.
    */
  lemma ConnectedExactly(log: seq<Observation>, j: nat, limitUs: uint64)
    requires log != [] && ClockRuns(log) && UnchangedSince(log, j)
    ensures Reported(log, limitUs) != Disconnected
    ensures Reported(log, limitUs) == Connecting <==> log[|log| - 1].heartbeatUs == 0
    ensures Reported(log, limitUs) == Connected <==>
      var o := log[|log| - 1];
      && o.heartbeatUs != 0
      && (Minus(o.nowUs, o.heartbeatUs) <= limitUs || (log[j].nowUs != 0 && o.nowUs - log[j].nowUs <= limitUs))
  {
    hide WatchAfter;
    if Last(log).heartbeatUs != 0 {
      WatchRemembers(log, j);
    }
  }

  /** Stale is reported exactly when the heartbeat is nonzero, the wrapping age of its stamp exceeds the
    * limit, and so does the time since it last changed; a change seen while the clock read 0 is the
    * one case where the wrapping age is used twice.
    */
  lemma StaleExactly(log: seq<Observation>, j: nat, limitUs: uint64)
    requires log != [] && ClockRuns(log) && UnchangedSince(log, j)
    ensures Reported(log, limitUs) == Stale <==>
      var o := Last(log);
      && o.heartbeatUs != 0
      && Minus(o.nowUs, o.heartbeatUs) > limitUs
      && (log[j].nowUs == 0 || o.nowUs - log[j].nowUs > limitUs)
  {
    if Last(log).heartbeatUs != 0 {
      WatchRemembers(log, j);
    }
  }

  /** Sound: Stale means the heartbeat stood still for more than the limit, even if it is ahead of the clock. */
  lemma StaleIsSound(log: seq<Observation>, j: nat, limitUs: uint64)
    requires log != [] && ClockRuns(log) && UnchangedSince(log, j)
    requires log[j].nowUs != 0
    requires Reported(log, limitUs) == Stale
    ensures Last(log).nowUs - log[j].nowUs > limitUs
  {
    StaleExactly(log, j, limitUs);
  }

  /** Complete: a heartbeat that was not ahead of the clock and then stood still too long is reported. */
  lemma StaleIsComplete(log: seq<Observation>, j: nat, limitUs: uint64)
    requires log != [] && ClockRuns(log) && UnchangedSince(log, j)
    requires 0 < log[j].heartbeatUs <= log[j].nowUs
    requires Last(log).nowUs - log[j].nowUs > limitUs
    ensures Reported(log, limitUs) == Stale
  {
    StaleExactly(log, j, limitUs);
  }

  /** Once the heartbeat has stood still too long, Stale is missed exactly while the stamp is recent by
    * the reader's clock: a stamp ahead of the clock makes the report flip back to Connected as the clock
    * passes it, although nothing was heard in between.
    */
  lemma StaleMissedExactly(log: seq<Observation>, j: nat, limitUs: uint64)
    requires log != [] && ClockRuns(log) && UnchangedSince(log, j)
    requires Last(log).heartbeatUs != 0
    requires Last(log).nowUs - log[j].nowUs > limitUs
    ensures Reported(log, limitUs) == Connected <==> Minus(Last(log).nowUs, Last(log).heartbeatUs) <= limitUs
    ensures 0 <= Last(log).nowUs - Last(log).heartbeatUs <= limitUs ==> Reported(log, limitUs) == Connected
  {
    StaleExactly(log, j, limitUs);
  }

  /** A stamp 95 ahead of the clock: reported Stale after 49 quiet units, Connected again after 104. */
  lemma StaleFlipsBack()
    ensures Reported([Observation(1, 100), Observation(50, 100)], 10) == Stale
    ensures Reported([Observation(1, 100), Observation(50, 100), Observation(105, 100)], 10) == Connected
  {
    var two := [Observation(1, 100), Observation(50, 100)];
    var three := [Observation(1, 100), Observation(50, 100), Observation(105, 100)];
    assert UnchangedSince(two, 0) && UnchangedSince(three, 0);
    StaleExactly(two, 0, 10);
    StaleMissedExactly(three, 0, 10);
  }

  /** With the clock at 0 the quiet time is not consulted: one observation is enough to report Stale. */
  lemma ClockAtZeroIsUnsound()
    ensures Reported([Observation(0, 5)], 1000) == Stale
  {
    assert [Observation(0, 5)][..0] == [];
    assert WatchAfter([Observation(0, 5)]) == Watch(5, 0);
  }

  // ---------------------------------------------------------------- the worker

  class Subscriber {
    const ring: Ring
    const instanceId: uint64
    var readCursor: nat
    var connectionState: ConnectionState
    var lastSeq: uint64
    var droppedCount: uint64
    var lastProducerHeartbeatUs: uint64
    var lastHeartbeatChangeUs: uint64
    var received: seq<Update>
    ghost var observed: seq<Observation>

    /** The ring holds exactly the frames us from this subscriber's cursor on, and the heartbeat fields
      * summarise everything observed.
      */
    ghost predicate Valid(us: seq<Update>)
      reads this, ring, ring.payload
    {
      && ring.Valid()
      && Holds(ring.payload[..], readCursor, ring.writeIndex, us)
      && Watch(lastProducerHeartbeatUs, lastHeartbeatChangeUs) == WatchAfter(observed)
    }

    /** Attaching skips what is already in the ring and frees it at once. */
    constructor (ring: Ring, instanceId: uint64)
      requires ring.Valid()
      modifies ring`consumerReadIndex
      ensures this.ring == ring && this.instanceId == instanceId && Valid([])
      ensures ring.consumerReadIndex == ring.writeIndex == readCursor && connectionState == Connecting
      ensures received == [] && observed == [] && lastSeq == droppedCount == 0
    {
      this.ring, this.instanceId := ring, instanceId;
      lastSeq, droppedCount, received, observed := 0, 0, [], [];
      lastProducerHeartbeatUs, lastHeartbeatChangeUs := 0, 0;
      connectionState := Connecting;
      readCursor := ring.writeIndex;
      new;
      ring.consumerReadIndex := readCursor;
    }

    /** Hands over every unread update, clipped and in order, and leaves the cursor at the write index. */
    method Drain(nowUs: uint64, ghost us: seq<Update>)
      requires Valid(us)
      modifies this`readCursor, this`lastSeq, this`received, ring`lastConsumerHeartbeatUs
      ensures Valid([])
      ensures received == old(received) + RP.ClipAll(us)
      ensures lastSeq == if us == [] then old(lastSeq) else us[|us| - 1].seqNo
    {
      hide Holds, ReadOutcome, Readable, RP.ClipAll, WatchAfter, Clip;
      ghost var i := 0;
      DrainStart(us);
      ReadTakesOldest(ring.payload[..], readCursor, ring.writeIndex, us[0..]);
      assert us[0..] == us && us[..0] == [];
      var result, next := ring.ReadNextUpsert(readCursor, nowUs);
      while result.Decoded?
        invariant 0 <= i <= |us|
        invariant Valid(us[i..]) && ring.payload[..] == old(ring.payload[..]) && ring.writeIndex == old(ring.writeIndex)
        invariant received == old(received) + RP.ClipAll(us[..i])
        invariant lastSeq == if i == 0 then old(lastSeq) else us[i - 1].seqNo
        invariant readCursor < ring.capacityBytes && next < ring.capacityBytes
        invariant readCursor != ring.writeIndex ==> Readable(ring.payload[..], readCursor)
        invariant (result, next) == ReadOutcome(ring.payload[..], readCursor, ring.writeIndex)
        decreases |us| - i
      {
        ReadTakesOldest(ring.payload[..], readCursor, ring.writeIndex, us[i..]);
        DrainStep(us, i, old(received));
        readCursor := next;
        lastSeq := result.update.seqNo;
        received := received + [result.update];
        i := i + 1;
        ReadTakesOldest(ring.payload[..], readCursor, ring.writeIndex, us[i..]);
        result, next := ring.ReadNextUpsert(readCursor, nowUs);
      }
      ReadTakesOldest(ring.payload[..], readCursor, ring.writeIndex, us[i..]);
      assert us[i..] == [] && us[..i] == us;
    }

    /** The staleness decision, from the heartbeat now in the header. */
    method JudgeHeartbeat(nowUs: uint64, limitUs: uint64)
      requires Watch(lastProducerHeartbeatUs, lastHeartbeatChangeUs) == WatchAfter(observed)
      modifies this`lastProducerHeartbeatUs, this`lastHeartbeatChangeUs, this`connectionState, this`observed
      ensures observed == old(observed) + [Observation(nowUs, ring.lastProducerHeartbeatUs)]
      ensures Watch(lastProducerHeartbeatUs, lastHeartbeatChangeUs) == WatchAfter(observed)
      ensures connectionState == Reported(observed, limitUs)
    {
      var heartbeatUs := ring.lastProducerHeartbeatUs;
      if heartbeatUs != lastProducerHeartbeatUs {
        lastProducerHeartbeatUs := heartbeatUs;
        lastHeartbeatChangeUs := nowUs;
      }
      observed := observed + [Observation(nowUs, heartbeatUs)];
      assert observed[..|observed| - 1] == old(observed);
      if heartbeatUs == 0 {
        connectionState := Connecting;
      } else if Minus(nowUs, heartbeatUs) > limitUs {
        var quietUs := Minus(nowUs, if lastHeartbeatChangeUs == 0 then heartbeatUs else lastHeartbeatChangeUs);
        connectionState := if quietUs > limitUs then Stale else Connected;
      } else {
        connectionState := Connected;
      }
    }

    /** One pass of the worker loop: drain unless the wait failed, judge the heartbeat, claim the ring, publish
      * the cursor.
      */
    method RunPass(waited: bool, nowUs: uint64, limitUs: uint64, ghost us: seq<Update>)
      requires Valid(us)
      modifies this, ring`lastConsumerHeartbeatUs, ring`consumerInstanceId, ring`consumerReadIndex
      ensures Valid(if waited then [] else us)
      ensures received == old(received) + if waited then RP.ClipAll(us) else []
      ensures observed == old(observed) + [Observation(nowUs, ring.lastProducerHeartbeatUs)]
      ensures connectionState == Reported(observed, limitUs)
      ensures ring.consumerReadIndex == readCursor == if waited then ring.writeIndex else old(readCursor)
      ensures lastSeq == if waited && us != [] then us[|us| - 1].seqNo else old(lastSeq)
      ensures ring.consumerInstanceId == instanceId && ring.lastConsumerHeartbeatUs == nowUs
      ensures droppedCount == ring.droppedCount
    {
      hide Holds, RP.ClipAll, WatchAfter, Reported;
      if waited {
        Drain(nowUs, us);
      }
      JudgeHeartbeat(nowUs, limitUs);
      ring.consumerInstanceId := instanceId;
      ring.consumerReadIndex := readCursor;
      ring.lastConsumerHeartbeatUs := nowUs;
      droppedCount := ring.droppedCount;
      CursorInside(ring.payload[..], readCursor, ring.writeIndex, if waited then [] else us);
    }
  }

  lemma DrainStart(us: seq<Update>)
    ensures RP.ClipAll(us[..0]) == []
  {
  }

  lemma DrainStep(us: seq<Update>, i: nat, before: seq<Update>)
    requires i < |us|
    ensures before + RP.ClipAll(us[..i]) + [Clip(us[i])] == before + RP.ClipAll(us[..i + 1])
    ensures us[i..][0] == us[i] && us[i..][1..] == us[i + 1..]
    ensures Clip(us[i]).seqNo == us[i].seqNo
  {
    RP.DeliveredSnoc(us, 0, i);
    assert us[0..i] == us[..i] && us[0..i + 1] == us[..i + 1];
  }

  lemma CursorInside(p: octets, cursor: nat, writeIndex: nat, us: seq<Update>)
    requires Holds(p, cursor, writeIndex, us)
    ensures cursor < |p|
    ensures us == [] ==> cursor == writeIndex
  {
    hide Gather;
    assert Stream([]) == [];
  }
}
