/** The publisher: a table of pending values flushed into the ring, and a retained table that is
  * replayed when a consumer appears or changes.
  */
module DirectPublisher {
  import opened DirectWire
  import opened DirectRing
  import opened LastWrite

  type Table = map<octets, Value>

  const CONSUMER_ACTIVE_US: nat := 500000

  /** What StorePending and the loop pass work on. */
  datatype Desk = Desk(retained: Table, pending: Table, consumerWasActive: bool, lastObservedId: uint64)

  function ConsumerActive(heartbeatUs: uint64, nowUs: uint64): bool
  {
    heartbeatUs != 0 && nowUs >= heartbeatUs && nowUs - heartbeatUs <= CONSUMER_ACTIVE_US
  }

  /** A pass replays when it sees a consumer that was not active before, or a different one. */
  function SeesNewConsumer(d: Desk, active: bool, id: uint64): bool
  {
    active && (!d.consumerWasActive || (id != 0 && id != d.lastObservedId))
  }

  /** The two locked sections of a store. Another thread may run between them. */
  function Retained(d: Desk, key: octets, value: Value): Desk
  {
    d.(retained := d.retained[key := value])
  }

  function Pended(d: Desk, key: octets, value: Value): Desk
  {
    d.(pending := d.pending[key := value])
  }

  function Stored(d: Desk, key: octets, value: Value): Desk
  {
    Pended(Retained(d, key, value), key, value)
  }

  /** What a loop pass remembers about the consumer, apart from the replay itself. */
  function Noted(d: Desk, active: bool, id: uint64): Desk
  {
    var seen := if id != 0 then id else d.lastObservedId;
    if !active then d.(consumerWasActive := false, lastObservedId := seen)
    else if SeesNewConsumer(d, active, id) then d.(consumerWasActive := true, lastObservedId := seen)
    else d
  }

  function LoopPassed(d: Desk, active: bool, id: uint64): Desk
  {
    if SeesNewConsumer(d, active, id) then Noted(d, active, id).(pending := d.pending + d.retained)
    else Noted(d, active, id)
  }

  /** A pass replays exactly when the consumer's heartbeat is at most half a second old and the consumer was not
    * active at the last pass or has a new id. Whatever it sees, it keeps what is retained and remembers whether
    * the consumer was active and the last id seen.
    */
  lemma PassReplaysExactly(d: Desk, heartbeatUs: uint64, nowUs: uint64, id: uint64)
    ensures var live := 0 < heartbeatUs <= nowUs <= heartbeatUs + 500000;
      var d' := LoopPassed(d, ConsumerActive(heartbeatUs, nowUs), id);
      && d'.pending ==
           (if live && (!d.consumerWasActive || (id != 0 && id != d.lastObservedId)) then d.pending + d.retained
            else d.pending)
      && d'.retained == d.retained && d'.consumerWasActive == live
      && d'.lastObservedId == if id == 0 then d.lastObservedId else id
  {
  }

  // ---------------------------------------------------------------- stores between the replay's two locks

  datatype Half = RetainHalf(key: octets, value: Value) | PendHalf(key: octets, value: Value)

  function HalvesDone(d: Desk, halves: seq<Half>): Desk
  {
    if halves == [] then d
    else
      var before, last := HalvesDone(d, halves[..|halves| - 1]), halves[|halves| - 1];
      if last.RetainHalf? then Retained(before, last.key, last.value) else Pended(before, last.key, last.value)
  }

  /** The last value each key was retained with. */
  function RetainedBy(halves: seq<Half>): Table
  {
    if halves == [] then map[]
    else
      var before, last := RetainedBy(halves[..|halves| - 1]), halves[|halves| - 1];
      if last.RetainHalf? then before[last.key := last.value] else before
  }

  /** The last value each key was made pending with. */
  function PendedBy(halves: seq<Half>): Table
  {
    if halves == [] then map[]
    else
      var before, last := PendedBy(halves[..|halves| - 1]), halves[|halves| - 1];
      if last.PendHalf? then before[last.key := last.value] else before
  }

  lemma {:induction false} HalvesEffect(d: Desk, halves: seq<Half>)
    ensures HalvesDone(d, halves)
         == d.(retained := d.retained + RetainedBy(halves), pending := d.pending + PendedBy(halves))
  {
    if halves != [] {
      var front, last := halves[..|halves| - 1], halves[|halves| - 1];
      HalvesEffect(d, front);
      MergeUpdate(d.retained, RetainedBy(front), last);
      MergeUpdate(d.pending, PendedBy(front), last);
    }
  }

  lemma MergeUpdate(t: Table, late: Table, h: Half)
    ensures (t + late)[h.key := h.value] == t + late[h.key := h.value]
  {
  }

  /** What a replay is for: everything retained is on its way with its retained value. */
  predicate Replayed(d: Desk)
  {
    forall k :: k in d.retained ==> k in d.pending && d.pending[k] == d.retained[k]
  }

  /** The source copies the retained table under one lock and merges the copy under another. Whatever halves
    * of stores come in between, from any number of threads, the replay is complete exactly when every key
    * retained meanwhile ends with the value it had before, or is a new key whose last pending half carries
    * its last retained value.
    */
  lemma SplitReplayIsExact(d: Desk, halves: seq<Half>)
    requires d.pending.Keys <= d.retained.Keys
    ensures var late, r, p := HalvesDone(d, halves), RetainedBy(halves), PendedBy(halves);
      Replayed(late.(pending := late.pending + d.retained))
      <==> forall k :: k in r ==> if k in d.retained then r[k] == d.retained[k] else k in p && p[k] == r[k]
  {
    HalvesEffect(d, halves);
    var late, r, p := HalvesDone(d, halves), RetainedBy(halves), PendedBy(halves);
    var merged := late.(pending := late.pending + d.retained);
    if Replayed(merged) {
      forall k | k in r
        ensures if k in d.retained then r[k] == d.retained[k] else k in p && p[k] == r[k]
      {
        assert k in merged.retained && merged.retained[k] == r[k];
      }
    }
  }

  /** One store in between is enough: the merge puts the older value back over the newer one. */
  lemma ReplayOverwritesStore(key: octets, older: Value, newer: Value)
    requires older != newer
    ensures var d := Desk(map[key := older], map[], true, 1);
      var late := HalvesDone(d, [RetainHalf(key, newer), PendHalf(key, newer)]);
      && late.pending == late.retained == map[key := newer]
      && (late.pending + d.retained)[key] == older
      && !Replayed(late.(pending := late.pending + d.retained))
  {
    var d := Desk(map[key := older], map[], true, 1);
    var one, two := [RetainHalf(key, newer)], [RetainHalf(key, newer), PendHalf(key, newer)];
    assert one[..0] == [] && two[..1] == one;
    assert HalvesDone(d, one) == Retained(d, key, newer);
    var late := HalvesDone(d, two);
    assert key in late.retained;
  }

  ghost function ValuesOf(log: seq<Update>): Table
  {
    Latest(KeyOf, ValueOf, log)
  }

  function Without(t: Table, keys: set<octets>): Table
  {
    map k | k in t && k !in keys :: t[k]
  }

  /** Part-way through a flush of t: keys are still to be taken, lost were dropped, the rest is written. */
  ghost predicate Flushing(t: Table, keys: set<octets>, lost: set<octets>, written: seq<Update>)
  {
    keys <= t.Keys && lost <= t.Keys - keys && ValuesOf(written) == Without(t, keys + lost)
  }

  lemma FlushBegins(t: Table)
    ensures Flushing(t, t.Keys, {}, [])
  {
  }

  lemma FlushTakes(t: Table, keys: set<octets>, lost: set<octets>, written: seq<Update>, u: Update)
    requires Flushing(t, keys, lost, written)
    requires u.key in keys && u.value == t[u.key]
    ensures Flushing(t, keys - {u.key}, lost, written + [u])
    ensures Flushing(t, keys - {u.key}, lost + {u.key}, written)
    ensures |lost + {u.key}| == |lost| + 1
  {
    LatestSnoc(KeyOf, ValueOf, written, u);
    assert keys - {u.key} + (lost + {u.key}) == keys + lost;
  }

  lemma FlushEnds(t: Table, lost: set<octets>, written: seq<Update>)
    requires Flushing(t, {}, lost, written)
    ensures lost <= t.Keys && ValuesOf(written) == Without(t, lost)
  {
    assert {} + lost == lost;
  }

  class Publisher {
    const ring: Ring
    var running: bool
    var publishedSeq: uint64
    var droppedCount: uint64
    var pending: Table
    var retained: Table
    var consumerWasActive: bool
    var lastObservedConsumerInstanceId: uint64
    ghost var unread: seq<Update>

    ghost predicate Valid()
      reads this`unread, ring, ring.payload
    {
      ring.Valid() && Holds(ring.payload[..], ring.consumerReadIndex, ring.writeIndex, unread)
    }

    function View(): Desk
      reads this
    {
      Desk(retained, pending, consumerWasActive, lastObservedConsumerInstanceId)
    }

    constructor (ring: Ring, ghost unread: seq<Update>)
      requires ring.Valid() && Holds(ring.payload[..], ring.consumerReadIndex, ring.writeIndex, unread)
      ensures Valid() && this.ring == ring && running && this.unread == unread
      ensures View() == Desk(map[], map[], false, ring.consumerInstanceId)
      ensures publishedSeq == 0 && droppedCount == 0
    {
      this.ring := ring;
      this.unread := unread;
      running, publishedSeq, droppedCount := true, 0, 0;
      pending, retained, consumerWasActive := map[], map[], false;
      lastObservedConsumerInstanceId := ring.consumerInstanceId;
    }

    method RetainLocked(key: octets, value: Value)
      modifies this`retained
      ensures View() == Retained(old(View()), key, value)
    {
      retained := retained[key := value];
    }

    method PendLocked(key: octets, value: Value)
      modifies this`pending
      ensures View() == Pended(old(View()), key, value)
    {
      pending := pending[key := value];
    }

    /** Both sections, when no other thread comes between them. */
    method StorePending(key: octets, value: Value)
      modifies this`retained, this`pending
      ensures View() == Stored(old(View()), key, value)
    {
      RetainLocked(key, value);
      PendLocked(key, value);
    }

    method MaybeReplayRetainedSnapshot(nowUs: uint64)
      modifies this`pending, this`consumerWasActive, this`lastObservedConsumerInstanceId
      ensures var active := ConsumerActive(ring.lastConsumerHeartbeatUs, nowUs);
        View() == LoopPassed(old(View()), active, ring.consumerInstanceId)
      ensures var heartbeatUs := ring.lastConsumerHeartbeatUs;
        var live := 0 < heartbeatUs <= nowUs <= heartbeatUs + 500000;
        var changed := ring.consumerInstanceId != 0 && ring.consumerInstanceId != old(lastObservedConsumerInstanceId);
        && (live && (!old(consumerWasActive) || changed) ==> pending == old(pending) + retained)
        && (!live || (old(consumerWasActive) && !changed) ==> pending == old(pending))
        && consumerWasActive == live
    {
      var heartbeatUs := ring.lastConsumerHeartbeatUs;
      var id := ring.consumerInstanceId;
      var active := heartbeatUs != 0 && nowUs >= heartbeatUs && nowUs - heartbeatUs <= CONSUMER_ACTIVE_US;
      if !active {
        consumerWasActive := false;
        if id != 0 {
          lastObservedConsumerInstanceId := id;
        }
        return;
      }
      var changed := id != 0 && id != lastObservedConsumerInstanceId;
      if consumerWasActive && !changed {
        return;
      }
      consumerWasActive := true;
      if id != 0 {
        lastObservedConsumerInstanceId := id;
      }
      var copy := retained;
      if copy.Keys == {} {
        return;
      }
      pending := Merge(pending, copy);
    }

    /** Assigns every entry of `from` into `into`. */
    static method Merge(into: Table, from: Table) returns (merged: Table)
      ensures merged == into + from
    {
      merged := into;
      var keys := from.Keys;
      while keys != {}
        invariant keys <= from.Keys
        invariant merged.Keys == into.Keys + (from.Keys - keys)
        invariant forall k :: k in merged ==> merged[k] == if k in from && k !in keys then from[k] else into[k]
        decreases |keys|
      {
        var k :| k in keys;
        merged := merged[k := from[k]];
        keys := keys - {k};
      }
    }

    /** Empties the pending table into the ring behind what was already unread. The frames written
      * carry exactly the pending table without the entries counted as dropped. Consumers are signalled if there
      * are any; the heartbeat is stored even if there are none.
      */
    method FlushNow(nowUs: uint64)
      returns (ok: bool, signal: bool, ghost written: seq<Update>, ghost lost: set<octets>)
      requires Valid()
      modifies this`pending, this`publishedSeq, this`droppedCount, this`unread
      modifies ring`writeIndex, ring`publishedSeq, ring`droppedCount, ring`lastProducerHeartbeatUs, ring.payload
      ensures Valid() && ok == running
      ensures unread == old(unread) + written
      ensures !running ==> written == [] && !signal && unchanged(this) && unchanged(ring) && unchanged(ring.payload)
      ensures running ==>
        && pending == map[]
        && lost <= old(pending).Keys && ValuesOf(written) == Without(old(pending), lost)
        && ring.droppedCount == Counted(old(ring.droppedCount) + |lost|)
        && publishedSeq == Counted(old(publishedSeq) + |old(pending)|)
        && droppedCount == (if lost == {} then old(droppedCount) else ring.droppedCount)
        && ring.lastProducerHeartbeatUs == nowUs && signal == (written != [])
    {
      hide Frame, Stream, Blit, Holds, HoldsBytes, Used, ValuesOf, Without, Counted, Flushing;
      written, lost := [], {};
      if !running {
        return false, false, [], {};
      }
      var swapped := pending;
      pending := map[];
      FlushBegins(swapped);
      CountedStep(ring.droppedCount, 0);
      signal, written, lost := WriteAll(swapped, nowUs);
      FlushEnds(swapped, lost, written);
      ring.lastProducerHeartbeatUs := nowUs;
      ok := true;
    }

    /** One pass of the auto-flush loop: replay if a new consumer is seen, then flush. */
    method RunPass(replayUs: uint64, flushUs: uint64)
      returns (signal: bool, ghost written: seq<Update>, ghost lost: set<octets>)
      requires Valid() && running
      modifies this
      modifies ring`writeIndex, ring`publishedSeq, ring`droppedCount, ring`lastProducerHeartbeatUs, ring.payload
      ensures Valid() && running && unread == old(unread) + written
      ensures var active := old(ConsumerActive(ring.lastConsumerHeartbeatUs, replayUs));
        var d := LoopPassed(old(View()), active, old(ring.consumerInstanceId));
        && View() == d.(pending := map[])
        && lost <= d.pending.Keys && ValuesOf(written) == Without(d.pending, lost)
        && ring.droppedCount == Counted(old(ring.droppedCount) + |lost|)
        && ring.lastProducerHeartbeatUs == flushUs && signal == (written != [])
    {
      hide Holds, ValuesOf, Without, Counted, ConsumerActive;
      MaybeReplayRetainedSnapshot(replayUs);
      var ok;
      ok, signal, written, lost := FlushNow(flushUs);
    }

    method WriteAll(swapped: Table, nowUs: uint64)
      returns (wroteAny: bool, ghost written: seq<Update>, ghost lost: set<octets>)
      requires Valid()
      modifies this`publishedSeq, this`droppedCount, this`unread
      modifies ring`writeIndex, ring`publishedSeq, ring`droppedCount, ring`lastProducerHeartbeatUs, ring.payload
      ensures Valid() && unread == old(unread) + written
      ensures Flushing(swapped, {}, lost, written) && wroteAny == (written != [])
      ensures ring.droppedCount == Counted(old(ring.droppedCount) + |lost|)
      ensures publishedSeq == Counted(old(publishedSeq) + |swapped|)
      ensures droppedCount == if lost == {} then old(droppedCount) else ring.droppedCount
    {
      hide Valid, Counted, Flushing, ValuesOf, Without, Frame, Used, Holds;
      wroteAny, written, lost := false, [], {};
      var keys := swapped.Keys;
      ghost var done: nat := 0;
      FlushBegins(swapped);
      CountedStep(ring.droppedCount, 0);
      CountedStep(publishedSeq, 0);
      while keys != {}
        invariant Valid() && unread == old(unread) + written
        invariant Flushing(swapped, keys, lost, written) && keys <= swapped.Keys
        invariant ring.droppedCount == Counted(old(ring.droppedCount) + |lost|)
        invariant |keys| + done == |swapped| && publishedSeq == Counted(old(publishedSeq) + done)
        invariant droppedCount == if lost == {} then old(droppedCount) else ring.droppedCount
        invariant wroteAny == (written != [])
        decreases keys
      {
        var k :| k in keys;
        var wrote;
        CountedStep(old(publishedSeq), done);
        wrote, written, lost :=
          WriteEntry(swapped, k, nowUs, keys, written, lost, old(unread), old(ring.droppedCount));
        wroteAny := wroteAny || wrote;
        done := done + 1;
        keys := keys - {k};
      }
    }

    /** One entry of a flush: numbered, then written or counted as dropped. */
    method WriteEntry(swapped: Table, k: octets, nowUs: uint64, ghost keys: set<octets>, ghost written0: seq<Update>,
                      ghost lost0: set<octets>, ghost unread0: seq<Update>, ghost dropped0: nat)
      returns (wrote: bool, ghost written: seq<Update>, ghost lost: set<octets>)
      requires Valid() && unread == unread0 + written0
      requires k in keys && keys <= swapped.Keys && Flushing(swapped, keys, lost0, written0)
      requires ring.droppedCount == Counted(dropped0 + |lost0|)
      modifies this`publishedSeq, this`droppedCount, this`unread
      modifies ring`writeIndex, ring`publishedSeq, ring`droppedCount, ring`lastProducerHeartbeatUs, ring.payload
      ensures Valid() && unread == unread0 + written
      ensures Flushing(swapped, keys - {k}, lost, written)
      ensures ring.droppedCount == Counted(dropped0 + |lost|)
      ensures publishedSeq == Counted(old(publishedSeq) + 1)
      ensures wrote ==>
        && written == written0 + [Update(k, swapped[k], publishedSeq, nowUs)] && lost == lost0
        && droppedCount == old(droppedCount) && ring.droppedCount == old(ring.droppedCount)
      ensures !wrote ==> written == written0 && lost == lost0 + {k} && droppedCount == ring.droppedCount
    {
      hide Valid, Frame, Used, Counted, Flushing;
      publishedSeq := Counted(publishedSeq + 1);
      var u := Update(k, swapped[k], publishedSeq, nowUs);
      wrote := WriteOne(u, nowUs);
      FlushTakes(swapped, keys, lost0, written0, u);
      if wrote {
        written, lost := written0 + [u], lost0;
      } else {
        CountedStep(dropped0, |lost0|);
        droppedCount := ring.droppedCount;
        written, lost := written0, lost0 + {k};
      }
    }

    method WriteOne(u: Update, nowUs: uint64) returns (wrote: bool)
      requires Valid()
      modifies this`unread
      modifies ring`writeIndex, ring`publishedSeq, ring`droppedCount, ring`lastProducerHeartbeatUs, ring.payload
      ensures Valid()
      ensures var used := Used(ring.consumerReadIndex, old(ring.writeIndex), ring.capacityBytes);
        wrote == (|Frame(u)| <= ring.capacityBytes - used - 1)
      ensures unread == if wrote then old(unread) + [u] else old(unread)
      ensures ring.droppedCount == if wrote then old(ring.droppedCount) else Counted(old(ring.droppedCount) + 1)
    {
      hide Frame, Stream, Blit, HoldsBytes, Used, Holds;
      ghost var p, w := ring.payload[..], ring.writeIndex;
      var dropped: uint64;
      wrote, dropped := ring.WriteUpsert(u, nowUs);
      if wrote {
        WriteAppends(p, ring.consumerReadIndex, w, unread, u);
        unread := unread + [u];
      }
    }
  }
}
