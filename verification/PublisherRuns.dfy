/** The publisher's methods are uninterrupted runs of the link: a store, a loop pass, and a whole flush through
  * the byte-level ring.
  */
module PublisherRuns {
  import opened DirectWire
  import opened DirectRing
  import opened LastWrite
  import opened DirectPublisher
  import RP = RingProtocol
  import L = TelemetryLink

  /** A store by one thread, with nothing in between, is StorePending. */
  lemma UninterruptedStore(s: L.State, thread: nat, key: octets, value: Value)
    requires RP.InBounds(s.ring) && thread !in s.storing
    ensures var s' := L.Run(s, [L.BeginStore(thread, key, value), L.EndStore(thread)]);
      && s'.desk == Stored(s.desk, key, value) && s'.storing == s.storing
      && s'.ring == s.ring && s'.sent == s.sent[key := value]
  {
    hide RP.InBounds, L.Overlaps;
    var begin := L.BeginStore(thread, key, value);
    L.RunOne(s, begin, [L.EndStore(thread)]);
    L.RunOne(L.Step(s, begin), L.EndStore(thread), []);
    assert s.storing[thread := L.Store(key, value)] - {thread} == s.storing;
  }

  /** A loop pass with nothing between its copy and its merge is MaybeReplayRetainedSnapshot. */
  lemma UninterruptedPass(s: L.State, nowUs: uint64)
    requires RP.InBounds(s.ring) && s.replay.NoReplay?
    ensures L.Run(s, [L.BeginPass(nowUs), L.MergeCopy]).desk
         == LoopPassed(s.desk, ConsumerActive(s.heartbeatUs, nowUs), s.claimedId)
  {
    hide RP.InBounds;
    L.RunOne(s, L.BeginPass(nowUs), [L.MergeCopy]);
    L.RunOne(L.Step(s, L.BeginPass(nowUs)), L.MergeCopy, []);
  }

  // ---------------------------------------------------------------- one entry

  function OnRing(steps: seq<RP.Action>): seq<L.Action>
  {
    if steps == [] then [] else [L.RingStep(steps[0])] + OnRing(steps[1..])
  }

  lemma {:induction false} RunOnRing(s: L.State, steps: seq<RP.Action>)
    requires RP.InBounds(s.ring)
    requires forall i :: 0 <= i < |steps| ==> !steps[i].BeginWrite?
    ensures L.Run(s, OnRing(steps)) == s.(ring := RP.Run(s.ring, steps))
    decreases |steps|
  {
    hide RP.Step, RP.InBounds, L.Run;
    if steps == [] {
      RunNone(s);
    } else {
      var a := L.RingStep(steps[0]);
      RP.StepKeepsBounds(s.ring, steps[0]);
      RunOnRing(L.Step(s, a), steps[1..]);
      L.RunOne(s, a, OnRing(steps[1..]));
    }
  }

  lemma RunNone(s: L.State)
    requires RP.InBounds(s.ring)
    ensures L.Run(s, []) == s
  {
  }

  /** The bytes of a frame and its publication. */
  function FrameSteps(u: Update): seq<RP.Action>
  {
    RP.Repeat(RP.StoreByte, |Frame(u)|) + [RP.PublishWrite]
  }

  lemma {:induction false} RepeatIs(a: RP.Action, n: nat)
    ensures |RP.Repeat(a, n)| == n && forall i :: 0 <= i < n ==> RP.Repeat(a, n)[i] == a
  {
    if n > 0 {
      RepeatIs(a, n - 1);
    }
  }

  predicate HasRoom(r: RP.State, u: Update)
  {
    |Frame(u)| <= |r.payload| - Used(r.consumerReadIndex, r.writeIndex, |r.payload|) - 1
  }

  /** The steps of one frame are WriteUpsert: the update is accepted if it fits and counted if it does not. */
  lemma FrameRun(r: RP.State, u: Update)
    requires RP.InBounds(r) && r.producer.Resting?
    ensures RP.InBounds(RP.Step(r, RP.BeginWrite(u)))
    ensures var r' := RP.Run(RP.Step(r, RP.BeginWrite(u)), FrameSteps(u));
      && r'.producer.Resting?
      && r'.accepted == (if HasRoom(r, u) then r.accepted + [u] else r.accepted)
      && r'.dropped == (if HasRoom(r, u) then r.dropped else r.dropped + 1)
  {
    hide Frame, RP.Run, RP.Repeat, Blit, Around, Used, RP.Step, RP.InBounds;
    RP.StepKeepsBounds(r, RP.BeginWrite(u));
    var begin, bytes := [RP.BeginWrite(u)], RP.Repeat(RP.StoreByte, |Frame(u)|);
    if HasRoom(r, u) {
      RP.UninterruptedWrite(r, u);
    } else {
      RP.RejectedWrite(r, u);
    }
    assert begin + bytes + [RP.PublishWrite] == begin + FrameSteps(u);
    RP.RunConcat(r, begin, FrameSteps(u));
    RP.RunOne(r, RP.BeginWrite(u));
  }

  function EntryUpdate(s: L.State, key: octets, ts: uint64): Update
    requires key in s.flushing
  {
    Update(key, s.flushing[key], Counted(s.publishedSeq + 1), ts)
  }

  lemma EntryRun(s: L.State, key: octets, ts: uint64)
    requires RP.InBounds(s.ring) && s.ring.producer.Resting? && key in s.flushing
    ensures var u := EntryUpdate(s, key, ts);
      var s' := L.Run(s, [L.WriteEntry(key, ts)] + OnRing(FrameSteps(u)));
      && s'.flushing == Without(s.flushing, {key}) && s'.desk == s.desk && s'.ring.producer.Resting?
      && s'.ring.accepted == (if HasRoom(s.ring, u) then s.ring.accepted + [u] else s.ring.accepted)
      && s'.ring.dropped == (if HasRoom(s.ring, u) then s.ring.dropped else s.ring.dropped + 1)
  {
    hide RP.Step, RP.Run, L.Run, RP.InBounds, HasRoom, FrameSteps, Counted;
    var u, a := EntryUpdate(s, key, ts), L.WriteEntry(key, ts);
    FrameRun(s.ring, u);
    L.RunOne(s, a, OnRing(FrameSteps(u)));
    StepsDoNotBegin(u);
    RunOnRing(L.Step(s, a), FrameSteps(u));
  }

  lemma StepsDoNotBegin(u: Update)
    ensures forall i :: 0 <= i < |FrameSteps(u)| ==> !FrameSteps(u)[i].BeginWrite?
  {
    RepeatIs(RP.StoreByte, |Frame(u)|);
  }

  // ---------------------------------------------------------------- a whole flush

  /** Writes the entries named, in that order, each without interruption. */
  function FlushRest(s: L.State, order: seq<octets>, ts: uint64): (s': L.State)
    requires RP.InBounds(s.ring)
    ensures RP.InBounds(s'.ring)
    decreases |order|
  {
    if order == [] || order[0] !in s.flushing then s
    else FlushRest(L.Run(s, [L.WriteEntry(order[0], ts)] + OnRing(FrameSteps(EntryUpdate(s, order[0], ts)))),
      order[1..], ts)
  }

  ghost predicate Lists(order: seq<octets>, keys: set<octets>)
  {
    && (forall i, j :: 0 <= i < j < |order| ==> order[i] != order[j])
    && (forall k :: k in keys <==> k in order)
  }

  lemma {:induction false} FlushRestWrites(s: L.State, order: seq<octets>, ts: uint64, t: Table, lost: set<octets>,
                                           written: seq<Update>)
      returns (lost': set<octets>, written': seq<Update>)
    requires RP.InBounds(s.ring) && s.ring.producer.Resting?
    requires Lists(order, s.flushing.Keys) && s.flushing.Keys <= t.Keys
    requires forall k :: k in s.flushing ==> s.flushing[k] == t[k]
    requires Flushing(t, s.flushing.Keys, lost, written)
    ensures var s' := FlushRest(s, order, ts);
      && s'.flushing == map[] && s'.desk == s.desk && s'.ring.producer.Resting?
      && Flushing(t, {}, lost', written')
      && written <= written' && s'.ring.accepted == s.ring.accepted + written'[|written|..]
      && lost <= lost' && s'.ring.dropped == s.ring.dropped + |lost'| - |lost|
    decreases |order|
  {
    hide L.Run, Flushing, RP.InBounds, FrameSteps, Counted, HasRoom, OnRing;
    if order == [] {
      lost', written' := lost, written;
      assert s.flushing.Keys == {};
      assert s.ring.accepted + [] == s.ring.accepted;
    } else {
      var key := order[0];
      assert key in s.flushing;
      var u := EntryUpdate(s, key, ts);
      EntryRun(s, key, ts);
      var s1 := L.Run(s, [L.WriteEntry(key, ts)] + OnRing(FrameSteps(u)));
      FlushTakes(t, s.flushing.Keys, lost, written, u);
      ListsRest(order, s.flushing, key);
      if HasRoom(s.ring, u) {
        lost', written' := FlushRestWrites(s1, order[1..], ts, t, lost, written + [u]);
        WrittenAfter(s.ring.accepted, written, u, written');
      } else {
        lost', written' := FlushRestWrites(s1, order[1..], ts, t, lost + {key}, written);
      }
    }
  }

  lemma ListsRest(order: seq<octets>, flushing: Table, key: octets)
    requires order != [] && Lists(order, flushing.Keys) && key == order[0]
    ensures Lists(order[1..], Without(flushing, {key}).Keys) && Without(flushing, {key}).Keys == flushing.Keys - {key}
  {
    assert order == [key] + order[1..];
  }

  lemma WrittenAfter(accepted: seq<Update>, written: seq<Update>, u: Update, written': seq<Update>)
    requires written + [u] <= written'
    ensures written <= written'
    ensures accepted + [u] + written'[|written + [u]|..] == accepted + written'[|written|..]
  {
  }

  /** Swapping the pending table out and writing its entries in any order, with nothing in between, is
    * FlushNow: the frames appended carry exactly the pending table without the entries counted as dropped.
    */
  lemma UninterruptedFlush(s: L.State, order: seq<octets>, ts: uint64)
      returns (lost: set<octets>, written: seq<Update>)
    requires RP.InBounds(s.ring) && s.ring.producer.Resting? && s.flushing == map[]
    requires Lists(order, s.desk.pending.Keys)
    ensures var s' := FlushRest(L.Step(s, L.SwapPending), order, ts);
      && s'.flushing == map[] && s'.desk == s.desk.(pending := map[])
      && s'.ring.accepted == s.ring.accepted + written
      && lost <= s.desk.pending.Keys && ValuesOf(written) == Without(s.desk.pending, lost)
      && s'.ring.dropped == s.ring.dropped + |lost|
  {
    hide RP.InBounds, FlushRest, Flushing;
    FlushBegins(s.desk.pending);
    lost, written := FlushRestWrites(L.Step(s, L.SwapPending), order, ts, s.desk.pending, {}, []);
    FlushEnds(s.desk.pending, lost, written);
  }
}
