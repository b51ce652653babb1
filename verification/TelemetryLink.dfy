/** The publisher, the ring and one consumer running together, every access interleaved.
  *
  * Stores come from any number of threads and take two steps each, one per lock; the replay copies the
  * retained table in one step and merges the copy in another. One thread at a time flushes: it swaps the
  * pending table out and writes its entries one by one in any order, each through the byte-level steps of
  * RingProtocol.
  */
module TelemetryLink {
  import opened DirectWire
  import opened DirectRing
  import opened LastWrite
  import opened DirectPublisher
  import RP = RingProtocol

  /** A store that has been retained but is not pending yet. */
  datatype Store = Store(key: octets, value: Value)

  datatype Replay = NoReplay | Copied(copy: Table)

  /** Besides the shared data, with id and heartbeat as the consumer left them: stores half done, by thread; the
    * replay's copy; and the history: keys whose last written value was dropped, the value last put into the
    * pending table per key, and whether a store ever began while another store of its key was half done or a
    * replay held another value for it.
    */
  datatype State = State(ring: RP.State, desk: Desk, storing: map<nat, Store>, replay: Replay, flushing: Table,
                         publishedSeq: uint64, claimedId: uint64, heartbeatUs: uint64,
                         lost: set<octets>, sent: Table, overlapped: bool)

  datatype Action =
    | BeginStore(thread: nat, key: octets, value: Value)
    | EndStore(thread: nat)
    | BeginPass(nowUs: uint64)
    | MergeCopy
    | SwapPending
    | WriteEntry(entry: octets, timestampUs: uint64)
    | Claim(id: uint64)
    | Beat(nowUs: uint64)
    | RingStep(step: RP.Action)

  function Init(capacity: nat): State
  {
    State(RP.Init(capacity), Desk(map[], map[], false, 0), map[], NoReplay, map[], 0, 0, 0, {}, map[], false)
  }

  predicate BeingStored(storing: map<nat, Store>, key: octets)
  {
    exists t :: t in storing && storing[t].key == key
  }

  /** A pass with its clock at nowUs finds a consumer to replay to. */
  predicate FindsNewConsumer(s: State, nowUs: uint64)
  {
    SeesNewConsumer(s.desk, ConsumerActive(s.heartbeatUs, nowUs), s.claimedId)
  }

  predicate Overlaps(s: State, key: octets, value: Value)
  {
    || BeingStored(s.storing, key)
    || (s.replay.Copied? && key in s.replay.copy && s.replay.copy[key] != value)
  }

  function Step(s: State, a: Action): State
    requires RP.InBounds(s.ring)
  {
    match a
    case BeginStore(t, k, v) =>
      if t in s.storing then s
      else
        s.(desk := Retained(s.desk, k, v), storing := s.storing[t := Store(k, v)],
           overlapped := s.overlapped || Overlaps(s, k, v))
    case EndStore(t) =>
      if t in s.storing then
        var Store(k, v) := s.storing[t];
        s.(desk := Pended(s.desk, k, v), storing := s.storing - {t},
           lost := s.lost - {k}, sent := s.sent[k := v])
      else s
    case BeginPass(nowUs) =>
      if s.replay.NoReplay? then
        s.(desk := Noted(s.desk, ConsumerActive(s.heartbeatUs, nowUs), s.claimedId),
           replay := if FindsNewConsumer(s, nowUs) then Copied(s.desk.retained) else NoReplay)
      else s
    case MergeCopy =>
      if s.replay.Copied? then
        s.(desk := s.desk.(pending := s.desk.pending + s.replay.copy), replay := NoReplay,
           lost := s.lost - s.replay.copy.Keys, sent := s.sent + s.replay.copy)
      else s
    case SwapPending =>
      if s.flushing == map[] then s.(flushing := s.desk.pending, desk := s.desk.(pending := map[])) else s
    case WriteEntry(k, ts) =>
      if k in s.flushing && s.ring.producer.Resting? then
        var seqNo := Counted(s.publishedSeq + 1);
        var ring' := RP.Step(s.ring, RP.BeginWrite(Update(k, s.flushing[k], seqNo, ts)));
        s.(ring := ring', publishedSeq := seqNo, flushing := Without(s.flushing, {k}),
           lost := if ring'.producer.Resting? && k !in s.desk.pending then s.lost + {k} else s.lost)
      else s
    case Claim(id) => if s.ring.consumer.Detached? then s else s.(claimedId := id)
    case Beat(nowUs) => s.(heartbeatUs := nowUs)
    case RingStep(step) => if step.BeginWrite? then s else s.(ring := RP.Step(s.ring, step))
  }

  lemma StepKeepsBounds(s: State, a: Action)
    requires RP.InBounds(s.ring)
    ensures RP.InBounds(Step(s, a).ring)
    ensures a.WriteEntry? && a.entry in s.flushing && s.ring.producer.Resting? ==>
      var u := Update(a.entry, s.flushing[a.entry], Counted(s.publishedSeq + 1), a.timestampUs);
      Step(s, a).ring == RP.Step(s.ring, RP.BeginWrite(u))
  {
    hide RP.Step, RP.InBounds, Counted;
    match a
    case WriteEntry(k, ts) =>
      if k in s.flushing && s.ring.producer.Resting? {
        RP.StepKeepsBounds(s.ring, RP.BeginWrite(Update(k, s.flushing[k], Counted(s.publishedSeq + 1), ts)));
      }
    case RingStep(step) => RP.StepKeepsBounds(s.ring, step);
    case _ =>
  }

  function Run(s: State, actions: seq<Action>): (r: State)
    requires RP.InBounds(s.ring)
    ensures RP.InBounds(r.ring)
    decreases |actions|
  {
    if actions == [] then s
    else
      StepKeepsBounds(s, actions[0]);
      Run(Step(s, actions[0]), actions[1..])
  }

  // ---------------------------------------------------------------- what a table of writes shows

  function InWriting(p: RP.Producer): Table
  {
    match p
    case Resting => map[]
    case Storing(u, _) => map[u.key := u.value]
  }

  /** Fold the frames published from index b on, then override with what is still on its way. */
  ghost function Shown(s: State, b: nat): Table
    requires b <= |s.ring.accepted|
  {
    ValuesOf(s.ring.accepted[b..]) + InWriting(s.ring.producer) + s.flushing + s.desk.pending
  }

  ghost function RingKeys(r: RP.State): set<octets>
  {
    ValuesOf(r.accepted).Keys + InWriting(r.producer).Keys
  }

  /** Every key on its way was sent, and every key sent or half stored is retained. */
  ghost predicate KnownKeys(s: State)
  {
    && RingKeys(s.ring) <= s.sent.Keys
    && s.flushing.Keys <= s.sent.Keys
    && s.desk.pending.Keys <= s.sent.Keys
    && s.lost <= s.sent.Keys
    && s.sent.Keys <= s.desk.retained.Keys
    && (forall t :: t in s.storing ==> s.storing[t].key in s.desk.retained)
    && (forall k :: k in s.desk.retained && k !in s.sent ==> BeingStored(s.storing, k))
    && (s.replay.Copied? ==> s.replay.copy.Keys <= s.desk.retained.Keys)
  }

  /** From index b on, every value sent is published or on its way, unless it was dropped or its key is one
    * of the missing ones.
    */
  ghost predicate Covers(s: State, b: nat, missing: set<octets>)
  {
    && b <= |s.ring.accepted|
    && forall k :: k in s.sent && k !in s.lost && k !in missing ==> k in Shown(s, b) && Shown(s, b)[k] == s.sent[k]
  }

  /** Stores half done are of different keys and hold the values retained. */
  ghost predicate Separate(storing: map<nat, Store>, retained: Table)
  {
    && (forall t, u :: t in storing && u in storing && storing[t].key == storing[u].key ==> t == u)
    && (forall t :: t in storing ==> storing[t].key in retained && retained[storing[t].key] == storing[t].value)
  }

  /** But for stores half done, what was last sent is what is retained. */
  ghost predicate UpToDate(storing: map<nat, Store>, retained: Table, sent: Table)
  {
    forall k :: k in retained && !BeingStored(storing, k) ==> k in sent && sent[k] == retained[k]
  }

  ghost predicate CopyCurrent(replay: Replay, retained: Table)
  {
    replay.Copied? ==> forall k :: k in replay.copy ==> k in retained && retained[k] == replay.copy[k]
  }

  ghost predicate Orderly(s: State)
  {
    && Separate(s.storing, s.desk.retained)
    && UpToDate(s.storing, s.desk.retained, s.sent)
    && CopyCurrent(s.replay, s.desk.retained)
  }

  ghost predicate Inv(s: State)
  {
    RP.Inv(s.ring) && KnownKeys(s) && (!s.overlapped ==> Orderly(s))
  }

  // ---------------------------------------------------------------- one step

  lemma RingEffect(r: RP.State, a: RP.Action)
    requires RP.InBounds(r)
    ensures var r' := RP.Step(r, a);
      && (!a.PublishWrite? ==> r'.accepted == r.accepted)
      && (!a.BeginWrite? && !a.PublishWrite? ==> InWriting(r'.producer) == InWriting(r.producer))
      && (a.BeginWrite? && r.producer.Resting? ==>
           InWriting(r'.producer) == if r'.producer.Resting? then map[] else map[a.u.key := a.u.value])
      && (a.PublishWrite? ==>
           || (r'.accepted == r.accepted && r'.producer == r.producer)
           || (r.producer.Storing? && r'.accepted == r.accepted + [r.producer.u] && r'.producer.Resting?))
      && r.dropped <= r'.dropped
      && (a.BeginWrite? && r.producer.Resting? && r'.dropped == r.dropped ==> r'.producer.Storing?)
  {
    hide Frame, DecodeHeader, DecodeBody, Around, Advance, Used, RP.Wanted;
  }

  lemma PublishKeepsShown(accepted: seq<Update>, b: nat, u: Update)
    requires b <= |accepted|
    ensures ValuesOf((accepted + [u])[b..]) == ValuesOf(accepted[b..]) + map[u.key := u.value]
  {
    assert (accepted + [u])[b..] == accepted[b..] + [u];
    LatestSnoc(KeyOf, ValueOf, accepted[b..], u);
  }

  lemma RingStepShows(s: State, step: RP.Action, b: nat)
    requires RP.InBounds(s.ring) && b <= |s.ring.accepted| && !step.BeginWrite?
    ensures var s' := Step(s, RingStep(step));
      b <= |s'.ring.accepted| && Shown(s', b) == Shown(s, b)
  {
    hide RP.Step, RP.InBounds, ValuesOf;
    RingEffect(s.ring, step);
    if step.PublishWrite? && s.ring.producer.Storing? {
      PublishKeepsShown(s.ring.accepted, b, s.ring.producer.u);
    }
  }

  lemma RingStepKeys(r: RP.State, step: RP.Action)
    requires RP.InBounds(r) && !step.BeginWrite?
    ensures RingKeys(RP.Step(r, step)) <= RingKeys(r)
  {
    hide RP.Step, RP.InBounds, ValuesOf;
    RingEffect(r, step);
    if step.PublishWrite? && r.producer.Storing? {
      PublishKeepsShown(r.accepted, 0, r.producer.u);
      assert r.accepted[0..] == r.accepted;
      assert (r.accepted + [r.producer.u])[0..] == r.accepted + [r.producer.u];
    }
  }

  lemma WriteEntryShows(s: State, k: octets, ts: uint64, b: nat, missing: set<octets>)
    requires Inv(s) && Covers(s, b, missing)
    ensures Covers(Step(s, WriteEntry(k, ts)), b, missing)
  {
    hide RP.Step, RP.Inv, ValuesOf, Counted, KnownKeys, Orderly;
    RP.InvInBounds(s.ring);
    if k in s.flushing && s.ring.producer.Resting? {
      RingEffect(s.ring, RP.BeginWrite(Update(k, s.flushing[k], Counted(s.publishedSeq + 1), ts)));
      var s' := Step(s, WriteEntry(k, ts));
      forall j | j in s'.sent && j !in s'.lost && j !in missing
        ensures j in Shown(s', b) && Shown(s', b)[j] == s'.sent[j]
      {
      }
    }
  }

  lemma StepKeepsRingInv(s: State, a: Action)
    requires RP.Inv(s.ring)
    ensures RP.Inv(Step(s, a).ring)
  {
    hide RP.Step, RP.Inv, Counted;
    RP.InvInBounds(s.ring);
    match a
    case WriteEntry(k, ts) =>
      if k in s.flushing && s.ring.producer.Resting? {
        RP.StepInv(s.ring, RP.BeginWrite(Update(k, s.flushing[k], Counted(s.publishedSeq + 1), ts)));
      }
    case RingStep(step) => RP.StepInv(s.ring, step);
    case _ =>
  }

  lemma StepKnowsKeys(s: State, a: Action)
    requires RP.InBounds(s.ring) && KnownKeys(s)
    ensures KnownKeys(Step(s, a))
  {
    hide RP.Step, RP.InBounds, RingKeys, Counted, BeingStored;
    match a
    case BeginStore(t, k, v) =>
      if t !in s.storing {
        MoreStored(s.storing, t, Store(k, v));
      }
    case EndStore(t) => LessStored(s.storing, t);
    case WriteEntry(k, ts) =>
      if k in s.flushing && s.ring.producer.Resting? {
        WriteEntryKeys(s, Update(k, s.flushing[k], Counted(s.publishedSeq + 1), ts));
      }
    case RingStep(step) =>
      if !step.BeginWrite? {
        RingStepKeys(s.ring, step);
      }
    case _ =>
  }

  lemma WriteEntryKeys(s: State, u: Update)
    requires RP.InBounds(s.ring) && s.ring.producer.Resting?
    ensures RingKeys(RP.Step(s.ring, RP.BeginWrite(u))) <= RingKeys(s.ring) + {u.key}
  {
    hide RP.Step, RP.InBounds, ValuesOf;
    RingEffect(s.ring, RP.BeginWrite(u));
  }

  lemma MoreStored(storing: map<nat, Store>, t: nat, st: Store)
    requires t !in storing
    ensures forall k :: BeingStored(storing[t := st], k) <==> k == st.key || BeingStored(storing, k)
  {
    var storing' := storing[t := st];
    forall k
      ensures BeingStored(storing', k) <==> k == st.key || BeingStored(storing, k)
    {
      assert t in storing' && storing'[t].key == st.key;
      assert forall u :: u in storing ==> u in storing' && storing'[u] == storing[u];
    }
  }

  lemma LessStored(storing: map<nat, Store>, t: nat)
    ensures forall k :: BeingStored(storing, k) ==>
      (t in storing && k == storing[t].key) || BeingStored(storing - {t}, k)
    ensures forall k :: BeingStored(storing - {t}, k) ==> BeingStored(storing, k)
  {
    forall k | BeingStored(storing, k)
      ensures (t in storing && k == storing[t].key) || BeingStored(storing - {t}, k)
    {
      var u :| u in storing && storing[u].key == k;
      assert u != t ==> u in storing - {t};
    }
  }

  lemma LastStored(storing: map<nat, Store>, retained: Table, t: nat)
    requires Separate(storing, retained) && t in storing
    ensures !BeingStored(storing - {t}, storing[t].key) && Separate(storing - {t}, retained)
  {
  }

  /** A store that overlaps neither another store of its key nor a replay of another value keeps order. */
  lemma StepKeepsOrder(s: State, a: Action)
    requires RP.InBounds(s.ring) && (!s.overlapped ==> Orderly(s))
    ensures !Step(s, a).overlapped ==> Orderly(Step(s, a))
  {
    hide RP.Step, RP.InBounds, Counted, Separate, BeingStored;
    if !Step(s, a).overlapped {
      match a
      case BeginStore(t, k, v) =>
        if t !in s.storing {
          MoreStored(s.storing, t, Store(k, v));
          SeparateStore(s.storing, s.desk.retained, t, Store(k, v));
        }
      case EndStore(t) =>
        if t in s.storing {
          LessStored(s.storing, t);
          LastStored(s.storing, s.desk.retained, t);
          HoldsRetained(s.storing, s.desk.retained, t);
        }
      case _ =>
    }
  }

  lemma SeparateStore(storing: map<nat, Store>, retained: Table, t: nat, st: Store)
    requires Separate(storing, retained) && t !in storing && !BeingStored(storing, st.key)
    ensures Separate(storing[t := st], retained[st.key := st.value])
  {
  }

  lemma HoldsRetained(storing: map<nat, Store>, retained: Table, t: nat)
    requires Separate(storing, retained) && t in storing
    ensures storing[t].key in retained && retained[storing[t].key] == storing[t].value
  {
  }

  lemma StepInv(s: State, a: Action)
    requires Inv(s)
    ensures Inv(Step(s, a))
  {
    hide RP.Inv, Step, KnownKeys, Orderly;
    RP.InvInBounds(s.ring);
    StepKeepsRingInv(s, a);
    StepKnowsKeys(s, a);
    StepKeepsOrder(s, a);
  }

  /** Only keys that a replay under way will put back may be missing. */
  predicate Returning(s: State, missing: set<octets>)
  {
    missing == {} || (s.replay.Copied? && missing <= s.replay.copy.Keys)
  }

  function MissingAfter(s: State, a: Action, missing: set<octets>): set<octets>
  {
    if a.MergeCopy? && s.replay.Copied? then {} else missing
  }

  /** No step loses coverage: half a store, a swap, a write, a byte, an index, half a replay. */
  lemma StepCovers(s: State, a: Action, b: nat, missing: set<octets>)
    requires Inv(s) && Covers(s, b, missing) && Returning(s, missing)
    ensures Covers(Step(s, a), b, MissingAfter(s, a, missing)) && Returning(Step(s, a), MissingAfter(s, a, missing))
  {
    hide RP.Step, RP.Inv, ValuesOf, KnownKeys, Orderly, RP.InBounds;
    RP.InvInBounds(s.ring);
    match a
    case WriteEntry(k, ts) =>
      WriteEntryShows(s, k, ts, b, missing);
      RingStepKeepsReplay(s, a);
    case RingStep(step) =>
      if !step.BeginWrite? {
        RingStepShows(s, step, b);
      }
    case MergeCopy => MergeCovers(s, b, missing);
    case _ => DeskCovers(s, a, b, missing);
  }

  lemma DeskCovers(s: State, a: Action, b: nat, missing: set<octets>)
    requires RP.InBounds(s.ring) && Covers(s, b, missing) && Returning(s, missing)
    requires !a.WriteEntry? && !a.RingStep? && !a.MergeCopy?
    ensures Covers(Step(s, a), b, MissingAfter(s, a, missing)) && Returning(Step(s, a), MissingAfter(s, a, missing))
  {
    hide RP.Step, RP.InBounds, ValuesOf, ConsumerActive, SeesNewConsumer, BeingStored;
  }

  lemma RingStepKeepsReplay(s: State, a: Action)
    requires RP.InBounds(s.ring) && (a.WriteEntry? || a.RingStep?)
    ensures Step(s, a).replay == s.replay
  {
    hide RP.Step, RP.InBounds, Counted;
  }

  lemma MergeCovers(s: State, b: nat, missing: set<octets>)
    requires RP.InBounds(s.ring) && Covers(s, b, missing) && Returning(s, missing)
    ensures Covers(Step(s, MergeCopy), b, {}) || (s.replay.NoReplay? && missing == {})
    ensures s.replay.NoReplay? ==> Step(s, MergeCopy) == s
  {
    hide RP.Step, RP.InBounds, ValuesOf;
  }

  /** A pass that sees a new consumer will put every retained value on its way from this moment on. */
  lemma PassCovers(s: State, nowUs: uint64, b: nat)
    requires Inv(s) && b <= |s.ring.accepted|
    requires s.replay.NoReplay? && FindsNewConsumer(s, nowUs)
    ensures var s' := Step(s, BeginPass(nowUs));
      var missing := s.desk.retained.Keys;
      Covers(s', b, missing) && Returning(s', missing) && s'.lost <= missing
  {
    hide RP.Inv, ValuesOf, Orderly;
  }

  // ---------------------------------------------------------------- every run

  lemma InitInv(capacity: nat)
    requires capacity > 0
    ensures Inv(Init(capacity)) && Covers(Init(capacity), 0, {})
  {
    RP.InitInv(capacity);
  }

  lemma {:induction false} RunInv(s: State, actions: seq<Action>)
    requires Inv(s)
    ensures Inv(Run(s, actions))
    decreases |actions|
  {
    hide Step, RP.Inv, KnownKeys, Orderly;
    RP.InvInBounds(s.ring);
    if actions != [] {
      StepInv(s, actions[0]);
      RunInv(Step(s, actions[0]), actions[1..]);
    }
  }

  lemma {:induction false} RunCovers(s: State, actions: seq<Action>, b: nat, missing: set<octets>)
    requires Inv(s) && Covers(s, b, missing) && Returning(s, missing)
    ensures missing == {} || Run(s, actions).replay.NoReplay? ==> Covers(Run(s, actions), b, {})
    decreases |actions|
  {
    hide Step, RP.Inv, Covers, KnownKeys, Orderly;
    RP.InvInBounds(s.ring);
    if actions != [] {
      StepInv(s, actions[0]);
      StepCovers(s, actions[0], b, missing);
      RunCovers(Step(s, actions[0]), actions[1..], b, MissingAfter(s, actions[0], missing));
    }
  }

  /** A value is lost only in a step that counts a drop. */
  lemma LossIsCounted(s: State, a: Action)
    requires RP.InBounds(s.ring)
    ensures s.ring.dropped <= Step(s, a).ring.dropped
    ensures Step(s, a).ring.dropped == s.ring.dropped ==> Step(s, a).lost <= s.lost
  {
    hide RP.Step, RP.InBounds, Counted;
    match a
    case WriteEntry(k, ts) =>
      if k in s.flushing && s.ring.producer.Resting? {
        RingEffect(s.ring, RP.BeginWrite(Update(k, s.flushing[k], Counted(s.publishedSeq + 1), ts)));
      }
    case RingStep(step) => RingEffect(s.ring, step);
    case _ =>
  }

  lemma {:induction false} RunLossIsCounted(s: State, actions: seq<Action>, missing: set<octets>)
    requires RP.InBounds(s.ring)
    requires s.lost <= missing && Returning(s, missing)
    ensures s.ring.dropped <= Run(s, actions).ring.dropped
    ensures Run(s, actions).ring.dropped == s.ring.dropped && (missing == {} || Run(s, actions).replay.NoReplay?) ==>
      Run(s, actions).lost == {}
    decreases |actions|
  {
    hide RP.Step, RP.InBounds, Counted;
    if actions != [] {
      var s', missing' := Step(s, actions[0]), MissingAfter(s, actions[0], missing);
      StepKeepsBounds(s, actions[0]);
      LossIsCounted(s, actions[0]);
      ReturningStays(s, actions[0], missing);
      if s'.ring.dropped == s.ring.dropped {
        RunLossIsCounted(s', actions[1..], missing');
      } else {
        DropsStay(s', actions[1..]);
      }
    }
  }

  lemma ReturningStays(s: State, a: Action, missing: set<octets>)
    requires RP.InBounds(s.ring) && Returning(s, missing) && s.lost <= missing
    ensures Returning(Step(s, a), MissingAfter(s, a, missing))
    ensures Step(s, a).ring.dropped == s.ring.dropped ==> Step(s, a).lost <= MissingAfter(s, a, missing)
  {
    hide RP.Step, RP.InBounds, Counted;
    LossIsCounted(s, a);
  }

  lemma {:induction false} DropsStay(s: State, actions: seq<Action>)
    requires RP.InBounds(s.ring)
    ensures s.ring.dropped <= Run(s, actions).ring.dropped
    decreases |actions|
  {
    hide Step, RP.InBounds;
    if actions != [] {
      StepKeepsBounds(s, actions[0]);
      LossIsCounted(s, actions[0]);
      DropsStay(Step(s, actions[0]), actions[1..]);
    }
  }

  lemma {:induction false} RunKeepsConsumer(s: State, actions: seq<Action>)
    requires RP.InBounds(s.ring) && !s.ring.consumer.Detached?
    requires RingStep(RP.Detach) !in actions
    ensures !Run(s, actions).ring.consumer.Detached? && Run(s, actions).ring.base == s.ring.base
    decreases |actions|
  {
    hide Step, RP.InBounds;
    if actions != [] {
      StepKeepsBounds(s, actions[0]);
      StepKeepsConsumer(s, actions[0]);
      RunKeepsConsumer(Step(s, actions[0]), actions[1..]);
    }
  }

  lemma StepKeepsConsumer(s: State, a: Action)
    requires RP.InBounds(s.ring) && !s.ring.consumer.Detached? && a != RingStep(RP.Detach)
    ensures !Step(s, a).ring.consumer.Detached? && Step(s, a).ring.base == s.ring.base
  {
    hide RP.Step, RP.InBounds, Counted;
    match a
    case WriteEntry(k, ts) =>
      if k in s.flushing && s.ring.producer.Resting? {
        ConsumerStays(s.ring, RP.BeginWrite(Update(k, s.flushing[k], Counted(s.publishedSeq + 1), ts)));
      }
    case RingStep(step) => ConsumerStays(s.ring, step);
    case _ =>
  }

  lemma ConsumerStays(r: RP.State, a: RP.Action)
    requires RP.InBounds(r) && !r.consumer.Detached? && !a.Detach?
    ensures !RP.Step(r, a).consumer.Detached? && RP.Step(r, a).base == r.base
  {
    hide Frame, DecodeHeader, DecodeBody, Around, Advance, Used, RP.Wanted;
  }

  lemma TailKeys(us: seq<Update>, b: nat)
    requires b <= |us|
    ensures ValuesOf(us[b..]).Keys <= ValuesOf(us).Keys
  {
    assert us == us[..b] + us[b..];
    LatestConcat(KeyOf, ValueOf, us[..b], us[b..]);
  }

  // ---------------------------------------------------------------- clipped tables

  /** Keys that a reader cannot tell apart have values that it cannot tell apart either. */
  ghost predicate ClipsAgree(r: Table)
  {
    Alike(ClipKey, ClipValue, r)
  }

  /** t shows r as a reader can at best see it: every key and value clipped, and nothing else. */
  ghost predicate ShowsClipped(t: Table, r: Table)
  {
    Seen(ClipKey, ClipValue, t, r)
  }

  lemma {:induction false} ClipAllAt(us: seq<Update>)
    ensures |RP.ClipAll(us)| == |us|
    ensures forall i :: 0 <= i < |us| ==> RP.ClipAll(us)[i] == Clip(us[i])
  {
    hide Clip;
    if us != [] {
      ClipAllAt(us[..|us| - 1]);
    }
  }

  /** Folding what the reader decodes shows the table that was written exactly when keys with the same
    * first 128 bytes have the same clipped value.
    */
  lemma ClippedLogShowsExactly(us: seq<Update>)
    ensures ShowsClipped(ValuesOf(RP.ClipAll(us)), ValuesOf(us)) <==> ClipsAgree(ValuesOf(us))
  {
    hide ClipValue, ClipKey, RP.ClipAll, Seen, Alike;
    ClipAllAt(us);
    LatestSeenExactly(KeyOf, ValueOf, us, KeyOf, ValueOf, RP.ClipAll(us), ClipKey, ClipValue);
  }

  /** Two keys with the same first 128 bytes collapse into one: only the later write shows. */
  lemma LongKeysCollide(a: Update, b: Update)
    requires a.key != b.key && ClipKey(a.key) == ClipKey(b.key)
    ensures ValuesOf(RP.ClipAll([a, b])) == map[ClipKey(b.key) := ClipValue(b.value)]
    ensures |ValuesOf([a, b])| == 2
  {
    hide ClipKey, ClipValue;
    assert [a, b] == [] + [a] + [b];
    LatestSnoc(KeyOf, ValueOf, [], a);
    LatestSnoc(KeyOf, ValueOf, [] + [a], b);
    assert RP.ClipAll([a]) == [Clip(a)] by {
      assert [a][..0] == [];
    }
    assert RP.ClipAll([a, b]) == [] + [Clip(a)] + [Clip(b)] by {
      assert [a, b][..1] == [a];
    }
    LatestSnoc(KeyOf, ValueOf, [], Clip(a));
    LatestSnoc(KeyOf, ValueOf, [] + [Clip(a)], Clip(b));
    assert ValuesOf([a, b]).Keys == {a.key, b.key};
  }

  // ---------------------------------------------------------------- main results

  /** In every run without drops, folding all published frames and overriding with what is being written,
    * flushed and pending gives exactly the value last sent per key; and if stores of one key never overlap
    * and none is half done, that is the retained table.
    */
  lemma PublishedAndPendingIsRetained(capacity: nat, actions: seq<Action>)
    requires capacity > 0
    requires Run(Init(capacity), actions).ring.dropped == 0
    ensures var s := Run(Init(capacity), actions);
      && Shown(s, 0) == s.sent
      && (!s.overlapped && s.storing == map[] ==> Shown(s, 0) == s.desk.retained)
  {
    hide Run, RP.Inv, ValuesOf, KnownKeys, Covers, Shown, Orderly;
    var s := Run(Init(capacity), actions);
    InitInv(capacity);
    RunInv(Init(capacity), actions);
    RunCovers(Init(capacity), actions, 0, {});
    RunLossIsCounted(Init(capacity), actions, {});
    ShownIsSent(s);
    if !s.overlapped && s.storing == map[] {
      OrderlySent(s);
    }
  }

  lemma ShownIsSent(s: State)
    requires KnownKeys(s) && Covers(s, 0, {}) && s.lost == {}
    ensures Shown(s, 0) == s.sent
  {
    hide ValuesOf;
    assert s.ring.accepted[0..] == s.ring.accepted;
  }

  lemma OrderlySent(s: State)
    requires Inv(s) && !s.overlapped && s.storing == map[]
    ensures s.sent == s.desk.retained
  {
    hide RP.Inv;
  }

  /** Two overlapping stores of one key can leave one value retained and the other one sent for good. */
  lemma OverlappingStoresDiverge(capacity: nat, key: octets, a: Value, b: Value)
    requires capacity > 0 && a != b
    ensures var s := Run(Init(capacity), [BeginStore(0, key, a), BeginStore(1, key, b), EndStore(1), EndStore(0)]);
      && s.storing == map[] && s.ring.dropped == 0
      && s.desk.retained == map[key := b] && s.sent == map[key := a] && Shown(s, 0) == map[key := a]
  {
    var s1 := Step(Init(capacity), BeginStore(0, key, a));
    var s2 := Step(s1, BeginStore(1, key, b));
    var s3 := Step(s2, EndStore(1));
    var s4 := Step(s3, EndStore(0));
    RunFour(Init(capacity), BeginStore(0, key, a), BeginStore(1, key, b), EndStore(1), EndStore(0));
    assert s3.storing == map[0 := Store(key, a)];
    assert s4.storing == map[];
    assert s4.ring.accepted[0..] == [];
  }

  lemma RunFour(s: State, a: Action, b: Action, c: Action, d: Action)
    requires RP.InBounds(s.ring)
    requires a.BeginStore? && b.BeginStore? && c.EndStore? && d.EndStore?
    ensures Run(s, [a, b, c, d]) == Step(Step(Step(Step(s, a), b), c), d)
  {
    hide RP.Step, RP.InBounds;
    var s1 := Step(s, a);
    var s2 := Step(s1, b);
    var s3 := Step(s2, c);
    RunOne(s, a, [b, c, d]);
    RunOne(s1, b, [c, d]);
    RunOne(s2, c, [d]);
    RunOne(s3, d, []);
  }

  lemma RunOne(s: State, a: Action, rest: seq<Action>)
    requires RP.InBounds(s.ring)
    ensures RP.InBounds(Step(s, a).ring) && Run(s, [a] + rest) == Run(Step(s, a), rest)
  {
    hide Step, RP.InBounds;
    StepKeepsBounds(s, a);
    assert ([a] + rest)[1..] == rest;
  }

  /** No store, replay, flush or write is under way and nothing is unread. */
  predicate Quiet(s: State)
  {
    && s.storing == map[] && s.replay.NoReplay?
    && s.desk.pending == map[] && s.flushing == map[] && s.ring.producer.Resting?
    && s.ring.readCursor == s.ring.writeIndex
  }

  /** The state after a pass of the publisher's loop and the actions that follow it. */
  function FromPass(s0: State, nowUs: uint64, rest: seq<Action>): State
    requires RP.InBounds(s0.ring)
  {
    StepKeepsBounds(s0, BeginPass(nowUs));
    Run(Step(s0, BeginPass(nowUs)), rest)
  }

  /** A pass finds a consumer to serve and later the system comes to rest without a drop. */
  ghost predicate Served(s0: State, nowUs: uint64, rest: seq<Action>)
    requires RP.InBounds(s0.ring)
  {
    && !s0.ring.consumer.Detached? && s0.replay.NoReplay? && FindsNewConsumer(s0, nowUs)
    && RestsWithoutDrop(s0, nowUs, rest)
  }

  ghost predicate RestsWithoutDrop(s0: State, nowUs: uint64, rest: seq<Action>)
    requires RP.InBounds(s0.ring)
  {
    && RingStep(RP.Detach) !in rest
    && var s := FromPass(s0, nowUs, rest);
       s.ring.dropped == s0.ring.dropped && Quiet(s)
  }

  /** Then the consumer has received, clipped, updates that fold to the value last sent per key, and has
    * exactly the retained keys; if stores of one key never overlapped, the values are the retained ones.
    */
  lemma ServedReceivesSent(s0: State, nowUs: uint64, rest: seq<Action>)
    requires Inv(s0) && RP.InBounds(s0.ring) && Served(s0, nowUs, rest)
    ensures var s := FromPass(s0, nowUs, rest);
      && s.ring.base <= |s.ring.accepted|
      && s.ring.delivered == RP.ClipAll(s.ring.accepted[s.ring.base..])
      && ValuesOf(s.ring.accepted[s.ring.base..]) == s.sent
      && s.sent.Keys == s.desk.retained.Keys
      && (!s.overlapped ==> s.sent == s.desk.retained)
  {
    hide Run, RP.Inv, ValuesOf, RP.ClipAll, Orderly;
    var pass := BeginPass(nowUs);
    StepKeepsBounds(s0, pass);
    var s1 := Step(s0, pass);
    var base := s0.ring.base;
    ConsumerBase(s0.ring);
    PassCovers(s0, nowUs, base);
    StepInv(s0, pass);
    RunInv(s1, rest);
    RunCovers(s1, rest, base, s0.desk.retained.Keys);
    RunLossIsCounted(s1, rest, s0.desk.retained.Keys);
    RunKeepsConsumer(s1, rest);
    var s := Run(s1, rest);
    DrainedReceivesAll(s.ring);
    TailKeys(s.ring.accepted, base);
    RetainedIsSent(s);
    if !s.overlapped {
      OrderlySent(s);
    }
  }

  lemma RetainedIsSent(s: State)
    requires Inv(s) && s.storing == map[]
    ensures s.sent.Keys == s.desk.retained.Keys
  {
    hide RP.Inv, Orderly;
    forall k | k in s.desk.retained
      ensures k in s.sent
    {
      assert !BeingStored(s.storing, k);
    }
  }

  /** A consumer found by a pass ends up with what was last sent, clipped, exactly when keys it cannot tell
    * apart were sent with the same value. Then it shows the retained table exactly when every key was last
    * sent with its retained value, up to clipping; this is so if stores of one key never overlap each other
    * or a replay.
    */
  lemma LateJoinerIsComplete(capacity: nat, before: seq<Action>, nowUs: uint64, rest: seq<Action>)
    requires capacity > 0 && Served(Run(Init(capacity), before), nowUs, rest)
    ensures var s0 := Run(Init(capacity), before);
      var s := FromPass(s0, nowUs, rest);
      && (ShowsClipped(ValuesOf(s.ring.delivered), s.sent) <==> ClipsAgree(s.sent))
      && s.sent.Keys == s.desk.retained.Keys
      && (ClipsAgree(s.sent) ==>
           (ShowsClipped(ValuesOf(s.ring.delivered), s.desk.retained)
            <==> forall k :: k in s.desk.retained ==> ClipValue(s.sent[k]) == ClipValue(s.desk.retained[k])))
      && (!s.overlapped ==>
           (ShowsClipped(ValuesOf(s.ring.delivered), s.desk.retained) <==> ClipsAgree(s.desk.retained)))
  {
    hide Run, Inv, Served, FromPass, ValuesOf, RP.ClipAll, ShowsClipped, ClipsAgree, ClipValue;
    InitInv(capacity);
    RunInv(Init(capacity), before);
    var s0 := Run(Init(capacity), before);
    ServedReceivesSent(s0, nowUs, rest);
    var s := FromPass(s0, nowUs, rest);
    ClippedLogShowsExactly(s.ring.accepted[s.ring.base..]);
    if ClipsAgree(s.sent) {
      SameShownExactly(ValuesOf(s.ring.delivered), s.sent, s.desk.retained);
    }
  }

  lemma SameShownExactly(t: Table, sent: Table, retained: Table)
    requires ShowsClipped(t, sent) && sent.Keys == retained.Keys
    ensures ShowsClipped(t, retained) <==> forall k :: k in retained ==> ClipValue(sent[k]) == ClipValue(retained[k])
  {
    hide ClipKey, ClipValue;
    if ShowsClipped(t, retained) {
      forall k | k in retained
        ensures ClipValue(sent[k]) == ClipValue(retained[k])
      {
        assert t[ClipKey(k)] == ClipValue(sent[k]);
      }
    }
  }

  /** Before its first pass the publisher counts no consumer as active, so the first pass that finds the heartbeat
    * fresh replays, whatever the id in the header.
    */
  lemma FirstPassServes(capacity: nat, before: seq<Action>, nowUs: uint64)
    requires capacity > 0 && forall i :: 0 <= i < |before| ==> !before[i].BeginPass?
    requires var s := Run(Init(capacity), before); 0 < s.heartbeatUs <= nowUs <= s.heartbeatUs + 500000
    ensures FindsNewConsumer(Run(Init(capacity), before), nowUs)
  {
    hide Run;
    NotActiveWithoutPass(Init(capacity), before);
  }

  lemma {:induction false} NotActiveWithoutPass(s: State, actions: seq<Action>)
    requires RP.InBounds(s.ring) && forall i :: 0 <= i < |actions| ==> !actions[i].BeginPass?
    ensures Run(s, actions).desk.consumerWasActive == s.desk.consumerWasActive
    decreases |actions|
  {
    hide RP.Step, RP.InBounds, Counted;
    if actions != [] {
      StepKeepsBounds(s, actions[0]);
      NotActiveWithoutPass(Step(s, actions[0]), actions[1..]);
    }
  }

  /** While no consumer has stored a heartbeat no pass finds one to replay to, at whatever clock. */
  lemma NobodyIsServedBeforeABeat(capacity: nat, before: seq<Action>, nowUs: uint64)
    requires capacity > 0 && forall i :: 0 <= i < |before| ==> !before[i].Beat?
    ensures !FindsNewConsumer(Run(Init(capacity), before), nowUs)
    ensures Run(Init(capacity), before).replay == NoReplay
  {
    hide Run;
    NoReplayWithoutBeat(Init(capacity), before);
  }

  lemma {:induction false} NoReplayWithoutBeat(s: State, actions: seq<Action>)
    requires RP.InBounds(s.ring) && forall i :: 0 <= i < |actions| ==> !actions[i].Beat?
    requires s.heartbeatUs == 0 && s.replay.NoReplay?
    ensures Run(s, actions).heartbeatUs == 0 && Run(s, actions).replay.NoReplay?
    decreases |actions|
  {
    hide RP.Step, RP.InBounds, Counted;
    if actions != [] {
      StepKeepsBounds(s, actions[0]);
      NoReplayWithoutBeat(Step(s, actions[0]), actions[1..]);
    }
  }

  /** When the consumer's heartbeat was last stored, if it was at heartbeatUs before the actions. */
  function LastBeat(heartbeatUs: uint64, actions: seq<Action>): uint64
    decreases |actions|
  {
    if actions == [] then heartbeatUs
    else LastBeat(if actions[0].Beat? then actions[0].nowUs else heartbeatUs, actions[1..])
  }

  /** Nothing in the list ends the wait for the first pass within half a second of the heartbeat of the consumer
    * with this id.
    */
  predicate Waiting(wait: seq<Action>, heartbeatUs: uint64, id: uint64)
    decreases |wait|
  {
    wait == [] ||
    match wait[0]
    case BeginPass(nowUs) => !(0 < heartbeatUs <= nowUs <= heartbeatUs + 500000) && Waiting(wait[1..], heartbeatUs, id)
    case Beat(nowUs) => Waiting(wait[1..], nowUs, id)
    case Claim(claimed) => claimed == id && Waiting(wait[1..], heartbeatUs, id)
    case RingStep(step) => !step.Detach? && Waiting(wait[1..], heartbeatUs, id)
    case _ => Waiting(wait[1..], heartbeatUs, id)
  }

  /** The publisher has not yet served the id in the header: the next pass that finds it active replays. */
  lemma {:induction false} FreshClaimIsSeen(s: State, wait: seq<Action>)
    requires RP.InBounds(s.ring) && !s.ring.consumer.Detached?
    requires SeesNewConsumer(s.desk, true, s.claimedId)
    requires Waiting(wait, s.heartbeatUs, s.claimedId)
    ensures var s' := Run(s, wait);
      && !s'.ring.consumer.Detached? && s'.claimedId == s.claimedId && SeesNewConsumer(s'.desk, true, s'.claimedId)
      && s'.heartbeatUs == LastBeat(s.heartbeatUs, wait)
    decreases |wait|
  {
    hide Step, RP.InBounds, SeesNewConsumer;
    if wait != [] {
      StepKeepsBounds(s, wait[0]);
      StaysFresh(s, wait[0]);
      FreshClaimIsSeen(Step(s, wait[0]), wait[1..]);
    }
  }

  lemma StaysFresh(s: State, a: Action)
    requires RP.InBounds(s.ring) && !s.ring.consumer.Detached? && SeesNewConsumer(s.desk, true, s.claimedId)
    requires a.BeginPass? ==> !(0 < s.heartbeatUs <= a.nowUs <= s.heartbeatUs + 500000)
    requires a != RingStep(RP.Detach) && (a.Claim? ==> a.id == s.claimedId)
    ensures var s' := Step(s, a);
      && !s'.ring.consumer.Detached? && s'.claimedId == s.claimedId && SeesNewConsumer(s'.desk, true, s'.claimedId)
      && s'.heartbeatUs == if a.Beat? then a.nowUs else s.heartbeatUs
  {
    hide RP.Step, RP.InBounds, Counted;
    StepKeepsConsumer(s, a);
  }

  /** A consumer that claims the ring with an id the publisher has not seen is served by the first pass whose
    * clock is at most half a second past the heartbeat that the consumer stored last, whatever happens in
    * between; so it ends up complete without any further assumption on what the publisher remembers.
    */
  lemma FreshJoinerIsComplete(capacity: nat, before: seq<Action>, id: uint64, wait: seq<Action>, nowUs: uint64,
                              rest: seq<Action>)
    requires capacity > 0
    requires var s0 := Run(Init(capacity), before);
      && !s0.ring.consumer.Detached? && id != 0 && id != s0.desk.lastObservedId && Waiting(wait, s0.heartbeatUs, id)
      && 0 < LastBeat(s0.heartbeatUs, wait) <= nowUs <= LastBeat(s0.heartbeatUs, wait) + 500000
    requires var s1 := Run(Init(capacity), before + ([Claim(id)] + wait));
      s1.replay.NoReplay? && RestsWithoutDrop(s1, nowUs, rest)
    ensures var s := FromPass(Run(Init(capacity), before + ([Claim(id)] + wait)), nowUs, rest);
      && (ShowsClipped(ValuesOf(s.ring.delivered), s.sent) <==> ClipsAgree(s.sent))
      && (!s.overlapped ==>
           (ShowsClipped(ValuesOf(s.ring.delivered), s.desk.retained) <==> ClipsAgree(s.desk.retained)))
  {
    hide Run, FromPass, ValuesOf, ShowsClipped, ClipsAgree, RestsWithoutDrop, SeesNewConsumer, Waiting, LastBeat;
    FreshIsServed(Run(Init(capacity), before), id, wait);
    RunConcat(Init(capacity), before, [Claim(id)] + wait);
    LateJoinerIsComplete(capacity, before + ([Claim(id)] + wait), nowUs, rest);
  }

  lemma FreshIsServed(s0: State, id: uint64, wait: seq<Action>)
    requires RP.InBounds(s0.ring) && Waiting(wait, s0.heartbeatUs, id)
    requires !s0.ring.consumer.Detached? && id != 0 && id != s0.desk.lastObservedId
    ensures var s1 := Run(s0, [Claim(id)] + wait);
      && !s1.ring.consumer.Detached? && SeesNewConsumer(s1.desk, true, s1.claimedId)
      && s1.heartbeatUs == LastBeat(s0.heartbeatUs, wait)
  {
    hide Run, Step, RP.InBounds, SeesNewConsumer;
    RunOne(s0, Claim(id), wait);
    ClaimIsFresh(s0, id);
    FreshClaimIsSeen(Step(s0, Claim(id)), wait);
  }

  lemma ClaimIsFresh(s: State, id: uint64)
    requires RP.InBounds(s.ring) && !s.ring.consumer.Detached? && id != 0 && id != s.desk.lastObservedId
    ensures var s' := Step(s, Claim(id));
      && s'.claimedId == id && !s'.ring.consumer.Detached? && SeesNewConsumer(s'.desk, true, id)
      && s'.heartbeatUs == s.heartbeatUs
  {
    hide RP.InBounds;
  }

  lemma {:induction false} RunConcat(s: State, a: seq<Action>, b: seq<Action>)
    requires RP.InBounds(s.ring)
    ensures Run(s, a + b) == Run(Run(s, a), b)
    decreases |a|
  {
    hide Step, RP.InBounds;
    if a == [] {
      assert a + b == b;
    } else {
      StepKeepsBounds(s, a[0]);
      assert (a + b)[1..] == a[1..] + b;
      RunConcat(Step(s, a[0]), a[1..], b);
    }
  }

  lemma ConsumerBase(r: RP.State)
    requires RP.Inv(r) && !r.consumer.Detached?
    ensures r.base <= |r.accepted|
  {
  }

  lemma DrainedReceivesAll(r: RP.State)
    requires RP.Inv(r) && !r.consumer.Detached? && r.readCursor == r.writeIndex
    ensures r.base <= |r.accepted| && r.delivered == RP.ClipAll(r.accepted[r.base..])
  {
    hide Frame, Stream, Gather, RP.ClipAll;
    RP.UnreadFrames(r);
    assert r.accepted[r.base..RP.ReadCount(r)] == r.accepted[r.base..];
  }
}
