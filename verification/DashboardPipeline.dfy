/** From a robot's store to the dashboard's display: publisher, ring, subscriber thread, update queue and
  * UI thread running together in any order.
  *
  * A dashboard that attaches to the ring starts with an empty queue and store. Its subscriber thread
  * converts each update it has read and puts it on the queue. Before its first drain the UI thread, which is
  * still starting the transport, may receive unnumbered values for keys it has been handed.
  *
  * The conversion of byte strings to text and back is a parameter: it may replace bytes that are not valid
  * text, for instance where clipping has cut a character in two.
  */
module DashboardPipeline {
  import opened DirectWire
  import opened DirectRing
  import opened LastWrite
  import opened Transport
  import opened DirectPublisher
  import RP = RingProtocol
  import L = TelemetryLink
  import U = UiUpdates

  /** What becomes of a byte string that is taken for text. */
  type Decoding = octets -> octets

  function TextOf(text: Decoding, v: Value): Value
  {
    match v
    case StringValue(s) => StringValue(text(s))
    case StringArrayValue(items) => StringArrayValue(seq(|items|, i requires 0 <= i < |items| => text(items[i])))
    case _ => v
  }

  /** The transport's conversion; a value without a type never arises from the ring. */
  function Converted(text: Decoding, u: Update): VariableUpdate
  {
    VariableUpdate(text(u.key), WireType(u.value), TextOf(text, u.value), u.seqNo)
  }

  function ConvertAll(text: Decoding, us: seq<Update>): (cs: seq<VariableUpdate>)
    ensures |cs| == |us|
    ensures forall i :: 0 <= i < |us| ==> cs[i] == Converted(text, us[i])
  {
    if us == [] then [] else ConvertAll(text, us[..|us| - 1]) + [Converted(text, us[|us| - 1])]
  }

  datatype State = State(link: L.State, ui: U.State, handed: nat)

  datatype Action =
    | OfLink(link: L.Action) | HandOver | OfUi(ui: U.Action)
    | Control(key: octets, valueType: int, value: Value)

  function Init(capacity: nat): State
  {
    State(L.Init(capacity), U.Init(), 0)
  }

  predicate Attaches(s: State, a: L.Action)
  {
    a == L.RingStep(RP.Attach) && s.link.ring.consumer.Detached?
  }

  function Step(text: Decoding, s: State, a: Action): State
    requires RP.InBounds(s.link.ring)
  {
    match a
    case OfLink(l) =>
      if Attaches(s, l) then State(L.Step(s.link, l), U.Init(), 0) else s.(link := L.Step(s.link, l))
    case HandOver =>
      if s.handed < |s.link.ring.delivered| then
        s.(ui := U.Step(s.ui, U.Enqueue(Converted(text, s.link.ring.delivered[s.handed]))), handed := s.handed + 1)
      else s
    case OfUi(u) => if OfStore(u) then s.(ui := U.Step(s.ui, u)) else s
    case Control(key, valueType, value) =>
      if s.ui.drains == 0 && KeyHanded(text, s, key) then
        s.(ui := U.Step(s.ui, U.Direct(VariableUpdate(key, valueType, value, 0))))
      else s
  }

  /** The steps that the display side takes by itself while it runs. */
  predicate OfStore(a: U.Action)
  {
    !a.Enqueue? && !a.Direct? && !a.ClearWidgets?
  }

  predicate KeyHanded(text: Decoding, s: State, key: octets)
  {
    exists i :: 0 <= i < s.handed && i < |s.link.ring.delivered| && text(s.link.ring.delivered[i].key) == key
  }

  lemma StepKeepsBounds(text: Decoding, s: State, a: Action)
    requires RP.InBounds(s.link.ring)
    ensures RP.InBounds(Step(text, s, a).link.ring)
  {
    hide RP.InBounds, L.Step, U.Step;
    if a.OfLink? {
      L.StepKeepsBounds(s.link, a.link);
    }
  }

  function Run(text: Decoding, s: State, actions: seq<Action>): (r: State)
    requires RP.InBounds(s.link.ring)
    ensures RP.InBounds(r.link.ring)
    decreases |actions|
  {
    if actions == [] then s
    else
      StepKeepsBounds(text, s, actions[0]);
      Run(text, Step(text, s, actions[0]), actions[1..])
  }

  // ---------------------------------------------------------------- sequence numbers

  predicate Increasing(us: seq<Update>, bound: nat)
  {
    && (forall i :: 0 <= i < |us| ==> 1 <= us[i].seqNo <= bound)
    && (forall i, j :: 0 <= i < j < |us| ==> us[i].seqNo < us[j].seqNo)
  }

  predicate RingSeq(r: RP.State, bound: nat)
  {
    && Increasing(r.accepted, bound)
    && (r.producer.Storing? ==> Increasing(r.accepted + [r.producer.u], bound))
  }

  predicate SeqInv(l: L.State, steps: nat)
  {
    l.publishedSeq <= steps < U64_LIMIT && RingSeq(l.ring, l.publishedSeq)
  }

  lemma ProducerEffect(r: RP.State, a: RP.Action)
    requires RP.InBounds(r)
    ensures var r' := RP.Step(r, a);
      && (!a.BeginWrite? && r'.producer.Storing? ==> r.producer.Storing? && r'.producer.u == r.producer.u)
      && (a.BeginWrite? && r.producer.Resting? && r'.producer.Storing? ==> r'.producer.u == a.u)
      && (r'.consumer.Detached? ==> r'.delivered == r.delivered)
      && (a.Attach? && r.consumer.Detached? ==> r'.delivered == [])
      && (!(a.Attach? && r.consumer.Detached?) ==> r.delivered <= r'.delivered)
  {
    hide Frame, DecodeHeader, DecodeBody, Around, Advance, Used, RP.Wanted;
  }

  /** What is in the ring keeps its numbers, and the next update gets the next one. */
  lemma NextNumbered(us: seq<Update>, bound: nat, u: Update)
    requires Increasing(us, bound) && u.seqNo == bound + 1
    ensures Increasing(us, bound + 1) && Increasing(us + [u], bound + 1)
  {
  }

  lemma RingSeqStep(r: RP.State, a: RP.Action, bound: nat)
    requires RP.InBounds(r) && RingSeq(r, bound) && !a.BeginWrite?
    ensures RingSeq(RP.Step(r, a), bound)
  {
    hide RP.Step, RP.InBounds, Increasing;
    L.RingEffect(r, a);
    ProducerEffect(r, a);
  }

  lemma RingSeqBegin(r: RP.State, u: Update, bound: nat)
    requires RP.InBounds(r) && r.producer.Resting? && RingSeq(r, bound) && u.seqNo == bound + 1
    ensures RingSeq(RP.Step(r, RP.BeginWrite(u)), bound + 1)
  {
    hide RP.Step, RP.InBounds, Increasing;
    L.RingEffect(r, RP.BeginWrite(u));
    ProducerEffect(r, RP.BeginWrite(u));
    NextNumbered(r.accepted, bound, u);
  }

  lemma SeqStep(l: L.State, a: L.Action, steps: nat)
    requires RP.InBounds(l.ring) && SeqInv(l, steps) && steps + 1 < U64_LIMIT
    ensures SeqInv(L.Step(l, a), steps + 1)
  {
    hide RP.Step, RP.InBounds, RingSeq;
    match a
    case WriteEntry(k, ts) =>
      if k in l.flushing && l.ring.producer.Resting? {
        RingSeqBegin(l.ring, Update(k, l.flushing[k], Counted(l.publishedSeq + 1), ts), l.publishedSeq);
      }
    case RingStep(step) =>
      if !step.BeginWrite? {
        RingSeqStep(l.ring, step, l.publishedSeq);
      }
    case _ =>
  }

  predicate Numbered(us: seq<Update>)
  {
    forall i :: 0 <= i < |us| ==> us[i].seqNo != 0
  }

  /** What an attached consumer has been handed is numbered, since what was published is. */
  lemma DeliveredNumbered(l: L.State, steps: nat)
    requires RP.Inv(l.ring) && SeqInv(l, steps) && !l.ring.consumer.Detached?
    ensures Numbered(l.ring.delivered)
  {
    hide Frame, Stream, Gather, RP.ClipAll;
    var us := l.ring.accepted[l.ring.base..RP.ReadCount(l.ring)];
    L.ClipAllAt(us);
    assert forall i :: 0 <= i < |us| ==> us[i] == l.ring.accepted[l.ring.base + i];
  }

  // ---------------------------------------------------------------- the invariant of the whole

  ghost predicate LinkInv(s: State, steps: nat)
  {
    && L.Inv(s.link) && SeqInv(s.link, steps)
    && Numbered(s.link.ring.delivered) && s.handed <= |s.link.ring.delivered|
  }

  /** Before the first drain the store holds unnumbered values alone, all of keys still queued. What goes through
    * the queue is numbered, so nothing is disturbed and no value lasts that has not been enqueued.
    */
  ghost predicate Gentle(u: U.State)
  {
    && !u.disturbed && u.direct == {} && u.lasting == u.enqueued
    && U.AllNumbered(u.queue.pending) && U.AllNumbered(U.InHand(u.ui))
    && (u.drains == 0 ==>
         u.ui.Idle? && U.AllZero(u.gate.records) && U.SamplesOf(u.queue.pending) == U.SamplesOf(u.enqueued))
  }

  /** The display path has taken exactly the updates handed over. */
  ghost predicate UiInv(text: Decoding, s: State)
  {
    && U.Inv(s.ui) && Gentle(s.ui)
    && s.handed <= |s.link.ring.delivered|
    && s.ui.enqueued == ConvertAll(text, s.link.ring.delivered[..s.handed])
  }

  ghost predicate Inv(text: Decoding, s: State, steps: nat)
  {
    LinkInv(s, steps) && UiInv(text, s)
  }

  lemma InvInBounds(text: Decoding, s: State, steps: nat)
    requires Inv(text, s, steps)
    ensures RP.InBounds(s.link.ring)
  {
    hide UiInv, SeqInv;
    RP.InvInBounds(s.link.ring);
  }

  lemma LinkStepEffect(l: L.State, a: L.Action)
    requires RP.InBounds(l.ring)
    ensures var l' := L.Step(l, a);
      && (l'.ring.consumer.Detached? ==> l'.ring.delivered == l.ring.delivered)
      && (a == L.RingStep(RP.Attach) && l.ring.consumer.Detached? ==> l'.ring.delivered == [])
      && (!(a == L.RingStep(RP.Attach) && l.ring.consumer.Detached?) ==> l.ring.delivered <= l'.ring.delivered)
  {
    hide RP.Step, RP.InBounds, Counted;
    match a
    case WriteEntry(k, ts) =>
      if k in l.flushing && l.ring.producer.Resting? {
        ProducerEffect(l.ring, RP.BeginWrite(Update(k, l.flushing[k], Counted(l.publishedSeq + 1), ts)));
      }
    case RingStep(step) => ProducerEffect(l.ring, step);
    case _ =>
  }

  lemma LinkStepInv(text: Decoding, s: State, a: L.Action, steps: nat)
    requires Inv(text, s, steps) && steps + 1 < U64_LIMIT
    requires RP.InBounds(s.link.ring)
    ensures Inv(text, Step(text, s, OfLink(a)), steps + 1)
  {
    hide L.Step, L.Inv, RP.InBounds, U.Inv, SeqInv, U.AllNumbered;
    L.StepInv(s.link, a);
    SeqStep(s.link, a, steps);
    LinkStepEffect(s.link, a);
    var l' := L.Step(s.link, a);
    if !l'.ring.consumer.Detached? {
      RingInvOf(l');
      DeliveredNumbered(l', steps + 1);
    }
    if Attaches(s, a) {
      FreshUi();
    } else {
      assert l'.ring.delivered[..s.handed] == s.link.ring.delivered[..s.handed];
    }
  }

  lemma RingInvOf(l: L.State)
    requires L.Inv(l)
    ensures RP.Inv(l.ring)
  {
    hide RP.Inv;
  }

  lemma FreshUi()
    ensures U.Inv(U.Init()) && Gentle(U.Init()) && U.Init().enqueued == []
  {
    U.InitInv();
  }

  lemma EnqueueGentle(u: U.State, v: VariableUpdate)
    requires Gentle(u) && v.seqNo != 0
    ensures Gentle(U.Step(u, U.Enqueue(v)))
  {
    hide U.Coalesced, U.Collapsed, U.AllZero, U.AllNumbered, U.SamplesOf;
    U.StepNumbered(u, U.Enqueue(v));
    U.CoalescedSamples(u.queue.pending + [v]);
    U.SamplesSnoc(u.queue.pending, v);
    U.SamplesSnoc(u.enqueued, v);
  }

  lemma StoreGentle(u: U.State, a: U.Action)
    requires Gentle(u) && OfStore(a)
    ensures Gentle(U.Step(u, a))
  {
    hide U.Coalesced, U.AllNumbered, U.SamplesOf, U.Received, U.Accepts, U.BehindAfter;
    U.StepNumbered(u, a);
    U.StepHistory(u, a);
  }

  /** An unnumbered value for a queued key, received before the first drain. */
  lemma ControlGentle(u: U.State, v: VariableUpdate)
    requires Gentle(u) && v.seqNo == 0 && u.drains == 0 && v.key in U.SamplesOf(u.enqueued)
    ensures Gentle(U.Step(u, U.Direct(v))) && U.Step(u, U.Direct(v)).enqueued == u.enqueued
  {
    hide U.Coalesced, U.AllNumbered, U.SamplesOf, U.Accepts, U.BehindAfter, U.IsQueued;
    U.QueuedSampled(u.queue, v.key);
  }

  lemma UiStepInv(text: Decoding, s: State, a: Action, steps: nat)
    requires Inv(text, s, steps) && !a.OfLink? && steps + 1 < U64_LIMIT
    requires RP.InBounds(s.link.ring)
    ensures Inv(text, Step(text, s, a), steps) && Inv(text, Step(text, s, a), steps + 1)
  {
    hide L.Step, L.Inv, RP.InBounds, U.Inv, U.Step, Gentle, U.SamplesOf;
    match a
    case HandOver =>
      if s.handed < |s.link.ring.delivered| {
        var u := Converted(text, s.link.ring.delivered[s.handed]);
        U.StepInv(s.ui, U.Enqueue(u));
        EnqueueGentle(s.ui, u);
        U.StepHistory(s.ui, U.Enqueue(u));
        var d := s.link.ring.delivered[..s.handed + 1];
        assert d[..s.handed] == s.link.ring.delivered[..s.handed];
      }
    case OfUi(u) =>
      if OfStore(u) {
        U.StepInv(s.ui, u);
        StoreGentle(s.ui, u);
        U.StepHistory(s.ui, u);
      }
    case Control(key, valueType, value) =>
      if s.ui.drains == 0 && KeyHanded(text, s, key) {
        var v := VariableUpdate(key, valueType, value, 0);
        U.StepInv(s.ui, U.Direct(v));
        HandedEnqueued(text, s.link.ring.delivered[..s.handed], key);
        ControlGentle(s.ui, v);
      }
  }

  lemma {:induction false} HandedEnqueued(text: Decoding, us: seq<Update>, key: octets)
    requires exists i :: 0 <= i < |us| && text(us[i].key) == key
    ensures key in U.SamplesOf(ConvertAll(text, us))
  {
    var i :| 0 <= i < |us| && text(us[i].key) == key;
    var cs := ConvertAll(text, us);
    assert UpdateKey(cs[i]) == key;
    LatestKeys(UpdateKey, U.SampleOf, cs, key);
  }

  lemma StepInv(text: Decoding, s: State, a: Action, steps: nat)
    requires Inv(text, s, steps) && steps + 1 < U64_LIMIT && RP.InBounds(s.link.ring)
    ensures Inv(text, Step(text, s, a), steps + 1)
  {
    hide Step, Inv, RP.InBounds;
    if a.OfLink? {
      LinkStepInv(text, s, a.link, steps);
    } else {
      UiStepInv(text, s, a, steps);
    }
  }

  lemma {:induction false} RunInv(text: Decoding, s: State, actions: seq<Action>, steps: nat)
    requires Inv(text, s, steps) && steps + |actions| < U64_LIMIT && RP.InBounds(s.link.ring)
    ensures Inv(text, Run(text, s, actions), steps + |actions|)
    decreases |actions|
  {
    hide Step, Inv, RP.InBounds;
    if actions != [] {
      StepKeepsBounds(text, s, actions[0]);
      StepInv(text, s, actions[0], steps);
      RunInv(text, Step(text, s, actions[0]), actions[1..], steps + 1);
    }
  }

  lemma InitInv(text: Decoding, capacity: nat)
    requires capacity > 0
    ensures Inv(text, Init(capacity), 0) && RP.InBounds(Init(capacity).link.ring)
  {
    L.InitInv(capacity);
    FreshUi();
  }

  // ---------------------------------------------------------------- the link inside the whole

  function LinkPart(actions: seq<Action>): (r: seq<L.Action>)
    ensures forall l :: l in r ==> OfLink(l) in actions
  {
    if actions == [] then []
    else (if actions[0].OfLink? then [actions[0].link] else []) + LinkPart(actions[1..])
  }

  /** What the link does changes nothing that the dashboard holds, a detach included; only a dashboard that attaches
    * starts afresh.
    */
  lemma LinkKeepsDisplay(text: Decoding, s: State, l: L.Action)
    requires RP.InBounds(s.link.ring)
    ensures var s' := Step(text, s, OfLink(l));
      if l == L.RingStep(RP.Attach) && s.link.ring.consumer == RP.Detached then s'.ui == U.Init() && s'.handed == 0
      else s'.ui == s.ui && s'.handed == s.handed
  {
    hide L.Step, RP.InBounds;
  }

  /** Before the first drain a control value for any key handed over is received at once. */
  lemma ControlIsReceived(text: Decoding, s: State, i: nat, valueType: int, value: Value)
    requires RP.InBounds(s.link.ring) && s.ui.drains == 0 && s.ui.ui.Idle?
    requires i < s.handed && i < |s.link.ring.delivered|
    ensures var u := VariableUpdate(text(s.link.ring.delivered[i].key), valueType, value, 0);
      Step(text, s, Control(u.key, valueType, value)).ui.gate == U.Received(s.ui.gate, u)
  {
    hide RP.InBounds, U.Received, U.IsQueued;
    U.TakeKeeps(s.ui);
  }

  /** The rest of the pipeline never changes what the link does. */
  lemma {:induction false} Projection(text: Decoding, s: State, actions: seq<Action>)
    requires RP.InBounds(s.link.ring)
    ensures Run(text, s, actions).link == L.Run(s.link, LinkPart(actions))
    decreases |actions|
  {
    hide L.Step, RP.InBounds, U.Step;
    if actions != [] {
      var a := actions[0];
      StepKeepsBounds(text, s, a);
      Projection(text, Step(text, s, a), actions[1..]);
      if a.OfLink? {
        assert ([a.link] + LinkPart(actions[1..]))[1..] == LinkPart(actions[1..]);
      } else {
        assert [] + LinkPart(actions[1..]) == LinkPart(actions[1..]);
      }
    }
  }

  // ---------------------------------------------------------------- what is displayed

  function Shown(v: Value): U.Sample
  {
    U.Sample(U.ToVariableType(WireType(v)), v)
  }

  /** Under which key and as what a stored value can at best be displayed. */
  function KeySeen(text: Decoding): octets -> octets
  {
    (key: octets) => text(ClipKey(key))
  }

  function SampleSeen(text: Decoding): Value -> U.Sample
  {
    (v: Value) => Shown(TextOf(text, ClipValue(v)))
  }

  /** The display shows the table as well as wire and text allow: every key and value clipped and decoded,
    * each as the variable type of its value, and nothing else.
    */
  ghost predicate DisplaysTable(text: Decoding, display: map<octets, U.Sample>, table: Table)
  {
    Seen(KeySeen(text), SampleSeen(text), display, table)
  }

  ghost predicate SeenAlike(text: Decoding, table: Table)
  {
    Alike(KeySeen(text), SampleSeen(text), table)
  }

  /** The first n bytes, or all if there are no more. */
  function Cut(s: octets, n: nat): octets
  {
    if n < |s| then s[..n] else s
  }

  /** How a value sent by the robot is to be shown: a flag as a flag, a number as a number, strings and lists as
    * text, each string cut to 256 bytes and each list to 32 items.
    */
  ghost predicate ShownAs(text: Decoding, sample: U.Sample, v: Value)
  {
    match v
    case BoolValue(flag) => sample == U.Sample(U.BoolType, BoolValue(flag))
    case DoubleValue(raw) => sample == U.Sample(U.DoubleType, DoubleValue(raw))
    case StringValue(s) => sample == U.Sample(U.StringType, StringValue(text(Cut(s, 256))))
    case StringArrayValue(items) =>
      && sample.kind == U.StringType && sample.value.StringArrayValue?
      && |sample.value.items| == (if |items| <= 32 then |items| else 32)
      && forall i :: 0 <= i < |sample.value.items| ==> sample.value.items[i] == text(Cut(items[i], 256))
  }

  lemma SeenIsShownAs(text: Decoding, v: Value)
    ensures ShownAs(text, SampleSeen(text)(v), v)
  {
    hide ShownAs, SampleSeen;
    SampleSeenIs(text, v);
    match v
    case StringArrayValue(items) => ListShownAs(text, items);
    case _ => OneShownAs(text, v);
  }

  lemma OneShownAs(text: Decoding, v: Value)
    requires !v.StringArrayValue?
    ensures ShownAs(text, Shown(TextOf(text, ClipValue(v))), v)
  {
  }

  lemma ListShownAs(text: Decoding, items: seq<octets>)
    ensures ShownAs(text, Shown(TextOf(text, ClipValue(StringArrayValue(items)))), StringArrayValue(items))
  {
    var clipped := ClipItems(items);
    assert ClipValue(StringArrayValue(items)) == StringArrayValue(clipped);
    assert forall i :: 0 <= i < |clipped| ==> clipped[i] == Cut(items[i], 256);
  }

  /** A value that has come through wire, conversion and gate is recorded as what it was sent as, with its number. */
  lemma RobotValueIsRecorded(text: Decoding, u: Update, g: U.Gate)
    ensures var g' := U.Received(g, Converted(text, Clip(u)));
      var key := text(Cut(u.key, 128));
      && g'.lastSeq == u.seqNo
      && (key !in g.records || g.records[key].seqNo <= u.seqNo || 0 < u.seqNo < g.lastSeq ==>
           key in g'.records && g'.records[key].seqNo == u.seqNo && ShownAs(text, g'.records[key].sample, u.value))
  {
    hide ShownAs, Converted, U.SampleOf, SampleSeen;
    ConvertedSample(text, u);
    ConvertedKey(text, u);
    SeenIsShownAs(text, u.value);
  }

  lemma ConvertedKey(text: Decoding, u: Update)
    ensures Converted(text, Clip(u)).key == KeySeen(text)(u.key) == text(Cut(u.key, 128))
    ensures Converted(text, Clip(u)).seqNo == u.seqNo
  {
    hide ClipValue, TextOf, KeySeen;
    KeySeenIs(text, u.key);
  }

  lemma ConvertedSample(text: Decoding, u: Update)
    ensures var c := Converted(text, Clip(u));
      c.key == KeySeen(text)(u.key) && U.SampleOf(c) == SampleSeen(text)(u.value)
  {
    hide ClipValue, ClipKey, TextOf, WireType, U.ToVariableType, KeySeen, SampleSeen;
    KeySeenIs(text, u.key);
    SampleSeenIs(text, u.value);
    TextKeepsType(text, ClipValue(u.value));
  }

  lemma SampleSeenIs(text: Decoding, v: Value)
    ensures SampleSeen(text)(v) == Shown(TextOf(text, ClipValue(v)))
  {
    hide ClipValue, TextOf, Shown;
  }

  lemma KeySeenIs(text: Decoding, key: octets)
    ensures KeySeen(text)(key) == text(ClipKey(key)) == text(Cut(key, 128))
  {
  }

  lemma TextKeepsType(text: Decoding, v: Value)
    ensures WireType(TextOf(text, v)) == WireType(v)
  {
  }

  /** Displaying what a consumer decodes shows the table written exactly when keys that end up the same have
    * values that do.
    */
  lemma DisplayExactly(text: Decoding, log: seq<Update>)
    ensures DisplaysTable(text, U.SamplesOf(ConvertAll(text, RP.ClipAll(log))), ValuesOf(log))
            <==> SeenAlike(text, ValuesOf(log))
  {
    hide KeySeen, SampleSeen, ConvertAll, RP.ClipAll, Seen, Alike, Converted, U.SampleOf;
    L.ClipAllAt(log);
    var seen := ConvertAll(text, RP.ClipAll(log));
    forall i | 0 <= i < |log|
      ensures UpdateKey(seen[i]) == KeySeen(text)(KeyOf(log[i]))
        && U.SampleOf(seen[i]) == SampleSeen(text)(ValueOf(log[i]))
    {
      ConvertedSample(text, log[i]);
    }
    LatestSeenExactly(KeyOf, ValueOf, log, UpdateKey, U.SampleOf, seen, KeySeen(text), SampleSeen(text));
  }

  /** A key whose first 128 bytes do not survive the conversion is not displayed under them. */
  lemma CutKeyMoves(text: Decoding, display: map<octets, U.Sample>, key: octets, value: Value)
    requires DisplaysTable(text, display, map[key := value]) && text(ClipKey(key)) != ClipKey(key)
    ensures ClipKey(key) !in display && text(ClipKey(key)) in display
  {
    hide SampleSeen;
    assert key in map[key := value];
    assert forall c :: c in display ==> c == KeySeen(text)(key);
  }

  // ---------------------------------------------------------------- main results

  /** In every run of the whole pipeline no update that reaches the store is refused, and once the queue
    * is empty the display shows the last value of every key handed over.
    */
  lemma DisplayIsLastDelivered(text: Decoding, capacity: nat, actions: seq<Action>)
    requires capacity > 0 && |actions| < U64_LIMIT
    ensures var s := Run(text, Init(capacity), actions);
      && s.ui.refused == 0
      && (s.ui.queue.pending == [] && U.InHand(s.ui.ui) == [] && s.handed == |s.link.ring.delivered| ==>
           U.Displayed(s.ui.gate.records) == U.SamplesOf(ConvertAll(text, s.link.ring.delivered)))
  {
    hide Run, Init, LinkInv, UiInv, RP.InBounds, U.SamplesOf, U.Displayed, ConvertAll, U.InHand;
    InitInv(text, capacity);
    RunInv(text, Init(capacity), actions, 0);
    InvDisplays(text, Run(text, Init(capacity), actions), |actions|);
  }

  lemma InvDisplays(text: Decoding, s: State, steps: nat)
    requires Inv(text, s, steps)
    ensures s.ui.refused == 0
    ensures s.ui.queue.pending == [] && U.InHand(s.ui.ui) == [] && s.handed == |s.link.ring.delivered| ==>
      U.Displayed(s.ui.gate.records) == U.SamplesOf(ConvertAll(text, s.link.ring.delivered))
  {
    hide LinkInv, U.Scheduled, U.SamplesOf, U.AllNumbered, U.Displayed;
    U.NoSamples();
    U.NoneOnTop(U.SamplesOf(s.ui.received));
    assert s.handed == |s.link.ring.delivered| ==> s.link.ring.delivered[..s.handed] == s.link.ring.delivered;
    assert U.Displayed(s.ui.gate.records) == U.SamplesOf(s.ui.received);
  }

  function OfUiAll(us: seq<U.Action>): (actions: seq<Action>)
    ensures |actions| == |us| && forall i :: 0 <= i < |us| ==> actions[i] == OfUi(us[i])
  {
    if us == [] then [] else [OfUi(us[0])] + OfUiAll(us[1..])
  }

  /** The UI thread runs in the pipeline as it does by itself. */
  lemma {:induction false} UiRunsAlone(text: Decoding, s: State, us: seq<U.Action>, steps: nat)
    requires Inv(text, s, steps) && steps + 1 < U64_LIMIT && RP.InBounds(s.link.ring)
    requires forall u :: u in us ==> OfStore(u)
    ensures var s' := Run(text, s, OfUiAll(us));
      s' == s.(ui := U.Run(s.ui, us)) && Inv(text, s', steps)
    decreases |us|
  {
    hide Inv, RP.InBounds, U.Step;
    if us != [] {
      UiStepInv(text, s, OfUi(us[0]), steps);
      UiRunsAlone(text, Step(text, s, OfUi(us[0])), us[1..], steps);
      assert OfUiAll(us)[1..] == OfUiAll(us[1..]);
    }
  }

  /** Handing over goes on until everything delivered is handed over. */
  lemma {:induction false} HandsOverAll(text: Decoding, s: State, n: nat, steps: nat)
    requires Inv(text, s, steps) && steps + 1 < U64_LIMIT && RP.InBounds(s.link.ring)
    requires n == |s.link.ring.delivered| - s.handed
    ensures var s' := Run(text, s, seq(n, _ => HandOver));
      s'.link == s.link && s'.handed == |s.link.ring.delivered| && Inv(text, s', steps)
    decreases n
  {
    hide Inv, RP.InBounds, U.Step;
    if n > 0 {
      UiStepInv(text, s, HandOver, steps);
      HandsOverAll(text, Step(text, s, HandOver), n - 1, steps);
      assert seq(n, _ => HandOver)[1..] == seq(n - 1, _ => HandOver);
    }
  }

  /** A step that the dashboard takes by itself. */
  predicate OwnStep(a: Action)
  {
    a.HandOver? || (a.OfUi? && OfStore(a.ui))
  }

  lemma CaughtUp(text: Decoding, s: State, steps: nat) returns (rest: seq<Action>)
    requires Inv(text, s, steps) && steps + 1 < U64_LIMIT && RP.InBounds(s.link.ring)
    ensures forall i :: 0 <= i < |rest| ==> OwnStep(rest[i])
    ensures var s' := Run(text, s, rest);
      && s'.link == s.link
      && U.Displayed(s'.ui.gate.records) == U.SamplesOf(ConvertAll(text, s.link.ring.delivered))
  {
    hide Run, Inv, Step, RP.InBounds, U.SamplesOf, U.Displayed, ConvertAll, U.InHand, U.Scheduled, U.Run, U.Step;
    HandedIsDelivered(text, s, steps);
    var over := seq(|s.link.ring.delivered| - s.handed, _ => HandOver);
    HandsOverAll(text, s, |over|, steps);
    var s1 := Run(text, s, over);
    HandedIsDelivered(text, s1, steps);
    var us := U.CatchUp(s1.ui);
    UiRunsAlone(text, s1, us, steps);
    InvDisplays(text, Run(text, s1, OfUiAll(us)), steps);
    RunConcat(text, s, over, OfUiAll(us));
    rest := over + OfUiAll(us);
  }

  /** From every state of every run the dashboard can catch up without the robot: worker and UI thread then show
    * the last value of every key that the ring has delivered.
    */
  lemma DashboardCatchesUp(text: Decoding, capacity: nat, actions: seq<Action>)
    requires capacity > 0 && |actions| + 1 < U64_LIMIT
    ensures exists rest: seq<Action> ::
      && (forall i :: 0 <= i < |rest| ==> OwnStep(rest[i]))
      && var s, s' := Run(text, Init(capacity), actions), Run(text, Init(capacity), actions + rest);
         && s'.link == s.link
         && U.Displayed(s'.ui.gate.records) == U.SamplesOf(ConvertAll(text, s.link.ring.delivered))
  {
    hide Run, Init, Inv, OwnStep, RP.InBounds, U.SamplesOf, U.Displayed, ConvertAll;
    InitInv(text, capacity);
    RunInv(text, Init(capacity), actions, 0);
    var rest := CaughtUp(text, Run(text, Init(capacity), actions), |actions|);
    RunConcat(text, Init(capacity), actions, rest);
  }

  lemma HandedIsDelivered(text: Decoding, s: State, steps: nat)
    requires Inv(text, s, steps)
    ensures s.handed <= |s.link.ring.delivered| && U.Scheduled(s.ui)
  {
    hide SeqInv, L.Inv, Gentle;
  }

  predicate Quiet(s: State)
  {
    && L.Quiet(s.link) && s.handed == |s.link.ring.delivered|
    && s.ui.queue.pending == [] && U.InHand(s.ui.ui) == []
  }

  function FromPass(text: Decoding, s0: State, nowUs: uint64, rest: seq<Action>): State
    requires RP.InBounds(s0.link.ring)
  {
    StepKeepsBounds(text, s0, OfLink(L.BeginPass(nowUs)));
    Run(text, Step(text, s0, OfLink(L.BeginPass(nowUs))), rest)
  }

  /** A pass of the publisher finds a dashboard to serve, and later everything comes to rest without a drop. */
  ghost predicate Served(text: Decoding, s0: State, nowUs: uint64, rest: seq<Action>)
    requires RP.InBounds(s0.link.ring)
  {
    && !s0.link.ring.consumer.Detached? && s0.link.replay.NoReplay?
    && L.FindsNewConsumer(s0.link, nowUs)
    && OfLink(L.RingStep(RP.Detach)) !in rest
    && var s := FromPass(text, s0, nowUs, rest);
       s.link.ring.dropped == s0.link.ring.dropped && Quiet(s)
  }

  /** A dashboard that attaches late ends up displaying everything the robot sent last. After a publisher pass
    * that sees it, whatever halves of stores, replays, flushes, ring accesses, queue operations and drains
    * follow, once everything has come to rest nothing has been refused, and the display shows the table of
    * values last sent, for exactly the retained keys, if and only if keys that end up the same on the display
    * have values that do. Then every key, cut to 128 bytes, shows the value last sent for it as what it was
    * sent as. If stores of one key never overlapped, that is the retained one.
    */
  lemma LateDashboardIsComplete(text: Decoding, capacity: nat, before: seq<Action>, nowUs: uint64, rest: seq<Action>)
    requires capacity > 0 && |before| + 1 + |rest| < U64_LIMIT
    requires Served(text, Run(text, Init(capacity), before), nowUs, rest)
    ensures var s := FromPass(text, Run(text, Init(capacity), before), nowUs, rest);
      && s.ui.refused == 0
      && (DisplaysTable(text, U.Displayed(s.ui.gate.records), s.link.sent) <==> SeenAlike(text, s.link.sent))
      && s.link.sent.Keys == s.link.desk.retained.Keys
      && (SeenAlike(text, s.link.sent) ==> ShowsAsSent(text, U.Displayed(s.ui.gate.records), s.link.sent))
      && (!s.link.overlapped ==> s.link.sent == s.link.desk.retained)
  {
    hide ShowsAsSent, L.Run, L.Inv, L.Served, L.FromPass, L.Quiet, DisplaysTable, SeenAlike, U.SamplesOf, ConvertAll,
      ValuesOf, RP.ClipAll, U.Displayed, LinkInv, UiInv;
    var s0 := Run(text, Init(capacity), before);
    var s := FromPass(text, s0, nowUs, rest);
    ServedOnLink(text, capacity, before, nowUs, rest);
    L.ServedReceivesSent(s0.link, nowUs, LinkPart(rest));
    DisplayExactly(text, s.link.ring.accepted[s.link.ring.base..]);
    OneRun(text, Init(capacity), before, nowUs, rest);
    DisplayIsLastDelivered(text, capacity, before + ([OfLink(L.BeginPass(nowUs))] + rest));
    if SeenAlike(text, s.link.sent) {
      TableShownAsSent(text, U.Displayed(s.ui.gate.records), s.link.sent);
    }
  }

  ghost predicate ShowsAsSent(text: Decoding, display: map<octets, U.Sample>, sent: Table)
  {
    forall k :: k in sent ==>
      text(Cut(k, 128)) in display && ShownAs(text, display[text(Cut(k, 128))], sent[k])
  }

  lemma TableShownAsSent(text: Decoding, display: map<octets, U.Sample>, sent: Table)
    requires DisplaysTable(text, display, sent)
    ensures ShowsAsSent(text, display, sent)
  {
    hide ShownAs, KeySeen, SampleSeen;
    forall k | k in sent
      ensures text(Cut(k, 128)) in display && ShownAs(text, display[text(Cut(k, 128))], sent[k])
    {
      KeySeenIs(text, k);
      SeenIsShownAs(text, sent[k]);
    }
  }

  lemma ServedOnLink(text: Decoding, capacity: nat, before: seq<Action>, nowUs: uint64, rest: seq<Action>)
    requires capacity > 0 && Served(text, Run(text, Init(capacity), before), nowUs, rest)
    ensures var s0 := Run(text, Init(capacity), before);
      && L.Inv(s0.link) && L.Served(s0.link, nowUs, LinkPart(rest))
      && FromPass(text, s0, nowUs, rest).link == L.FromPass(s0.link, nowUs, LinkPart(rest))
  {
    hide L.Run, L.Step, Step, L.Quiet, RP.Inv, L.KnownKeys, L.Orderly;
    var pass := OfLink(L.BeginPass(nowUs));
    var s0 := Run(text, Init(capacity), before);
    Projection(text, Init(capacity), before);
    L.InitInv(capacity);
    L.RunInv(L.Init(capacity), LinkPart(before));
    StepKeepsBounds(text, s0, pass);
    Projection(text, Step(text, s0, pass), rest);
    PassOnLink(text, s0, nowUs);
  }

  lemma OneRun(text: Decoding, s: State, before: seq<Action>, nowUs: uint64, rest: seq<Action>)
    requires RP.InBounds(s.link.ring)
    ensures Run(text, s, before + ([OfLink(L.BeginPass(nowUs))] + rest))
      == FromPass(text, Run(text, s, before), nowUs, rest)
  {
    hide Step, RP.InBounds;
    var pass := OfLink(L.BeginPass(nowUs));
    RunConcat(text, s, before, [pass] + rest);
    RunOne(text, Run(text, s, before), pass, rest);
  }

  lemma PassOnLink(text: Decoding, s: State, nowUs: uint64)
    requires RP.InBounds(s.link.ring)
    ensures Step(text, s, OfLink(L.BeginPass(nowUs))).link == L.Step(s.link, L.BeginPass(nowUs))
  {
    hide L.Step, RP.InBounds;
  }

  lemma {:induction false} RunConcat(text: Decoding, s: State, a: seq<Action>, b: seq<Action>)
    requires RP.InBounds(s.link.ring)
    ensures Run(text, s, a + b) == Run(text, Run(text, s, a), b)
    decreases |a|
  {
    hide Step, RP.InBounds;
    if a == [] {
      assert a + b == b;
    } else {
      StepKeepsBounds(text, s, a[0]);
      assert (a + b)[1..] == a[1..] + b;
      RunConcat(text, Step(text, s, a[0]), a[1..], b);
    }
  }

  lemma RunOne(text: Decoding, s: State, a: Action, rest: seq<Action>)
    requires RP.InBounds(s.link.ring)
    ensures RP.InBounds(Step(text, s, a).link.ring) && Run(text, s, [a] + rest) == Run(text, Step(text, s, a), rest)
  {
    hide Step, RP.InBounds;
    StepKeepsBounds(text, s, a);
    assert ([a] + rest)[1..] == rest;
  }
}
