/** The dashboard's update path: a worker thread queues updates, the UI thread drains them in bounded
  * batches, coalesces each batch by key and passes the result through a sequence gate into the store.
  */
module UiUpdates {
  import opened DirectWire
  import opened LastWrite
  import opened Transport

  const DRAIN_BUDGET: nat := 150
  const QUEUE_HIGH_WATER: nat := 500

  // ---------------------------------------------------------------- coalescing

  /** Position of the entry for key, or the length of the list. */
  function Find(list: seq<VariableUpdate>, key: octets): (i: nat)
    ensures i <= |list|
    ensures i < |list| ==> list[i].key == key
    ensures forall j :: 0 <= j < i ==> list[j].key != key
  {
    if list == [] then 0
    else if list[0].key == key then 0
    else 1 + Find(list[1..], key)
  }

  function Placed(list: seq<VariableUpdate>, u: VariableUpdate): seq<VariableUpdate>
  {
    var i := Find(list, u.key);
    if i < |list| then list[i := u] else list + [u]
  }

  /** Last value per key, each key where it first appeared. */
  function Coalesced(us: seq<VariableUpdate>): seq<VariableUpdate>
  {
    if us == [] then [] else Placed(Coalesced(us[..|us| - 1]), us[|us| - 1])
  }

  predicate DistinctKeys(us: seq<VariableUpdate>)
  {
    forall i, j :: 0 <= i < j < |us| ==> us[i].key != us[j].key
  }

  lemma {:induction false} CoalescedDistinct(us: seq<VariableUpdate>)
    ensures DistinctKeys(Coalesced(us))
  {
    if us != [] {
      CoalescedDistinct(us[..|us| - 1]);
    }
  }

  lemma {:induction false} FindInMap(list: seq<VariableUpdate>, key: octets)
    ensures Find(list, key) < |list| <==> key in MapOf(list)
  {
    LatestKeys(UpdateKey, Whole, list, key);
  }

  lemma {:induction false} PlacedMap(list: seq<VariableUpdate>, u: VariableUpdate)
    requires DistinctKeys(list)
    ensures MapOf(Placed(list, u)) == MapOf(list)[u.key := u]
    decreases |list|
  {
    hide MapOf;
    var i := Find(list, u.key);
    if i == |list| {
      MapOfSnoc(list, u);
    } else {
      var a, b := list[..i], list[i + 1..];
      assert list == a + [list[i]] + b && Placed(list, u) == a + [u] + b;
      MapOfConcat(a + [list[i]], b);
      MapOfConcat(a + [u], b);
      MapOfSnoc(a, list[i]);
      MapOfSnoc(a, u);
      Absent(b, u.key);
    }
  }

  lemma Absent(us: seq<VariableUpdate>, key: octets)
    requires forall i :: 0 <= i < |us| ==> us[i].key != key
    ensures key !in MapOf(us)
  {
    LatestKeys(UpdateKey, Whole, us, key);
  }

  /** Coalescing loses nothing a last-write observer could see. */
  lemma {:induction false} CoalescedMap(us: seq<VariableUpdate>)
    ensures MapOf(Coalesced(us)) == MapOf(us)
  {
    if us != [] {
      hide MapOf, Placed;
      var n := |us| - 1;
      CoalescedMap(us[..n]);
      CoalescedDistinct(us[..n]);
      PlacedMap(Coalesced(us[..n]), us[n]);
      MapOfLast(us);
    }
  }

  /** Every entry is the last update of its key, and entries are ordered by first appearance. */
  lemma {:induction false} CoalescedInOrder(us: seq<VariableUpdate>, i: nat)
    requires i < |Coalesced(us)|
    ensures var e := Coalesced(us)[i]; e.key in MapOf(us) && MapOf(us)[e.key] == e
    ensures Find(us, Coalesced(us)[i].key) < |us|
    ensures i > 0 ==> Find(us, Coalesced(us)[i - 1].key) < Find(us, Coalesced(us)[i].key)
    decreases us, i
  {
    CoalescedMap(us);
    CoalescedDistinct(us);
    LatestIsLastWrite(UpdateKey, Whole, Coalesced(us), i);
    FindInMap(us, Coalesced(us)[i].key);
    if i > 0 {
      AppearanceOrder(us, i);
    }
  }

  lemma EntryAppears(us: seq<VariableUpdate>, i: nat)
    requires i < |Coalesced(us)|
    ensures Find(us, Coalesced(us)[i].key) < |us|
  {
    hide MapOf, Coalesced;
    CoalescedMap(us);
    CoalescedDistinct(us);
    LatestIsLastWrite(UpdateKey, Whole, Coalesced(us), i);
    FindInMap(us, Coalesced(us)[i].key);
    FindInMap(Coalesced(us), Coalesced(us)[i].key);
  }

  lemma NewKeyIsNew(us: seq<VariableUpdate>, key: octets)
    requires Find(Coalesced(us), key) == |Coalesced(us)|
    ensures Find(us, key) == |us|
  {
    CoalescedMap(us);
    FindInMap(us, key);
    FindInMap(Coalesced(us), key);
  }

  lemma {:induction false} AppearanceOrder(us: seq<VariableUpdate>, i: nat)
    requires 0 < i < |Coalesced(us)|
    ensures Find(us, Coalesced(us)[i - 1].key) < Find(us, Coalesced(us)[i].key)
    decreases |us|
  {
    hide Find;
    var n := |us| - 1;
    var before, u := Coalesced(us[..n]), us[n];
    assert us == us[..n] + [u];
    FindSnoc(us[..n], u, Coalesced(us)[i - 1].key);
    FindSnoc(us[..n], u, Coalesced(us)[i].key);
    EntryAppears(us[..n], i - 1);
    if i < |before| {
      AppearanceOrder(us[..n], i);
      EntryAppears(us[..n], i);
    } else {
      NewKeyIsNew(us[..n], u.key);
    }
  }

  lemma {:induction false} FindSnoc(us: seq<VariableUpdate>, u: VariableUpdate, key: octets)
    ensures Find(us + [u], key) ==
      if Find(us, key) < |us| then Find(us, key) else if u.key == key then |us| else |us| + 1
  {
    var i := Find(us + [u], key);
    var j := Find(us, key);
    assert (us + [u])[|us|] == u;
    assert i < |us| ==> us[i].key == key;
    assert j < |us| ==> (us + [u])[j].key == key;
  }

  lemma {:induction false} CoalescedKeepsKeys(us: seq<VariableUpdate>)
    ensures KeySet(Coalesced(us)) == KeySet(us) && |Coalesced(us)| == |KeySet(us)|
  {
    CoalescedMap(us);
    CoalescedDistinct(us);
    KeySetIs(us);
    KeySetIs(Coalesced(us));
    DistinctCount(Coalesced(us));
  }

  function KeySet(us: seq<VariableUpdate>): set<octets>
  {
    set i | 0 <= i < |us| :: us[i].key
  }

  lemma KeySetIs(us: seq<VariableUpdate>)
    ensures KeySet(us) == MapOf(us).Keys
  {
    forall k
      ensures k in KeySet(us) <==> k in MapOf(us)
    {
      LatestKeys(UpdateKey, Whole, us, k);
    }
  }

  lemma {:induction false} DistinctCount(us: seq<VariableUpdate>)
    requires DistinctKeys(us)
    ensures |KeySet(us)| == |us|
  {
    if us != [] {
      var n := |us| - 1;
      DistinctCount(us[..n]);
      assert forall i :: 0 <= i < n ==> us[..n][i] == us[i];
      assert KeySet(us) == KeySet(us[..n]) + {us[n].key};
      assert us[n].key !in KeySet(us[..n]);
    }
  }

  // ---------------------------------------------------------------- the queue

  datatype Queue = Queue(pending: seq<VariableUpdate>, drainScheduled: bool)

  function Collapsed(us: seq<VariableUpdate>): seq<VariableUpdate>
  {
    if |us| > QUEUE_HIGH_WATER then Coalesced(us) else us
  }

  function Enqueued(q: Queue, u: VariableUpdate): Queue
  {
    Queue(Collapsed(q.pending + [u]), true)
  }

  function BatchSize(q: Queue): nat
  {
    if |q.pending| < DRAIN_BUDGET then |q.pending| else DRAIN_BUDGET
  }

  function Taken(q: Queue): Queue
  {
    var rest := q.pending[BatchSize(q)..];
    Queue(rest, rest != [])
  }

  lemma CollapsedMap(us: seq<VariableUpdate>)
    ensures MapOf(Collapsed(us)) == MapOf(us)
    ensures |Collapsed(us)| <= 500 || |Collapsed(us)| == |KeySet(us)|
    ensures |us| <= 500 ==> Collapsed(us) == us
  {
    CoalescedMap(us);
    CoalescedKeepsKeys(us);
  }

  // ---------------------------------------------------------------- the store and its gate

  datatype VariableType = BoolType | DoubleType | StringType

  function ToVariableType(valueType: int): VariableType
  {
    if valueType == 1 then BoolType else if valueType == 2 then DoubleType else StringType
  }

  datatype Sample = Sample(kind: VariableType, value: Value)

  datatype Record = Record(sample: Sample, seqNo: uint64)

  type Records = map<octets, Record>

  function SampleOf(u: VariableUpdate): Sample
  {
    Sample(ToVariableType(u.valueType), u.value)
  }

  /** What a last-write observer of log would display. */
  ghost function SamplesOf(log: seq<VariableUpdate>): map<octets, Sample>
  {
    Latest(UpdateKey, SampleOf, log)
  }

  function Displayed(records: Records): map<octets, Sample>
  {
    map k | k in records :: records[k].sample
  }

  function Upserted(records: Records, key: octets, sample: Sample, seqNo: uint64): Records
  {
    if key in records && seqNo < records[key].seqNo then records else records[key := Record(sample, seqNo)]
  }

  function SequencesReset(records: Records): Records
  {
    map k | k in records :: records[k].(seqNo := 0)
  }

  datatype Gate = Gate(records: Records, lastSeq: uint64)

  predicate RollsBack(g: Gate, u: VariableUpdate)
  {
    u.seqNo != 0 && g.lastSeq != 0 && u.seqNo < g.lastSeq
  }

  function Gated(g: Gate, u: VariableUpdate): Records
  {
    if RollsBack(g, u) then SequencesReset(g.records) else g.records
  }

  /** One update through rollback detection and the store. */
  function Received(g: Gate, u: VariableUpdate): Gate
  {
    Gate(Upserted(Gated(g, u), u.key, SampleOf(u), u.seqNo), u.seqNo)
  }

  predicate Accepts(g: Gate, u: VariableUpdate)
  {
    Received(g, u).records == Gated(g, u)[u.key := Record(SampleOf(u), u.seqNo)]
  }

  /** What receiving an update means for every record. A number below the last one seen sets all numbers back to
    * 0; then the record of the update's key takes value, type and number unless its number is larger. Type 1 is
    * shown as a flag, type 2 as a number and every other one as text.
    */
  lemma ReceivedExactly(g: Gate, u: VariableUpdate)
    ensures var g' := Received(g, u);
      var restarted := 0 < u.seqNo < g.lastSeq;
      && g'.lastSeq == u.seqNo && g'.records.Keys == g.records.Keys + {u.key}
      && (forall k :: k in g.records && k != u.key ==>
           g'.records[k] == if restarted then g.records[k].(seqNo := 0) else g.records[k])
      && g'.records[u.key] ==
           if u.key !in g.records || restarted || g.records[u.key].seqNo <= u.seqNo then
             Record(Sample(match u.valueType case 1 => BoolType case 2 => DoubleType case _ => StringType, u.value),
                    u.seqNo)
           else g.records[u.key]
  {
  }

  /** Every record's sequence number is at or below the last one seen. */
  predicate Ordered(g: Gate)
  {
    forall k :: k in g.records ==> g.records[k].seqNo <= g.lastSeq
  }

  predicate AllZero(records: Records)
  {
    forall k :: k in records ==> records[k].seqNo == 0
  }

  /** An update is refused exactly when its record has a larger number and no rollback is detected. */
  lemma RefusedExactly(g: Gate, u: VariableUpdate)
    ensures !Accepts(g, u) <==> u.key in g.records && u.seqNo < g.records[u.key].seqNo && !RollsBack(g, u)
  {
    if u.key in Gated(g, u) && u.seqNo < Gated(g, u)[u.key].seqNo {
      assert Received(g, u).records[u.key] != Record(SampleOf(u), u.seqNo);
    }
  }

  /** Every record is at or below the last number seen, where 0 is taken for 1. */
  predicate Safe(g: Gate)
  {
    forall k :: k in g.records ==> g.records[k].seqNo <= if g.lastSeq == 0 then 1 else g.lastSeq
  }

  /** A gate accepts every numbered update exactly when it is safe. */
  lemma NumberedAcceptedExactly(g: Gate)
    ensures (forall u: VariableUpdate :: u.seqNo != 0 ==> Accepts(g, u)) <==> Safe(g)
  {
    hide Accepts;
    if Safe(g) {
      forall u: VariableUpdate | u.seqNo != 0
        ensures Accepts(g, u)
      {
        RefusedExactly(g, u);
      }
    } else {
      var k :| k in g.records && g.records[k].seqNo > if g.lastSeq == 0 then 1 else g.lastSeq;
      var u := VariableUpdate(k, 1, BoolValue(true), if g.lastSeq == 0 then 1 else g.lastSeq);
      RefusedExactly(g, u);
    }
  }

  /** An ordered gate stays ordered exactly when the update is numbered or all resulting numbers are 0. */
  lemma OrderKeptExactly(g: Gate, u: VariableUpdate)
    requires Ordered(g)
    ensures Ordered(Received(g, u)) <==> u.seqNo != 0 || AllZero(Received(g, u).records)
  {
  }

  /** A numbered update, or an unnumbered one while every record is at 0, is stored and displayed. */
  lemma ReceivedDisplays(g: Gate, u: VariableUpdate)
    requires Ordered(g)
    requires u.seqNo != 0 || AllZero(g.records)
    ensures Ordered(Received(g, u)) && Accepts(g, u)
    ensures Displayed(Received(g, u).records) == Displayed(g.records)[u.key := SampleOf(u)]
  {
  }

  /** An unnumbered update in a numbered session is refused, and the next numbered one for the same key
    * is refused too if its number is smaller: the display is stuck behind the stream.
    */
  lemma UnnumberedUpdateSticks(key: octets, a: Value, b: Value, c: Value)
    ensures var g := Received(Gate(map[], 0), VariableUpdate(key, 3, a, 7));
      var g1 := Received(g, VariableUpdate(key, 3, b, 0));
      var g2 := Received(g1, VariableUpdate(key, 3, c, 5));
      Displayed(g1.records) == Displayed(g2.records) == map[key := Sample(StringType, a)]
  {
  }

  // ---------------------------------------------------------------- all interleavings

  datatype UiThread = Idle | Reposting(list: seq<VariableUpdate>) | Applying(list: seq<VariableUpdate>)

  /** The shared queue, drain events posted to the UI thread and threads about to post one, the UI thread and
    * its gate; and the history since the display was last cleared. An update that the UI thread receives
    * directly is lasting unless its key is queued, for then the queued one comes after it. The history holds
    * what was enqueued; what is lasting, queued or direct; the keys whose lasting update was direct; what was
    * received, how many drains began and updates were refused; the keys whose last update received is not
    * displayed; and whether an unnumbered update ever met a numbered record.
    */
  datatype State = State(queue: Queue, posted: nat, aboutToPost: nat, ui: UiThread, gate: Gate,
                         enqueued: seq<VariableUpdate>, lasting: seq<VariableUpdate>, direct: set<octets>,
                         received: seq<VariableUpdate>, drains: nat, refused: nat, behind: set<octets>,
                         disturbed: bool)

  datatype Action =
    | Enqueue(u: VariableUpdate) | Post | BeginDrain | Repost | ApplyOne
    | Direct(u: VariableUpdate) | Reconnect | ClearWidgets

  function Init(): State
  {
    State(Queue([], false), 0, 0, Idle, Gate(map[], 0), [], [], {}, [], 0, 0, {}, false)
  }

  predicate Shows(g: Gate, u: VariableUpdate)
  {
    u.key in g.records && g.records[u.key].sample == SampleOf(u)
  }

  function BehindAfter(g: Gate, behind: set<octets>, u: VariableUpdate): set<octets>
  {
    if Shows(Received(g, u), u) then behind - {u.key} else behind + {u.key}
  }

  /** Receiving an update leaves its key behind exactly when the update is refused and differs from what is
    * displayed.
    */
  lemma FallsBehindExactly(g: Gate, behind: set<octets>, u: VariableUpdate)
    ensures u.key in BehindAfter(g, behind, u) <==> !Accepts(g, u) && g.records[u.key].sample != SampleOf(u)
    ensures BehindAfter(g, behind, u) - {u.key} == behind - {u.key}
  {
    hide Accepts;
    RefusedExactly(g, u);
  }

  function Take(s: State, u: VariableUpdate): State
  {
    s.(gate := Received(s.gate, u), received := s.received + [u],
       refused := s.refused + if Accepts(s.gate, u) then 0 else 1,
       behind := BehindAfter(s.gate, s.behind, u),
       disturbed := s.disturbed || (u.seqNo == 0 && !AllZero(s.gate.records)))
  }

  predicate IsQueued(q: Queue, key: octets)
  {
    Find(q.pending, key) < |q.pending|
  }

  function Step(s: State, a: Action): State
  {
    match a
    case Enqueue(u) =>
      s.(queue := Enqueued(s.queue, u), enqueued := s.enqueued + [u], lasting := s.lasting + [u],
         direct := s.direct - {u.key},
         aboutToPost := s.aboutToPost + if s.queue.drainScheduled then 0 else 1)
    case Post =>
      if s.aboutToPost > 0 then s.(aboutToPost := s.aboutToPost - 1, posted := s.posted + 1) else s
    case BeginDrain =>
      if s.posted > 0 && s.ui.Idle? then
        var list := Coalesced(s.queue.pending[..BatchSize(s.queue)]);
        var queue' := Taken(s.queue);
        s.(posted := s.posted - 1, queue := queue', drains := s.drains + 1,
           ui := if queue'.drainScheduled then Reposting(list) else Applying(list))
      else s
    case Repost =>
      if s.ui.Reposting? then s.(posted := s.posted + 1, ui := Applying(s.ui.list)) else s
    case ApplyOne =>
      if !s.ui.Applying? then s
      else if s.ui.list == [] then s.(ui := Idle)
      else Take(s, s.ui.list[0]).(ui := Applying(s.ui.list[1..]))
    case Direct(u) =>
      if !s.ui.Idle? then s
      else if IsQueued(s.queue, u.key) then Take(s, u)
      else Take(s, u).(lasting := s.lasting + [u], direct := s.direct + {u.key})
    case Reconnect =>
      if s.ui.Idle? then s.(gate := s.gate.(records := SequencesReset(s.gate.records))) else s
    case ClearWidgets =>
      if s.ui.Idle? then
        s.(gate := Gate(map[], 0), enqueued := s.queue.pending, lasting := s.queue.pending, direct := {},
           received := [], refused := 0, behind := {}, disturbed := false)
      else s
  }

  function Run(s: State, actions: seq<Action>): State
    decreases |actions|
  {
    if actions == [] then s else Run(Step(s, actions[0]), actions[1..])
  }

  function InHand(ui: UiThread): seq<VariableUpdate>
  {
    match ui
    case Idle => []
    case Reposting(list) => list
    case Applying(list) => list
  }

  function Outstanding(s: State): nat
  {
    s.posted + s.aboutToPost + if s.ui.Reposting? then 1 else 0
  }

  ghost predicate Scheduled(s: State)
  {
    && Outstanding(s) == (if s.queue.drainScheduled then 1 else 0)
    && (s.queue.pending != [] ==> s.queue.drainScheduled)
    && (|s.queue.pending| <= QUEUE_HIGH_WATER || DistinctKeys(s.queue.pending))
  }

  /** Received, then in hand, then queued: what is displayed once everything is through and accepted. */
  ghost function Flow(s: State): map<octets, Sample>
  {
    SamplesOf(s.received) + SamplesOf(InHand(s.ui)) + SamplesOf(s.queue.pending)
  }

  /** That is the last lasting value of every key. */
  ghost predicate Conserved(s: State)
  {
    Flow(s) == SamplesOf(s.lasting)
  }

  /** But for the direct keys, the lasting values are the last ones enqueued. */
  ghost predicate Sourced(lasting: map<octets, Sample>, enqueued: map<octets, Sample>, direct: set<octets>)
  {
    && lasting.Keys == enqueued.Keys + direct
    && forall k :: k in enqueued && k !in direct ==> lasting[k] == enqueued[k]
  }

  /** Every key received is displayed, with its last value received unless it is behind. */
  ghost predicate Follows(gate: Gate, received: map<octets, Sample>, behind: set<octets>)
  {
    && Displayed(gate.records).Keys == received.Keys && behind <= received.Keys
    && forall k :: k in received ==> (Displayed(gate.records)[k] == received[k] <==> k !in behind)
  }

  ghost predicate Smooth(s: State)
  {
    !s.disturbed ==> Ordered(s.gate) && s.refused == 0 && s.behind == {}
  }

  ghost predicate Inv(s: State)
  {
    && Scheduled(s) && Conserved(s) && Sourced(SamplesOf(s.lasting), SamplesOf(s.enqueued), s.direct)
    && Follows(s.gate, SamplesOf(s.received), s.behind) && Smooth(s)
  }

  /** Taking an update in leaves queue, UI thread and what arrived alone. */
  lemma TakeKeeps(s: State)
    ensures forall u :: var s' := Take(s, u);
      && s'.queue == s.queue && s'.posted == s.posted && s'.aboutToPost == s.aboutToPost && s'.ui == s.ui
      && s'.enqueued == s.enqueued && s'.lasting == s.lasting && s'.direct == s.direct && s'.drains == s.drains
      && s'.received == s.received + [u] && s'.gate == Received(s.gate, u)
      && s'.behind == BehindAfter(s.gate, s.behind, u)
  {
    hide Received, Accepts, BehindAfter, AllZero;
  }

  lemma StepScheduled(s: State, a: Action)
    requires Scheduled(s)
    ensures Scheduled(Step(s, a))
  {
    hide Coalesced, Take, Find;
    match a
    case Enqueue(u) => CoalescedDistinct(s.queue.pending + [u]);
    case ApplyOne => TakeKeeps(s);
    case Direct(u) => TakeKeeps(s);
    case _ =>
  }

  lemma SamplesConcat(a: seq<VariableUpdate>, b: seq<VariableUpdate>)
    ensures SamplesOf(a + b) == SamplesOf(a) + SamplesOf(b)
  {
    LatestConcat(UpdateKey, SampleOf, a, b);
  }

  /** Samples depend only on the last update per key. */
  lemma {:induction false} SamplesFromMap(us: seq<VariableUpdate>)
    ensures SamplesOf(us) == map k | k in MapOf(us) :: SampleOf(MapOf(us)[k])
  {
    if us != [] {
      var n := |us| - 1;
      SamplesFromMap(us[..n]);
      MapOfSnoc(us[..n], us[n]);
      LatestSnoc(UpdateKey, SampleOf, us[..n], us[n]);
      assert us == us[..n] + [us[n]];
    }
  }

  lemma CoalescedSamples(us: seq<VariableUpdate>)
    ensures SamplesOf(Coalesced(us)) == SamplesOf(us)
    ensures SamplesOf(Collapsed(us)) == SamplesOf(us)
  {
    CoalescedMap(us);
    SamplesFromMap(us);
    SamplesFromMap(Coalesced(us));
  }

  lemma SamplesOne(u: VariableUpdate)
    ensures SamplesOf([u]) == map[u.key := SampleOf(u)] && SamplesOf([]) == map[]
  {
    LatestSnoc(UpdateKey, SampleOf, [], u);
    assert [] + [u] == [u];
  }

  lemma DrainStepKeeps(s: State, a: Action)
    requires !a.Enqueue? && !a.Direct? && !a.ClearWidgets?
    ensures Flow(Step(s, a)) == Flow(s)
  {
    hide SamplesOf, Coalesced, SampleOf, Take, BatchSize;
    match a
    case BeginDrain =>
      if s.ui.Idle? {
        NoSamples();
        BatchFlows(s.queue);
        Layers(SamplesOf(s.received), SamplesOf(Coalesced(s.queue.pending[..BatchSize(s.queue)])),
          SamplesOf(Taken(s.queue).pending));
        NoneOnTop(SamplesOf(s.received));
      }
    case ApplyOne =>
      if s.ui.Applying? && s.ui.list != [] {
        TakeKeeps(s);
        assert s.ui.list == [s.ui.list[0]] + s.ui.list[1..];
        SamplesConcat([s.ui.list[0]], s.ui.list[1..]);
        SamplesConcat(s.received, [s.ui.list[0]]);
      }
    case _ =>
  }

  /** A batch taken out, coalesced, and what is left show what the queue did. */
  lemma BatchFlows(q: Queue)
    ensures BatchSize(q) <= |q.pending|
    ensures SamplesOf(Coalesced(q.pending[..BatchSize(q)])) + SamplesOf(Taken(q).pending) == SamplesOf(q.pending)
  {
    hide SamplesOf, Coalesced;
    var batch, rest := q.pending[..BatchSize(q)], q.pending[BatchSize(q)..];
    assert q.pending == batch + rest;
    SamplesConcat(batch, rest);
    CoalescedSamples(batch);
  }

  lemma Layers(a: map<octets, Sample>, b: map<octets, Sample>, c: map<octets, Sample>)
    ensures a + b + c == a + (b + c)
  {
  }

  lemma NoneOnTop(m: map<octets, Sample>)
    ensures m + map[] == m
  {
  }

  lemma EnqueueFlows(s: State, u: VariableUpdate)
    ensures Flow(Step(s, Enqueue(u))) == Flow(s)[u.key := SampleOf(u)]
  {
    hide SamplesOf, Coalesced, Collapsed;
    CoalescedSamples(s.queue.pending + [u]);
    SamplesConcat(s.queue.pending, [u]);
    SamplesOne(u);
  }

  lemma QueuedSampled(q: Queue, key: octets)
    ensures IsQueued(q, key) <==> key in SamplesOf(q.pending)
  {
    FindInMap(q.pending, key);
    SamplesFromMap(q.pending);
  }

  lemma DirectFlows(s: State, u: VariableUpdate)
    requires s.ui.Idle?
    ensures Flow(Step(s, Direct(u))) == SamplesOf(s.received)[u.key := SampleOf(u)] + SamplesOf(s.queue.pending)
    ensures Flow(Step(s, Direct(u))) == if IsQueued(s.queue, u.key) then Flow(s) else Flow(s)[u.key := SampleOf(u)]
  {
    hide SamplesOf, SampleOf, Take, IsQueued;
    NoSamples();
    TakeKeeps(s);
    SamplesConcat(s.received, [u]);
    SamplesOne(u);
    QueuedSampled(s.queue, u.key);
  }

  lemma StepConserved(s: State, a: Action)
    requires Conserved(s)
    ensures Conserved(Step(s, a))
  {
    hide SamplesOf, Coalesced, Collapsed, Take, Flow, IsQueued, SampleOf;
    TakeKeeps(s);
    match a
    case Enqueue(u) =>
      EnqueueFlows(s, u);
      SamplesSnoc(s.lasting, u);
    case Direct(u) =>
      if s.ui.Idle? {
        DirectFlows(s, u);
        SamplesSnoc(s.lasting, u);
      }
    case ClearWidgets => ClearedFlow(s);
    case _ => DrainStepKeeps(s, a);
  }

  lemma ClearedFlow(s: State)
    ensures s.ui.Idle? ==> Flow(Step(s, ClearWidgets)) == SamplesOf(s.queue.pending)
  {
    hide SamplesOf;
    NoSamples();
  }

  lemma SamplesSnoc(us: seq<VariableUpdate>, u: VariableUpdate)
    ensures SamplesOf(us + [u]) == SamplesOf(us)[u.key := SampleOf(u)]
  {
    LatestSnoc(UpdateKey, SampleOf, us, u);
  }

  lemma StepSourced(s: State, a: Action)
    requires Sourced(SamplesOf(s.lasting), SamplesOf(s.enqueued), s.direct)
    ensures Sourced(SamplesOf(Step(s, a).lasting), SamplesOf(Step(s, a).enqueued), Step(s, a).direct)
  {
    hide SamplesOf, Coalesced, Collapsed, Take, IsQueued, SampleOf;
    TakeKeeps(s);
    match a
    case Enqueue(u) =>
      SamplesSnoc(s.lasting, u);
      SamplesSnoc(s.enqueued, u);
    case Direct(u) => SamplesSnoc(s.lasting, u);
    case _ =>
  }

  lemma NoSamples()
    ensures SamplesOf([]) == map[]
  {
  }

  lemma ReceivedFollows(g: Gate, received: map<octets, Sample>, behind: set<octets>, u: VariableUpdate)
    requires Follows(g, received, behind)
    ensures Follows(Received(g, u), received[u.key := SampleOf(u)], BehindAfter(g, behind, u))
  {
    hide SampleOf;
    var g' := Received(g, u);
    forall k | k in g'.records && k != u.key
      ensures k in g.records && g'.records[k].sample == g.records[k].sample
    {
    }
  }

  lemma StepFollows(s: State, a: Action)
    requires Follows(s.gate, SamplesOf(s.received), s.behind)
    ensures Follows(Step(s, a).gate, SamplesOf(Step(s, a).received), Step(s, a).behind)
  {
    hide SamplesOf, Coalesced, SampleOf, Received, Take, BehindAfter, Follows, IsQueued;
    TakeKeeps(s);
    match a
    case ApplyOne =>
      if s.ui.Applying? && s.ui.list != [] {
        TakeFollows(s, s.ui.list[0]);
      }
    case Direct(u) => TakeFollows(s, u);
    case Reconnect => ResetFollows(s.gate, SamplesOf(s.received), s.behind);
    case ClearWidgets => NothingFollows();
    case _ =>
  }

  lemma TakeFollows(s: State, u: VariableUpdate)
    requires Follows(s.gate, SamplesOf(s.received), s.behind)
    ensures Follows(Received(s.gate, u), SamplesOf(s.received + [u]), BehindAfter(s.gate, s.behind, u))
  {
    hide SamplesOf, SampleOf, Received, BehindAfter, Follows;
    ReceivedFollows(s.gate, SamplesOf(s.received), s.behind, u);
    SamplesSnoc(s.received, u);
  }

  lemma ResetFollows(g: Gate, received: map<octets, Sample>, behind: set<octets>)
    requires Follows(g, received, behind)
    ensures Follows(g.(records := SequencesReset(g.records)), received, behind)
  {
  }

  lemma NothingFollows()
    ensures Follows(Gate(map[], 0), SamplesOf([]), {})
  {
  }

  lemma ResetKeepsOrder(g: Gate)
    ensures Ordered(g.(records := SequencesReset(g.records)))
  {
  }

  lemma TakeSmooth(s: State, u: VariableUpdate)
    requires Smooth(s)
    ensures Smooth(Take(s, u))
  {
    hide Received, Accepts, AllZero, BehindAfter;
    if !Take(s, u).disturbed {
      ReceivedDisplays(s.gate, u);
      FallsBehindExactly(s.gate, s.behind, u);
      var behind := BehindAfter(s.gate, s.behind, u);
      assert behind == behind - {u.key} == {};
    }
  }

  lemma StepSmooth(s: State, a: Action)
    requires Smooth(s)
    ensures Smooth(Step(s, a))
  {
    hide Coalesced, Take, IsQueued;
    match a
    case ApplyOne =>
      if s.ui.Applying? && s.ui.list != [] {
        TakeSmooth(s, s.ui.list[0]);
      }
    case Direct(u) => TakeSmooth(s, u);
    case Reconnect => ResetKeepsOrder(s.gate);
    case _ =>
  }

  lemma {:induction false} RunInv(s: State, actions: seq<Action>)
    requires Inv(s)
    ensures Inv(Run(s, actions))
    decreases |actions|
  {
    hide Inv, Step;
    if actions != [] {
      StepInv(s, actions[0]);
      RunInv(Step(s, actions[0]), actions[1..]);
    }
  }

  lemma StepInv(s: State, a: Action)
    requires Inv(s)
    ensures Inv(Step(s, a))
  {
    hide Conserved, Sourced, Scheduled, Follows, Smooth, Step, SamplesOf;
    StepScheduled(s, a);
    StepConserved(s, a);
    StepSourced(s, a);
    StepFollows(s, a);
    StepSmooth(s, a);
  }

  lemma InitInv()
    ensures Inv(Init())
  {
    NoSamples();
  }

  // ---------------------------------------------------------------- main results

  /** In every run a nonempty queue has a drain outstanding, there is never more than one, and the queue
    * holds at most 500 updates unless it holds one per key.
    */
  lemma DrainAlwaysScheduled(actions: seq<Action>)
    ensures var s := Run(Init(), actions);
      && (s.queue.pending != [] ==> Outstanding(s) == 1) && Outstanding(s) <= 1
      && (|s.queue.pending| <= 500 || |s.queue.pending| == |KeySet(s.queue.pending)|)
  {
    hide Conserved, Sourced, Follows, Smooth, Step, Run;
    InitInv();
    RunInv(Init(), actions);
    var s := Run(Init(), actions);
    if DistinctKeys(s.queue.pending) {
      DistinctCount(s.queue.pending);
    }
  }

  predicate AtRest(s: State)
  {
    s.queue.pending == [] && InHand(s.ui) == []
  }

  lemma RestFlow(s: State)
    requires AtRest(s)
    ensures Flow(s) == SamplesOf(s.received)
  {
    NoSamples();
    NoneOnTop(SamplesOf(s.received));
  }

  /** The display shows m, but for the keys that are behind, which it shows with another value. */
  ghost predicate DisplaysBut(records: Records, m: map<octets, Sample>, behind: set<octets>)
  {
    && Displayed(records).Keys == m.Keys
    && (forall k :: k in m ==> (Displayed(records)[k] == m[k] <==> k !in behind))
    && (Displayed(records) == m <==> behind == {})
  }

  lemma AtRestDisplays(s: State)
    requires Follows(s.gate, SamplesOf(s.received), s.behind) && AtRest(s)
    ensures DisplaysBut(s.gate.records, Flow(s), s.behind)
  {
    hide SamplesOf, Displayed, AtRest, Flow;
    RestFlow(s);
  }

  /** In every run, numbered or not, with updates that bypass the queue or not, whenever nothing is queued or in
    * hand the keys displayed are those that arrived, and each shows its last lasting value exactly when it is
    * not behind. That value is the last one enqueued, but for keys whose lasting update was direct.
    */
  lemma LastWriteWinsExactly(actions: seq<Action>)
    ensures var s := Run(Init(), actions);
      && (AtRest(s) ==> DisplaysBut(s.gate.records, SamplesOf(s.lasting), s.behind))
      && Sourced(SamplesOf(s.lasting), SamplesOf(s.enqueued), s.direct)
  {
    hide Step, Run, Scheduled, Smooth, SamplesOf, Displayed, DisplaysBut, Follows, Sourced, AtRest, Flow;
    InitInv();
    RunInv(Init(), actions);
    var s := Run(Init(), actions);
    if AtRest(s) {
      AtRestDisplays(s);
    }
  }

  /** In every run whose updates are all numbered, no update is refused, and whenever nothing is queued
    * or in hand the store displays the last lasting value of every key, although coalescing puts sequence
    * numbers out of order. Without direct updates that is the last value enqueued.
    */
  lemma LastWriteWins(actions: seq<Action>)
    requires Numbered(actions)
    ensures var s := Run(Init(), actions);
      && s.refused == 0 && Ordered(s.gate)
      && (AtRest(s) ==> Displayed(s.gate.records) == SamplesOf(s.lasting))
      && (NoneDirect(actions) ==> s.lasting == s.enqueued)
  {
    hide Step, Run, Ordered, Displayed, SamplesOf, AtRest;
    assert AllNumbered([]);
    NumberedNeverDisturbed(Init(), actions);
    LastWriteWinsUndisturbed(actions);
    if NoneDirect(actions) {
      LastingIsEnqueued(Init(), actions);
    }
  }

  /** The same holds in any run in which an unnumbered update never meets a numbered record. */
  lemma LastWriteWinsUndisturbed(actions: seq<Action>)
    requires !Run(Init(), actions).disturbed
    ensures var s := Run(Init(), actions);
      && s.refused == 0 && Ordered(s.gate)
      && (AtRest(s) ==> Displayed(s.gate.records) == SamplesOf(s.lasting))
  {
    hide Step, Run, Scheduled, Conserved, Sourced, Follows, SamplesOf, Displayed, AtRest;
    InitInv();
    RunInv(Init(), actions);
    LastWriteWinsExactly(actions);
  }

  predicate NoneDirect(actions: seq<Action>)
  {
    forall i :: 0 <= i < |actions| ==> !actions[i].Direct?
  }

  lemma {:induction false} LastingIsEnqueued(s: State, actions: seq<Action>)
    requires NoneDirect(actions) && s.lasting == s.enqueued
    ensures Run(s, actions).lasting == Run(s, actions).enqueued
    decreases |actions|
  {
    hide Take, Coalesced;
    if actions != [] {
      TakeKeeps(s);
      LastingIsEnqueued(Step(s, actions[0]), actions[1..]);
    }
  }

  /** A disturbed run need not lose anything: a new key is accepted without a number beside a numbered one. */
  lemma DisturbedButComplete(a: VariableUpdate, b: VariableUpdate)
    requires a.key != b.key && a.seqNo != 0 && b.seqNo == 0
    ensures var g := Received(Gate(map[], 0), a);
      !AllZero(g.records) && Accepts(g, b) && Shows(Received(g, b), a) && Shows(Received(g, b), b)
  {
    assert a.key in Received(Gate(map[], 0), a).records;
  }

  /** Clearing the widgets forgets everything received; what is still queued will be displayed. */
  lemma ClearKeepsTheQueue(s: State)
    requires Inv(s) && s.ui.Idle?
    ensures var s' := Step(s, ClearWidgets);
      Inv(s') && Displayed(s'.gate.records) == map[] && SamplesOf(s'.lasting) == SamplesOf(s.queue.pending)
      && s'.queue == s.queue && Safe(s'.gate)
  {
    hide SamplesOf, Scheduled, Conserved, Sourced, Follows, Smooth;
    StepInv(s, ClearWidgets);
  }

  // ---------------------------------------------------------------- updates that bypass the queue

  /** A seek: the UI thread receives what it publishes, one update after the other. */
  function Directs(us: seq<VariableUpdate>): seq<Action>
  {
    if us == [] then [] else Directs(us[..|us| - 1]) + [Direct(us[|us| - 1])]
  }

  lemma {:induction false} RunConcat(s: State, a: seq<Action>, b: seq<Action>)
    ensures Run(s, a + b) == Run(Run(s, a), b)
    decreases |a|
  {
    hide Step;
    if a == [] {
      assert a + b == b;
    } else {
      assert (a + b)[1..] == a[1..] + b;
      RunConcat(Step(s, a[0]), a[1..], b);
    }
  }

  lemma RunOne(s: State, a: Action, rest: seq<Action>)
    ensures Run(s, [a] + rest) == Run(Step(s, a), rest)
  {
    hide Step;
    assert ([a] + rest)[1..] == rest;
  }

  lemma RunNone(s: State)
    ensures Run(s, []) == s
  {
  }

  lemma RunLast(s: State, actions: seq<Action>, a: Action)
    ensures Run(s, actions + [a]) == Step(Run(s, actions), a)
  {
    hide Step, Run;
    RunConcat(s, actions, [a]);
    RunOne(Run(s, actions), a, []);
    RunNone(Step(Run(s, actions), a));
    assert [a] + [] == [a];
  }

  lemma {:induction false} DirectsRun(s: State, us: seq<VariableUpdate>)
    requires s.ui.Idle?
    ensures var s' := Run(s, Directs(us));
      && s'.ui.Idle? && s'.queue == s.queue && s'.gate == ReceivedAll(s.gate, us) && s'.received == s.received + us
      && s'.enqueued == s.enqueued
      && (s.queue.pending == [] ==> s'.lasting == s.lasting + us)
    decreases |us|
  {
    hide Take, Run, Received;
    if us == [] {
      RunNone(s);
      assert s.received + [] == s.received && s.lasting + [] == s.lasting;
    } else {
      var front, u := us[..|us| - 1], us[|us| - 1];
      DirectsRun(s, front);
      RunLast(s, Directs(front), Direct(u));
      TakeKeeps(Run(s, Directs(front)));
      assert us == front + [u];
    }
  }

  /** What the worker enqueues in the course of the actions. */
  function Arrivals(actions: seq<Action>): seq<VariableUpdate>
  {
    if actions == [] then []
    else (if actions[0].Enqueue? then [actions[0].u] else []) + Arrivals(actions[1..])
  }

  predicate OnlyArrivals(actions: seq<Action>)
  {
    forall i :: 0 <= i < |actions| ==> !actions[i].Direct? && !actions[i].ClearWidgets?
  }

  lemma {:induction false} FlowRuns(s: State, actions: seq<Action>)
    requires OnlyArrivals(actions)
    ensures Flow(Run(s, actions)) == Flow(s) + SamplesOf(Arrivals(actions))
    decreases |actions|
  {
    hide SamplesOf, Flow, Step, SampleOf;
    if actions == [] {
      NoSamples();
      NoneOnTop(Flow(s));
    } else {
      var a, rest := actions[0], actions[1..];
      FlowRuns(Step(s, a), rest);
      if a.Enqueue? {
        EnqueueFlows(s, a.u);
        SamplesConcat([a.u], Arrivals(rest));
        SamplesOne(a.u);
        Layers(Flow(s), SamplesOf([a.u]), SamplesOf(Arrivals(rest)));
        assert Flow(s) + SamplesOf([a.u]) == Flow(s)[a.u.key := SampleOf(a.u)];
      } else {
        DrainStepKeeps(s, a);
        assert [] + Arrivals(rest) == Arrivals(rest);
      }
    }
  }

  lemma NothingMore(us: seq<VariableUpdate>)
    ensures us + [] == us && [] + us == us
  {
  }

  lemma StepHistory(s: State, a: Action)
    requires !a.ClearWidgets?
    ensures Step(s, a).enqueued == if a.Enqueue? then s.enqueued + [a.u] else s.enqueued
    ensures !a.Direct? ==> Step(s, a).lasting == if a.Enqueue? then s.lasting + [a.u] else s.lasting
  {
    hide Take, Coalesced, IsQueued;
    TakeKeeps(s);
  }

  /** A seek on the UI thread stores its values at once, but older updates may still be queued and newer ones
    * arrive. In any session, once all is drained every key shows the last value in the order received before,
    * sought, queued at the time of the seek, enqueued since, exactly when it is not behind.
    */
  lemma SeekOverQueue(s: State, sent: seq<VariableUpdate>, actions: seq<Action>)
    requires Inv(s) && s.ui.Idle? && OnlyArrivals(actions) && AtRest(Run(s, Directs(sent) + actions))
    ensures var s' := Run(s, Directs(sent) + actions);
      DisplaysBut(s'.gate.records,
                  SamplesOf(s.received) + SamplesOf(sent) + SamplesOf(s.queue.pending) + SamplesOf(Arrivals(actions)),
                  s'.behind)
  {
    hide SamplesOf, Displayed, Run, Scheduled, Conserved, Sourced, Smooth, Follows, AtRest, DisplaysBut;
    var s1 := Run(s, Directs(sent));
    RunConcat(s, Directs(sent), actions);
    RunInv(s, Directs(sent) + actions);
    DirectsRun(s, sent);
    SamplesConcat(s.received, sent);
    NoSamples();
    NoneOnTop(SamplesOf(s.received + sent));
    FlowRuns(s1, actions);
    AtRestDisplays(Run(s1, actions));
  }

  lemma LayersAgree(base: map<octets, Sample>, middle: map<octets, Sample>, top: map<octets, Sample>)
    ensures (forall k :: k in middle ==> (base + middle + top)[k] == middle[k])
            <==> forall k :: k in middle && k in top ==> top[k] == middle[k]
  {
    if forall k :: k in middle ==> (base + middle + top)[k] == middle[k] {
      forall k | k in middle && k in top
        ensures top[k] == middle[k]
      {
        assert (base + middle + top)[k] == middle[k];
      }
    }
  }

  /** In a numbered session no key falls behind, so the values sought are displayed in the end exactly if no key
    * sought was queued, or enqueued since, with another last value.
    */
  lemma NumberedSeekOverQueue(s: State, sent: seq<VariableUpdate>, actions: seq<Action>)
    requires Inv(s) && s.ui.Idle? && OnlyArrivals(actions) && AtRest(Run(s, Directs(sent) + actions))
    requires !s.disturbed && AllNumbered(s.queue.pending) && AllNumbered(sent) && Numbered(actions)
    ensures var s' := Run(s, Directs(sent) + actions);
      var sought, later := SamplesOf(sent), SamplesOf(s.queue.pending) + SamplesOf(Arrivals(actions));
      && s'.refused == 0 && Displayed(s'.gate.records) == SamplesOf(s.received) + sought + later
      && ((forall k :: k in sought ==> Displayed(s'.gate.records)[k] == sought[k])
          <==> forall k :: k in sought && k in later ==> later[k] == sought[k])
  {
    hide SamplesOf, Displayed, Run, Scheduled, Conserved, Sourced, Follows, AtRest;
    SeekOverQueue(s, sent, actions);
    DirectsNumbered(sent);
    RunInv(s, Directs(sent) + actions);
    NumberedNeverDisturbed(s, Directs(sent) + actions);
    var queued, arrived := SamplesOf(s.queue.pending), SamplesOf(Arrivals(actions));
    Layers(SamplesOf(s.received) + SamplesOf(sent), queued, arrived);
    LayersAgree(SamplesOf(s.received), SamplesOf(sent), queued + arrived);
  }

  lemma {:induction false} DirectsNumbered(us: seq<VariableUpdate>)
    requires AllNumbered(us)
    ensures Numbered(Directs(us))
    decreases |us|
  {
    if us != [] {
      DirectsNumbered(us[..|us| - 1]);
    }
  }

  /** A single older update in the queue replaces the value sought, however it is numbered. */
  lemma SeekIsOverwritten(key: octets, older: Value, sought: Value)
    requires older != sought
    ensures var u, v := VariableUpdate(key, 3, older, 1), VariableUpdate(key, 3, sought, 2);
      var s := Step(Step(Init(), Enqueue(u)), Direct(v));
      && Displayed(s.gate.records) == map[key := Sample(StringType, sought)]
      && Displayed(ReceivedAll(s.gate, Coalesced(s.queue.pending)).records) == map[key := Sample(StringType, older)]
  {
    hide Received, Coalesced, ReceivedAll, Displayed, Take;
    var u, v := VariableUpdate(key, 3, older, 1), VariableUpdate(key, 3, sought, 2);
    var s1 := Step(Init(), Enqueue(u));
    assert [] + [u] == [u];
    TakeKeeps(s1);
    CoalescedOne(u);
    ReceivedOne(Received(Gate(map[], 0), v), u);
    NewThenOld(key, older, sought);
  }

  lemma CoalescedOne(u: VariableUpdate)
    ensures Coalesced([u]) == [u]
  {
    assert [u][..0] == [] && Coalesced([]) == [];
  }

  lemma CoalescedPair(x: VariableUpdate, y: VariableUpdate)
    requires x.key == y.key
    ensures Coalesced([x, y]) == [y]
  {
    assert [x, y][..1] == [x];
    CoalescedOne(x);
  }

  lemma ReceivedOne(g: Gate, u: VariableUpdate)
    ensures ReceivedAll(g, [u]) == Received(g, u)
  {
    assert [u][..0] == [] && ReceivedAll(g, []) == g;
  }

  lemma NewThenOld(key: octets, older: Value, newer: Value)
    ensures var g := Received(Gate(map[], 0), VariableUpdate(key, 3, newer, 2));
      && Displayed(g.records) == map[key := Sample(StringType, newer)]
      && Displayed(Received(g, VariableUpdate(key, 3, older, 1)).records) == map[key := Sample(StringType, older)]
  {
  }

  predicate AllNumbered(us: seq<VariableUpdate>)
  {
    forall i :: 0 <= i < |us| ==> us[i].seqNo != 0
  }

  lemma {:induction false} CoalescedNumbered(us: seq<VariableUpdate>)
    requires AllNumbered(us)
    ensures AllNumbered(Coalesced(us))
  {
    if us != [] {
      CoalescedNumbered(us[..|us| - 1]);
    }
  }

  /** Every update that arrives, through the queue or directly, carries a number. */
  predicate Numbered(actions: seq<Action>)
  {
    forall i :: 0 <= i < |actions| && (actions[i].Enqueue? || actions[i].Direct?) ==> actions[i].u.seqNo != 0
  }

  lemma {:induction false} NumberedNeverDisturbed(s: State, actions: seq<Action>)
    requires !s.disturbed && AllNumbered(s.queue.pending) && AllNumbered(InHand(s.ui)) && Numbered(actions)
    ensures !Run(s, actions).disturbed
    decreases |actions|
  {
    hide Step;
    if actions != [] {
      StepNumbered(s, actions[0]);
      NumberedNeverDisturbed(Step(s, actions[0]), actions[1..]);
    }
  }

  lemma StepNumbered(s: State, a: Action)
    requires AllNumbered(s.queue.pending) && AllNumbered(InHand(s.ui))
    requires a.Enqueue? ==> a.u.seqNo != 0
    ensures var s' := Step(s, a);
      && AllNumbered(s'.queue.pending) && AllNumbered(InHand(s'.ui))
      && (s'.disturbed ==> s.disturbed || (a.Direct? && a.u.seqNo == 0 && !AllZero(s.gate.records)))
  {
    hide Coalesced, Received, Accepts, AllZero, BehindAfter;
    match a
    case Enqueue(u) => CoalescedNumbered(s.queue.pending + [u]);
    case BeginDrain => CoalescedNumbered(s.queue.pending[..BatchSize(s.queue)]);
    case _ =>
  }

  predicate AllUnnumbered(us: seq<VariableUpdate>)
  {
    forall i :: 0 <= i < |us| ==> us[i].seqNo == 0
  }

  predicate Unnumbered(actions: seq<Action>)
  {
    forall i :: 0 <= i < |actions| && (actions[i].Enqueue? || actions[i].Direct?) ==> actions[i].u.seqNo == 0
  }

  lemma {:induction false} CoalescedUnnumbered(us: seq<VariableUpdate>)
    requires AllUnnumbered(us)
    ensures AllUnnumbered(Coalesced(us))
  {
    if us != [] {
      CoalescedUnnumbered(us[..|us| - 1]);
    }
  }

  lemma {:induction false} UnnumberedNeverDisturbed(s: State, actions: seq<Action>)
    requires !s.disturbed && AllZero(s.gate.records) && Unnumbered(actions)
    requires AllUnnumbered(s.queue.pending) && AllUnnumbered(InHand(s.ui))
    ensures !Run(s, actions).disturbed
    decreases |actions|
  {
    hide Step;
    if actions != [] {
      StepUnnumbered(s, actions[0]);
      UnnumberedNeverDisturbed(Step(s, actions[0]), actions[1..]);
    }
  }

  lemma StepUnnumbered(s: State, a: Action)
    requires !s.disturbed && AllZero(s.gate.records) && (a.Enqueue? || a.Direct? ==> a.u.seqNo == 0)
    requires AllUnnumbered(s.queue.pending) && AllUnnumbered(InHand(s.ui))
    ensures var s' := Step(s, a);
      && !s'.disturbed && AllZero(s'.gate.records) && AllUnnumbered(s'.queue.pending) && AllUnnumbered(InHand(s'.ui))
  {
    hide Coalesced, Accepts, BehindAfter, IsQueued;
    match a
    case Enqueue(u) => CoalescedUnnumbered(s.queue.pending + [u]);
    case BeginDrain => CoalescedUnnumbered(s.queue.pending[..BatchSize(s.queue)]);
    case _ =>
  }

  /** With no arrivals every drain takes 150 updates or all that are left, so n updates are gone after
    * n / 150 drains, rounded up.
    */
  lemma {:induction false} DrainsEmptyTheQueue(s: State, actions: seq<Action>)
    requires forall i :: 0 <= i < |actions| ==> !actions[i].Enqueue?
    ensures var s' := Run(s, actions);
      var n, d := |s.queue.pending|, s'.drains - s.drains;
      && d >= 0
      && |s'.queue.pending| == (if n <= 150 * d then 0 else n - 150 * d)
      && (d >= (n + 149) / 150 ==> s'.queue.pending == [])
    decreases |actions|
  {
    hide Coalesced, Take, IsQueued;
    if actions != [] {
      TakeKeeps(s);
      DrainsEmptyTheQueue(Step(s, actions[0]), actions[1..]);
    }
  }

  /** After a reconnect an update of any number is taken in, while what is displayed has stayed. */
  lemma ReconnectTakesAnyNumber(s: State, u: VariableUpdate)
    requires s.ui.Idle?
    ensures var g := Step(s, Reconnect).gate;
      && Displayed(g.records) == Displayed(s.gate.records)
      && Received(g, u).records[u.key := Record(SampleOf(u), 0)] == g.records[u.key := Record(SampleOf(u), 0)]
      && Shows(Received(g, u), u)
  {
    hide SampleOf;
  }

  /** What the UI side does next by itself: finish what it is at, post the drain due, or drain. */
  function NextStep(s: State): Action
  {
    if s.ui.Reposting? then Repost
    else if s.ui.Applying? then ApplyOne
    else if s.aboutToPost > 0 then Post
    else BeginDrain
  }

  /** Bounds the steps that are left until queue and hands are empty. */
  function WorkLeft(s: State): nat
  {
    6 * |s.queue.pending| + 3 * s.aboutToPost + 2 * s.posted
    + match s.ui { case Idle => 0 case Reposting(list) => 4 + |list| case Applying(list) => 1 + |list| }
  }

  lemma {:induction false} CoalescedIsNoLonger(us: seq<VariableUpdate>)
    ensures |Coalesced(us)| <= |us|
  {
    if us != [] {
      CoalescedIsNoLonger(us[..|us| - 1]);
    }
  }

  lemma WorkShrinks(s: State)
    requires Scheduled(s) && !AtRest(s)
    ensures WorkLeft(Step(s, NextStep(s))) < WorkLeft(s)
  {
    hide Coalesced, Take, DistinctKeys;
    TakeKeeps(s);
    CoalescedIsNoLonger(s.queue.pending[..BatchSize(s.queue)]);
  }

  /** Left to itself the UI side comes to rest: whatever is queued or in hand is received after so many steps. */
  ghost function CatchUp(s: State): (actions: seq<Action>)
    requires Scheduled(s)
    ensures AtRest(Run(s, actions)) && |actions| <= WorkLeft(s)
    ensures forall a :: a in actions ==> a.Post? || a.BeginDrain? || a.Repost? || a.ApplyOne?
    decreases WorkLeft(s)
  {
    if AtRest(s) then []
    else
      WorkShrinks(s);
      StepScheduled(s, NextStep(s));
      [NextStep(s)] + CatchUp(Step(s, NextStep(s)))
  }

  // ---------------------------------------------------------------- the code

  class VariableStore {
    var records: Records

    constructor ()
      ensures records == map[]
    {
      records := map[];
    }

    method Upsert(key: octets, sample: Sample, seqNo: uint64) returns (record: Record)
      modifies this
      ensures records == Upserted(old(records), key, sample, seqNo)
      ensures key in records && record == records[key]
    {
      if key !in records {
        records := records[key := Record(sample, seqNo)];
      } else if seqNo >= records[key].seqNo {
        records := records[key := Record(sample, seqNo)];
      }
      record := records[key];
    }

    method ResetSequenceTracking()
      modifies this
      ensures records == SequencesReset(old(records))
    {
      var keys := records.Keys;
      while keys != {}
        invariant keys <= records.Keys == old(records).Keys
        invariant forall k :: k in records ==>
          records[k] == if k in keys then old(records)[k] else old(records)[k].(seqNo := 0)
        decreases |keys|
      {
        var k :| k in keys;
        records := records[k := records[k].(seqNo := 0)];
        keys := keys - {k};
      }
    }

    method Clear()
      modifies this
      ensures records == map[]
    {
      records := map[];
    }
  }

  class MainWindow {
    const variableStore: VariableStore
    var pendingUiUpdates: seq<VariableUpdate>
    var uiDrainScheduled: bool
    var lastTransportSeq: uint64

    constructor ()
      ensures fresh(variableStore) && QueueView() == Queue([], false) && GateView() == Gate(map[], 0)
    {
      variableStore := new VariableStore();
      pendingUiUpdates, uiDrainScheduled, lastTransportSeq := [], false, 0;
    }

    function QueueView(): Queue
      reads this
    {
      Queue(pendingUiUpdates, uiDrainScheduled)
    }

    function GateView(): Gate
      reads this, variableStore
    {
      Gate(variableStore.records, lastTransportSeq)
    }

    /** The loop shared by overflow collapse and batch coalescing. */
    static method CoalesceByKey(us: seq<VariableUpdate>) returns (list: seq<VariableUpdate>)
      ensures list == Coalesced(us)
    {
      hide Coalesced, Find;
      list := [];
      var keyIndex: map<octets, nat> := map[];
      NothingCoalesced();
      assert us[..0] == [];
      for i := 0 to |us|
        invariant list == Coalesced(us[..i])
        invariant forall k :: k in keyIndex <==> Find(list, k) < |list|
        invariant forall k :: k in keyIndex ==> keyIndex[k] == Find(list, k)
      {
        var u := us[i];
        PlacedFinds(list, u);
        CoalescedStep(us, i);
        if u.key !in keyIndex {
          keyIndex := keyIndex[u.key := |list|];
          list := list + [u];
        } else {
          list := list[keyIndex[u.key] := u];
        }
      }
      assert us[..|us|] == us;
    }

    /** The worker's locked section; it tells whether the caller must post a drain. */
    method EnqueueUpdate(u: VariableUpdate) returns (scheduleDrain: bool)
      modifies this`pendingUiUpdates, this`uiDrainScheduled
      ensures QueueView() == Enqueued(old(QueueView()), u)
      ensures scheduleDrain == !old(uiDrainScheduled)
    {
      scheduleDrain := false;
      pendingUiUpdates := pendingUiUpdates + [u];
      if |pendingUiUpdates| > QUEUE_HIGH_WATER {
        pendingUiUpdates := CoalesceByKey(pendingUiUpdates);
      }
      if !uiDrainScheduled {
        uiDrainScheduled := true;
        scheduleDrain := true;
      }
    }

    /** The UI thread's locked section. */
    method TakeBatch() returns (batch: seq<VariableUpdate>, reschedule: bool)
      modifies this`pendingUiUpdates, this`uiDrainScheduled
      ensures QueueView() == Taken(old(QueueView()))
      ensures batch == old(pendingUiUpdates)[..BatchSize(old(QueueView()))] && reschedule == uiDrainScheduled
    {
      reschedule := false;
      uiDrainScheduled := false;
      var take := if |pendingUiUpdates| < DRAIN_BUDGET then |pendingUiUpdates| else DRAIN_BUDGET;
      batch := pendingUiUpdates[..take];
      pendingUiUpdates := pendingUiUpdates[take..];
      if pendingUiUpdates != [] {
        uiDrainScheduled := true;
        reschedule := true;
      }
    }

    /** Rollback detection and the store, for an update that is shown as a variable of its own. */
    method OnVariableUpdateReceived(u: VariableUpdate)
      modifies this`lastTransportSeq, variableStore
      ensures GateView() == Received(old(GateView()), u)
      ensures u.key in variableStore.records && variableStore.records[u.key].seqNo <= u.seqNo ==>
        var record := variableStore.records[u.key];
        && record.sample.value == u.value
        && (record.sample.kind == BoolType <==> u.valueType == 1)
        && (record.sample.kind == DoubleType <==> u.valueType == 2)
    {
      if u.seqNo != 0 && lastTransportSeq != 0 && u.seqNo < lastTransportSeq {
        variableStore.ResetSequenceTracking();
      }
      lastTransportSeq := u.seqNo;
      var record := variableStore.Upsert(u.key, SampleOf(u), u.seqNo);
    }

    /** The store's part of clearing the widgets. */
    method OnClearWidgets()
      modifies this`lastTransportSeq, variableStore
      ensures GateView() == Gate(map[], 0)
    {
      variableStore.Clear();
      lastTransportSeq := 0;
    }

    /** One drain: take a batch, coalesce it, and receive the result in order. */
    method DrainPendingUiUpdates() returns (reschedule: bool)
      modifies this, variableStore
      ensures QueueView() == Taken(old(QueueView())) && reschedule == uiDrainScheduled
      ensures GateView() == ReceivedAll(old(GateView()),
        Coalesced(old(pendingUiUpdates)[..BatchSize(old(QueueView()))]))
    {
      hide Coalesced, Received, ReceivedAll;
      var batch;
      batch, reschedule := TakeBatch();
      var coalesced := CoalesceByKey(batch);
      ghost var g0 := GateView();
      ReceivedNone(g0);
      assert coalesced[..0] == [];
      for i := 0 to |coalesced|
        invariant QueueView() == Taken(old(QueueView())) && reschedule == uiDrainScheduled
        invariant GateView() == ReceivedAll(g0, coalesced[..i])
      {
        ReceivedAllStep(g0, coalesced, i);
        OnVariableUpdateReceived(coalesced[i]);
      }
      assert coalesced[..|coalesced|] == coalesced;
    }
  }

  function ReceivedAll(g: Gate, us: seq<VariableUpdate>): Gate
  {
    if us == [] then g else Received(ReceivedAll(g, us[..|us| - 1]), us[|us| - 1])
  }

  lemma ReceivedNone(g: Gate)
    ensures ReceivedAll(g, []) == g
  {
  }

  lemma ReceivedAllStep(g: Gate, us: seq<VariableUpdate>, i: nat)
    requires i < |us|
    ensures ReceivedAll(g, us[..i + 1]) == Received(ReceivedAll(g, us[..i]), us[i])
  {
    assert us[..i + 1][..i] == us[..i];
  }

  // ---------------------------------------------------------------- the drain is an uninterrupted run

  lemma {:induction false} ReceivedAllCons(g: Gate, us: seq<VariableUpdate>)
    requires us != []
    ensures ReceivedAll(g, us) == ReceivedAll(Received(g, us[0]), us[1..])
    decreases |us|
  {
    hide Received;
    var n := |us| - 1;
    if n > 0 {
      ReceivedAllCons(g, us[..n]);
      assert us[..n][1..] == us[1..][..n - 1];
    }
  }

  function Applies(n: nat): seq<Action>
  {
    if n == 0 then [] else [ApplyOne] + Applies(n - 1)
  }

  lemma {:induction false} ApplyAll(s: State)
    requires s.ui.Applying?
    ensures var s' := Run(s, Applies(|s.ui.list| + 1));
      && s'.ui.Idle? && s'.gate == ReceivedAll(s.gate, s.ui.list) && s'.queue == s.queue
      && s'.posted == s.posted && s'.aboutToPost == s.aboutToPost
    decreases |s.ui.list|
  {
    hide Received, Take, Run;
    TakeKeeps(s);
    RunOne(s, ApplyOne, Applies(|s.ui.list|));
    if s.ui.list == [] {
      RunNone(Step(s, ApplyOne));
    } else {
      ReceivedAllCons(s.gate, s.ui.list);
      ApplyAll(Step(s, ApplyOne));
    }
  }

  /** A drain event taken to its end without interruption does what DrainPendingUiUpdates promises, and
    * posts another drain exactly when updates are left.
    */
  lemma UninterruptedDrain(s: State)
    requires s.ui.Idle? && s.posted > 0
    ensures var batch := s.queue.pending[..BatchSize(s.queue)];
      var again := Taken(s.queue).drainScheduled;
      var s' := Run(s, [BeginDrain] + ((if again then [Repost] else []) + Applies(|Coalesced(batch)| + 1)));
      && s'.ui.Idle? && s'.queue == Taken(s.queue) && s'.gate == ReceivedAll(s.gate, Coalesced(batch))
      && s'.posted == (if again then s.posted else s.posted - 1) && s'.aboutToPost == s.aboutToPost
  {
    hide Received, Take, Run, Coalesced, ReceivedAll;
    var list := Coalesced(s.queue.pending[..BatchSize(s.queue)]);
    var rest := Applies(|list| + 1);
    var s1 := Step(s, BeginDrain);
    if Taken(s.queue).drainScheduled {
      RunOne(s, BeginDrain, [Repost] + rest);
      RunOne(s1, Repost, rest);
      ApplyAll(Step(s1, Repost));
    } else {
      assert [] + rest == rest;
      RunOne(s, BeginDrain, rest);
      ApplyAll(s1);
    }
  }

  lemma NothingCoalesced()
    ensures Coalesced([]) == [] && forall k :: Find([], k) == 0
  {
  }

  lemma CoalescedStep(us: seq<VariableUpdate>, i: nat)
    requires i < |us|
    ensures Coalesced(us[..i + 1]) == Placed(Coalesced(us[..i]), us[i])
  {
    assert us[..i + 1][..i] == us[..i];
  }

  lemma PlacedFinds(list: seq<VariableUpdate>, u: VariableUpdate)
    ensures forall k :: Find(Placed(list, u), k) < |Placed(list, u)| <==> k == u.key || Find(list, k) < |list|
    ensures forall k :: Find(list, k) < |list| ==> Find(Placed(list, u), k) == Find(list, k)
    ensures Find(Placed(list, u), u.key) == Find(list, u.key)
  {
    forall k
      ensures Find(Placed(list, u), k) < |Placed(list, u)| <==> k == u.key || Find(list, k) < |list|
      ensures Find(list, k) < |list| ==> Find(Placed(list, u), k) == Find(list, k)
      ensures k == u.key ==> Find(Placed(list, u), k) == Find(list, k)
    {
      var i := Find(list, u.key);
      if i == |list| {
        FindSnoc(list, u, k);
      } else {
        var j, j' := Find(list, k), Find(Placed(list, u), k);
        assert forall m :: 0 <= m < |list| ==> Placed(list, u)[m].key == list[m].key;
      }
    }
  }
}
