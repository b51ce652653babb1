/** From a recorded session to the display: a seek on the UI thread fills the store directly, then the
  * playback thread queues what it delivers while the UI thread drains.
  */
module ReplayPipeline {
  import opened DirectWire
  import opened LastWrite
  import opened Transport
  import R = ReplayTransport
  import U = UiUpdates

  /** What a map of last updates looks like on the dashboard. */
  function Display(m: Observed): map<octets, U.Sample>
  {
    map k | k in m :: U.SampleOf(m[k])
  }

  /** A fresh dashboard that seeks and then only receives what the worker enqueues. */
  ghost function Watched(sent: seq<VariableUpdate>, actions: seq<U.Action>): U.State
  {
    U.Run(U.Init(), U.Directs(sent) + actions)
  }

  /** What replaying from the start shows; before playback passes an event, what the seek rebuilt. */
  ghost function Expected(events: seq<R.Event>, stride: nat, p: R.Playback, cs: seq<R.Command>): Observed
    requires stride > 0 && R.Sorted(events) && R.Positioned(events, p)
  {
    R.PlaybackIsExactlyOnce(events, p, cs);
    var q := R.RunPlayback(events, p, cs);
    if q.next == p.next then R.Rebuilt(events, stride, p.next) else R.StateAt(events, q.next)
  }

  /** The dashboard has been handed what the seek publishes and what playback delivers, and is at rest. */
  ghost predicate Plays(events: seq<R.Event>, stride: nat, p: R.Playback, sent: seq<VariableUpdate>,
                        cs: seq<R.Command>, actions: seq<U.Action>)
    requires stride > 0 && R.Sorted(events) && R.Positioned(events, p)
  {
    && R.ListsMap(sent, R.Rebuilt(events, stride, p.next)) && U.OnlyArrivals(actions)
    && U.Arrivals(actions) == R.RunDelivers(events, p, cs)
    && U.AtRest(Watched(sent, actions))
  }

  lemma PlayedShows(events: seq<R.Event>, stride: nat, p: R.Playback, sent: seq<VariableUpdate>, cs: seq<R.Command>)
    requires stride > 0 && R.Sorted(events) && R.Positioned(events, p)
    requires R.ListsMap(sent, R.Rebuilt(events, stride, p.next))
    ensures MapOf(sent + R.RunDelivers(events, p, cs)) == Expected(events, stride, p, cs)
  {
    hide MapOf, R.DataUpdates, R.Rebuilt, R.StateAt, R.RunPlayback, R.RunDelivers, R.Positioned, R.LowerBound;
    R.PlaybackIsExactlyOnce(events, p, cs);
    var q := R.RunPlayback(events, p, cs);
    MapOfConcat(sent, R.RunDelivers(events, p, cs));
    if q.next == p.next {
      assert events[p.next..q.next] == [];
      R.NoData();
      R.EmptyMap();
      assert MapOf(sent) + map[] == MapOf(sent);
    } else {
      R.PlayedOn(events, stride, p.next, q.next);
    }
  }

  lemma FreshFlow()
    ensures U.Flow(U.Init()) == map[] && U.Init().ui.Idle?
  {
    U.NoSamples();
  }

  lemma WatchedFlows(sent: seq<VariableUpdate>, actions: seq<U.Action>)
    requires U.OnlyArrivals(actions)
    ensures U.Flow(Watched(sent, actions)) == Display(MapOf(sent + U.Arrivals(actions)))
  {
    hide U.Run, U.SamplesOf, MapOf, U.SampleOf;
    FreshFlow();
    U.RunConcat(U.Init(), U.Directs(sent), actions);
    U.DirectsRun(U.Init(), sent);
    U.FlowRuns(U.Run(U.Init(), U.Directs(sent)), actions);
    U.NoSamples();
    U.NothingMore(sent);
    U.NoneOnTop(U.SamplesOf(sent));
    U.SamplesConcat(sent, U.Arrivals(actions));
    U.SamplesFromMap(sent + U.Arrivals(actions));
  }

  // ---------------------------------------------------------------- main results

  /** A fresh dashboard seeks and then plays, with the UI thread draining in any order. Once everything
    * delivered is through, it displays exactly the keys of the fold of all data events before the cursor, and
    * each key shows its value in the fold exactly when it is not behind, that is, unless its last update was
    * refused (FallsBehindExactly). So the display is the fold if and only if no key is behind.
    */
  lemma SeekThenPlayDisplays(events: seq<R.Event>, stride: nat, p: R.Playback, sent: seq<VariableUpdate>,
                             cs: seq<R.Command>, actions: seq<U.Action>)
    requires stride > 0 && R.Sorted(events) && R.Positioned(events, p) && Plays(events, stride, p, sent, cs, actions)
    ensures var s := Watched(sent, actions);
      U.DisplaysBut(s.gate.records, Display(Expected(events, stride, p, cs)), s.behind)
  {
    hide U.Run, MapOf, U.Displayed, Expected, Display, R.ListsMap, R.RunDelivers, R.Positioned, U.AtRest, U.Flow,
      U.DisplaysBut, U.Scheduled, U.Conserved, U.Sourced, U.Smooth, U.Follows;
    U.InitInv();
    U.RunInv(U.Init(), U.Directs(sent) + actions);
    U.AtRestDisplays(Watched(sent, actions));
    WatchedFlows(sent, actions);
    PlayedShows(events, stride, p, sent, cs);
  }

  lemma UndisturbedDisplays(events: seq<R.Event>, stride: nat, p: R.Playback, sent: seq<VariableUpdate>,
                            cs: seq<R.Command>, actions: seq<U.Action>)
    requires stride > 0 && R.Sorted(events) && R.Positioned(events, p) && Plays(events, stride, p, sent, cs, actions)
    requires !Watched(sent, actions).disturbed
    ensures var s := Watched(sent, actions);
      s.refused == 0 && U.Displayed(s.gate.records) == Display(Expected(events, stride, p, cs))
  {
    hide U.Run, U.Displayed, Expected, Display, R.Positioned, Plays, U.Scheduled, U.Conserved, U.Sourced, U.Follows;
    U.InitInv();
    U.RunInv(U.Init(), U.Directs(sent) + actions);
    SeekThenPlayDisplays(events, stride, p, sent, cs, actions);
  }

  // ---------------------------------------------------------------- sessions with and without numbers

  /** Every data event is unnumbered, or every one is numbered. */
  predicate DataLike(events: seq<R.Event>, unnumbered: bool)
  {
    forall i :: 0 <= i < |events| && events[i].kind == R.Data ==> (events[i].update.seqNo == 0) == unnumbered
  }

  predicate Like(us: seq<VariableUpdate>, unnumbered: bool)
  {
    forall i :: 0 <= i < |us| ==> (us[i].seqNo == 0) == unnumbered
  }

  lemma {:induction false} UpdatesLike(events: seq<R.Event>, unnumbered: bool)
    requires DataLike(events, unnumbered)
    ensures Like(R.DataUpdates(events), unnumbered)
    decreases |events|
  {
    if events != [] {
      UpdatesLike(events[..|events| - 1], unnumbered);
    }
  }

  lemma {:induction false} LastValuesLike(log: seq<VariableUpdate>, unnumbered: bool)
    requires Like(log, unnumbered)
    ensures forall k :: k in MapOf(log) ==> (MapOf(log)[k].seqNo == 0) == unnumbered
  {
    if log != [] {
      LastValuesLike(log[..|log| - 1], unnumbered);
      MapOfLast(log);
    }
  }

  lemma SentLike(events: seq<R.Event>, stride: nat, target: nat, sent: seq<VariableUpdate>, unnumbered: bool)
    requires stride > 0 && target <= |events| && DataLike(events, unnumbered)
    requires R.ListsMap(sent, R.Rebuilt(events, stride, target))
    ensures Like(sent, unnumbered)
  {
    hide MapOf, R.DataUpdates;
    var n := if target < |events| && R.IsStop(target, stride) then target + 1 else target;
    assert DataLike(events[..n], unnumbered);
    UpdatesLike(events[..n], unnumbered);
    LastValuesLike(R.DataUpdates(events[..n]), unnumbered);
  }

  lemma DeliveredLike(events: seq<R.Event>, stride: nat, p: R.Playback, sent: seq<VariableUpdate>,
                      cs: seq<R.Command>, unnumbered: bool)
    requires stride > 0 && R.Sorted(events) && R.Positioned(events, p) && DataLike(events, unnumbered)
    requires R.ListsMap(sent, R.Rebuilt(events, stride, p.next))
    ensures Like(sent, unnumbered) && Like(R.RunDelivers(events, p, cs), unnumbered)
  {
    hide R.DataUpdates, R.RunPlayback, R.RunDelivers, R.LowerBound, R.ListsMap, R.Rebuilt;
    R.PlaybackIsExactlyOnce(events, p, cs);
    SentLike(events, stride, p.next, sent, unnumbered);
    var played := events[p.next..R.RunPlayback(events, p, cs).next];
    assert DataLike(played, unnumbered);
    UpdatesLike(played, unnumbered);
  }

  predicate ActionsLike(actions: seq<U.Action>, unnumbered: bool)
  {
    forall i :: 0 <= i < |actions| && (actions[i].Enqueue? || actions[i].Direct?) ==>
      (actions[i].u.seqNo == 0) == unnumbered
  }

  lemma {:induction false} ArrivalsLike(actions: seq<U.Action>, unnumbered: bool)
    requires U.OnlyArrivals(actions) && Like(U.Arrivals(actions), unnumbered)
    ensures ActionsLike(actions, unnumbered)
    decreases |actions|
  {
    if actions != [] {
      var rest := U.Arrivals(actions[1..]);
      if actions[0].Enqueue? {
        assert ([actions[0].u] + rest)[0] == actions[0].u;
        assert forall i :: 0 <= i < |rest| ==> rest[i] == ([actions[0].u] + rest)[i + 1];
      } else {
        assert [] + rest == rest;
      }
      ArrivalsLike(actions[1..], unnumbered);
    }
  }

  lemma {:induction false} DirectsLike(us: seq<VariableUpdate>, unnumbered: bool)
    requires Like(us, unnumbered)
    ensures ActionsLike(U.Directs(us), unnumbered)
    decreases |us|
  {
    if us != [] {
      DirectsLike(us[..|us| - 1], unnumbered);
    }
  }

  /** A session whose events are alike never disturbs the gate. */
  lemma AlikeNeverDisturbs(events: seq<R.Event>, stride: nat, p: R.Playback, sent: seq<VariableUpdate>,
                           cs: seq<R.Command>, actions: seq<U.Action>, unnumbered: bool)
    requires stride > 0 && R.Sorted(events) && R.Positioned(events, p) && Plays(events, stride, p, sent, cs, actions)
    requires DataLike(events, unnumbered)
    ensures !Watched(sent, actions).disturbed
  {
    hide U.Run, R.Positioned, R.RunDelivers, R.ListsMap, R.Rebuilt, U.AtRest, DataLike, Like;
    DeliveredLike(events, stride, p, sent, cs, unnumbered);
    ArrivalsLike(actions, unnumbered);
    DirectsLike(sent, unnumbered);
    if unnumbered {
      U.UnnumberedNeverDisturbed(U.Init(), U.Directs(sent) + actions);
    } else {
      U.NumberedNeverDisturbed(U.Init(), U.Directs(sent) + actions);
    }
  }

  /** In a session whose data events all carry numbers, or all lack them, nothing is refused and the display is
    * the fold.
    */
  lemma AlikeSessionDisplays(events: seq<R.Event>, stride: nat, p: R.Playback, sent: seq<VariableUpdate>,
                             cs: seq<R.Command>, actions: seq<U.Action>)
    requires stride > 0 && R.Sorted(events) && R.Positioned(events, p) && Plays(events, stride, p, sent, cs, actions)
    requires DataLike(events, false) || DataLike(events, true)
    ensures var s := Watched(sent, actions);
      s.refused == 0 && U.Displayed(s.gate.records) == Display(Expected(events, stride, p, cs))
  {
    hide U.Run, U.Displayed, Expected, Display, R.Positioned, Plays, DataLike;
    AlikeNeverDisturbs(events, stride, p, sent, cs, actions, DataLike(events, true));
    UndisturbedDisplays(events, stride, p, sent, cs, actions);
  }

  // ---------------------------------------------------------------- a session that mixes both

  /** A seek to time 0 shows the first event, playback delivers it again and then an unnumbered one for the
    * same key, which is refused: the fold is not displayed.
    */
  lemma UnnumberedEventIsLost(key: octets, a: Value, b: Value, marker: VariableUpdate)
    requires a != b
    ensures var x, y := VariableUpdate(key, 3, a, 7), VariableUpdate(key, 3, b, 0);
      var events, p, cs := MixedSession(x, y, marker), R.Playback(true, 1.0, 0, 0, 0), [R.Tick(2, 2)];
      var actions := DrainBoth(x, y);
      && R.Sorted(events) && R.Positioned(events, p) && Plays(events, 1000, p, [x], cs, actions)
      && Watched([x], actions).refused == 1 && Watched([x], actions).behind == {key}
      && U.Displayed(Watched([x], actions).gate.records) == map[key := U.Sample(U.StringType, a)]
      && Display(Expected(events, 1000, p, cs)) == map[key := U.Sample(U.StringType, b)]
  {
    hide U.Run, U.Displayed, R.Positioned, R.RunDelivers, R.ListsMap, R.Rebuilt, U.AtRest, Expected, MixedSession;
    var x, y := VariableUpdate(key, 3, a, 7), VariableUpdate(key, 3, b, 0);
    MixedPlays(x, y, marker);
    MixedRuns(key, a, b);
    MixedArrives(x, y);
  }

  function MixedSession(x: VariableUpdate, y: VariableUpdate, marker: VariableUpdate): seq<R.Event>
  {
    [R.Event(R.Data, 0, x), R.Event(R.Data, 1, y), R.Event(R.Marker, 2, marker)]
  }

  function DrainBoth(x: VariableUpdate, y: VariableUpdate): seq<U.Action>
  {
    [U.Enqueue(x), U.Enqueue(y), U.Post, U.BeginDrain, U.ApplyOne, U.ApplyOne]
  }

  lemma MixedPlays(x: VariableUpdate, y: VariableUpdate, marker: VariableUpdate)
    requires x.key == y.key
    ensures var events, p, cs := MixedSession(x, y, marker), R.Playback(true, 1.0, 0, 0, 0), [R.Tick(2, 2)];
      && R.Sorted(events) && R.Positioned(events, p)
      && R.ListsMap([x], R.Rebuilt(events, 1000, p.next)) && R.RunDelivers(events, p, cs) == [x, y]
      && Expected(events, 1000, p, cs) == map[x.key := y]
  {
    var events, p, cs := MixedSession(x, y, marker), R.Playback(true, 1.0, 0, 0, 0), [R.Tick(2, 2)];
    R.LowerBoundIs(events, 0, 0);
    R.LowerBoundIs(events, 2, 2);
    MixedStates(x, y, marker);
    var q := R.Apply(events, p, R.Tick(2, 2));
    assert q.next == 2 && R.RunPlayback(events, p, cs) == q;
    R.PlaybackIsExactlyOnce(events, p, cs);
    MapOfOne(x);
  }

  lemma MixedStates(x: VariableUpdate, y: VariableUpdate, marker: VariableUpdate)
    requires x.key == y.key
    ensures var events := MixedSession(x, y, marker);
      && R.DataUpdates(events[0..2]) == [x, y]
      && R.StateAt(events, 1) == map[x.key := x] && R.StateAt(events, 2) == map[x.key := y]
  {
    hide R.DataUpdates, R.StateAt;
    var events := MixedSession(x, y, marker);
    R.StateNone(events);
    R.StateStep(events, 0);
    R.StateStep(events, 1);
    R.NoData();
    assert events[0..0] == [];
    R.DataSnoc(events, 0, 0);
    R.DataSnoc(events, 0, 1);
  }

  lemma MapOfOne(u: VariableUpdate)
    ensures MapOf([u]) == map[u.key := u]
  {
    MapOfSnoc([], u);
    assert [] + [u] == [u];
  }

  lemma MixedArrives(x: VariableUpdate, y: VariableUpdate)
    ensures U.Arrivals(DrainBoth(x, y)) == [x, y] && U.OnlyArrivals(DrainBoth(x, y))
  {
    var a := DrainBoth(x, y);
    assert a[1..] == [U.Enqueue(y), U.Post, U.BeginDrain, U.ApplyOne, U.ApplyOne];
    assert a[1..][1..] == [U.Post, U.BeginDrain, U.ApplyOne, U.ApplyOne];
    NoArrivals(a[2..]);
    assert a[1..][1..] == a[2..];
  }

  lemma {:induction false} NoArrivals(actions: seq<U.Action>)
    requires forall i :: 0 <= i < |actions| ==> !actions[i].Enqueue?
    ensures U.Arrivals(actions) == []
  {
    if actions != [] {
      NoArrivals(actions[1..]);
    }
  }

  lemma MixedRuns(key: octets, a: Value, b: Value)
    requires a != b
    ensures var x, y := VariableUpdate(key, 3, a, 7), VariableUpdate(key, 3, b, 0);
      var s := Watched([x], DrainBoth(x, y));
      && U.AtRest(s) && s.refused == 1 && s.behind == {key}
      && U.Displayed(s.gate.records) == map[key := U.Sample(U.StringType, a)]
  {
    hide U.Run, U.Coalesced;
    var x, y := VariableUpdate(key, 3, a, 7), VariableUpdate(key, 3, b, 0);
    var s0 := U.Step(U.Init(), U.Direct(x));
    var s1 := U.Step(s0, U.Enqueue(x));
    var s2 := U.Step(s1, U.Enqueue(y));
    var s3 := U.Step(s2, U.Post);
    var s4 := U.Step(s3, U.BeginDrain);
    var s5 := U.Step(s4, U.ApplyOne);
    var s6 := U.Step(s5, U.ApplyOne);
    SevenSteps(x, y);
    assert s2.queue.pending == [x, y];
    assert s2.queue.pending[..2] == [x, y];
    U.CoalescedPair(x, y);
    var g := U.Gate(map[key := U.Record(U.Sample(U.StringType, a), 7)], 7);
    assert s4.ui == U.Applying([y]) && s4.queue.pending == [];
    assert s4.gate == g && s4.behind == {} && s4.refused == 0;
    U.RefusedExactly(g, y);
    assert s5.gate == g.(lastSeq := 0) && s5.behind == {key} && s5.refused == 1;
    assert s6.gate.records == g.records && s6.behind == {key} && s6.refused == 1;
    assert U.Displayed(g.records) == map[key := U.Sample(U.StringType, a)];
    assert s6.queue.pending == [] && U.InHand(s6.ui) == [];
  }

  lemma WatchedOne(x: VariableUpdate, y: VariableUpdate)
    ensures Watched([x], DrainBoth(x, y)) == U.Run(U.Step(U.Init(), U.Direct(x)), DrainBoth(x, y))
  {
    hide U.Step, U.Run;
    assert [x][..0] == [] && U.Directs([]) == [];
    assert U.Directs([x]) == [] + [U.Direct(x)];
    assert U.Directs([x]) + DrainBoth(x, y) == [U.Direct(x)] + DrainBoth(x, y);
    U.RunOne(U.Init(), U.Direct(x), DrainBoth(x, y));
  }

  lemma SevenSteps(x: VariableUpdate, y: VariableUpdate)
    ensures Watched([x], DrainBoth(x, y)) ==
      U.Step(U.Step(U.Step(U.Step(U.Step(U.Step(U.Step(U.Init(), U.Direct(x)), U.Enqueue(x)), U.Enqueue(y)), U.Post),
                                  U.BeginDrain), U.ApplyOne), U.ApplyOne)
  {
    hide U.Step, U.Run, Watched;
    var s0 := U.Step(U.Init(), U.Direct(x));
    var s1 := U.Step(s0, U.Enqueue(x));
    var s2 := U.Step(s1, U.Enqueue(y));
    var s3 := U.Step(s2, U.Post);
    var s4 := U.Step(s3, U.BeginDrain);
    var s5 := U.Step(s4, U.ApplyOne);
    var a5 := [U.ApplyOne];
    var a4 := [U.ApplyOne] + a5;
    var a3 := [U.BeginDrain] + a4;
    var a2 := [U.Post] + a3;
    var a1 := [U.Enqueue(y)] + a2;
    WatchedOne(x, y);
    assert DrainBoth(x, y) == [U.Enqueue(x)] + a1;
    U.RunOne(s0, U.Enqueue(x), a1);
    U.RunOne(s1, U.Enqueue(y), a2);
    U.RunOne(s2, U.Post, a3);
    U.RunOne(s3, U.BeginDrain, a4);
    U.RunOne(s4, U.ApplyOne, a5);
    U.RunOne(s5, U.ApplyOne, []);
    assert [U.ApplyOne] + [] == a5;
    U.RunNone(U.Step(s5, U.ApplyOne));
  }
}
