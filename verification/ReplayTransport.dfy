/** Replay of a recorded session: sparse checkpoints make seeking fast, and playback moves a cursor in
  * time and an event index together.
  */
module ReplayTransport {
  import opened DirectWire
  import opened Transport

  datatype EventKind = Data | ConnectionState | Marker

  datatype Event = Event(kind: EventKind, timestampUs: int, update: VariableUpdate)

  datatype Checkpoint = Checkpoint(eventIndex: nat, latestByKey: Observed)

  predicate Sorted(events: seq<Event>)
  {
    forall i, j :: 0 <= i <= j < |events| ==> events[i].timestampUs <= events[j].timestampUs
  }

  function Duration(events: seq<Event>): int
  {
    if events != [] && events[|events| - 1].timestampUs > 0 then events[|events| - 1].timestampUs else 0
  }

  /** The session lasts until its last event, if that is after the start. */
  lemma DurationExactly(events: seq<Event>)
    requires Sorted(events)
    ensures 0 <= Duration(events) && forall i :: 0 <= i < |events| ==> events[i].timestampUs <= Duration(events)
    ensures Duration(events) > 0 ==> exists i :: 0 <= i < |events| && events[i].timestampUs == Duration(events)
  {
  }

  function Clamp(x: int, lo: int, hi: int): int
  {
    if x < lo then lo else if hi < x then hi else x
  }

  /** The updates carried by the data events, in order. */
  function DataUpdates(events: seq<Event>): seq<VariableUpdate>
  {
    if events == [] then []
    else
      var last := events[|events| - 1];
      DataUpdates(events[..|events| - 1]) + if last.kind == Data then [last.update] else []
  }

  /** The reference: replaying the first n events from the start. */
  ghost function StateAt(events: seq<Event>, n: nat): Observed
    requires n <= |events|
  {
    MapOf(DataUpdates(events[..n]))
  }

  /** How many events lie before time t. */
  function LowerBound(events: seq<Event>, t: int): (r: nat)
    requires Sorted(events)
    ensures r <= |events|
    ensures forall i :: 0 <= i < r ==> events[i].timestampUs < t
    ensures forall i :: r <= i < |events| ==> t <= events[i].timestampUs
  {
    if events == [] then 0
    else if events[|events| - 1].timestampUs < t then |events|
    else LowerBound(events[..|events| - 1], t)
  }

  lemma LowerBoundIs(events: seq<Event>, t: int, r: nat)
    requires Sorted(events) && r <= |events|
    requires forall i :: 0 <= i < r ==> events[i].timestampUs < t
    requires r < |events| ==> t <= events[r].timestampUs
    ensures r == LowerBound(events, t)
  {
    var l := LowerBound(events, t);
    var m := if l < r then l else r;
    assert m < |events| ==> (m < l <==> events[m].timestampUs < t);
    assert m < |events| ==> (m < r <==> events[m].timestampUs < t);
  }

  // ---------------------------------------------------------------- facts about data updates

  lemma DataSnoc(events: seq<Event>, i: nat, n: nat)
    requires i <= n < |events|
    ensures DataUpdates(events[i..n + 1])
         == DataUpdates(events[i..n]) + if events[n].kind == Data then [events[n].update] else []
  {
    var s := events[i..n + 1];
    assert s[..|s| - 1] == events[i..n] && s[|s| - 1] == events[n];
    assert DataUpdates(s) == DataUpdates(s[..|s| - 1]) + if s[|s| - 1].kind == Data then [s[|s| - 1].update] else [];
  }

  lemma {:induction false} DataConcat(events: seq<Event>, i: nat, j: nat, k: nat)
    requires i <= j <= k <= |events|
    ensures DataUpdates(events[i..k]) == DataUpdates(events[i..j]) + DataUpdates(events[j..k])
    decreases k
  {
    hide DataUpdates;
    if j < k {
      DataConcat(events, i, j, k - 1);
      DataSnoc(events, i, k - 1);
      DataSnoc(events, j, k - 1);
    } else {
      assert events[j..k] == [];
      NoData();
      assert DataUpdates(events[i..j]) + [] == DataUpdates(events[i..j]);
    }
  }

  lemma StateStep(events: seq<Event>, n: nat)
    requires n < |events|
    ensures StateAt(events, n + 1) ==
      if events[n].kind == Data then StateAt(events, n)[events[n].update.key := events[n].update]
      else StateAt(events, n)
  {
    DataSnoc(events, 0, n);
    assert events[0..n] == events[..n] && events[0..n + 1] == events[..n + 1];
    if events[n].kind == Data {
      MapOfSnoc(DataUpdates(events[..n]), events[n].update);
    } else {
      assert DataUpdates(events[..n]) + [] == DataUpdates(events[..n]);
    }
  }

  // ---------------------------------------------------------------- checkpoints

  predicate IsStop(i: nat, stride: nat)
    requires stride > 0
  {
    i % stride == 0
  }

  lemma ZeroIsStop(stride: nat)
    requires stride > 0
    ensures IsStop(0, stride)
  {
  }

  /** The checkpoint stored at index i already includes event i. */
  ghost function CheckpointsFor(events: seq<Event>, stride: nat, n: nat): (cps: seq<Checkpoint>)
    requires stride > 0 && n <= |events|
  {
    if n == 0 then []
    else
      CheckpointsFor(events, stride, n - 1)
      + if IsStop(n - 1, stride) then [Checkpoint(n - 1, StateAt(events, n))] else []
  }

  /** Checkpoints stand at stops, in increasing order, each with the map after its own event. */
  ghost predicate Sound(cps: seq<Checkpoint>, events: seq<Event>, stride: nat, n: nat)
    requires stride > 0 && n <= |events|
  {
    && (forall c :: 0 <= c < |cps| ==> cps[c].eventIndex < n && IsStop(cps[c].eventIndex, stride)
                                       && cps[c].latestByKey == StateAt(events, cps[c].eventIndex + 1))
    && (forall c, d :: 0 <= c < d < |cps| ==> cps[c].eventIndex < cps[d].eventIndex)
  }

  predicate HasStop(cps: seq<Checkpoint>, i: nat)
  {
    exists c :: 0 <= c < |cps| && cps[c].eventIndex == i
  }

  lemma {:induction false} CheckpointsSound(events: seq<Event>, stride: nat, n: nat)
    requires stride > 0 && n <= |events|
    ensures Sound(CheckpointsFor(events, stride, n), events, stride, n)
  {
    hide IsStop, StateAt;
    if n > 0 {
      CheckpointsSound(events, stride, n - 1);
    }
  }

  lemma {:induction false} CheckpointsComplete(events: seq<Event>, stride: nat, n: nat, i: nat)
    requires stride > 0 && i < n <= |events| && IsStop(i, stride)
    ensures HasStop(CheckpointsFor(events, stride, n), i)
  {
    hide IsStop, StateAt;
    var before, cps := CheckpointsFor(events, stride, n - 1), CheckpointsFor(events, stride, n);
    if i < n - 1 {
      CheckpointsComplete(events, stride, n - 1, i);
      var c :| 0 <= c < |before| && before[c].eventIndex == i;
      assert cps[c].eventIndex == i;
    } else {
      assert cps[|before|].eventIndex == i;
    }
  }

  /** What a seek to event index target rebuilds. */
  ghost function Rebuilt(events: seq<Event>, stride: nat, target: nat): Observed
    requires stride > 0 && target <= |events|
  {
    if target < |events| && IsStop(target, stride) then StateAt(events, target + 1) else StateAt(events, target)
  }

  /** The target event is stored in the checkpoint the seek starts from, and it changes the map. */
  ghost predicate ShowsTargetEarly(events: seq<Event>, stride: nat, target: nat)
    requires stride > 0 && target <= |events|
  {
    && target < |events| && IsStop(target, stride) && events[target].kind == Data
    && var u := events[target].update;
       !(u.key in StateAt(events, target) && StateAt(events, target)[u.key] == u)
  }

  /** Seeking agrees with replay from the start exactly when it does not show the target event early. */
  lemma SeekRefinesReplay(events: seq<Event>, stride: nat, target: nat)
    requires stride > 0 && target <= |events|
    ensures Rebuilt(events, stride, target) == StateAt(events, target) <==> !ShowsTargetEarly(events, stride, target)
  {
    hide IsStop, StateAt;
    if target < |events| {
      StateStep(events, target);
      if ShowsTargetEarly(events, stride, target) {
        var u := events[target].update;
        assert Rebuilt(events, stride, target)[u.key] == u;
      }
    }
  }

  /** A concrete session: the only event, at time 0, is shown by a seek to time 0, where nothing has happened. */
  lemma SeekToCheckpointShowsTooMuch(u: VariableUpdate)
    ensures var events := [Event(Data, 0, u)];
      LowerBound(events, 0) == 0 && Rebuilt(events, 1000, 0) == map[u.key := u] && StateAt(events, 0) == map[]
  {
    var events := [Event(Data, 0, u)];
    LowerBoundIs(events, 0, 0);
    StateStep(events, 0);
    assert events[..0] == [];
  }

  // ---------------------------------------------------------------- playback

  datatype Playback = Playback(playing: bool, rate: real, cursorUs: int, lastTickUs: int, next: nat)

  /** A tick carries the time step already scaled by the rate, however that product was rounded. */
  datatype Command = Tick(nowUs: int, stepUs: nat) | SetPlaying(on: bool, nowUs: int) | SetRate(rate: real, nowUs: int)

  function BoundedRate(rate: real): real
  {
    if rate < 0.05 then 0.05 else if 8.0 < rate then 8.0 else rate
  }

  function CursorAfter(p: Playback, stepUs: nat, durationUs: int): int
  {
    Clamp(p.cursorUs + stepUs, 0, durationUs)
  }

  /** The time since the last tick, never negative. */
  function Elapsed(p: Playback, nowUs: int): nat
  {
    if nowUs - p.lastTickUs > 0 then nowUs - p.lastTickUs else 0
  }

  function Apply(events: seq<Event>, p: Playback, c: Command): Playback
    requires Sorted(events)
  {
    match c
    case SetPlaying(on, now) => p.(playing := on, lastTickUs := now)
    case SetRate(r, now) => p.(rate := BoundedRate(r), lastTickUs := now)
    case Tick(now, step) =>
      if !p.playing then p.(lastTickUs := now)
      else
        var cursor := CursorAfter(p, step, Duration(events));
        p.(lastTickUs := now, cursorUs := cursor, next := LowerBound(events, cursor),
           playing := p.playing && cursor < Duration(events))
  }

  /** The command a tick of the clock amounts to. */
  function TickAt(scale: (nat, real) -> nat, p: Playback, nowUs: int): Command
  {
    Tick(nowUs, scale(Elapsed(p, nowUs), p.rate))
  }

  /** A tick while playing moves the cursor by the scaled time since the last tick, as far as the session lasts,
    * and stops playback there; a clock set back counts as no time. A tick while paused only takes the time.
    */
  lemma TickExactly(events: seq<Event>, scale: (nat, real) -> nat, p: Playback, nowUs: int)
    requires Sorted(events) && 0 <= p.cursorUs <= Duration(events)
    ensures var q := Apply(events, p, TickAt(scale, p, nowUs));
      && q.lastTickUs == nowUs && q.rate == p.rate
      && (!p.playing ==> q.cursorUs == p.cursorUs && q.next == p.next && !q.playing)
      && (p.playing ==>
           var moved := p.cursorUs + scale(if p.lastTickUs <= nowUs then nowUs - p.lastTickUs else 0, p.rate);
           && q.cursorUs == (if moved <= Duration(events) then moved else Duration(events))
           && q.playing == (q.cursorUs != Duration(events)))
  {
    hide LowerBound, Duration;
  }

  /** The updates a command delivers: the data events between the old and the new index. */
  function Delivers(events: seq<Event>, p: Playback, c: Command): seq<VariableUpdate>
    requires Sorted(events) && p.next <= |events|
  {
    var next := Apply(events, p, c).next;
    if p.next <= next <= |events| then DataUpdates(events[p.next..next]) else []
  }

  /** Index and cursor agree, and the cursor lies inside the session. */
  predicate Positioned(events: seq<Event>, p: Playback)
    requires Sorted(events)
  {
    && 0 <= p.cursorUs <= Duration(events)
    && p.next == LowerBound(events, p.cursorUs)
    && 0.05 <= p.rate <= 8.0
  }

  lemma LowerBoundMonotone(events: seq<Event>, s: int, t: int)
    requires Sorted(events) && s <= t
    ensures LowerBound(events, s) <= LowerBound(events, t)
  {
    var a, b := LowerBound(events, s), LowerBound(events, t);
    assert b < |events| ==> (b < a <==> events[b].timestampUs < s);
  }

  lemma ApplyKeepsPosition(events: seq<Event>, p: Playback, c: Command)
    requires Sorted(events) && Positioned(events, p)
    ensures Positioned(events, Apply(events, p, c))
    ensures p.cursorUs <= Apply(events, p, c).cursorUs && p.next <= Apply(events, p, c).next
  {
    hide LowerBound;
    if c.Tick? && p.playing {
      LowerBoundMonotone(events, p.cursorUs, CursorAfter(p, c.stepUs, Duration(events)));
    }
  }

  function RunPlayback(events: seq<Event>, p: Playback, cs: seq<Command>): Playback
    requires Sorted(events)
    decreases |cs|
  {
    if cs == [] then p else RunPlayback(events, Apply(events, p, cs[0]), cs[1..])
  }

  function RunDelivers(events: seq<Event>, p: Playback, cs: seq<Command>): seq<VariableUpdate>
    requires Sorted(events) && Positioned(events, p)
    decreases |cs|
  {
    if cs == [] then []
    else
      ApplyKeepsPosition(events, p, cs[0]);
      Delivers(events, p, cs[0]) + RunDelivers(events, Apply(events, p, cs[0]), cs[1..])
  }

  /** Between seeks, whatever the time steps, pauses and rates, the data events from the starting index to
    * the current one are delivered once each and in order, and the index always matches the cursor.
    */
  lemma {:induction false} PlaybackIsExactlyOnce(events: seq<Event>, p: Playback, cs: seq<Command>)
    requires Sorted(events) && Positioned(events, p)
    ensures var q := RunPlayback(events, p, cs);
      && Positioned(events, q) && p.next <= q.next <= |events|
      && RunDelivers(events, p, cs) == DataUpdates(events[p.next..q.next])
    decreases |cs|
  {
    hide LowerBound, Apply, DataUpdates;
    if cs == [] {
      assert events[p.next..p.next] == [];
      NoData();
    } else {
      ApplyKeepsPosition(events, p, cs[0]);
      var p' := Apply(events, p, cs[0]);
      PlaybackIsExactlyOnce(events, p', cs[1..]);
      DataConcat(events, p.next, p'.next, RunPlayback(events, p', cs[1..]).next);
    }
  }

  lemma NoData()
    ensures DataUpdates([]) == []
  {
  }

  /** Ticks deliver half-open ranges: nothing stamped at the very end of the session is ever delivered. */
  lemma EndIsNotDelivered(events: seq<Event>, p: Playback, cs: seq<Command>, i: nat)
    requires Sorted(events) && Positioned(events, p)
    requires i < |events| && events[i].timestampUs >= Duration(events)
    ensures RunPlayback(events, p, cs).next <= i
  {
    PlaybackIsExactlyOnce(events, p, cs);
    var q := RunPlayback(events, p, cs);
    assert i < q.next <==> events[i].timestampUs < q.cursorUs;
  }

  /** Played to its end, a session has passed exactly the events stamped before the end. */
  lemma EndOfPlaybackExactly(events: seq<Event>, p: Playback, cs: seq<Command>, i: nat)
    requires Sorted(events) && Positioned(events, p) && i < |events|
    requires RunPlayback(events, p, cs).cursorUs == Duration(events)
    ensures i < RunPlayback(events, p, cs).next <==> events[i].timestampUs < Duration(events)
  {
    hide RunPlayback, RunDelivers, Duration;
    PlaybackIsExactlyOnce(events, p, cs);
  }

  /** A session of one event, played to its end, delivers nothing. */
  lemma LastEventIsMissed(u: VariableUpdate)
    ensures var events, p := [Event(Data, 5, u)], Playback(true, 1.0, 0, 0, 0);
      Positioned(events, p) && RunPlayback(events, p, [Tick(5, 5)]).cursorUs == Duration(events)
      && RunDelivers(events, p, [Tick(5, 5)]) == []
  {
    var events, p := [Event(Data, 5, u)], Playback(true, 1.0, 0, 0, 0);
    LowerBoundIs(events, 0, 0);
    LowerBoundIs(events, 5, 0);
    var q := Apply(events, p, Tick(5, 5));
    assert q.cursorUs == 5 && q.next == 0;
    assert RunPlayback(events, p, [Tick(5, 5)]) == q;
    assert events[0..0] == [];
    PlaybackIsExactlyOnce(events, p, [Tick(5, 5)]);
  }

  // ---------------------------------------------------------------- playback against the clock

  datatype ClockCommand = At(nowUs: int) | Play(on: bool, nowUs: int) | Speed(rate: real, nowUs: int)

  function Issued(scale: (nat, real) -> nat, p: Playback, c: ClockCommand): Command
  {
    match c
    case At(now) => TickAt(scale, p, now)
    case Play(on, now) => SetPlaying(on, now)
    case Speed(r, now) => SetRate(r, now)
  }

  function AllIssued(events: seq<Event>, scale: (nat, real) -> nat, p: Playback, cs: seq<ClockCommand>): seq<Command>
    requires Sorted(events)
    decreases |cs|
  {
    if cs == [] then []
    else
      var c := Issued(scale, p, cs[0]);
      [c] + AllIssued(events, scale, Apply(events, p, c), cs[1..])
  }

  /** What a listener with a clock knows: whether playback was switched on, at which rate, and the last time. */
  datatype Clock = Clock(on: bool, rate: real, lastUs: int)

  function Wound(k: Clock, c: ClockCommand): Clock
  {
    match c
    case At(now) => k.(lastUs := now)
    case Play(on, now) => k.(on := on, lastUs := now)
    case Speed(r, now) => k.(rate := if r <= 0.05 then 0.05 else if r >= 8.0 then 8.0 else r, lastUs := now)
  }

  function WoundAll(k: Clock, cs: seq<ClockCommand>): Clock
    decreases |cs|
  {
    if cs == [] then k else WoundAll(Wound(k, cs[0]), cs[1..])
  }

  /** The session time that passes: at every tick while switched on, the scaled time since the last command. */
  function Travelled(scale: (nat, real) -> nat, k: Clock, cs: seq<ClockCommand>): nat
    decreases |cs|
  {
    if cs == [] then 0
    else
      var step :=
        if !cs[0].At? || !k.on then 0
        else if k.lastUs <= cs[0].nowUs then scale(cs[0].nowUs - k.lastUs, k.rate) else scale(0, k.rate);
      step + Travelled(scale, Wound(k, cs[0]), cs[1..])
  }

  lemma {:induction false} TravelledConcat(scale: (nat, real) -> nat, k: Clock, a: seq<ClockCommand>,
                                           b: seq<ClockCommand>)
    ensures Travelled(scale, k, a + b) == Travelled(scale, k, a) + Travelled(scale, WoundAll(k, a), b)
    decreases |a|
  {
    hide Wound;
    if a == [] {
      assert a + b == b;
    } else {
      assert (a + b)[1..] == a[1..] + b;
      TravelledConcat(scale, Wound(k, a[0]), a[1..], b);
    }
  }

  /** Over every run of ticks, pauses and rate changes the cursor moves by the session time that passes, as far
    * as the session lasts, and exactly the data events up to it are delivered.
    */
  lemma CursorTravels(events: seq<Event>, scale: (nat, real) -> nat, p: Playback, cs: seq<ClockCommand>)
    requires Sorted(events) && Positioned(events, p)
    ensures var commands := AllIssued(events, scale, p, cs);
      var q := RunPlayback(events, p, commands);
      var moved := p.cursorUs + Travelled(scale, Clock(p.playing, p.rate, p.lastTickUs), cs);
      && q.cursorUs == (if moved <= Duration(events) then moved else Duration(events))
      && LowerBound(events, p.cursorUs) <= LowerBound(events, q.cursorUs)
      && RunDelivers(events, p, commands)
         == DataUpdates(events[LowerBound(events, p.cursorUs)..LowerBound(events, q.cursorUs)])
  {
    hide Duration, LowerBound, Travelled, DataUpdates, RunPlayback, RunDelivers, AllIssued;
    CursorFollows(events, scale, p, Clock(p.playing, p.rate, p.lastTickUs), cs);
    PlaybackIsExactlyOnce(events, p, AllIssued(events, scale, p, cs));
  }

  lemma {:induction false} CursorFollows(events: seq<Event>, scale: (nat, real) -> nat, p: Playback, k: Clock,
                                         cs: seq<ClockCommand>)
    requires Sorted(events) && Positioned(events, p) && p.rate == k.rate && p.lastTickUs == k.lastUs
    requires p.playing == k.on || (k.on && p.cursorUs == Duration(events))
    ensures var moved := p.cursorUs + Travelled(scale, k, cs);
      RunPlayback(events, p, AllIssued(events, scale, p, cs)).cursorUs
      == if moved <= Duration(events) then moved else Duration(events)
    decreases |cs|
  {
    hide Duration, LowerBound, Apply;
    if cs != [] {
      var c := Issued(scale, p, cs[0]);
      var q := Apply(events, p, c);
      ApplyKeepsPosition(events, p, c);
      CommandFollows(events, scale, p, cs[0]);
      CursorFollows(events, scale, q, Wound(k, cs[0]), cs[1..]);
      var more := AllIssued(events, scale, q, cs[1..]);
      assert ([c] + more)[1..] == more;
    }
  }

  /** What each command does to the cursor and to what the clock knows. */
  lemma CommandFollows(events: seq<Event>, scale: (nat, real) -> nat, p: Playback, c: ClockCommand)
    requires Sorted(events) && Positioned(events, p)
    ensures var q, k := Apply(events, p, Issued(scale, p, c)), Wound(Clock(p.playing, p.rate, p.lastTickUs), c);
      && q.rate == k.rate && q.lastTickUs == k.lastUs
      && (!c.At? || !p.playing ==> q.cursorUs == p.cursorUs && q.playing == k.on)
      && (c.At? && p.playing ==>
           var moved := p.cursorUs + scale(if p.lastTickUs <= c.nowUs then c.nowUs - p.lastTickUs else 0, p.rate);
           && q.cursorUs == (if moved <= Duration(events) then moved else Duration(events))
           && q.playing == (q.cursorUs != Duration(events)))
  {
    hide Duration, LowerBound;
    if c.At? {
      TickExactly(events, scale, p, c.nowUs);
    }
  }

  predicate TicksFrom(cs: seq<ClockCommand>, startUs: int)
  {
    && (forall i :: 0 <= i < |cs| ==> cs[i].At? && startUs <= cs[i].nowUs)
    && (forall i, j :: 0 <= i <= j < |cs| ==> cs[i].nowUs <= cs[j].nowUs)
  }

  lemma {:induction false} RealTimePasses(scale: (nat, real) -> nat, k: Clock, cs: seq<ClockCommand>)
    requires k.on && k.rate == 1.0 && TicksFrom(cs, k.lastUs) && forall d: nat :: scale(d, 1.0) == d
    ensures Travelled(scale, k, cs) == if cs == [] then 0 else cs[|cs| - 1].nowUs - k.lastUs
    decreases |cs|
  {
    if cs != [] {
      RealTimePasses(scale, Wound(k, cs[0]), cs[1..]);
    }
  }

  /** At rate 1 with exact scaling n ticks move the cursor by the time from the last tick before to the last of
    * them, up to the end of the session.
    */
  lemma PlaysInRealTime(events: seq<Event>, scale: (nat, real) -> nat, p: Playback, cs: seq<ClockCommand>)
    requires Sorted(events) && Positioned(events, p) && p.playing && p.rate == 1.0
    requires cs != [] && TicksFrom(cs, p.lastTickUs) && forall d: nat :: scale(d, 1.0) == d
    ensures var moved := p.cursorUs + (cs[|cs| - 1].nowUs - p.lastTickUs);
      RunPlayback(events, p, AllIssued(events, scale, p, cs)).cursorUs
      == if moved <= Duration(events) then moved else Duration(events)
  {
    hide Duration, LowerBound, RunPlayback, RunDelivers, AllIssued, Travelled, TicksFrom;
    RealTimePasses(scale, Clock(p.playing, p.rate, p.lastTickUs), cs);
    CursorTravels(events, scale, p, cs);
  }

  lemma {:induction false} NothingPassesWhileOff(scale: (nat, real) -> nat, k: Clock, cs: seq<ClockCommand>)
    requires !k.on && forall i :: 0 <= i < |cs| ==> cs[i].At?
    ensures Travelled(scale, k, cs) == 0 && !WoundAll(k, cs).on && WoundAll(k, cs).rate == k.rate
    decreases |cs|
  {
    if cs != [] {
      NothingPassesWhileOff(scale, Wound(k, cs[0]), cs[1..]);
    }
  }

  /** A pause, from switching off to switching on again, contributes nothing, however long it lasts. */
  lemma PauseContributesNothing(scale: (nat, real) -> nat, k: Clock, before: seq<ClockCommand>, offUs: int,
                                pause: seq<ClockCommand>, onUs: int, later: seq<ClockCommand>)
    requires forall i :: 0 <= i < |pause| ==> pause[i].At?
    ensures Travelled(scale, k, before + ([Play(false, offUs)] + (pause + ([Play(true, onUs)] + later))))
         == Travelled(scale, k, before) + Travelled(scale, Clock(true, WoundAll(k, before).rate, onUs), later)
  {
    hide Travelled, WoundAll;
    var k1 := WoundAll(k, before);
    var k2 := Clock(false, k1.rate, offUs);
    var k3 := WoundAll(k2, pause);
    TravelledConcat(scale, k, before, [Play(false, offUs)] + (pause + ([Play(true, onUs)] + later)));
    SwitchPasses(scale, k1, false, offUs, pause + ([Play(true, onUs)] + later));
    TravelledConcat(scale, k2, pause, [Play(true, onUs)] + later);
    NothingPassesWhileOff(scale, k2, pause);
    SwitchPasses(scale, k3, true, onUs, later);
  }

  lemma SwitchPasses(scale: (nat, real) -> nat, k: Clock, on: bool, nowUs: int, later: seq<ClockCommand>)
    ensures Travelled(scale, k, [Play(on, nowUs)] + later) == Travelled(scale, Clock(on, k.rate, nowUs), later)
  {
    assert ([Play(on, nowUs)] + later)[1..] == later;
  }

  // ---------------------------------------------------------------- seek, then play

  lemma PlayedOn(events: seq<Event>, stride: nat, from: nat, to: nat)
    requires stride > 0 && from < to <= |events|
    ensures Rebuilt(events, stride, from) + MapOf(DataUpdates(events[from..to])) == StateAt(events, to)
  {
    hide IsStop, MapOf, DataUpdates;
    var a, b, c := DataUpdates(events[..from]), DataUpdates(events[from..from + 1]), DataUpdates(events[from + 1..to]);
    assert events[0..from] == events[..from] && events[0..to] == events[..to]
        && events[0..from + 1] == events[..from + 1];
    DataConcat(events, 0, from, to);
    DataConcat(events, 0, from, from + 1);
    DataConcat(events, from, from + 1, to);
    MapOfConcat(a, DataUpdates(events[from..to]));
    MapOfConcat(a, b);
    MapOfConcat(b, c);
    assert MapOf(a) + MapOf(b) + (MapOf(b) + MapOf(c)) == MapOf(a) + (MapOf(b) + MapOf(c));
  }

  /** A fresh observer of a seek followed by any playback ends with the map of a direct seek to the same
    * place exactly when playback did not move the index or the direct seek shows no event early.
    */
  lemma SeekThenPlayAgrees(events: seq<Event>, stride: nat, p: Playback, cs: seq<Command>)
    requires stride > 0 && Sorted(events) && Positioned(events, p)
    ensures var q := RunPlayback(events, p, cs);
      && Positioned(events, q) && p.next <= q.next <= |events|
      && (Rebuilt(events, stride, p.next) + MapOf(RunDelivers(events, p, cs)) == Rebuilt(events, stride, q.next)
          <==> (q.next == p.next || !ShowsTargetEarly(events, stride, q.next)))
  {
    hide IsStop, MapOf, DataUpdates, StateAt, Rebuilt, ShowsTargetEarly, RunPlayback, RunDelivers, Positioned;
    PlaybackIsExactlyOnce(events, p, cs);
    var q := RunPlayback(events, p, cs);
    if q.next == p.next {
      assert events[p.next..q.next] == [];
      NoData();
      EmptyMap();
    } else {
      PlayedOn(events, stride, p.next, q.next);
      SeekRefinesReplay(events, stride, q.next);
    }
  }

  lemma EmptyMap()
    ensures MapOf([]) == map[]
  {
  }

  /** The list holds every entry of the map once, in some order. */
  ghost predicate ListsMap(list: seq<VariableUpdate>, m: Observed)
  {
    && MapOf(list) == m && |list| == |m|
    && forall i :: 0 <= i < |list| ==> list[i].key in m && m[list[i].key] == list[i]
  }

  // ---------------------------------------------------------------- the order of a std::map

  predicate LexLess(a: octets, b: octets)
  {
    b != [] && (a == [] || a[0] < b[0] || (a[0] == b[0] && LexLess(a[1..], b[1..])))
  }

  lemma {:induction false} LexTotal(a: octets, b: octets)
    ensures LexLess(a, b) || a == b || LexLess(b, a)
  {
    if a != [] && b != [] && a[0] == b[0] {
      LexTotal(a[1..], b[1..]);
      assert a == [a[0]] + a[1..] && b == [b[0]] + b[1..];
    }
  }

  lemma {:induction false} LexTransitive(a: octets, b: octets, c: octets)
    requires LexLess(a, b) && LexLess(b, c)
    ensures LexLess(a, c)
  {
    if a != [] && a[0] == b[0] == c[0] {
      LexTransitive(a[1..], b[1..], c[1..]);
    }
  }

  predicate Least(key: octets, keys: set<octets>)
  {
    key in keys && forall k :: k in keys && k != key ==> LexLess(key, k)
  }

  lemma {:induction false} LeastExists(keys: set<octets>)
    requires keys != {}
    ensures exists key :: Least(key, keys)
    decreases |keys|
  {
    hide LexLess;
    var x :| x in keys;
    var rest := keys - {x};
    assert forall k :: k in keys && k != x ==> k in rest;
    if rest == {} {
      assert Least(x, keys);
    } else {
      LeastExists(rest);
      var least :| Least(least, rest);
      LexTotal(x, least);
      if LexLess(x, least) {
        forall k | k in keys && k != x
          ensures LexLess(x, k)
        {
          assert k in rest;
          if k != least {
            LexTransitive(x, least, k);
          }
        }
        assert Least(x, keys);
      } else {
        forall k | k in keys && k != least
          ensures LexLess(least, k)
        {
          assert k != x ==> k in rest;
        }
        assert Least(least, keys);
      }
    }
  }

  predicate Ascending(list: seq<VariableUpdate>)
  {
    forall i, j :: 0 <= i < j < |list| ==> LexLess(list[i].key, list[j].key)
  }

  // ---------------------------------------------------------------- the transport

  class ReplayDashboardTransport {
    const stride: nat
    const scale: (nat, real) -> nat
    var running: bool
    var playing: bool
    var playbackRate: real
    var durationUs: int
    var cursorUs: int
    var lastTickUs: int
    var nextEventIndex: nat
    var events: seq<Event>
    var checkpoints: seq<Checkpoint>
    var published: seq<VariableUpdate>

    function View(): Playback
      reads this
    {
      Playback(playing, playbackRate, cursorUs, lastTickUs, nextEventIndex)
    }

    ghost predicate Loaded()
      reads this
    {
      && stride > 0 && Sorted(events) && durationUs == Duration(events)
      && checkpoints == CheckpointsFor(events, stride, |events|)
    }

    ghost predicate Valid()
      reads this
    {
      Loaded() && Positioned(events, View())
    }

    /** Takes the parsed events in time order. The stride is 1000 in the dashboard; scale multiplies a time
      * step by the playback rate and rounds.
      */
    constructor (sorted: seq<Event>, stride: nat, scale: (nat, real) -> nat)
      requires stride > 0 && Sorted(sorted)
      ensures Loaded() && events == sorted && this.stride == stride && this.scale == scale
      ensures View() == Playback(false, 1.0, 0, 0, 0) && running && published == []
    {
      this.stride, this.scale := stride, scale;
      running, playing, playbackRate, cursorUs, lastTickUs, nextEventIndex := true, false, 1.0, 0, 0, 0;
      events, published, checkpoints := sorted, [], [];
      durationUs :=
        if |sorted| > 0 && sorted[|sorted| - 1].timestampUs > 0 then sorted[|sorted| - 1].timestampUs else 0;
      new;
      BuildCheckpoints();
    }

    method BuildCheckpoints()
      requires stride > 0
      modifies this`checkpoints
      ensures checkpoints == CheckpointsFor(events, stride, |events|)
    {
      hide StateAt;
      checkpoints := [];
      var latestByKey: Observed := map[];
      StateNone(events);
      for i := 0 to |events|
        invariant latestByKey == StateAt(events, i)
        invariant checkpoints == CheckpointsFor(events, stride, i)
      {
        StateStep(events, i);
        if events[i].kind == Data {
          latestByKey := latestByKey[events[i].update.key := events[i].update];
        }
        if i == 0 || i % stride == 0 {
          ZeroIsStop(stride);
          checkpoints := checkpoints + [Checkpoint(i, latestByKey)];
        }
      }
    }

    /** The last checkpoint not past eventIndex, or -1. */
    method FindCheckpointForEvent(eventIndex: nat) returns (candidate: int)
      requires Loaded()
      ensures -1 <= candidate < |checkpoints|
      ensures forall c :: 0 <= c < |checkpoints| ==> (checkpoints[c].eventIndex <= eventIndex <==> c <= candidate)
    {
      hide CheckpointsFor, IsStop, StateAt;
      CheckpointsSound(events, stride, |events|);
      candidate := -1;
      for c := 0 to |checkpoints|
        invariant candidate == c - 1
        invariant forall d :: 0 <= d < c ==> checkpoints[d].eventIndex <= eventIndex
      {
        if checkpoints[c].eventIndex > eventIndex {
          break;
        }
        candidate := c;
      }
    }

    /** Binary search for the first event not before cursorUs. */
    method FindFirstEventAfterTime(cursorUs: int) returns (index: nat)
      requires Sorted(events)
      ensures index == LowerBound(events, cursorUs)
    {
      index := 0;
      var count: nat := |events|;
      while count > 0
        invariant index + count <= |events|
        invariant forall i :: 0 <= i < index ==> events[i].timestampUs < cursorUs
        invariant index + count < |events| ==> cursorUs <= events[index + count].timestampUs
        decreases count
      {
        var step := count / 2;
        if events[index + step].timestampUs < cursorUs {
          index := index + step + 1;
          count := count - (step + 1);
        } else {
          count := step;
        }
      }
      LowerBoundIs(events, cursorUs, index);
    }

    /** The map a seek rebuilds: the nearest checkpoint, then the events from it up to the target. */
    method Reconstruct(target: nat) returns (latestByKey: Observed)
      requires Loaded() && target <= |events|
      ensures latestByKey == Rebuilt(events, stride, target)
    {
      hide StateAt, IsStop, CheckpointsFor;
      CheckpointsSound(events, stride, |events|);
      latestByKey := map[];
      var startIndex: nat := 0;
      var candidate := FindCheckpointForEvent(target);
      StateNone(events);
      if candidate >= 0 {
        NearestStop(checkpoints, events, stride, candidate, target);
        latestByKey := checkpoints[candidate].latestByKey;
        startIndex := checkpoints[candidate].eventIndex;
        StateStep(events, startIndex);
      } else {
        ZeroIsStop(stride);
        NoStopNoEvents(events, stride);
      }
      for i := startIndex to target
        invariant latestByKey ==
          if candidate < 0 then map[] else if i == startIndex then StateAt(events, i + 1) else StateAt(events, i)
      {
        StateStep(events, i);
        if events[i].kind == Data {
          latestByKey := latestByKey[events[i].update.key := events[i].update];
        }
      }
    }

    /** A seek moves cursor and index together and publishes the rebuilt map, each entry once, by ascending key. */
    method SeekPlaybackUs(targetUs: int, nowUs: int) returns (ghost sent: seq<VariableUpdate>)
      requires Loaded() && 0.05 <= playbackRate <= 8.0
      modifies this`cursorUs, this`nextEventIndex, this`lastTickUs, this`published
      ensures Valid()
      ensures var cursor := Clamp(targetUs, 0, durationUs);
        View() == old(View()).(cursorUs := cursor, next := LowerBound(events, cursor), lastTickUs := nowUs)
      ensures published == old(published) + sent
      ensures ListsMap(sent, Rebuilt(events, stride, nextEventIndex)) && Ascending(sent)
    {
      hide StateAt, IsStop, CheckpointsFor, MapOf;
      var clamped := Clamp(targetUs, 0, durationUs);
      var target := FindFirstEventAfterTime(clamped);
      var latestByKey := Reconstruct(target);
      cursorUs := clamped;
      nextEventIndex := target;
      lastTickUs := nowUs;
      RebuiltKeys(events, stride, target);
      var reconstructed := Entries(latestByKey);
      published := published + reconstructed;
      sent := reconstructed;
    }

    static method Entries(m: Observed) returns (list: seq<VariableUpdate>)
      requires forall k :: k in m ==> m[k].key == k
      ensures ListsMap(list, m) && Ascending(list)
    {
      hide MapOf, LexLess;
      list := [];
      EmptyMap();
      var keys := m.Keys;
      while keys != {}
        invariant keys <= m.Keys && |list| + |keys| == |m|
        invariant forall i :: 0 <= i < |list| ==> list[i].key in m && m[list[i].key] == list[i]
        invariant MapOf(list) == map k | k in m && k !in keys :: m[k]
        invariant Ascending(list) && forall i, k :: 0 <= i < |list| && k in keys ==> LexLess(list[i].key, k)
        decreases |keys|
      {
        LeastExists(keys);
        var k :| Least(k, keys);
        MapOfSnoc(list, m[k]);
        list := list + [m[k]];
        keys := keys - {k};
      }
    }

    method SetPlaybackPlaying(on: bool, nowUs: int) returns (ok: bool)
      modifies this`playing, this`lastTickUs
      ensures ok == running
      ensures Sorted(events) ==> View() == if ok then Apply(events, old(View()), SetPlaying(on, nowUs)) else old(View())
    {
      if !running {
        return false;
      }
      playing, lastTickUs := on, nowUs;
      return true;
    }

    method SetPlaybackRate(rate: real, nowUs: int) returns (ok: bool)
      modifies this`playbackRate, this`lastTickUs
      ensures ok == running
      ensures Sorted(events) ==> View() == if ok then Apply(events, old(View()), SetRate(rate, nowUs)) else old(View())
    {
      var bounded := if rate < 0.05 then 0.05 else if 8.0 < rate then 8.0 else rate;
      if !running {
        return false;
      }
      playbackRate, lastTickUs := bounded, nowUs;
      return true;
    }

    /** Steps the index to endIndex, collecting the data events passed that are not before oldCursor. */
    method DeliverUntil(endIndex: nat, oldCursor: int) returns (updates: seq<VariableUpdate>)
      requires nextEventIndex <= endIndex <= |events|
      requires forall i :: nextEventIndex <= i < |events| ==> oldCursor <= events[i].timestampUs
      modifies this`nextEventIndex
      ensures nextEventIndex == endIndex
      ensures updates == DataUpdates(events[old(nextEventIndex)..endIndex])
    {
      ghost var first := nextEventIndex;
      updates := [];
      assert events[first..first] == [];
      while nextEventIndex < endIndex && nextEventIndex < |events|
        invariant first <= nextEventIndex <= endIndex
        invariant updates == DataUpdates(events[first..nextEventIndex])
        decreases endIndex - nextEventIndex
      {
        DataSnoc(events, first, nextEventIndex);
        if events[nextEventIndex].kind == Data && events[nextEventIndex].timestampUs >= oldCursor {
          updates := updates + [events[nextEventIndex].update];
        }
        nextEventIndex := nextEventIndex + 1;
      }
    }

    /** The locked part of a pass. The filter on the old cursor never drops an event. */
    method PlaybackTick(nowUs: int) returns (updates: seq<VariableUpdate>)
      requires Valid() && running
      modifies this`playing, this`cursorUs, this`lastTickUs, this`nextEventIndex
      ensures Valid()
      ensures var tick := TickAt(scale, old(View()), nowUs);
        View() == Apply(events, old(View()), tick) && updates == Delivers(events, old(View()), tick)
      ensures lastTickUs == nowUs
      ensures !old(playing) ==> cursorUs == old(cursorUs) && updates == [] && !playing
      ensures old(playing) ==>
        var deltaUs := if old(lastTickUs) <= nowUs then nowUs - old(lastTickUs) else 0;
        var moved := old(cursorUs) + scale(deltaUs, playbackRate);
        cursorUs == (if moved <= durationUs then moved else durationUs) && playing == (cursorUs != durationUs)
    {
      hide CheckpointsFor, LowerBound, StateAt, DataUpdates;
      NoData();
      updates := [];
      ApplyKeepsPosition(events, View(), TickAt(scale, View(), nowUs));
      ghost var first := nextEventIndex;
      assert events[first..first] == [];
      if !playing {
        lastTickUs := nowUs;
      } else {
        var deltaUs: nat := if nowUs - lastTickUs > 0 then nowUs - lastTickUs else 0;
        lastTickUs := nowUs;
        var playbackDeltaUs := scale(deltaUs, playbackRate);
        var oldCursor := cursorUs;
        cursorUs := Clamp(cursorUs + playbackDeltaUs, 0, durationUs);
        var endIndex := FindFirstEventAfterTime(cursorUs);
        updates := DeliverUntil(endIndex, oldCursor);
        if cursorUs >= durationUs {
          playing := false;
        }
      }
    }

    /** One pass of the playback loop: what the tick returns is published after the lock is released. */
    method PlaybackPass(nowUs: int) returns (updates: seq<VariableUpdate>)
      requires Valid() && running
      modifies this`playing, this`cursorUs, this`lastTickUs, this`nextEventIndex, this`published
      ensures Valid()
      ensures old(View()).next <= nextEventIndex <= |events|
      ensures updates == DataUpdates(events[old(View()).next..nextEventIndex]) && published == old(published) + updates
    {
      hide CheckpointsFor, StateAt, DataUpdates, LowerBound, Apply;
      ApplyKeepsPosition(events, View(), TickAt(scale, View(), nowUs));
      updates := PlaybackTick(nowUs);
      published := published + updates;
    }
  }

  lemma NearestStop(cps: seq<Checkpoint>, events: seq<Event>, stride: nat, candidate: nat, target: nat)
    requires stride > 0 && cps == CheckpointsFor(events, stride, |events|)
    requires candidate < |cps|
    requires forall c :: 0 <= c < |cps| ==> (cps[c].eventIndex <= target <==> c <= candidate)
    ensures target < |events| && IsStop(target, stride) ==> cps[candidate].eventIndex == target
  {
    hide IsStop, StateAt, CheckpointsFor;
    CheckpointsSound(events, stride, |events|);
    if target < |events| && IsStop(target, stride) {
      CheckpointsComplete(events, stride, |events|, target);
      var c :| 0 <= c < |cps| && cps[c].eventIndex == target;
      assert cps[candidate].eventIndex >= cps[c].eventIndex;
    }
  }

  lemma NoStopNoEvents(events: seq<Event>, stride: nat)
    requires stride > 0
    ensures events != [] ==> exists c :: 0 <= c < |CheckpointsFor(events, stride, |events|)|
                                    && CheckpointsFor(events, stride, |events|)[c].eventIndex == 0
  {
    if events != [] {
      ZeroIsStop(stride);
      CheckpointsComplete(events, stride, |events|, 0);
    }
  }

  lemma StateNone(events: seq<Event>)
    ensures StateAt(events, 0) == map[]
  {
    assert events[..0] == [];
  }

  lemma RebuiltKeys(events: seq<Event>, stride: nat, target: nat)
    requires stride > 0 && target <= |events|
    ensures forall k :: k in Rebuilt(events, stride, target) ==> Rebuilt(events, stride, target)[k].key == k
  {
    MapOfKeys(DataUpdates(events[..target]));
    if target < |events| {
      MapOfKeys(DataUpdates(events[..target + 1]));
    }
  }
}
