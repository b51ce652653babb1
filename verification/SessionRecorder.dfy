/** The session recorder: any thread appends a line under a mutex, one writer thread sleeps on a condition
  * variable and writes the lines to a file, and the UI thread starts and stops the session.
  */
module SessionRecorder {
  import opened DirectWire
  import opened TextFiles

  /** A serialised event and the timestamp inside it. */
  datatype Line = Line(timestampUs: uint64, text: octets)

  /** What writing a line adds to the file, opened as text. */
  function Written(mode: TextMode, line: Line): octets
  {
    if line.text == [] then [] else ToNative(mode, line.text) + ToNative(mode, [NEWLINE])
  }

  function Text(mode: TextMode, lines: seq<Line>): octets
  {
    if lines == [] then [] else Text(mode, lines[..|lines| - 1]) + Written(mode, lines[|lines| - 1])
  }

  lemma TextNone(mode: TextMode)
    ensures Text(mode, []) == []
  {
  }

  lemma TextSnoc(mode: TextMode, lines: seq<Line>, line: Line)
    ensures Text(mode, lines + [line]) == Text(mode, lines) + Written(mode, line)
  {
    hide Written;
    assert (lines + [line])[..|lines|] == lines;
  }

  lemma {:induction false} TextConcat(mode: TextMode, a: seq<Line>, b: seq<Line>)
    ensures Text(mode, a + b) == Text(mode, a) + Text(mode, b)
    decreases |b|
  {
    hide Text, Written;
    TextNone(mode);
    if b == [] {
      assert a + b == a;
    } else {
      var n := |b| - 1;
      assert b == b[..n] + [b[n]];
      assert a + b == (a + b[..n]) + [b[n]];
      TextSnoc(mode, a + b[..n], b[n]);
      TextSnoc(mode, b[..n], b[n]);
      TextConcat(mode, a, b[..n]);
      Grouped(Text(mode, a), Text(mode, b[..n]), Written(mode, b[n]));
    }
  }

  lemma Grouped(x: octets, y: octets, z: octets)
    ensures x + (y + z) == x + y + z
  {
  }

  lemma TextFirst(mode: TextMode, lines: seq<Line>)
    requires lines != []
    ensures Text(mode, lines) == Written(mode, lines[0]) + Text(mode, lines[1..])
  {
    hide Text, Written;
    assert lines == [lines[0]] + lines[1..];
    TextConcat(mode, [lines[0]], lines[1..]);
    TextNone(mode);
    TextSnoc(mode, [], lines[0]);
    assert [] + [lines[0]] == [lines[0]];
  }

  /** Texts as the serialiser makes them: not empty, line ends escaped. */
  predicate Serialised(lines: seq<Line>)
  {
    forall i :: 0 <= i < |lines| ==> lines[i].text != [] && NEWLINE !in lines[i].text && RETURN !in lines[i].text
  }

  lemma {:induction false} TextIsNative(mode: TextMode, lines: seq<Line>)
    ensures Text(mode, lines) == ToNative(mode, Text(Untranslated, lines))
    decreases |lines|
  {
    hide ToNative;
    if lines == [] {
      NoneNative(mode);
    } else {
      var front, line := Text(Untranslated, lines[..|lines| - 1]), lines[|lines| - 1];
      TextIsNative(mode, lines[..|lines| - 1]);
      NoneNative(mode);
      NativeConcat(mode, front, Written(Untranslated, line));
      NativeConcat(mode, line.text, [NEWLINE]);
      PlainNative(line.text);
      PlainNative([NEWLINE]);
    }
  }

  lemma NoneNative(mode: TextMode)
    ensures ToNative(mode, []) == []
  {
  }

  lemma PlainNative(s: octets)
    ensures ToNative(Untranslated, s) == s
  {
  }

  lemma {:induction false} NoReturns(lines: seq<Line>)
    requires Serialised(lines)
    ensures RETURN !in Text(Untranslated, lines)
    decreases |lines|
  {
    if lines != [] {
      NoReturns(lines[..|lines| - 1]);
    }
  }

  /** Reading the file line by line, line ends undone, gives the lines back on every platform. */
  lemma FileReadsBack(mode: TextMode, lines: seq<Line>)
    requires Serialised(lines)
    ensures var read := Lines(Uncrlf(Text(mode, lines)));
      |read| == |lines| && forall i :: 0 <= i < |lines| ==> read[i] == lines[i].text
  {
    hide Text, Lines, Uncrlf;
    TextIsNative(mode, lines);
    UncrlfUndoesCrlf(Text(Untranslated, lines));
    NoReturns(lines);
    NothingToUndo(Text(Untranslated, lines));
    PlainReadsBack(lines);
  }

  lemma {:induction false} PlainReadsBack(lines: seq<Line>)
    requires Serialised(lines)
    ensures |Lines(Text(Untranslated, lines))| == |lines|
    ensures forall i :: 0 <= i < |lines| ==> Lines(Text(Untranslated, lines))[i] == lines[i].text
    decreases |lines|
  {
    hide Text, Lines;
    TextNone(Untranslated);
    NoLines();
    if lines != [] {
      var line, rest := lines[0], lines[1..];
      TextFirst(Untranslated, lines);
      FirstLine(line.text, Text(Untranslated, rest));
      PlainReadsBack(rest);
      assert forall i :: 0 < i < |lines| ==>
          Lines(Text(Untranslated, lines))[i] == Lines(Text(Untranslated, rest))[i - 1];
    }
  }

  lemma NoLines()
    ensures Lines([]) == []
  {
  }

  // ---------------------------------------------------------------- the state under the mutex

  datatype Shared = Shared(queue: seq<Line>, stopRequested: bool, running: bool, startUs: uint64, lastUs: uint64)

  predicate Recording(sh: Shared)
  {
    sh.running && !sh.stopRequested
  }

  /** Time since the session began, never before the last stamp given out. */
  function Stamp(sh: Shared, nowUs: uint64): (t: uint64)
  {
    var elapsed := if nowUs >= sh.startUs then nowUs - sh.startUs else 0;
    if elapsed < sh.lastUs then sh.lastUs else elapsed
  }

  function Pushed(sh: Shared, line: Line): Shared
  {
    if Recording(sh) then sh.(queue := sh.queue + [line]) else sh
  }

  function Recorded(sh: Shared, nowUs: uint64, text: octets): Shared
  {
    if Recording(sh) then Pushed(sh, Line(Stamp(sh, nowUs), text)).(lastUs := Stamp(sh, nowUs)) else sh
  }

  /** A session begins with an empty queue and a clock at zero, whatever went before. */
  function Started(startUs: uint64): Shared
  {
    Shared([], false, true, startUs, 0)
  }

  function StopRequested(sh: Shared): Shared
  {
    sh.(stopRequested := true)
  }

  /** The writer has drained the queue for the last time. */
  function Drained(sh: Shared): Shared
  {
    sh.(queue := [], running := false)
  }

  function CleanedUp(sh: Shared): Shared
  {
    Drained(sh).(stopRequested := false)
  }

  function RecordedAll(sh: Shared, events: seq<(uint64, octets)>): Shared
    decreases |events|
  {
    if events == [] then sh else RecordedAll(Recorded(sh, events[0].0, events[0].1), events[1..])
  }

  lemma {:induction false} NothingRecorded(sh: Shared, events: seq<(uint64, octets)>)
    requires !Recording(sh)
    ensures RecordedAll(sh, events) == sh
    decreases |events|
  {
    if events != [] {
      NothingRecorded(sh, events[1..]);
    }
  }

  lemma {:induction false} AllRecorded(sh: Shared, events: seq<(uint64, octets)>)
    requires Recording(sh)
    ensures var sh' := RecordedAll(sh, events);
      && Recording(sh') && |sh'.queue| == |sh.queue| + |events| && sh.queue <= sh'.queue
      && (forall i :: 0 <= i < |events| ==> sh'.queue[|sh.queue| + i].text == events[i].1)
      && (forall i :: 0 <= i < |events| ==>
           sh'.queue[|sh.queue| + i].timestampUs ==
             Later(events[i].0 - sh.startUs, if i == 0 then sh.lastUs else sh'.queue[|sh.queue| + i - 1].timestampUs))
    decreases |events|
  {
    if events != [] {
      var sh1 := Recorded(sh, events[0].0, events[0].1);
      AllRecorded(sh1, events[1..]);
      FirstStamp(sh, events[0].0);
      var sh' := RecordedAll(sh1, events[1..]);
      assert sh'.queue[..|sh1.queue|] == sh1.queue;
      assert sh'.queue[|sh.queue|] == sh'.queue[..|sh1.queue|][|sh.queue|];
      assert forall i :: 0 < i < |events| ==> events[i] == events[1..][i - 1];
    }
  }

  /** The later of two times. */
  function Later(elapsedUs: int, previousUs: nat): nat
  {
    if elapsedUs > previousUs then elapsedUs else previousUs
  }

  lemma FirstStamp(sh: Shared, nowUs: uint64)
    ensures Stamp(sh, nowUs) == Later(nowUs - sh.startUs, sh.lastUs)
  {
  }

  /** A session accepts every event between start and stop, in order, and none after the stop was requested. Each
    * is stamped with the time since the start, or the stamp before it if that is later.
    */
  lemma SessionAcceptsBetweenStartAndStop(startUs: uint64, during: seq<(uint64, octets)>, late: seq<(uint64, octets)>)
    ensures var stopped := StopRequested(RecordedAll(Started(startUs), during));
      && RecordedAll(stopped, late) == stopped
      && |stopped.queue| == |during|
      && (forall i :: 0 <= i < |during| ==> stopped.queue[i].text == during[i].1)
      && (forall i :: 0 <= i < |during| ==>
           stopped.queue[i].timestampUs ==
             Later(during[i].0 - startUs, if i == 0 then 0 else stopped.queue[i - 1].timestampUs))
  {
    AllRecorded(Started(startUs), during);
    NothingRecorded(StopRequested(RecordedAll(Started(startUs), during)), late);
  }

  /** Between sessions nothing is accepted and nothing is left over for the next one. */
  lemma NothingBetweenSessions(sh: Shared, events: seq<(uint64, octets)>)
    ensures RecordedAll(CleanedUp(sh), events) == CleanedUp(sh) && CleanedUp(sh).queue == []
  {
    NothingRecorded(CleanedUp(sh), events);
  }

  // ---------------------------------------------------------------- all interleavings

  datatype Writer = Gone | Opening | Failing | Checking | Asleep | Writing(line: Line) | LastDrain | Closing

  /** The UI thread: stamping a connection event takes three steps, stopping takes four. */
  datatype Ui = Free | Computed(stamp: uint64) | Stamped(stamp: uint64) | Requested | Joining | Joined

  /** How the platform's text files end lines; the mutex-protected state; the writer thread and whether it was
    * notified since it fell asleep; threads that have pushed a line but not yet notified; the UI thread and
    * whether it holds a thread to join; the bytes of the file before the session, what the writer has handed
    * over and what has reached the disk; and the history: whether the file opened, the
    * lines accepted; whether a line with a later stamp was accepted since the connection event in hand took
    * its own; the last stamp such an event overwrote with an earlier one, while no line has reached it again;
    * and whether either ever had its effect on an accepted line.
    */
  datatype State = State(mode: TextMode, shared: Shared, writer: Writer, notified: bool, toNotify: nat,
                         ui: Ui, joinable: bool,
                         prior: octets, buffered: octets, disk: octets, fileOpened: bool, accepted: seq<Line>,
                         overtaken: bool, lowered: uint64, wentBack: bool)

  datatype Action =
    | Record(nowUs: uint64, text: octets) | Notify
    | OpenFile(ok: bool) | GiveUp | Check | Wake | SpuriousWake | WriteLine | DrainRest | CloseFile | Spill(n: nat)
    | StartRecording(mode: TextMode, prior: octets, startUs: uint64)
    | ComputeStamp(nowUs: uint64) | StoreStamp | PushConnection(text: octets)
    | RequestStop | NotifyAll | Join | CleanUp

  function Init(): State
  {
    State(Untranslated, Shared([], false, false, 0, 0), Gone, false, 0, Free, false,
          [], [], [], false, [], false, 0, false)
  }

  predicate OfUi(a: Action)
  {
    || a.StartRecording? || a.ComputeStamp? || a.StoreStamp? || a.PushConnection?
    || a.RequestStop? || a.NotifyAll? || a.Join? || a.CleanUp?
  }

  function Step(s: State, a: Action): State
  {
    match a
    case Record(_, _) => RecordStep(s, a)
    case Notify =>
      if s.toNotify > 0 then s.(toNotify := s.toNotify - 1, notified := s.notified || s.writer.Asleep?) else s
    case _ => if OfUi(a) then UiStep(s, a) else WriterStep(s, a)
  }

  function RecordStep(s: State, a: Action): State
    requires a.Record?
  {
    if Recording(s.shared) then
      var stamp := Stamp(s.shared, a.nowUs);
      s.(shared := Recorded(s.shared, a.nowUs, a.text), toNotify := s.toNotify + 1,
         accepted := s.accepted + [Line(stamp, a.text)],
         overtaken := s.overtaken || ((s.ui.Computed? || s.ui.Stamped?) && stamp > s.ui.stamp),
         lowered := if stamp < s.lowered then s.lowered else 0,
         wentBack := s.wentBack || stamp < s.lowered)
    else s
  }

  function WriterStep(s: State, a: Action): State
  {
    match a
    case OpenFile(ok) =>
      if s.writer.Opening? then s.(writer := if ok then Checking else Failing, fileOpened := ok) else s
    case GiveUp =>
      if s.writer.Failing? then s.(shared := s.shared.(running := false), writer := Gone) else s
    case Check =>
      if !s.writer.Checking? then s
      else if s.shared.queue != [] then
        s.(shared := s.shared.(queue := s.shared.queue[1..]), writer := Writing(s.shared.queue[0]))
      else if s.shared.stopRequested then s.(writer := LastDrain)
      else s.(writer := Asleep, notified := false)
    case Wake =>
      if s.writer.Asleep? && s.notified then s.(writer := Checking) else s
    case SpuriousWake =>
      if s.writer.Asleep? then s.(writer := Checking) else s
    case WriteLine =>
      if s.writer.Writing? then s.(buffered := s.buffered + Written(s.mode, s.writer.line), writer := Checking) else s
    case DrainRest =>
      if s.writer.LastDrain? then
        s.(buffered := s.buffered + Text(s.mode, s.shared.queue), shared := Drained(s.shared), writer := Closing)
      else s
    case CloseFile =>
      if s.writer.Closing? then s.(disk := s.disk + s.buffered, buffered := [], writer := Gone) else s
    case Spill(n) =>
      if n <= |s.buffered| then s.(disk := s.disk + s.buffered[..n], buffered := s.buffered[n..]) else s
    case _ => s
  }

  function UiStep(s: State, a: Action): State
  {
    match a
    case StartRecording(mode, prior, startUs) =>
      if s.ui.Free? && !s.joinable then
        State(mode, Started(startUs), Opening, false, s.toNotify, Free, true,
              prior, [], prior, false, [], false, 0, false)
      else s
    case ComputeStamp(nowUs) =>
      if s.ui.Free? then s.(ui := Computed(Stamp(s.shared, nowUs)), overtaken := false) else s
    case StoreStamp =>
      if s.ui.Computed? then
        s.(shared := s.shared.(lastUs := s.ui.stamp), ui := Stamped(s.ui.stamp),
           lowered := if s.ui.stamp < s.shared.lastUs then s.shared.lastUs else s.lowered)
      else s
    case PushConnection(text) =>
      if !s.ui.Stamped? then s
      else if Recording(s.shared) then
        var line := Line(s.ui.stamp, text);
        s.(shared := Pushed(s.shared, line), accepted := s.accepted + [line], toNotify := s.toNotify + 1, ui := Free,
           wentBack := s.wentBack || s.overtaken)
      else s.(ui := Free)
    case RequestStop =>
      if s.ui.Free? && (s.shared.running || s.joinable) then
        s.(shared := StopRequested(s.shared), ui := Requested)
      else s
    case NotifyAll =>
      if s.ui.Requested? then s.(notified := s.notified || s.writer.Asleep?, ui := Joining) else s
    case Join =>
      if s.ui.Joining? && s.writer.Gone? then s.(joinable := false, ui := Joined) else s
    case CleanUp =>
      if s.ui.Joined? then
        s.(shared := CleanedUp(s.shared), ui := Free)
      else s
    case _ => s
  }

  function Run(s: State, actions: seq<Action>): State
    decreases |actions|
  {
    if actions == [] then s else Run(Step(s, actions[0]), actions[1..])
  }

  // ---------------------------------------------------------------- the invariant

  predicate Stopping(s: State)
  {
    s.ui.Requested? || s.ui.Joining? || s.ui.Joined?
  }

  /** Which thread may be where. */
  predicate Phases(s: State)
  {
    && s.shared.stopRequested == Stopping(s)
    && (!s.writer.Gone? ==> s.joinable)
    && (s.ui.Requested? || s.ui.Joining? ==> s.joinable)
    && (s.ui.Joined? ==> !s.joinable)
    && (s.writer.Gone? || s.writer.Closing? ==> !s.shared.running)
    && (s.writer.LastDrain? ==> s.shared.stopRequested)
    && (s.writer.LastDrain? || s.writer.Closing? ==> s.shared.queue == [])
  }

  function InHand(s: State): octets
  {
    if s.writer.Writing? then Written(s.mode, s.writer.line) else []
  }

  /** Every accepted line is on disk, handed over, in hand or queued, in that order. */
  predicate Ledger(s: State)
  {
    && (s.writer.Opening? ==> s.shared.queue == s.accepted)
    && (s.writer.Opening? || s.writer.Failing? ==> !s.fileOpened)
    && (s.fileOpened && !s.writer.Gone? ==>
         s.disk + s.buffered + InHand(s) + Text(s.mode, s.shared.queue) == s.prior + Text(s.mode, s.accepted))
    && (s.fileOpened && s.writer.Gone? ==> s.disk == s.prior + Text(s.mode, s.accepted))
    && (!s.fileOpened ==> s.disk == s.prior && (s.writer.Opening? || s.writer.Failing? || s.writer.Gone?))
    && (!s.fileOpened || s.writer.Gone? ==> s.buffered == [])
  }

  /** A writer asleep with something to do has been notified or is about to be. */
  predicate WillWake(s: State)
  {
    s.writer.Asleep? && !s.notified && (s.shared.queue != [] || s.shared.stopRequested) ==>
      s.toNotify > 0 || s.ui.Requested?
  }

  predicate NonDecreasing(lines: seq<Line>)
  {
    forall i, j :: 0 <= i <= j < |lines| ==> lines[i].timestampUs <= lines[j].timestampUs
  }

  /** The accepted times went back exactly as the history says; until then the last accepted time and the
    * shared last stamp are related by what the connection event in hand has done.
    */
  predicate Clock(s: State)
  {
    && (s.wentBack <==> !NonDecreasing(s.accepted))
    && (Recording(s.shared) && !s.wentBack ==> Keeping(s))
  }

  function LastTime(lines: seq<Line>): int
  {
    if lines == [] then -1 else lines[|lines| - 1].timestampUs
  }

  predicate Keeping(s: State)
  {
    && (s.lowered > 0 ==> LastTime(s.accepted) == s.lowered && s.ui.Stamped? && s.overtaken)
    && (s.lowered == 0 ==> LastTime(s.accepted) <= s.shared.lastUs)
    && (s.ui.Computed? ==>
         if s.overtaken then s.ui.stamp < LastTime(s.accepted) == s.shared.lastUs else s.ui.stamp >= s.shared.lastUs)
    && (s.ui.Stamped? ==>
         if s.overtaken then s.ui.stamp < LastTime(s.accepted) else s.lowered == 0 && s.ui.stamp == s.shared.lastUs)
  }

  lemma OneMoreLine(lines: seq<Line>, line: Line)
    ensures NonDecreasing(lines + [line]) <==> NonDecreasing(lines) && LastTime(lines) <= line.timestampUs
  {
    var all := lines + [line];
    if NonDecreasing(all) {
      forall i, j | 0 <= i <= j < |lines|
        ensures lines[i].timestampUs <= lines[j].timestampUs
      {
        assert all[i] == lines[i] && all[j] == lines[j];
      }
      assert lines != [] ==> all[|lines| - 1] == lines[|lines| - 1] && all[|lines|] == line;
    }
  }

  predicate Inv(s: State)
  {
    Phases(s) && Ledger(s) && WillWake(s) && Clock(s)
  }

  lemma StepPhases(s: State, a: Action)
    requires Phases(s)
    ensures Phases(Step(s, a))
  {
    hide WriterStep, UiStep, Stamp;
    if OfUi(a) {
      UiPhases(s, a);
    } else if !a.Record? && !a.Notify? {
      WriterPhases(s, a);
    }
  }

  lemma UiPhases(s: State, a: Action)
    requires Phases(s)
    ensures Phases(UiStep(s, a))
  {
    hide Stamp;
  }

  lemma WriterPhases(s: State, a: Action)
    requires Phases(s)
    ensures Phases(WriterStep(s, a))
  {
    hide Phases, WriterStep;
    if a.Check? || a.Wake? || a.SpuriousWake? {
      LoopPhases(s, a);
    } else {
      FilePhases(s, a);
    }
  }

  lemma LoopPhases(s: State, a: Action)
    requires Phases(s) && (a.Check? || a.Wake? || a.SpuriousWake?)
    ensures Phases(WriterStep(s, a))
  {
  }

  lemma FilePhases(s: State, a: Action)
    requires Phases(s) && !a.Check? && !a.Wake? && !a.SpuriousWake?
    ensures Phases(WriterStep(s, a))
  {
    hide Text, Written;
  }

  lemma StepLedger(s: State, a: Action)
    requires Phases(s) && Ledger(s)
    ensures Ledger(Step(s, a))
  {
    hide Ledger, WriterStep, UiStep, RecordStep, Phases;
    if a.Record? {
      RecordLedger(s, a);
    } else if OfUi(a) {
      UiLedger(s, a);
    } else if a.Notify? {
      NotifyLedger(s);
    } else {
      WriterLedger(s, a);
    }
  }

  lemma RecordLedger(s: State, a: Action)
    requires Phases(s) && Ledger(s) && a.Record?
    ensures Ledger(RecordStep(s, a))
  {
    hide Stamp, Text, Written;
    var line := Line(Stamp(s.shared, a.nowUs), a.text);
    TextSnoc(s.mode, s.shared.queue, line);
    TextSnoc(s.mode, s.accepted, line);
    Regroup(s, line);
  }

  lemma NotifyLedger(s: State)
    requires Ledger(s)
    ensures Ledger(Step(s, Notify))
  {
    hide Text, Written;
  }

  lemma UiLedger(s: State, a: Action)
    requires Phases(s) && Ledger(s)
    ensures Ledger(UiStep(s, a))
  {
    hide Stamp, Text, Written;
    if a.StartRecording? {
      TextNone(a.mode);
    } else if a.PushConnection? && s.ui.Stamped? {
      var line := Line(s.ui.stamp, a.text);
      TextSnoc(s.mode, s.shared.queue, line);
      TextSnoc(s.mode, s.accepted, line);
      Regroup(s, line);
    } else if a.CleanUp? {
      TextNone(s.mode);
    }
  }

  lemma Regroup(s: State, line: Line)
    ensures s.disk + s.buffered + InHand(s) + (Text(s.mode, s.shared.queue) + Written(s.mode, line))
         == s.disk + s.buffered + InHand(s) + Text(s.mode, s.shared.queue) + Written(s.mode, line)
    ensures s.prior + (Text(s.mode, s.accepted) + Written(s.mode, line))
      == s.prior + Text(s.mode, s.accepted) + Written(s.mode, line)
  {
    hide Text, Written, InHand;
  }

  lemma WriterLedger(s: State, a: Action)
    requires Phases(s) && Ledger(s)
    ensures Ledger(WriterStep(s, a))
  {
    hide WriterStep, Ledger, Phases;
    match a
    case Check => CheckLedger(s);
    case WriteLine => WriteLedger(s);
    case Spill(n) => SpillLedger(s, n);
    case _ => OpenCloseLedger(s, a);
  }

  lemma CheckLedger(s: State)
    requires Ledger(s)
    ensures Ledger(WriterStep(s, Check))
  {
    hide Text, Written;
    if s.writer.Checking? && s.shared.queue != [] {
      TextFirst(s.mode, s.shared.queue);
      TakeKeeps(s.disk + s.buffered, Written(s.mode, s.shared.queue[0]), Text(s.mode, s.shared.queue[1..]));
    }
  }

  lemma WriteLedger(s: State)
    requires Ledger(s)
    ensures Ledger(WriterStep(s, WriteLine))
  {
    hide Text, Written;
    if s.writer.Writing? {
      HandOverKeeps(s.disk, s.buffered, Written(s.mode, s.writer.line));
    }
  }

  lemma SpillLedger(s: State, n: nat)
    requires Ledger(s)
    ensures Ledger(WriterStep(s, Spill(n)))
  {
    hide Text, Written;
    if s.buffered == [] {
      NothingSpilt(s.disk);
    } else if n <= |s.buffered| {
      SpillKeeps(s.disk, s.buffered, n);
    }
  }

  lemma TakeKeeps(done: octets, line: octets, rest: octets)
    ensures done + [] + (line + rest) == done + line + rest
  {
  }

  lemma HandOverKeeps(disk: octets, buffered: octets, line: octets)
    ensures disk + (buffered + line) + [] == disk + buffered + line
  {
  }

  lemma OpenCloseLedger(s: State, a: Action)
    requires Phases(s) && Ledger(s) && !a.Check? && !a.WriteLine? && !a.Spill?
    ensures Ledger(WriterStep(s, a))
  {
    hide Text, Written;
    TextNone(s.mode);
    match a
    case OpenFile(ok) =>
      if s.writer.Opening? {
        assert s.prior + [] + [] + Text(s.mode, s.shared.queue) == s.prior + Text(s.mode, s.accepted);
      }
    case DrainRest =>
      if s.writer.LastDrain? {
        assert s.disk + (s.buffered + []) + [] + [] == s.disk + s.buffered + [] + [];
      }
    case CloseFile =>
      if s.writer.Closing? {
        assert s.disk + s.buffered + [] + [] == s.disk + s.buffered;
      }
    case _ =>
  }

  lemma NothingSpilt(disk: octets)
    ensures var none: octets := []; disk + none[..0] == disk && none[0..] == none
  {
  }

  lemma SpillKeeps(disk: octets, buffered: octets, n: nat)
    requires n <= |buffered|
    ensures (disk + buffered[..n]) + buffered[n..] == disk + buffered
  {
    assert buffered == buffered[..n] + buffered[n..];
  }

  lemma StepWillWake(s: State, a: Action)
    requires Phases(s) && WillWake(s)
    ensures WillWake(Step(s, a))
  {
    hide Phases, UiStep, WriterStep, Stamp;
    if OfUi(a) {
      UiWakes(s, a);
    } else if !a.Record? && !a.Notify? {
      WriterWakes(s, a);
    }
  }

  lemma UiWakes(s: State, a: Action)
    requires Phases(s) && WillWake(s)
    ensures WillWake(UiStep(s, a))
  {
    hide Stamp;
  }

  lemma WriterWakes(s: State, a: Action)
    requires WillWake(s)
    ensures WillWake(WriterStep(s, a))
  {
    hide Text, Written;
  }

  lemma StepClock(s: State, a: Action)
    requires Phases(s) && Clock(s)
    ensures Clock(Step(s, a))
  {
    hide Text, Written, UiStep, RecordStep, Phases, Stamp, NonDecreasing, Keeping;
    if a.Record? {
      RecordClock(s, a);
    } else if OfUi(a) {
      UiClock(s, a);
    } else if a.Notify? {
      SameClock(s, Step(s, a));
    } else {
      WriterClock(s, a);
    }
  }

  predicate SameHistory(s: State, s': State)
  {
    && s'.accepted == s.accepted && s'.ui == s.ui && s'.shared.lastUs == s.shared.lastUs
    && s'.overtaken == s.overtaken && s'.lowered == s.lowered && s'.wentBack == s.wentBack
    && (Recording(s'.shared) ==> Recording(s.shared))
  }

  lemma SameClock(s: State, s': State)
    requires Clock(s)
    requires SameHistory(s, s')
    ensures Clock(s')
  {
    hide NonDecreasing;
  }

  /** The writer leaves the history and the clock alone. */
  lemma WriterKeeps(s: State, a: Action)
    ensures SameHistory(s, WriterStep(s, a))
  {
    hide Text, Written;
    match a
    case Check => WriterChecks(s);
    case WriteLine => WriterWrites(s);
    case DrainRest => WriterDrains(s);
    case CloseFile => WriterCloses(s);
    case Spill(n) => WriterSpills(s, n);
    case _ =>
  }

  lemma WriterChecks(s: State)
    ensures SameHistory(s, WriterStep(s, Check))
  {
    hide Text, Written, Drained;
  }

  lemma WriterWrites(s: State)
    ensures SameHistory(s, WriterStep(s, WriteLine))
  {
    hide Text, Written, Drained;
  }

  lemma WriterDrains(s: State)
    ensures SameHistory(s, WriterStep(s, DrainRest))
  {
    hide Text, Written;
  }

  lemma WriterCloses(s: State)
    ensures SameHistory(s, WriterStep(s, CloseFile))
  {
    hide Text, Written, Drained;
  }

  lemma WriterSpills(s: State, n: nat)
    ensures SameHistory(s, WriterStep(s, Spill(n)))
  {
    hide Text, Written, Drained;
  }

  lemma WriterClock(s: State, a: Action)
    requires Clock(s)
    ensures Clock(WriterStep(s, a))
  {
    hide WriterStep, Clock;
    WriterKeeps(s, a);
    SameClock(s, WriterStep(s, a));
  }

  lemma StampNotBefore(sh: Shared, nowUs: uint64)
    ensures Stamp(sh, nowUs) >= sh.lastUs
  {
  }

  lemma RecordClock(s: State, a: Action)
    requires Phases(s) && Clock(s) && a.Record?
    ensures Clock(RecordStep(s, a))
  {
    hide Stamp, NonDecreasing;
    StampNotBefore(s.shared, a.nowUs);
    OneMoreLine(s.accepted, Line(Stamp(s.shared, a.nowUs), a.text));
  }

  lemma UiClock(s: State, a: Action)
    requires Phases(s) && Clock(s)
    ensures Clock(UiStep(s, a))
  {
    hide Stamp, NonDecreasing;
    NoLinesKeep();
    if a.ComputeStamp? {
      StampNotBefore(s.shared, a.nowUs);
    } else if a.PushConnection? && s.ui.Stamped? {
      OneMoreLine(s.accepted, Line(s.ui.stamp, a.text));
    }
  }

  lemma NoLinesKeep()
    ensures NonDecreasing([])
  {
  }

  lemma StepInv(s: State, a: Action)
    requires Inv(s)
    ensures Inv(Step(s, a))
  {
    hide Phases, Ledger, WillWake, Clock, Step;
    StepPhases(s, a);
    StepLedger(s, a);
    StepWillWake(s, a);
    StepClock(s, a);
  }

  lemma {:induction false} RunInv(s: State, actions: seq<Action>)
    requires Inv(s)
    ensures Inv(Run(s, actions))
    decreases |actions|
  {
    hide Inv, Step;
    if actions != [] {
      StepInv(s, actions[0]);
      RunInv(Step(s, actions[0]), actions[1..]);
    }
  }

  // ---------------------------------------------------------------- main results

  /** In every interleaving the file is at any moment a prefix of the accepted lines, and by the time the
    * writer is joined it holds exactly those lines, once each and in order of acceptance; a session whose
    * file could not be opened leaves the file alone.
    */
  lemma NothingLost(actions: seq<Action>)
    ensures var s := Run(Init(), actions);
      && (s.fileOpened ==> s.disk <= s.prior + Text(s.mode, s.accepted))
      && (!s.joinable && s.fileOpened ==> s.disk == s.prior + Text(s.mode, s.accepted))
      && (!s.fileOpened ==> s.disk == s.prior)
  {
    hide Step, Run, Text;
    RunInv(Init(), actions);
  }

  /** No wake-up is lost, so the writer never sleeps on a line or on a stop request. */
  lemma NoWakeUpIsLost(actions: seq<Action>)
    ensures var s := Run(Init(), actions);
      s.writer.Asleep? && (s.shared.queue != [] || s.shared.stopRequested) ==>
        s.notified || s.toNotify > 0 || s.ui.Requested?
  {
    hide Step, Run, Text;
    RunInv(Init(), actions);
  }

  /** Every line accepted owes exactly one notification, and none is owed for a line refused. */
  lemma OneNoticePerLine(s: State, a: Action)
    requires a.Record? || a.PushConnection?
    ensures var s' := Step(s, a);
      && s'.toNotify - s.toNotify == |s'.accepted| - |s.accepted|
      && |s'.accepted| == |s.accepted| + if Recording(s.shared) && (a.Record? || s.ui.Stamped?) then 1 else 0
  {
    hide Stamp;
  }

  /** A writer that falls asleep has no notification left over, and only a new one, or a spurious wake-up, ends
    * its sleep.
    */
  lemma SleepsUntilNotified(s: State, a: Action)
    requires Phases(s)
    ensures !s.writer.Asleep? && Step(s, a).writer.Asleep? ==> !Step(s, a).notified && a == Check
    ensures s.writer.Asleep? && !Step(s, a).writer.Asleep? ==> (a == Wake && s.notified) || a == SpuriousWake
    ensures !s.notified && Step(s, a).notified ==> s.writer.Asleep? && (a == Notify || a == NotifyAll)
  {
    hide Stamp, Text, Written, WriterStep, UiStep;
    if OfUi(a) {
      UiNotices(s, a);
    } else if !a.Record? && !a.Notify? {
      WriterSleeps(s, a);
    }
  }

  lemma UiNotices(s: State, a: Action)
    requires Phases(s)
    ensures var s' := UiStep(s, a);
      && (s'.writer == s.writer || (s'.writer == Opening && s.writer == Gone))
      && (!s.notified && s'.notified ==> s.writer.Asleep? && a == NotifyAll)
  {
    hide Stamp;
  }

  lemma WriterSleeps(s: State, a: Action)
    ensures var s' := WriterStep(s, a);
      && (!s.writer.Asleep? && s'.writer.Asleep? ==> !s'.notified && a == Check)
      && (s.writer.Asleep? && !s'.writer.Asleep? ==> (a == Wake && s.notified) || a == SpuriousWake)
      && (!s.notified ==> !s'.notified)
  {
    hide Text, Written;
  }

  /** The drain after the writer's loop never finds a line: the loop only ends once the queue is empty and
    * nothing is accepted after a stop request.
    */
  lemma LastDrainFindsNothing(actions: seq<Action>)
    ensures var s := Run(Init(), actions);
      s.writer.LastDrain? ==> s.shared.queue == [] && !Recording(s.shared)
  {
    hide Step, Run, Text;
    RunInv(Init(), actions);
  }

  /** In every run the accepted timestamps decrease exactly when one of two things happened: a connection
    * event was accepted after a line that overtook it, or a line was accepted with a stamp below one that a
    * connection event had overwritten with its own earlier stamp.
    */
  lemma TimesGoBackExactly(actions: seq<Action>)
    ensures var s := Run(Init(), actions); NonDecreasing(s.accepted) <==> !s.wentBack
  {
    hide Step, Run, Text;
    RunInv(Init(), actions);
  }

  /** In particular they never decrease when only variable events are recorded, from any number of threads
    * that read the clock in any order before they take the mutex.
    */
  lemma VariableStampsNeverDecrease(actions: seq<Action>)
    requires forall i :: 0 <= i < |actions| ==> !actions[i].ComputeStamp?
    ensures NonDecreasing(Run(Init(), actions).accepted)
  {
    hide Step, Run;
    NeverWentBack(Init(), actions);
    TimesGoBackExactly(actions);
  }

  lemma {:induction false} NeverWentBack(s: State, actions: seq<Action>)
    requires !s.wentBack && s.lowered == 0 && !s.ui.Computed? && !s.ui.Stamped?
    requires forall i :: 0 <= i < |actions| ==> !actions[i].ComputeStamp?
    ensures !Run(s, actions).wentBack
    decreases |actions|
  {
    hide Step;
    if actions != [] {
      StaysForward(s, actions[0]);
      NeverWentBack(Step(s, actions[0]), actions[1..]);
    }
  }

  lemma StaysForward(s: State, a: Action)
    requires !s.wentBack && s.lowered == 0 && !s.ui.Computed? && !s.ui.Stamped? && !a.ComputeStamp?
    ensures var s' := Step(s, a); !s'.wentBack && s'.lowered == 0 && !s'.ui.Computed? && !s'.ui.Stamped?
  {
    hide UiStep, WriterStep, Stamp;
    if OfUi(a) {
      UiStaysForward(s, a);
    } else if !a.Record? && !a.Notify? {
      WriterKeeps(s, a);
    }
  }

  lemma UiStaysForward(s: State, a: Action)
    requires !s.wentBack && s.lowered == 0 && !s.ui.Computed? && !s.ui.Stamped? && !a.ComputeStamp?
    ensures var s' := UiStep(s, a); !s'.wentBack && s'.lowered == 0 && !s'.ui.Computed? && !s'.ui.Stamped?
  {
    hide Stamp;
  }

  /** A connection event is stamped before it takes the mutex, so a variable event recorded in between
    * comes first in the file with the later time.
    */
  lemma ConnectionEventGoesBack(earlier: uint64, later: uint64, text: octets)
    requires earlier < later
    ensures var s := Run(Init(), [StartRecording(Untranslated, [], 0), ComputeStamp(earlier), StoreStamp,
                                  Record(later, text), PushConnection(text)]);
      s.accepted == [Line(later, text), Line(earlier, text)] && !NonDecreasing(s.accepted)
  {
    hide Text, Written;
    var s1 := Step(Init(), StartRecording(Untranslated, [], 0));
    var s2 := Step(s1, ComputeStamp(earlier));
    var s3 := Step(s2, StoreStamp);
    var s4 := Step(s3, Record(later, text));
    var s5 := Step(s4, PushConnection(text));
    RunFive(Init(), StartRecording(Untranslated, [], 0), ComputeStamp(earlier), StoreStamp,
            Record(later, text), PushConnection(text));
    assert s5.accepted[0].timestampUs == later && s5.accepted[1].timestampUs == earlier;
  }

  /** A connection event can also make variable events go back without being accepted itself: its earlier
    * stamp, stored outside the mutex, replaces the last stamp, and the next variable event is stamped below
    * the one before.
    */
  lemma VariableEventGoesBack(early: uint64, middle: uint64, late: uint64, text: octets)
    requires early <= middle < late
    ensures var s := Run(Init(), [StartRecording(Untranslated, [], 0), ComputeStamp(early), Record(late, text),
                                  StoreStamp, Record(middle, text)]);
      s.accepted == [Line(late, text), Line(middle, text)] && !NonDecreasing(s.accepted)
  {
    hide Text, Written;
    var s1 := Step(Init(), StartRecording(Untranslated, [], 0));
    var s2 := Step(s1, ComputeStamp(early));
    var s3 := Step(s2, Record(late, text));
    var s4 := Step(s3, StoreStamp);
    var s5 := Step(s4, Record(middle, text));
    RunFive(Init(), StartRecording(Untranslated, [], 0), ComputeStamp(early), Record(late, text),
            StoreStamp, Record(middle, text));
    assert s5.accepted[0].timestampUs == late && s5.accepted[1].timestampUs == middle;
  }

  lemma RunFive(s: State, a: Action, b: Action, c: Action, d: Action, e: Action)
    ensures Run(s, [a, b, c, d, e]) == Step(Step(Step(Step(Step(s, a), b), c), d), e)
  {
    hide Step;
    RunOne(s, a, [b, c, d, e]);
    RunOne(Step(s, a), b, [c, d, e]);
    RunOne(Step(Step(s, a), b), c, [d, e]);
    RunOne(Step(Step(Step(s, a), b), c), d, [e]);
    RunOne(Step(Step(Step(Step(s, a), b), c), d), e, []);
  }

  lemma RunOne(s: State, a: Action, rest: seq<Action>)
    ensures Run(s, [a] + rest) == Run(Step(s, a), rest)
  {
    hide Step;
    assert ([a] + rest)[1..] == rest;
  }

  // ---------------------------------------------------------------- stopping ends

  function WriterLeft(w: Writer): nat
  {
    match w
    case Gone => 0
    case Failing => 1
    case Closing => 1
    case LastDrain => 2
    case Checking => 3
    case Asleep => 4
    case Opening => 4
    case Writing(_) => 5
  }

  /** Steps that can still be taken before a stop is through. */
  function StepsLeft(s: State): nat
  {
    4 * |s.shared.queue| + WriterLeft(s.writer) + s.toNotify
    + match s.ui { case Requested => 3 case Joining => 2 case Joined => 1 case _ => 0 }
  }

  /** What brings a stop forward: the writer's next step, or the notification it waits for, or the UI's. */
  function Next(s: State): Action
  {
    if s.ui.Requested? then NotifyAll
    else if s.ui.Joined? then CleanUp
    else
      match s.writer
      case Gone => Join
      case Opening => OpenFile(true)
      case Failing => GiveUp
      case Checking => Check
      case Asleep => if s.notified then Wake else Notify
      case Writing(_) => WriteLine
      case LastDrain => DrainRest
      case Closing => CloseFile
  }

  /** While a stop is in progress no step of any thread moves it back, and one is always enabled that moves
    * it forward: neither the join nor the writer can be stuck.
    */
  lemma StopAdvances(s: State, a: Action)
    requires Inv(s) && Stopping(s)
    ensures StepsLeft(Step(s, a)) <= StepsLeft(s)
    ensures StepsLeft(Step(s, Next(s))) < StepsLeft(s)
    ensures Stopping(Step(s, a)) || (a.CleanUp? && s.ui.Joined?)
  {
    hide Step, StepsLeft, Next, Inv;
    StopNeverBacks(s, a);
    NextAdvances(s);
  }

  lemma StopNeverBacks(s: State, a: Action)
    requires Inv(s) && Stopping(s)
    ensures StepsLeft(Step(s, a)) <= StepsLeft(s)
    ensures Stopping(Step(s, a)) || (a.CleanUp? && s.ui.Joined?)
  {
    hide Stamp, Text, Written, Ledger, Clock, WillWake;
  }

  lemma NextAdvances(s: State)
    requires Inv(s) && Stopping(s)
    ensures StepsLeft(Step(s, Next(s))) < StepsLeft(s)
  {
    hide WriterStep, RecordStep, Ledger, Clock;
    if !s.ui.Requested? && !s.ui.Joined? && !s.writer.Gone? && !Next(s).Notify? {
      NextOfWriterAdvances(s);
    }
  }

  lemma NextOfWriterAdvances(s: State)
    requires Phases(s) && s.ui.Joining? && !s.writer.Gone? && !Next(s).Notify?
    ensures StepsLeft(WriterStep(s, Next(s))) < StepsLeft(s)
  {
    hide Text, Written;
    match s.writer
    case Checking =>
    case _ =>
  }

  predicate SameSession(s: State, s': State)
  {
    s'.mode == s.mode && s'.prior == s.prior && s'.accepted == s.accepted
  }

  lemma NextKeepsSession(s: State)
    ensures SameSession(s, Step(s, Next(s)))
  {
    hide WriterStep, UiStep, RecordStep;
    var a := Next(s);
    if a.NotifyAll? || a.Join? || a.CleanUp? {
      StopKeepsSession(s, a);
    } else if a.Check? {
      CheckKeepsSession(s);
    } else if !a.Notify? {
      WriterKeepsSession(s, a);
    }
  }

  lemma StopKeepsSession(s: State, a: Action)
    requires a.NotifyAll? || a.Join? || a.CleanUp?
    ensures SameSession(s, UiStep(s, a))
  {
    hide Stamp;
  }

  lemma CheckKeepsSession(s: State)
    ensures SameSession(s, WriterStep(s, Check))
  {
  }

  lemma WriterKeepsSession(s: State, a: Action)
    requires !a.Check? && !a.Spill?
    ensures SameSession(s, WriterStep(s, a))
  {
    hide Text, Written, Drained;
  }

  /** So from any moment of a stop, at most StepsLeft steps end it. */
  lemma {:induction false} StopFinishes(s: State) returns (actions: seq<Action>)
    requires Inv(s) && Stopping(s)
    ensures |actions| <= StepsLeft(s)
    ensures var s' := Run(s, actions); s'.ui.Free? && !s'.joinable && s'.shared.queue == [] && !s'.shared.running
    ensures var s' := Run(s, actions); Inv(s') && SameSession(s, s')
    decreases StepsLeft(s)
  {
    hide Stamp, Text, Written, Ledger, Clock, WillWake, Phases;
    var a := Next(s);
    StopAdvances(s, a);
    StepInv(s, a);
    NextKeepsSession(s);
    if Stopping(Step(s, a)) {
      var rest := StopFinishes(Step(s, a));
      actions := [a] + rest;
      RunOne(s, a, rest);
    } else {
      actions := [a];
      RunOne(s, a, []);
      JoinedHasNoThread(s);
    }
  }

  /** Any session under way can be stopped, and if its file could be opened the stop leaves every line accepted
    * so far in it.
    */
  lemma StopWritesTheFile(actions: seq<Action>)
    requires var s := Run(Init(), actions); s.ui.Free? && s.joinable
    ensures var s := Run(Init(), actions);
      exists rest: seq<Action> ::
        var s' := Run(Step(s, RequestStop), rest);
        && s'.ui.Free? && !s'.joinable && SameSession(s, s')
        && s'.disk == s.prior + (if s'.fileOpened then Text(s.mode, s.accepted) else [])
  {
    hide Step, Run, Text;
    RunInv(Init(), actions);
    var rest := StopFrom(Run(Init(), actions));
  }

  lemma StopFrom(s: State) returns (rest: seq<Action>)
    requires Inv(s) && s.ui.Free? && s.joinable
    ensures var s' := Run(Step(s, RequestStop), rest);
      && s'.ui.Free? && !s'.joinable && SameSession(s, s')
      && s'.disk == s.prior + (if s'.fileOpened then Text(s.mode, s.accepted) else [])
  {
    hide Run, Stamp, Text, Written, Clock, WillWake;
    StepInv(s, RequestStop);
    rest := StopFinishes(Step(s, RequestStop));
    StoppedFile(Run(Step(s, RequestStop), rest));
  }

  lemma StoppedFile(s: State)
    requires Phases(s) && Ledger(s) && !s.joinable
    ensures s.disk == s.prior + (if s.fileOpened then Text(s.mode, s.accepted) else [])
  {
    hide Text;
  }

  lemma JoinedHasNoThread(s: State)
    requires Phases(s) && s.ui.Joined?
    ensures !s.joinable
  {
  }

  // ---------------------------------------------------------------- the code

  datatype Wakening = Sleep | Take(line: Line) | Leave

  class Recorder {
    var recordingQueue: seq<Line>
    var stopRequested: bool
    var threadRunning: bool
    var startSteadyUs: uint64
    var lastTimestampUs: uint64
    const mode: TextMode
    var file: octets

    constructor (mode: TextMode)
      ensures View() == Init().shared && file == [] && this.mode == mode
    {
      this.mode := mode;
      recordingQueue, stopRequested, threadRunning, startSteadyUs, lastTimestampUs, file := [], false, false, 0, 0, [];
    }

    function View(): Shared
      reads this
    {
      Shared(recordingQueue, stopRequested, threadRunning, startSteadyUs, lastTimestampUs)
    }

    method StartSessionRecording(nowSteadyUs: uint64)
      modifies this
      ensures View() == Started(nowSteadyUs) && file == old(file)
    {
      startSteadyUs := nowSteadyUs;
      lastTimestampUs := 0;
      recordingQueue := [];
      stopRequested := false;
      threadRunning := true;
    }

    /** The locked section; tells whether the caller must notify the writer. */
    method RecordVariableEvent(nowSteadyUs: uint64, text: octets) returns (notify: bool)
      modifies this
      ensures View() == Recorded(old(View()), nowSteadyUs, text) && file == old(file)
      ensures notify == Recording(old(View()))
    {
      if !threadRunning || stopRequested {
        return false;
      }
      var timestampUs: uint64 := 0;
      if nowSteadyUs >= startSteadyUs {
        timestampUs := nowSteadyUs - startSteadyUs;
      }
      if timestampUs < lastTimestampUs {
        timestampUs := lastTimestampUs;
      }
      lastTimestampUs := timestampUs;
      recordingQueue := recordingQueue + [Line(timestampUs, text)];
      notify := true;
    }

    /** What happens before the lock: the stamp is taken and remembered. */
    method StampConnectionEvent(nowSteadyUs: uint64) returns (timestampUs: uint64)
      modifies this
      ensures timestampUs == Stamp(old(View()), nowSteadyUs)
      ensures View() == old(View()).(lastUs := timestampUs) && file == old(file)
    {
      timestampUs := 0;
      if nowSteadyUs >= startSteadyUs {
        timestampUs := nowSteadyUs - startSteadyUs;
      }
      if timestampUs < lastTimestampUs {
        timestampUs := lastTimestampUs;
      }
      lastTimestampUs := timestampUs;
    }

    method PushConnectionEvent(line: Line) returns (notify: bool)
      modifies this
      ensures View() == Pushed(old(View()), line) && file == old(file)
      ensures notify == Recording(old(View()))
    {
      if !threadRunning || stopRequested {
        return false;
      }
      recordingQueue := recordingQueue + [line];
      notify := true;
    }

    /** The writer's locked section: wait, take a line, or leave the loop. */
    method CheckQueue() returns (w: Wakening)
      modifies this
      ensures file == old(file)
      ensures w.Sleep? <==> old(recordingQueue) == [] && !old(stopRequested)
      ensures w.Leave? <==> old(recordingQueue) == [] && old(stopRequested)
      ensures w.Take? ==>
        && old(recordingQueue) == [w.line] + recordingQueue
        && View() == old(View()).(queue := recordingQueue)
      ensures !w.Take? ==> View() == old(View())
    {
      if !stopRequested && recordingQueue == [] {
        return Sleep;
      }
      if recordingQueue != [] {
        w := Take(recordingQueue[0]);
        recordingQueue := recordingQueue[1..];
      } else {
        w := Leave;
      }
    }

    method WriteLine(line: Line)
      modifies this`file
      ensures file == old(file) + Written(mode, line)
    {
      if line.text != [] {
        file := file + ToNative(mode, line.text);
        file := file + ToNative(mode, [NEWLINE]);
      }
    }

    /** The final drain, in one locked section. */
    method DrainRest()
      modifies this
      ensures file == old(file) + Text(mode, old(recordingQueue))
      ensures View() == Drained(old(View()))
    {
      hide Text, Written;
      TextNone(mode);
      while recordingQueue != []
        invariant View() == old(View()).(queue := recordingQueue)
        invariant file + Text(mode, recordingQueue) == old(file) + Text(mode, old(recordingQueue))
        decreases |recordingQueue|
      {
        TextFirst(mode, recordingQueue);
        var line := recordingQueue[0];
        recordingQueue := recordingQueue[1..];
        WriteLine(line);
      }
      threadRunning := false;
    }

    /** The writer's loop once a stop is requested: it writes all that is queued and leaves. */
    method FinishWriting()
      requires stopRequested
      modifies this
      ensures file == old(file) + Text(mode, old(recordingQueue))
      ensures View() == Drained(old(View()))
    {
      hide Text, Written;
      while true
        invariant View() == old(View()).(queue := recordingQueue)
        invariant file + Text(mode, recordingQueue) == old(file) + Text(mode, old(recordingQueue))
        decreases |recordingQueue|
      {
        if recordingQueue != [] {
          TextFirst(mode, recordingQueue);
        }
        var w := CheckQueue();
        if w.Take? {
          WriteLine(w.line);
        } else {
          break;
        }
      }
      DrainRest();
    }

    /** The two locked sections of a stop, around notify and join. */
    method RequestStop(joinable: bool) returns (stopping: bool)
      modifies this
      ensures stopping == (old(threadRunning) || joinable) && file == old(file)
      ensures View() == if stopping then StopRequested(old(View())) else old(View())
    {
      if !threadRunning && !joinable {
        return false;
      }
      stopRequested := true;
      stopping := true;
    }

    method CleanUp()
      modifies this
      ensures View() == CleanedUp(old(View())) && file == old(file)
    {
      recordingQueue := [];
      threadRunning := false;
      stopRequested := false;
    }
  }
}
