/** The incremental multipart parser of the camera stream: bytes are appended to a buffer and complete
  * parts are cut off its front.
  */
module MjpegParser {
  import opened DirectWire

  const CR: byte := 13
  const LF: byte := 10
  const CRLF: octets := [13, 10]
  const HEADER_END: octets := [13, 10, 13, 10]
  const MAX_BUFFER: nat := 10 * 1024 * 1024

  // ---------------------------------------------------------------- searching

  predicate OccursAt(hay: octets, needle: octets, i: int)
  {
    0 <= i && i + |needle| <= |hay| && hay[i..i + |needle|] == needle
  }

  /** The first occurrence of needle at or after from, or -1. */
  function IndexOf(hay: octets, needle: octets, from: nat): (r: int)
    ensures r == -1 || (from <= r && r + |needle| <= |hay| && OccursAt(hay, needle, r))
    ensures forall i :: from <= i && (i < r || r == -1) ==> !OccursAt(hay, needle, i)
    decreases |hay| - from
  {
    if from + |needle| > |hay| then -1
    else if hay[from..from + |needle|] == needle then from
    else IndexOf(hay, needle, from + 1)
  }

  lemma OccursAppend(a: octets, b: octets, needle: octets, i: int)
    requires 0 <= i && i + |needle| <= |a|
    ensures OccursAt(a + b, needle, i) <==> OccursAt(a, needle, i)
  {
    assert (a + b)[i..i + |needle|] == a[i..i + |needle|];
  }

  /** Bytes arriving later do not move an occurrence already found. */
  lemma IndexOfAppend(a: octets, b: octets, needle: octets, from: nat)
    requires IndexOf(a, needle, from) >= 0
    ensures IndexOf(a + b, needle, from) == IndexOf(a, needle, from)
  {
    var r, r' := IndexOf(a, needle, from), IndexOf(a + b, needle, from);
    OccursAppend(a, b, needle, r);
    if 0 <= r' < r {
      OccursAppend(a, b, needle, r');
    }
  }

  lemma OccursShift(x: octets, y: octets, needle: octets, i: nat)
    ensures OccursAt(x + y, needle, |x| + i) <==> OccursAt(y, needle, i)
  {
    if i + |needle| <= |y| {
      assert (x + y)[|x| + i..|x| + i + |needle|] == y[i..i + |needle|];
    }
  }

  lemma FirstOccurrence(hay: octets, needle: octets, from: nat, r: nat)
    requires from <= r && OccursAt(hay, needle, r)
    requires forall i :: from <= i < r ==> !OccursAt(hay, needle, i)
    ensures IndexOf(hay, needle, from) == r
  {
  }

  lemma IndexOfShift(x: octets, y: octets, needle: octets)
    requires IndexOf(y, needle, 0) >= 0
    ensures IndexOf(x + y, needle, |x|) == |x| + IndexOf(y, needle, 0)
  {
    hide OccursAt, IndexOf;
    var r := IndexOf(y, needle, 0);
    OccursShift(x, y, needle, r);
    forall i | |x| <= i < |x| + r
      ensures !OccursAt(x + y, needle, i)
    {
      OccursShift(x, y, needle, i - |x|);
    }
    FirstOccurrence(x + y, needle, |x|, |x| + r);
  }

  // ---------------------------------------------------------------- one round, and the whole parse

  datatype Round = Stuck | Took(frame: octets, cut: nat)

  /** Just past the marker and at most one CR and one LF after it. */
  function HeaderStart(buf: octets, at: nat): (r: nat)
    ensures at <= r <= at + 2
  {
    var i := if at < |buf| && buf[at] == CR then at + 1 else at;
    if i < |buf| && buf[i] == LF then i + 1 else i
  }

  function DataEnd(buf: octets, next: nat): (r: nat)
    requires next <= |buf|
    ensures r <= next
  {
    if next >= 2 && buf[next - 2] == CR && buf[next - 1] == LF then next - 2 else next
  }

  /** A round needs a marker, the end of the part's headers, and the next marker. */
  function TryRound(buf: octets, marker: octets): (r: Round)
    requires marker != []
    ensures r.Took? ==> 0 < r.cut <= |buf|
  {
    var at := IndexOf(buf, marker, 0);
    if at < 0 then Stuck
    else
      var headerEnd := IndexOf(buf, HEADER_END, HeaderStart(buf, at + |marker|));
      if headerEnd < 0 then Stuck
      else
        var dataStart := headerEnd + |HEADER_END|;
        var next := IndexOf(buf, marker, dataStart);
        if next < 0 then Stuck
        else
          var dataEnd := DataEnd(buf, next);
          Took(if dataEnd > dataStart then buf[dataStart..dataEnd] else [], next)
  }

  function Emitted(frame: octets): seq<octets>
  {
    if frame != [] then [frame] else []
  }

  /** All frames that can be cut off, and what stays in the buffer. */
  function Parse(buf: octets, marker: octets): (r: (seq<octets>, octets))
    requires marker != []
    decreases |buf|
  {
    match TryRound(buf, marker)
    case Stuck => ([], buf)
    case Took(frame, cut) =>
      var (frames, rest) := Parse(buf[cut..], marker);
      (Emitted(frame) + frames, rest)
  }

  // ---------------------------------------------------------------- chunking

  /** A round that succeeds does the same whatever arrives later. */
  lemma RoundIsStable(a: octets, b: octets, marker: octets)
    requires marker != [] && TryRound(a, marker).Took?
    ensures TryRound(a + b, marker) == TryRound(a, marker)
  {
    hide OccursAt, IndexOf, HeaderStart, DataEnd;
    var at := IndexOf(a, marker, 0);
    IndexOfAppend(a, b, marker, 0);
    var start := HeaderStart(a, at + |marker|);
    StartIsStable(a, b, at + |marker|);
    IndexOfAppend(a, b, HEADER_END, start);
    var dataStart := IndexOf(a, HEADER_END, start) + |HEADER_END|;
    IndexOfAppend(a, b, marker, dataStart);
    var next := IndexOf(a, marker, dataStart);
    EndIsStable(a, b, next);
    FrameIsStable(a, b, dataStart, DataEnd(a, next));
  }

  lemma StartIsStable(a: octets, b: octets, at: nat)
    requires HeaderStart(a, at) < |a|
    ensures HeaderStart(a + b, at) == HeaderStart(a, at)
  {
  }

  lemma EndIsStable(a: octets, b: octets, next: nat)
    requires next <= |a|
    ensures DataEnd(a + b, next) == DataEnd(a, next)
  {
  }

  lemma FrameIsStable(a: octets, b: octets, from: nat, to: nat)
    requires to <= |a|
    ensures from < to ==> (a + b)[from..to] == a[from..to]
  {
  }

  lemma ParseUnfolds(buf: octets, marker: octets)
    requires marker != []
    ensures var round := TryRound(buf, marker);
      Parse(buf, marker) ==
        if round.Stuck? then ([], buf)
        else (Emitted(round.frame) + Parse(buf[round.cut..], marker).0, Parse(buf[round.cut..], marker).1)
  {
    hide TryRound;
  }

  /** Parsing what has arrived and then the rest is parsing everything at once. */
  lemma {:induction false} ParseInTwo(a: octets, b: octets, marker: octets)
    requires marker != []
    ensures var (f1, r1) := Parse(a, marker);
      var (f2, r2) := Parse(r1 + b, marker);
      Parse(a + b, marker) == (f1 + f2, r2)
    decreases |a|
  {
    hide Parse, TryRound, Emitted;
    ParseUnfolds(a, marker);
    match TryRound(a, marker)
    case Stuck =>
      assert [] + Parse(a + b, marker).0 == Parse(a + b, marker).0;
    case Took(frame, cut) =>
      RoundIsStable(a, b, marker);
      ParseUnfolds(a + b, marker);
      assert (a + b)[cut..] == a[cut..] + b;
      ParseInTwo(a[cut..], b, marker);
      FramesAssociate([], frame, Parse(a[cut..], marker).0, Parse(Parse(a[cut..], marker).1 + b, marker).0);
  }

  /** One arrival of data: append, parse, and drop a leftover that has grown too large. */
  function Feed(s: (seq<octets>, octets), chunk: octets, marker: octets): (seq<octets>, octets)
    requires marker != []
  {
    var (frames, rest) := Parse(s.1 + chunk, marker);
    (s.0 + frames, if |rest| > MAX_BUFFER then [] else rest)
  }

  function FeedAll(chunks: seq<octets>, marker: octets): (seq<octets>, octets)
    requires marker != []
  {
    if chunks == [] then ([], [])
    else Feed(FeedAll(chunks[..|chunks| - 1], marker), chunks[|chunks| - 1], marker)
  }

  function Joined(chunks: seq<octets>): octets
  {
    if chunks == [] then [] else Joined(chunks[..|chunks| - 1]) + chunks[|chunks| - 1]
  }

  /** However the stream is cut into arrivals, frames and buffer are those of one parse of the whole,
    * as long as no prefix of arrivals leaves more than 10 MB unparsed.
    */
  lemma {:induction false} ChunkingDoesNotMatter(chunks: seq<octets>, marker: octets)
    requires marker != []
    requires forall n :: 0 <= n <= |chunks| ==> |Parse(Joined(chunks[..n]), marker).1| <= MAX_BUFFER
    ensures FeedAll(chunks, marker) == Parse(Joined(chunks), marker)
    decreases |chunks|
  {
    hide IndexOf, TryRound;
    if chunks == [] {
      EmptyIsStuck(marker);
    } else {
      var n := |chunks| - 1;
      forall m | 0 <= m <= n
        ensures |Parse(Joined(chunks[..n][..m]), marker).1| <= MAX_BUFFER
      {
        assert chunks[..n][..m] == chunks[..m];
      }
      ChunkingDoesNotMatter(chunks[..n], marker);
      ParseInTwo(Joined(chunks[..n]), chunks[n], marker);
      assert chunks[..n + 1] == chunks;
    }
  }

  lemma BufferBounded(chunks: seq<octets>, marker: octets)
    requires marker != []
    ensures |FeedAll(chunks, marker).1| <= MAX_BUFFER
  {
    hide Parse;
  }

  /** And only then: frames and buffer agree with a parse of the whole after every arrival exactly when no
    * arrival leaves more than 10 MB unparsed.
    */
  lemma ChunkingExactly(chunks: seq<octets>, marker: octets)
    requires marker != []
    ensures (forall n :: 0 <= n <= |chunks| ==> FeedAll(chunks[..n], marker) == Parse(Joined(chunks[..n]), marker))
            <==> forall n :: 0 <= n <= |chunks| ==> |Parse(Joined(chunks[..n]), marker).1| <= MAX_BUFFER
  {
    hide Parse, FeedAll, Joined;
    if forall n :: 0 <= n <= |chunks| ==> |Parse(Joined(chunks[..n]), marker).1| <= MAX_BUFFER {
      forall n | 0 <= n <= |chunks|
        ensures FeedAll(chunks[..n], marker) == Parse(Joined(chunks[..n]), marker)
      {
        assert forall m :: 0 <= m <= n ==> chunks[..n][..m] == chunks[..m];
        ChunkingDoesNotMatter(chunks[..n], marker);
      }
    } else {
      var n :| 0 <= n <= |chunks| && |Parse(Joined(chunks[..n]), marker).1| > MAX_BUFFER;
      BufferBounded(chunks[..n], marker);
      assert FeedAll(chunks[..n], marker) != Parse(Joined(chunks[..n]), marker);
    }
  }

  lemma EmptyIsStuck(marker: octets)
    requires marker != []
    ensures TryRound([], marker) == Stuck
  {
  }

  // ---------------------------------------------------------------- round trip

  /** A part of a multipart body, with a block of header lines or, as the format also allows, without. */
  datatype Part = Headed(headers: octets, data: octets) | Bare(data: octets)

  function PrintPart(marker: octets, p: Part): octets
  {
    match p
    case Headed(headers, data) => marker + CRLF + headers + HEADER_END + data + CRLF
    case Bare(data) => marker + CRLF + CRLF + data + CRLF
  }

  /** The multipart body: every part, then a final marker. */
  function Print(marker: octets, parts: seq<Part>): octets
  {
    if parts == [] then marker else PrintPart(marker, parts[0]) + Print(marker, parts[1..])
  }

  predicate MarkerFree(marker: octets, s: octets)
  {
    forall i :: 0 <= i <= |s| ==> !OccursAt(s, marker, i)
  }

  /** A header block ends at its own blank line; the data is not empty and does not contain the marker. */
  predicate Printable(marker: octets, p: Part)
  {
    && (p.Headed? ==> IndexOf(p.headers + HEADER_END, HEADER_END, 0) == |p.headers|)
    && p.data != [] && MarkerFree(marker, p.data)
  }

  /** Nor do the headers contain the marker. */
  predicate Clean(marker: octets, p: Part)
  {
    Printable(marker, p) && (p.Headed? ==> MarkerFree(marker, p.headers))
  }

  predicate AllHeaded(parts: seq<Part>)
  {
    forall i :: 0 <= i < |parts| ==> parts[i].Headed?
  }

  predicate IsMarker(marker: octets)
  {
    marker != [] && CR !in marker && LF !in marker
  }

  function DataOf(parts: seq<Part>): seq<octets>
  {
    if parts == [] then [] else [parts[0].data] + DataOf(parts[1..])
  }

  lemma {:induction false} PrintStartsWithMarker(marker: octets, parts: seq<Part>)
    ensures |Print(marker, parts)| >= |marker| && Print(marker, parts)[..|marker|] == marker
  {
    if parts != [] {
      var part := PrintPart(marker, parts[0]);
      assert part[..|marker|] == marker;
      assert (part + Print(marker, parts[1..]))[..|marker|] == part[..|marker|];
    }
  }

  /** No marker starts inside the data or inside the CR LF that closes the part. */
  lemma NoEarlierMarker(data: octets, tail: octets, marker: octets, i: nat)
    requires IsMarker(marker) && i < |data| + 2
    requires !OccursAt(data, marker, i)
    ensures !OccursAt(data + CRLF + tail, marker, i)
  {
    var buf, n := data + CRLF + tail, |marker|;
    if i + n <= |data| {
      assert buf == data + (CRLF + tail);
      OccursAppend(data, CRLF + tail, marker, i);
    } else if i + n <= |buf| {
      var k := if i <= |data| then |data| - i else 0;
      assert buf[i..i + n][k] == buf[i + k];
      assert buf[i + k] == CR || buf[i + k] == LF;
    }
  }

  /** After the data, the marker is first found behind the CR LF that closes the part. */
  lemma NextMarker(data: octets, tail: octets, marker: octets)
    requires IsMarker(marker)
    requires MarkerFree(marker, data)
    requires |tail| >= |marker| && tail[..|marker|] == marker
    ensures IndexOf(data + CRLF + tail, marker, 0) == |data| + 2
  {
    hide IndexOf, OccursAt;
    var buf := data + CRLF + tail;
    StartsHere(data + CRLF, tail, marker);
    forall i: nat | i < |data| + 2
      ensures !OccursAt(buf, marker, i)
    {
      if i > |data| {
        TooShort(data, marker, i);
      }
      NoEarlierMarker(data, tail, marker, i);
    }
    FirstOccurrence(buf, marker, 0, |data| + 2);
  }

  lemma TooShort(data: octets, marker: octets, i: nat)
    requires marker != [] && i > |data|
    ensures !OccursAt(data, marker, i)
  {
  }

  lemma StartsHere(x: octets, tail: octets, marker: octets)
    requires |tail| >= |marker| && tail[..|marker|] == marker
    ensures OccursAt(x + tail, marker, |x|)
  {
    assert tail[0..|marker|] == marker;
    OccursShift(x, tail, marker, 0);
  }

  lemma PartRegrouped(marker: octets, p: Part, tail: octets)
    requires p.Headed?
    ensures var intro, body := marker + CRLF, p.data + CRLF + tail;
      && PrintPart(marker, p) + tail == intro + (p.headers + HEADER_END + body)
      && PrintPart(marker, p) + tail == intro + p.headers + HEADER_END + body
      && |PrintPart(marker, p)| == |intro + p.headers + HEADER_END| + |p.data| + 2
      && (PrintPart(marker, p) + tail)[..|marker|] == marker
  {
  }

  /** Where the three searches of a round end up on a printed part. */
  lemma SearchesOnPart(marker: octets, p: Part, tail: octets)
    requires IsMarker(marker) && Printable(marker, p) && p.Headed?
    requires |tail| >= |marker| && tail[..|marker|] == marker
    ensures var buf := PrintPart(marker, p) + tail;
      var start := |marker| + 2;
      && IndexOf(buf, marker, 0) == 0
      && IndexOf(buf, HEADER_END, start) == start + |p.headers|
      && IndexOf(buf, marker, start + |p.headers| + 4) == |PrintPart(marker, p)|
  {
    hide IndexOf, OccursAt, PrintPart, MarkerFree, IsMarker;
    var intro, body := marker + CRLF, p.data + CRLF + tail;
    PartRegrouped(marker, p, tail);
    MarkerFirst(PrintPart(marker, p) + tail, marker);
    IndexOfAppend(p.headers + HEADER_END, body, HEADER_END, 0);
    IndexOfShift(intro, p.headers + HEADER_END + body, HEADER_END);
    NextMarker(p.data, tail, marker);
    IndexOfShift(intro + p.headers + HEADER_END, body, marker);
  }

  /** Where a printed part keeps its line ends and its data. */
  lemma LayoutOfPart(marker: octets, p: Part, tail: octets)
    requires p.Headed?
    ensures var buf := PrintPart(marker, p) + tail;
      var start, next := |marker| + 2, |PrintPart(marker, p)|;
      && next == start + |p.headers| + 4 + |p.data| + 2
      && buf[|marker|] == CR && buf[|marker| + 1] == LF
      && buf[next - 2] == CR && buf[next - 1] == LF
      && buf[start + |p.headers| + 4..next - 2] == p.data
  {
    var buf := marker + CRLF + p.headers + HEADER_END + p.data + CRLF + tail;
    assert buf == PrintPart(marker, p) + tail;
    var from := |marker + CRLF + p.headers + HEADER_END|;
    assert buf[from..from + |p.data|] == p.data;
  }

  lemma RoundOnPart(marker: octets, p: Part, tail: octets)
    requires IsMarker(marker) && Printable(marker, p) && p.Headed?
    requires |tail| >= |marker| && tail[..|marker|] == marker
    ensures TryRound(PrintPart(marker, p) + tail, marker) == Took(p.data, |PrintPart(marker, p)|)
  {
    hide IndexOf, OccursAt, PrintPart;
    SearchesOnPart(marker, p, tail);
    LayoutOfPart(marker, p, tail);
  }

  lemma MarkerFirst(buf: octets, marker: octets)
    requires |buf| >= |marker| && buf[..|marker|] == marker
    ensures IndexOf(buf, marker, 0) == 0
  {
    assert buf[0..|marker|] == marker;
    FirstOccurrence(buf, marker, 0, 0);
  }

  lemma MarkerAloneIsStuck(marker: octets)
    requires marker != []
    ensures TryRound(marker, marker) == Stuck
  {
    assert marker[..|marker|] == marker;
    MarkerFirst(marker, marker);
    assert HeaderStart(marker, |marker|) == |marker|;
    assert IndexOf(marker, HEADER_END, |marker|) == -1;
  }

  /** Parsing a printed body returns the data of every part, in order, and keeps the final marker. */
  lemma {:induction false} PrintParseRoundTrip(marker: octets, parts: seq<Part>)
    requires IsMarker(marker) && AllHeaded(parts) && forall i :: 0 <= i < |parts| ==> Printable(marker, parts[i])
    ensures Parse(Print(marker, parts), marker) == (DataOf(parts), marker)
    decreases |parts|
  {
    hide IndexOf, TryRound, PrintPart, OccursAt;
    if parts == [] {
      MarkerAloneIsStuck(marker);
    } else {
      var tail := Print(marker, parts[1..]);
      PrintStartsWithMarker(marker, parts[1..]);
      RoundOnPart(marker, parts[0], tail);
      var cut := |PrintPart(marker, parts[0])|;
      assert (PrintPart(marker, parts[0]) + tail)[cut..] == tail;
      PrintParseRoundTrip(marker, parts[1..]);
      DataNotEmpty(marker, parts[0]);
    }
  }

  lemma DataNotEmpty(marker: octets, p: Part)
    requires Printable(marker, p)
    ensures p.data != []
  {
  }

  /** Bytes without a marker, in one arrival, are kept, but dropped if they are more than 10 MB. */
  lemma OverflowIsDropped(marker: octets, junk: octets)
    requires marker != [] && MarkerFree(marker, junk)
    ensures Parse(Joined([junk]), marker) == ([], junk)
    ensures FeedAll([junk], marker) == ([], if |junk| > 10485760 then [] else junk)
  {
    hide Parse, Joined, FeedAll;
    OneChunk(junk, marker);
    NoMarkerIsStuck(marker, junk);
    assert [] + junk == junk;
    var none: seq<octets> := [];
    assert none + none == none;
    assert Feed((none, []), junk, marker)
        == (none + Parse([] + junk, marker).0, if |junk| > 10485760 then [] else junk);
  }

  lemma OneChunk(junk: octets, marker: octets)
    requires marker != []
    ensures Joined([junk]) == [] + junk && FeedAll([junk], marker) == Feed(([], []), junk, marker)
  {
    hide Parse;
    assert [junk][..0] == [];
    assert Joined([]) == [] && FeedAll([], marker) == ([], []);
  }

  lemma NoMarkerIsStuck(marker: octets, junk: octets)
    requires marker != [] && MarkerFree(marker, junk)
    ensures Parse(junk, marker) == ([], junk)
  {
    hide OccursAt, IndexOf;
    var r := IndexOf(junk, marker, 0);
    assert r == -1;
    assert TryRound(junk, marker) == Stuck;
  }

  // ---------------------------------------------------------------- what comes before the first marker

  lemma {:induction false} SearchShifts(x: octets, y: octets, needle: octets, from: nat)
    ensures IndexOf(x + y, needle, |x| + from) ==
      if IndexOf(y, needle, from) < 0 then -1 else |x| + IndexOf(y, needle, from)
    decreases |y| - from
  {
    hide OccursAt;
    OccursShift(x, y, needle, from);
    if from + |needle| <= |y| {
      assert (x + y)[|x| + from..|x| + from + |needle|] == y[from..from + |needle|];
      SearchShifts(x, y, needle, from + 1);
    }
  }

  /** No marker starts before the rest begins. */
  predicate Precedes(marker: octets, junk: octets, rest: octets)
  {
    forall i :: 0 <= i < |junk| ==> !OccursAt(junk + rest, marker, i)
  }

  lemma FirstAfterJunk(marker: octets, junk: octets, buf: octets)
    requires |buf| >= |marker| && buf[..|marker|] == marker && Precedes(marker, junk, buf)
    ensures IndexOf(junk + buf, marker, 0) == |junk|
  {
    hide OccursAt;
    StartsHere(junk, buf, marker);
    FirstOccurrence(junk + buf, marker, 0, |junk|);
  }

  lemma LineEndsShift(x: octets, y: octets, at: nat, next: nat)
    requires 2 <= next <= |y|
    ensures HeaderStart(x + y, |x| + at) == |x| + HeaderStart(y, at)
    ensures DataEnd(x + y, |x| + next) == |x| + DataEnd(y, next)
  {
  }

  lemma StartShifts(x: octets, y: octets, at: nat)
    ensures HeaderStart(x + y, |x| + at) == |x| + HeaderStart(y, at)
  {
  }

  lemma RoundTakes(buf: octets, marker: octets, at: nat, headerEnd: nat, next: nat)
    requires marker != [] && IndexOf(buf, marker, 0) == at
    requires IndexOf(buf, HEADER_END, HeaderStart(buf, at + |marker|)) == headerEnd
    requires IndexOf(buf, marker, headerEnd + 4) == next
    ensures headerEnd + 4 <= next <= |buf|
    ensures var end := DataEnd(buf, next);
      TryRound(buf, marker) == Took(if end > headerEnd + 4 then buf[headerEnd + 4..end] else [], next)
  {
    hide OccursAt, IndexOf, HeaderStart, DataEnd;
  }

  lemma RoundSticks(buf: octets, marker: octets, at: nat)
    requires marker != [] && IndexOf(buf, marker, 0) == at
    requires var headerEnd := IndexOf(buf, HEADER_END, HeaderStart(buf, at + |marker|));
      headerEnd < 0 || IndexOf(buf, marker, headerEnd + 4) < 0
    ensures TryRound(buf, marker) == Stuck
  {
    hide OccursAt, IndexOf, HeaderStart, DataEnd;
  }

  /** A round skips whatever comes before the first marker. */
  lemma RoundSkipsJunk(marker: octets, junk: octets, buf: octets)
    requires marker != [] && |buf| >= |marker| && buf[..|marker|] == marker && Precedes(marker, junk, buf)
    ensures TryRound(junk + buf, marker) ==
      match TryRound(buf, marker) case Stuck => Stuck case Took(frame, cut) => Took(frame, |junk| + cut)
  {
    hide OccursAt, IndexOf, HeaderStart, DataEnd, TryRound, Precedes;
    FirstAfterJunk(marker, junk, buf);
    MarkerFirst(buf, marker);
    StartShifts(junk, buf, |marker|);
    var start := HeaderStart(buf, |marker|);
    SearchShifts(junk, buf, HEADER_END, start);
    var headerEnd := IndexOf(buf, HEADER_END, start);
    if headerEnd < 0 {
      RoundSticks(buf, marker, 0);
      RoundSticks(junk + buf, marker, |junk|);
    } else {
      SearchShifts(junk, buf, marker, headerEnd + 4);
      var next := IndexOf(buf, marker, headerEnd + 4);
      if next < 0 {
        RoundSticks(buf, marker, 0);
        RoundSticks(junk + buf, marker, |junk|);
      } else {
        RoundTakes(buf, marker, 0, headerEnd, next);
        RoundTakes(junk + buf, marker, |junk|, |junk| + headerEnd, |junk| + next);
        LineEndsShift(junk, buf, |marker|, next);
        SameSlice(junk, buf, headerEnd + 4, DataEnd(buf, next));
      }
    }
  }

  lemma SameSlice(x: octets, y: octets, from: nat, to: nat)
    requires to <= |y|
    ensures from < to ==> (x + y)[|x| + from..|x| + to] == y[from..to]
  {
  }

  /** What is left of a printed body that follows some junk. */
  function LeftOf(marker: octets, junk: octets, parts: seq<Part>): octets
  {
    if parts == [] then junk + marker else marker
  }

  /** A body is parsed the same wherever in the stream it begins. */
  lemma PreambleIsSkipped(marker: octets, junk: octets, parts: seq<Part>)
    requires IsMarker(marker) && AllHeaded(parts) && forall i :: 0 <= i < |parts| ==> Printable(marker, parts[i])
    requires Precedes(marker, junk, Print(marker, parts))
    ensures Parse(junk + Print(marker, parts), marker) == (DataOf(parts), LeftOf(marker, junk, parts))
  {
    hide IndexOf, TryRound, PrintPart, OccursAt, Precedes;
    PrintStartsWithMarker(marker, parts);
    RoundSkipsJunk(marker, junk, Print(marker, parts));
    if parts == [] {
      MarkerAloneIsStuck(marker);
    } else {
      var first, tail := PrintPart(marker, parts[0]), Print(marker, parts[1..]);
      PrintStartsWithMarker(marker, parts[1..]);
      RoundOnPart(marker, parts[0], tail);
      assert (junk + (first + tail))[|junk| + |first|..] == tail;
      PrintParseRoundTrip(marker, parts[1..]);
      DataNotEmpty(marker, parts[0]);
    }
  }

  // ---------------------------------------------------------------- one round by its text

  /** The text a round cuts off: junk, a marker, at most one line end, headers up to the first blank line, and
    * data up to the next marker, less a line end before it.
    */
  datatype Cutting = Cutting(junk: octets, eol: octets, headers: octets, data: octets, close: octets, rest: octets)

  function FromData(c: Cutting, marker: octets): octets
  {
    c.data + c.close + (marker + c.rest)
  }

  function FromHeaders(c: Cutting, marker: octets): octets
  {
    c.headers + HEADER_END + FromData(c, marker)
  }

  function TextOf(c: Cutting, marker: octets): octets
  {
    c.junk + (marker + c.eol + FromHeaders(c, marker))
  }

  ghost predicate Cuts(c: Cutting, marker: octets)
  {
    && Precedes(marker, c.junk, marker + c.eol + FromHeaders(c, marker))
    && IsEol(c.eol, (c.headers + HEADER_END)[0])
    && Precedes(HEADER_END, c.headers, HEADER_END)
    && Precedes(marker, c.data + c.close, marker + c.rest)
    && IsClose(c.data, c.close)
  }

  /** As much of a line end as there is before the byte that follows. */
  predicate IsEol(eol: octets, after: byte)
  {
    || (eol == [] && after != 13 && after != 10)
    || eol == [10]
    || (eol == [13] && after != 10)
    || eol == [13, 10]
  }

  /** The line end after the data, if the data does not itself end in one. */
  predicate IsClose(data: octets, close: octets)
  {
    || close == [13, 10]
    || (close == [] && !(|data| >= 2 && data[|data| - 2] == 13 && data[|data| - 1] == 10))
  }

  lemma SearchPast(x: octets, junk: octets, needle: octets, rest: octets)
    requires needle != [] && Precedes(needle, junk, needle + rest)
    ensures IndexOf(x + (junk + (needle + rest)), needle, |x|) == |x| + |junk|
  {
    hide OccursAt, IndexOf, Precedes;
    assert (needle + rest)[..|needle|] == needle;
    FirstAfterJunk(needle, junk, needle + rest);
    IndexOfShift(x, junk + (needle + rest), needle);
  }

  lemma BlankLineFirst(headers: octets, after: octets)
    requires Precedes(HEADER_END, headers, HEADER_END)
    ensures Precedes(HEADER_END, headers, HEADER_END + after)
  {
    hide OccursAt;
    forall i | 0 <= i < |headers|
      ensures !OccursAt(headers + (HEADER_END + after), HEADER_END, i)
    {
      assert headers + (HEADER_END + after) == headers + HEADER_END + after;
      OccursAppend(headers + HEADER_END, after, HEADER_END, i);
    }
  }

  lemma EolIsSkipped(x: octets, eol: octets, after: octets)
    requires after != [] && IsEol(eol, after[0])
    ensures HeaderStart(x + eol + after, |x|) == |x| + |eol|
  {
    var buf := x + eol + after;
    assert forall i :: 0 <= i < |eol| ==> buf[|x| + i] == eol[i];
    assert buf[|x| + |eol|] == after[0];
  }

  lemma CloseIsStripped(x: octets, data: octets, close: octets, rest: octets)
    requires |x| >= 1 && x[|x| - 1] == 10 && IsClose(data, close)
    ensures var buf, next := x + (data + close + rest), |x| + |data| + |close|;
      var end := DataEnd(buf, next);
      (if end > |x| then buf[|x|..end] else []) == data
  {
    var buf, next := x + (data + close + rest), |x| + |data| + |close|;
    assert buf[|x|..|x| + |data|] == data;
    if close == [] {
      assert |data| >= 1 ==> buf[next - 1] == data[|data| - 1];
      assert |data| >= 2 ==> buf[next - 2] == data[|data| - 2];
      assert |data| == 1 ==> buf[next - 2] == x[|x| - 1];
    } else {
      assert buf[next - 2] == 13 && buf[next - 1] == 10;
    }
  }

  /** What stands before the headers, and before the data. */
  function UpToHeaders(c: Cutting, marker: octets): octets
  {
    c.junk + marker + c.eol
  }

  function UpToData(c: Cutting, marker: octets): octets
  {
    UpToHeaders(c, marker) + c.headers + HEADER_END
  }

  lemma TextRegrouped(c: Cutting, marker: octets)
    ensures var buf, x, y := TextOf(c, marker), UpToHeaders(c, marker), UpToData(c, marker);
      && buf == c.junk + marker + c.eol + FromHeaders(c, marker)
      && buf == x + (c.headers + (HEADER_END + FromData(c, marker)))
      && buf == y + FromData(c, marker)
      && |x| == |c.junk + marker| + |c.eol| && |y| == |x| + |c.headers| + 4 && y[|y| - 1] == 10
      && |buf| == |y| + |c.data + c.close| + |marker| + |c.rest|
      && FromHeaders(c, marker) != [] && FromHeaders(c, marker)[0] == (c.headers + HEADER_END)[0]
  {
  }

  /** Where the three searches of a round end up on such a text. */
  lemma SearchesOnText(c: Cutting, marker: octets)
    requires marker != [] && Cuts(c, marker)
    ensures var buf := TextOf(c, marker);
      && IndexOf(buf, marker, 0) == |c.junk|
      && HeaderStart(buf, |c.junk| + |marker|) == |UpToHeaders(c, marker)|
      && IndexOf(buf, HEADER_END, |UpToHeaders(c, marker)|) == |UpToData(c, marker)| - 4
      && IndexOf(buf, marker, |UpToData(c, marker)|) == |UpToData(c, marker)| + |c.data + c.close|
  {
    hide OccursAt, IndexOf, HeaderStart, Precedes, FromHeaders, FromData, UpToHeaders, UpToData;
    TextRegrouped(c, marker);
    assert (marker + c.eol + FromHeaders(c, marker))[..|marker|] == marker;
    FirstAfterJunk(marker, c.junk, marker + c.eol + FromHeaders(c, marker));
    EolIsSkipped(c.junk + marker, c.eol, FromHeaders(c, marker));
    BlankLineFirst(c.headers, FromData(c, marker));
    SearchPast(UpToHeaders(c, marker), c.headers, HEADER_END, FromData(c, marker));
    DataIs(c, marker);
    SearchPast(UpToData(c, marker), c.data + c.close, marker, c.rest);
  }

  lemma DataIs(c: Cutting, marker: octets)
    ensures FromData(c, marker) == c.data + c.close + (marker + c.rest)
  {
  }

  lemma FrameOnText(c: Cutting, marker: octets)
    requires Cuts(c, marker)
    ensures var buf, from := TextOf(c, marker), |UpToData(c, marker)|;
      var next := from + |c.data + c.close|;
      && 4 <= from && |buf| == next + |marker| + |c.rest|
      && var end := DataEnd(buf, next);
         (if end > from then buf[from..end] else []) == c.data
  {
    hide DataEnd, Precedes, TextOf, FromHeaders, FromData, UpToHeaders, UpToData, IsEol, IsClose;
    TextRegrouped(c, marker);
    DataIs(c, marker);
    CloseIsStripped(UpToData(c, marker), c.data, c.close, marker + c.rest);
  }

  /** Such a text is cut, its data is the frame, and the next marker stays. */
  lemma RoundOnText(c: Cutting, marker: octets)
    requires marker != [] && Cuts(c, marker)
    ensures TryRound(TextOf(c, marker), marker) == Took(c.data, |TextOf(c, marker)| - |marker| - |c.rest|)
  {
    hide IndexOf, HeaderStart, DataEnd, TryRound, TextOf, UpToHeaders, UpToData, Cuts;
    SearchesOnText(c, marker);
    FrameOnText(c, marker);
    var from := |UpToData(c, marker)|;
    RoundTakes(TextOf(c, marker), marker, |c.junk|, from - 4, from + |c.data + c.close|);
  }

  lemma LineEndIs(buf: octets, at: nat)
    requires at < |buf| && HeaderStart(buf, at) < |buf|
    ensures var start := HeaderStart(buf, at); IsEol(buf[at..start], buf[start])
  {
    var start := HeaderStart(buf, at);
    if start == at {
      assert buf[at..start] == [];
    } else if start == at + 1 {
      assert buf[at..start] == [buf[at]];
    } else {
      assert buf[at..start] == [buf[at], buf[at + 1]];
    }
  }

  lemma TookSearches(buf: octets, marker: octets)
    requires marker != [] && TryRound(buf, marker).Took?
    ensures var at := IndexOf(buf, marker, 0);
      && at >= 0
      && var headerEnd := IndexOf(buf, HEADER_END, HeaderStart(buf, at + |marker|));
         headerEnd >= 0 && IndexOf(buf, marker, headerEnd + 4) >= 0
  {
    hide OccursAt, IndexOf, HeaderStart, DataEnd;
  }

  /** No occurrence before the first one found. */
  lemma FoundIsFirst(buf: octets, needle: octets, from: nat, r: nat)
    requires needle != [] && IndexOf(buf, needle, from) == r
    ensures from <= r && r + |needle| <= |buf| && buf[r..r + |needle|] == needle
    ensures Precedes(needle, buf[from..r], buf[r..]) && Precedes(needle, buf[from..r], needle)
  {
    hide OccursAt, IndexOf;
    assert buf[from..r] + buf[r..] == buf[from..];
    assert OccursAt(buf, needle, r);
    FoundHere(buf, needle, r);
    assert buf[from..r] + needle == buf[from..r + |needle|];
    forall i | 0 <= i < r - from
      ensures !OccursAt(buf[from..r] + buf[r..], needle, i) && !OccursAt(buf[from..r] + needle, needle, i)
    {
      assert !OccursAt(buf, needle, from + i);
      assert buf[from..|buf|] == buf[from..];
      if OccursAt(buf[from..|buf|], needle, i) {
        OccursInSlice(buf, needle, from, |buf|, i);
      }
      if OccursAt(buf[from..r + |needle|], needle, i) {
        OccursInSlice(buf, needle, from, r + |needle|, i);
      }
    }
  }

  lemma FoundHere(buf: octets, needle: octets, r: nat)
    requires OccursAt(buf, needle, r)
    ensures r + |needle| <= |buf| && buf[r..r + |needle|] == needle
  {
  }

  lemma OccursInSlice(buf: octets, needle: octets, from: nat, to: nat, i: nat)
    requires from <= to <= |buf| && OccursAt(buf[from..to], needle, i)
    ensures OccursAt(buf, needle, from + i)
  {
    var slice, n := buf[from..to], |needle|;
    forall k | 0 <= k < n
      ensures needle[k] == buf[from + i + k]
    {
      assert slice[i..i + n][k] == slice[i + k];
    }
    assert buf[from + i..from + i + n] == needle;
  }

  lemma CloseIs(buf: octets, from: nat, next: nat)
    requires 4 <= from <= next <= |buf| && buf[from - 1] == 10
    ensures var end := if DataEnd(buf, next) < from then from else DataEnd(buf, next);
      from <= end <= next && IsClose(buf[from..end], buf[end..next])
  {
    var end := if DataEnd(buf, next) < from then from else DataEnd(buf, next);
    if end == next {
      assert buf[end..next] == [];
      assert end - from >= 1 ==> buf[from..end][end - from - 1] == buf[end - 1];
      assert end - from >= 2 ==> buf[from..end][end - from - 2] == buf[end - 2];
    } else {
      assert buf[end..next] == [13, 10];
    }
  }

  /** And every round that cuts something off cuts such a text. */
  lemma RoundHasText(buf: octets, marker: octets) returns (c: Cutting)
    requires marker != [] && TryRound(buf, marker).Took?
    ensures Cuts(c, marker) && TextOf(c, marker) == buf
  {
    hide OccursAt, IndexOf, HeaderStart, DataEnd, Precedes, TryRound, TextOf, FromHeaders, FromData, IsEol, IsClose;
    TookSearches(buf, marker);
    var at := IndexOf(buf, marker, 0);
    var start := HeaderStart(buf, at + |marker|);
    var headerEnd := IndexOf(buf, HEADER_END, start);
    var from := headerEnd + 4;
    var next := IndexOf(buf, marker, from);
    var end := if DataEnd(buf, next) < from then from else DataEnd(buf, next);
    FoundIsFirst(buf, marker, 0, at);
    FoundIsFirst(buf, HEADER_END, start, headerEnd);
    FoundIsFirst(buf, marker, from, next);
    assert buf[headerEnd..from][3] == buf[from - 1];
    CloseIs(buf, from, next);
    c := Cutting(buf[0..at], buf[at + |marker|..start], buf[start..headerEnd], buf[from..end], buf[end..next],
      buf[next + |marker|..|buf|]);
    SlicesEnd(buf, at, next);
    Assembled(buf, marker, c, at, start, headerEnd, end, next);
    LineEndIs(buf, at + |marker|);
  }

  lemma SlicesEnd(buf: octets, at: nat, next: nat)
    requires at <= |buf| && next <= |buf|
    ensures buf[0..|buf|] == buf && buf[at..|buf|] == buf[at..] && buf[next..|buf|] == buf[next..]
  {
  }

  lemma SlicesMeet(buf: octets, a: nat, b: nat, c: nat)
    requires a <= b <= c <= |buf|
    ensures buf[a..b] + buf[b..c] == buf[a..c]
  {
  }

  lemma Assembled(buf: octets, marker: octets, c: Cutting, at: nat, start: nat, headerEnd: nat, end: nat, next: nat)
    requires at + |marker| <= start <= headerEnd && headerEnd + 4 <= end <= next && next + |marker| <= |buf|
    requires buf[at..at + |marker|] == marker && buf[headerEnd..headerEnd + 4] == HEADER_END
    requires buf[next..next + |marker|] == marker
    requires c == Cutting(buf[0..at], buf[at + |marker|..start], buf[start..headerEnd], buf[headerEnd + 4..end],
                          buf[end..next], buf[next + |marker|..|buf|])
    ensures TextOf(c, marker) == buf[0..|buf|]
    ensures marker + c.eol + FromHeaders(c, marker) == buf[at..|buf|]
    ensures c.data + c.close == buf[headerEnd + 4..next] && marker + c.rest == buf[next..|buf|]
    ensures start < |buf| && (c.headers + HEADER_END)[0] == buf[start]
  {
    hide FromData, FromHeaders;
    var from, n := headerEnd + 4, |buf|;
    DataAssembled(buf, marker, c, from, end, next);
    HeadersAssembled(buf, marker, c, start, headerEnd);
    SlicesMeet(buf, at, at + |marker|, start);
    SlicesMeet(buf, at, start, n);
    SlicesMeet(buf, 0, at, n);
  }

  lemma DataAssembled(buf: octets, marker: octets, c: Cutting, from: nat, end: nat, next: nat)
    requires from <= end <= next && next + |marker| <= |buf| && buf[next..next + |marker|] == marker
    requires c.data == buf[from..end] && c.close == buf[end..next] && c.rest == buf[next + |marker|..|buf|]
    ensures c.data + c.close == buf[from..next] && marker + c.rest == buf[next..|buf|]
    ensures FromData(c, marker) == buf[from..|buf|]
  {
    SlicesMeet(buf, from, end, next);
    SlicesMeet(buf, next, next + |marker|, |buf|);
    SlicesMeet(buf, from, next, |buf|);
  }

  lemma HeadersAssembled(buf: octets, marker: octets, c: Cutting, start: nat, headerEnd: nat)
    requires start <= headerEnd && headerEnd + 4 <= |buf| && buf[headerEnd..headerEnd + 4] == HEADER_END
    requires c.headers == buf[start..headerEnd] && FromData(c, marker) == buf[headerEnd + 4..|buf|]
    ensures FromHeaders(c, marker) == buf[start..|buf|] && (c.headers + HEADER_END)[0] == buf[start]
  {
    hide FromData;
    SlicesMeet(buf, start, headerEnd, headerEnd + 4);
    SlicesMeet(buf, start, headerEnd + 4, |buf|);
    assert buf[start..headerEnd + 4][0] == buf[start];
  }

  // ---------------------------------------------------------------- printed bodies in chunks

  lemma {:induction false} ParseShrinks(buf: octets, marker: octets)
    requires marker != []
    ensures |Parse(buf, marker).1| <= |buf|
    decreases |buf|
  {
    hide TryRound;
    match TryRound(buf, marker)
    case Stuck =>
    case Took(_, cut) => ParseShrinks(buf[cut..], marker);
  }

  /** While a printed body arrives, less than one part and the next marker is ever left unparsed. */
  lemma {:induction false} LeftoverIsOnePart(marker: octets, parts: seq<Part>, arrived: octets, bound: nat)
    requires IsMarker(marker) && AllHeaded(parts) && forall i :: 0 <= i < |parts| ==> Printable(marker, parts[i])
    requires |marker| <= bound && forall i :: 0 <= i < |parts| ==> |PrintPart(marker, parts[i])| + |marker| <= bound + 1
    requires arrived <= Print(marker, parts)
    ensures |Parse(arrived, marker).1| <= bound
    decreases |parts|
  {
    hide TryRound, PrintPart, IndexOf, OccursAt;
    ParseShrinks(arrived, marker);
    if parts != [] && |arrived| >= |PrintPart(marker, parts[0])| + |marker| {
      var first, tail := PrintPart(marker, parts[0]), Print(marker, parts[1..]);
      var rest := arrived[|first|..];
      PrintStartsWithMarker(marker, parts[1..]);
      assert arrived == (first + tail)[..|arrived|];
      assert rest == tail[..|rest|] && arrived == first + rest;
      assert rest[..|marker|] == tail[..|marker|];
      RoundOnPart(marker, parts[0], rest);
      LeftoverIsOnePart(marker, parts[1..], rest, bound);
    }
  }

  lemma {:induction false} JoinedPrefix(chunks: seq<octets>, n: nat)
    requires n <= |chunks|
    ensures Joined(chunks[..n]) <= Joined(chunks)
    decreases |chunks|
  {
    if n == |chunks| {
      assert chunks[..n] == chunks;
    } else {
      var front := chunks[..|chunks| - 1];
      assert front[..n] == chunks[..n];
      JoinedPrefix(front, n);
    }
  }

  /** So a printed body yields its frames however the network cuts it into arrivals, if every part with the
    * marker after it fits the buffer.
    */
  lemma PrintedStreamInChunks(marker: octets, parts: seq<Part>, chunks: seq<octets>)
    requires IsMarker(marker) && AllHeaded(parts) && forall i :: 0 <= i < |parts| ==> Printable(marker, parts[i])
    requires |marker| <= MAX_BUFFER
    requires forall i :: 0 <= i < |parts| ==> |PrintPart(marker, parts[i])| + |marker| <= MAX_BUFFER + 1
    requires Joined(chunks) == Print(marker, parts)
    ensures FeedAll(chunks, marker) == (DataOf(parts), marker)
  {
    hide Parse, FeedAll, Joined, Print, Printable, PrintPart;
    forall n | 0 <= n <= |chunks|
      ensures |Parse(Joined(chunks[..n]), marker).1| <= MAX_BUFFER
    {
      JoinedPrefix(chunks, n);
      LeftoverIsOnePart(marker, parts, Joined(chunks[..n]), MAX_BUFFER);
    }
    ChunkingDoesNotMatter(chunks, marker);
    PrintParseRoundTrip(marker, parts);
  }

  lemma PrecedesPrefix(marker: octets, junk: octets, rest: octets, whole: octets)
    requires Precedes(marker, junk, whole) && rest <= whole
    ensures Precedes(marker, junk, rest)
  {
    hide OccursAt;
    forall i | 0 <= i < |junk|
      ensures !OccursAt(junk + rest, marker, i)
    {
      assert junk + whole == junk + rest + whole[|rest|..];
      if i + |marker| <= |junk + rest| {
        OccursAppend(junk + rest, whole[|rest|..], marker, i);
      } else {
        TooLong(junk + rest, marker, i);
      }
    }
  }

  lemma TooLong(hay: octets, needle: octets, i: nat)
    requires i + |needle| > |hay|
    ensures !OccursAt(hay, needle, i)
  {
  }

  lemma ArrivedParts(junk: octets, first: octets, tail: octets, arrived: octets, n: nat)
    requires arrived <= junk + (first + tail) && |arrived| >= |junk| + |first| + n
    ensures var body, rest := arrived[|junk|..], arrived[|junk| + |first|..];
      && arrived == junk + body && body == first + rest && body <= first + tail && rest <= tail
      && |rest| >= n && |tail| >= n && rest[..n] == tail[..n]
      && (junk + body)[|junk| + |first|..] == rest
  {
    var body, rest := arrived[|junk|..], arrived[|junk| + |first|..];
    assert arrived == (junk + (first + tail))[..|arrived|];
    assert body == (first + tail)[..|body|];
    assert rest == tail[..|rest|];
  }

  /** While junk and a printed body arrive, less than the junk, one part and the next marker is left unparsed. */
  lemma LeftoverWithJunk(marker: octets, junk: octets, parts: seq<Part>, arrived: octets, bound: nat)
    requires IsMarker(marker) && AllHeaded(parts) && forall i :: 0 <= i < |parts| ==> Printable(marker, parts[i])
    requires Precedes(marker, junk, Print(marker, parts)) && |junk| + |marker| <= bound
    requires forall i :: 0 <= i < |parts| ==> |junk| + |PrintPart(marker, parts[i])| + |marker| <= bound + 1
    requires arrived <= junk + Print(marker, parts)
    ensures |Parse(arrived, marker).1| <= bound
  {
    hide TryRound, PrintPart, IndexOf, OccursAt, Precedes, Printable;
    ParseShrinks(arrived, marker);
    if parts != [] && |arrived| >= |junk| + |PrintPart(marker, parts[0])| + |marker| {
      var first, tail := PrintPart(marker, parts[0]), Print(marker, parts[1..]);
      ArrivedParts(junk, first, tail, arrived, |marker|);
      PartArrived(marker, junk, parts, arrived[|junk| + |first|..]);
      LeftoverIsOnePart(marker, parts[1..], arrived[|junk| + |first|..], bound);
    }
  }

  lemma PartArrived(marker: octets, junk: octets, parts: seq<Part>, rest: octets)
    requires IsMarker(marker) && parts != [] && parts[0].Headed? && Printable(marker, parts[0])
    requires Precedes(marker, junk, Print(marker, parts)) && rest <= Print(marker, parts[1..]) && |rest| >= |marker|
    ensures var body := PrintPart(marker, parts[0]) + rest;
      Parse(junk + body, marker).1 == Parse(rest, marker).1
  {
    hide TryRound, PrintPart, IndexOf, OccursAt, Precedes, Printable;
    var first := PrintPart(marker, parts[0]);
    var body := first + rest;
    PrintStartsWithMarker(marker, parts);
    PrintStartsWithMarker(marker, parts[1..]);
    StartsAlike(marker, rest, Print(marker, parts[1..]));
    PartPrefix(first, rest, Print(marker, parts[1..]));
    PrecedesPrefix(marker, junk, body, Print(marker, parts));
    PartStarts(marker, parts[0], rest);
    RoundSkipsJunk(marker, junk, body);
    RoundOnPart(marker, parts[0], rest);
    assert (junk + body)[|junk| + |first|..] == rest;
  }

  lemma StartsAlike(marker: octets, a: octets, b: octets)
    requires a <= b && |a| >= |marker| && b[..|marker|] == marker
    ensures a[..|marker|] == marker
  {
  }

  lemma PartPrefix(first: octets, a: octets, b: octets)
    requires a <= b
    ensures first + a <= first + b
  {
  }

  lemma PartStarts(marker: octets, p: Part, rest: octets)
    ensures |PrintPart(marker, p) + rest| >= |marker| && (PrintPart(marker, p) + rest)[..|marker|] == marker
  {
  }

  /** The marker the source searches for. */
  function MarkerOf(boundary: octets): (m: octets)
    ensures m != []
  {
    [45, 45] + boundary
  }

  /** A stream with the delimiter of its boundary (two hyphens and the boundary, section 5.1.1 of RFC 2046) yields
    * its frames however the network cuts it and whatever precedes the first delimiter, if junk, one part and the
    * next delimiter fit the buffer.
    */
  lemma StreamInChunks(boundary: octets, junk: octets, parts: seq<Part>, chunks: seq<octets>)
    requires var delimiter := [45 as byte] + ([45 as byte] + boundary);
      && IsMarker(delimiter) && AllHeaded(parts) && Precedes(delimiter, junk, Print(delimiter, parts))
      && (forall i :: 0 <= i < |parts| ==> Printable(delimiter, parts[i]))
      && |junk| + |delimiter| <= 10485760
      && (forall i :: 0 <= i < |parts| ==> |junk| + |PrintPart(delimiter, parts[i])| + |delimiter| <= 10485761)
      && Joined(chunks) == junk + Print(delimiter, parts)
    ensures FeedAll(chunks, MarkerOf(boundary)) == (DataOf(parts), LeftOf(MarkerOf(boundary), junk, parts))
  {
    hide Parse, FeedAll, Joined, Print, Printable, PrintPart, Precedes;
    var marker := MarkerOf(boundary);
    assert marker == [45 as byte] + ([45 as byte] + boundary);
    forall n | 0 <= n <= |chunks|
      ensures |Parse(Joined(chunks[..n]), marker).1| <= MAX_BUFFER
    {
      JoinedPrefix(chunks, n);
      LeftoverWithJunk(marker, junk, parts, Joined(chunks[..n]), MAX_BUFFER);
    }
    ChunkingDoesNotMatter(chunks, marker);
    PreambleIsSkipped(marker, junk, parts);
  }

  /** Once the buffer is empty, what arrives is parsed as if the stream began there. */
  lemma {:induction false} EmptyBufferRestarts(before: seq<octets>, later: seq<octets>, marker: octets)
    requires marker != [] && FeedAll(before, marker).1 == []
    ensures FeedAll(before + later, marker)
         == (FeedAll(before, marker).0 + FeedAll(later, marker).0, FeedAll(later, marker).1)
    decreases |later|
  {
    hide Parse;
    if later == [] {
      assert before + later == before && FeedAll(before, marker).0 + [] == FeedAll(before, marker).0;
    } else {
      var n := |later| - 1;
      EmptyBufferRestarts(before, later[..n], marker);
      assert (before + later)[..|before + later| - 1] == before + later[..n];
      var a, b, c := FeedAll(before, marker).0, FeedAll(later[..n], marker).0,
        Parse(FeedAll(later[..n], marker).1 + later[n], marker).0;
      assert a + b + c == a + (b + c);
    }
  }

  /** After the buffer has overflowed and been cleared, frames are found again from the next delimiter on. */
  lemma StreamAfterOverflow(boundary: octets, before: seq<octets>, junk: octets, parts: seq<Part>,
                            later: seq<octets>)
    requires FeedAll(before, MarkerOf(boundary)).1 == []
    requires var delimiter := MarkerOf(boundary);
      && IsMarker(delimiter) && AllHeaded(parts) && Precedes(delimiter, junk, Print(delimiter, parts))
      && (forall i :: 0 <= i < |parts| ==> Printable(delimiter, parts[i]))
      && |junk| + |delimiter| <= 10485760
      && (forall i :: 0 <= i < |parts| ==> |junk| + |PrintPart(delimiter, parts[i])| + |delimiter| <= 10485761)
      && Joined(later) == junk + Print(delimiter, parts)
    ensures FeedAll(before + later, MarkerOf(boundary))
         == (FeedAll(before, MarkerOf(boundary)).0 + DataOf(parts), LeftOf(MarkerOf(boundary), junk, parts))
  {
    hide FeedAll, Joined, Print, Printable, PrintPart, Precedes;
    assert MarkerOf(boundary) == [45 as byte] + ([45 as byte] + boundary);
    EmptyBufferRestarts(before, later, MarkerOf(boundary));
    StreamInChunks(boundary, junk, parts, later);
  }

  // ---------------------------------------------------------------- parts without headers

  lemma LineEndBlocks(buf: octets, marker: octets, r: nat, k: nat)
    requires IsMarker(marker) && r <= k < r + |marker| && k < |buf| && (buf[k] == CR || buf[k] == LF)
    ensures !OccursAt(buf, marker, r)
  {
    if r + |marker| <= |buf| {
      assert buf[r..r + |marker|][k - r] == buf[k];
    }
  }

  /** Inside marker-free text that a CR LF ends no marker starts, nor inside that CR LF. */
  lemma NoMarkerInLine(before: octets, line: octets, after: octets, marker: octets, i: nat)
    requires IsMarker(marker) && MarkerFree(marker, line) && i < |line| + 2
    ensures !OccursAt(before + (line + CRLF + after), marker, |before| + i)
  {
    hide OccursAt;
    if i > |line| {
      TooShort(line, marker, i);
    }
    NoEarlierMarker(line, after, marker, i);
    OccursShift(before, line + CRLF + after, marker, i);
  }

  lemma OnlyMarkerOfLine(marker: octets, rest: octets, r: nat)
    requires IsMarker(marker) && 0 < r < |marker| + 2
    ensures !OccursAt(marker + CRLF + rest, marker, r)
  {
    hide OccursAt;
    var buf := marker + CRLF + rest;
    assert buf[|marker|] == CR && buf[|marker| + 1] == LF;
    LineEndBlocks(buf, marker, r, if r <= |marker| then |marker| else r);
  }

  /** In a clean part the marker occurs only at its start. */
  lemma OnlyMarkerOfPart(marker: octets, p: Part, tail: octets, r: nat)
    requires IsMarker(marker) && Clean(marker, p) && 0 < r < |PrintPart(marker, p)|
    ensures !OccursAt(PrintPart(marker, p) + tail, marker, r)
  {
    hide OccursAt, MarkerFree, IndexOf;
    match p
    case Headed(headers, data) => OnlyMarkerHeaded(marker, headers, data, tail, r);
    case Bare(data) => OnlyMarkerBare(marker, data, tail, r);
  }

  lemma OnlyMarkerHeaded(marker: octets, headers: octets, data: octets, tail: octets, r: nat)
    requires IsMarker(marker) && MarkerFree(marker, headers) && MarkerFree(marker, data)
    requires 0 < r < |marker| + |headers| + |data| + 8
    ensures !OccursAt(marker + CRLF + headers + HEADER_END + data + CRLF + tail, marker, r)
  {
    hide OccursAt, MarkerFree, IsMarker;
    var buf := marker + CRLF + headers + HEADER_END + data + CRLF + tail;
    var a, b := |marker| + 2, |marker| + 2 + |headers| + 2;
    Regrouped(marker, headers, data, tail);
    if r < a {
      OnlyMarkerOfLine(marker, headers + CRLF + (CRLF + data + CRLF + tail), r);
    } else if r < b {
      NoMarkerInLine(marker + CRLF, headers, CRLF + data + CRLF + tail, marker, r - a);
    } else {
      AfterHeaders(marker + CRLF + headers + CRLF, data, tail, marker, r);
    }
  }

  lemma Regrouped(marker: octets, headers: octets, data: octets, tail: octets)
    ensures var buf := marker + CRLF + headers + HEADER_END + data + CRLF + tail;
      && buf == marker + CRLF + (headers + CRLF + (CRLF + data + CRLF + tail))
      && buf == marker + CRLF + headers + CRLF + (CRLF + (data + CRLF + tail))
  {
    assert HEADER_END == CRLF + CRLF;
  }

  /** The blank line and the data behind it. */
  lemma AfterHeaders(before: octets, data: octets, tail: octets, marker: octets, r: nat)
    requires IsMarker(marker) && MarkerFree(marker, data) && |before| <= r < |before| + 2 + |data| + 2
    ensures !OccursAt(before + (CRLF + (data + CRLF + tail)), marker, r)
  {
    hide OccursAt, MarkerFree;
    var buf := before + (CRLF + (data + CRLF + tail));
    if r < |before| + 2 {
      assert buf[|before|] == CR && buf[|before| + 1] == LF;
      LineEndBlocks(buf, marker, r, r);
    } else {
      assert buf == before + CRLF + (data + CRLF + tail);
      NoMarkerInLine(before + CRLF, data, tail, marker, r - |before| - 2);
    }
  }

  lemma OnlyMarkerBare(marker: octets, data: octets, tail: octets, r: nat)
    requires IsMarker(marker) && MarkerFree(marker, data) && 0 < r < |marker| + |data| + 6
    ensures !OccursAt(marker + CRLF + CRLF + data + CRLF + tail, marker, r)
  {
    hide OccursAt, MarkerFree, IsMarker;
    assert marker + CRLF + CRLF + data + CRLF + tail == marker + CRLF + (CRLF + (data + CRLF + tail));
    if r < |marker| + 2 {
      OnlyMarkerOfLine(marker, CRLF + (data + CRLF + tail), r);
    } else {
      AfterHeaders(marker + CRLF, data, tail, marker, r);
    }
  }

  /** In a clean body every marker is the start of a part or the final one. */
  lemma {:induction false} MarkerStartsPart(marker: octets, parts: seq<Part>, r: nat) returns (j: nat)
    requires IsMarker(marker) && forall i :: 0 <= i < |parts| ==> Clean(marker, parts[i])
    requires OccursAt(Print(marker, parts), marker, r)
    ensures j <= |parts| && (r == 0 <==> j == 0) && r <= |Print(marker, parts)|
    ensures Print(marker, parts)[r..] == Print(marker, parts[j..])
    ensures j == 1 ==> r == |PrintPart(marker, parts[0])|
    decreases |parts|
  {
    hide PrintPart, Clean;
    j := 0;
    if r != 0 {
      var first, tail := PrintPart(marker, parts[0]), Print(marker, parts[1..]);
      PrintedPartNotEmpty(marker, parts[0]);
      if r < |first| {
        OnlyMarkerOfPart(marker, parts[0], tail, r);
      }
      OccursShift(first, tail, marker, r - |first|);
      var k := MarkerStartsPart(marker, parts[1..], r - |first|);
      j := k + 1;
      assert (first + tail)[r..] == tail[r - |first|..];
      assert parts[1..][k..] == parts[j..];
    }
  }

  lemma PrintedPartNotEmpty(marker: octets, p: Part)
    ensures |PrintPart(marker, p)| > 0
  {
  }

  lemma RoundCutsAtMarker(buf: octets, marker: octets)
    requires marker != [] && TryRound(buf, marker).Took?
    ensures TryRound(buf, marker).cut > 0 && OccursAt(buf, marker, TryRound(buf, marker).cut)
  {
    hide OccursAt, HeaderStart, DataEnd;
  }

  /** Parsing a clean body never yields more frames than it has parts. */
  lemma {:induction false} AtMostOneFrameEach(marker: octets, parts: seq<Part>)
    requires IsMarker(marker) && forall i :: 0 <= i < |parts| ==> Clean(marker, parts[i])
    ensures |Parse(Print(marker, parts), marker).0| <= |parts|
    decreases |parts|
  {
    hide TryRound, OccursAt, PrintPart, Clean;
    var buf := Print(marker, parts);
    if TryRound(buf, marker).Took? {
      RoundCutsAtMarker(buf, marker);
      var j := MarkerStartsPart(marker, parts, TryRound(buf, marker).cut);
      AtMostOneFrameEach(marker, parts[j..]);
    }
  }

  /** A round on a part without headers that ends at the next marker yields less than the part's data: the
    * blank line is taken for the end of the marker line, and the search for the end of the headers runs on.
    */
  lemma BareRound(marker: octets, data: octets, tail: octets)
    requires IsMarker(marker) && data != []
    ensures var part := PrintPart(marker, Bare(data));
      var round := TryRound(part + tail, marker);
      round.Took? && round.cut == |part| ==> |round.frame| < |data|
  {
    hide OccursAt, IndexOf;
    var part := PrintPart(marker, Bare(data));
    var buf, m := part + tail, |marker|;
    assert buf[..m] == marker;
    MarkerFirst(buf, marker);
    assert buf[m] == CR && buf[m + 1] == LF;
    assert buf[|part| - 2] == CR && buf[|part| - 1] == LF;
  }

  lemma {:induction false} OneEach(parts: seq<Part>)
    ensures |DataOf(parts)| == |parts|
  {
    if parts != [] {
      OneEach(parts[1..]);
    }
  }

  /** A body that starts with a part without headers never yields its data. */
  lemma BareFirstIsLost(marker: octets, parts: seq<Part>)
    requires IsMarker(marker) && parts != [] && parts[0].Bare?
    requires forall i :: 0 <= i < |parts| ==> Clean(marker, parts[i])
    ensures Parse(Print(marker, parts), marker).0 != DataOf(parts)
  {
    hide TryRound, OccursAt, PrintPart, IndexOf;
    var buf := Print(marker, parts);
    OneEach(parts);
    if TryRound(buf, marker).Took? {
      var round := TryRound(buf, marker);
      RoundCutsAtMarker(buf, marker);
      var j := MarkerStartsPart(marker, parts, round.cut);
      AtMostOneFrameEach(marker, parts[j..]);
      BareRound(marker, parts[0].data, Print(marker, parts[1..]));
    }
  }

  /** Parsing a clean body returns the data of every part if and only if every part has a header block. */
  lemma {:induction false} HeadersNeededExactly(marker: octets, parts: seq<Part>)
    requires IsMarker(marker) && forall i :: 0 <= i < |parts| ==> Clean(marker, parts[i])
    ensures Parse(Print(marker, parts), marker).0 == DataOf(parts) <==> AllHeaded(parts)
    decreases |parts|
  {
    hide TryRound, OccursAt, PrintPart, IndexOf, MarkerFree;
    if parts == [] {
      MarkerAloneIsStuck(marker);
    } else if parts[0].Bare? {
      BareFirstIsLost(marker, parts);
    } else {
      var tail := Print(marker, parts[1..]);
      PrintStartsWithMarker(marker, parts[1..]);
      RoundOnPart(marker, parts[0], tail);
      assert (PrintPart(marker, parts[0]) + tail)[|PrintPart(marker, parts[0])|..] == tail;
      HeadersNeededExactly(marker, parts[1..]);
      HeadedRest(parts);
      var fs := Parse(tail, marker).0;
      assert ([parts[0].data] + fs)[1..] == fs;
    }
  }

  lemma HeadedRest(parts: seq<Part>)
    requires parts != [] && parts[0].Headed?
    ensures AllHeaded(parts) <==> AllHeaded(parts[1..])
  {
    assert parts == [parts[0]] + parts[1..];
  }

  // ---------------------------------------------------------------- the source object

  class MjpegStreamSource {
    const boundary: octets
    var buffer: octets
    var frames: seq<octets>

    constructor (boundary: octets)
      ensures this.boundary == boundary && buffer == [] && frames == []
    {
      this.boundary := boundary;
      buffer, frames := [], [];
    }

    /** Each round of the loop removes at least one byte. Without a boundary nothing is parsed. */
    method ParseBuffer()
      modifies this
      ensures boundary == [] ==> buffer == old(buffer) && frames == old(frames)
      ensures boundary != [] ==>
        var (found, rest) := Parse(old(buffer), MarkerOf(boundary));
        frames == old(frames) + found && buffer == if |rest| > MAX_BUFFER then [] else rest
    {
      hide TryRound;
      if boundary == [] {
        return;
      }
      var marker := MarkerOf(boundary);
      while true
        invariant old(frames) + Parse(old(buffer), marker).0 == frames + Parse(buffer, marker).0
        invariant Parse(old(buffer), marker).1 == Parse(buffer, marker).1
        decreases |buffer|
      {
        ghost var before, f0 := buffer, frames;
        var more := ParseRound(marker);
        if !more {
          break;
        }
        FramesAssociate(f0, TryRound(before, marker).frame, Parse(buffer, marker).0, []);
      }
      assert frames + [] == frames;
      if |buffer| > MAX_BUFFER {
        buffer := [];
      }
    }

    method SkipLineEnd(at: nat) returns (headerStart: nat)
      ensures headerStart == HeaderStart(buffer, at)
    {
      headerStart := at;
      if headerStart < |buffer| && buffer[headerStart] == CR {
        headerStart := headerStart + 1;
      }
      if headerStart < |buffer| && buffer[headerStart] == LF {
        headerStart := headerStart + 1;
      }
    }

    method StripLineEnd(nextMarkerPos: nat) returns (dataEnd: nat)
      requires nextMarkerPos <= |buffer|
      ensures dataEnd == DataEnd(buffer, nextMarkerPos)
    {
      dataEnd := nextMarkerPos;
      if dataEnd >= 2 && buffer[dataEnd - 2] == CR && buffer[dataEnd - 1] == LF {
        dataEnd := dataEnd - 2;
      }
    }

    /** One round of the loop; false when it must wait for more data. */
    method ParseRound(marker: octets) returns (more: bool)
      requires marker != []
      modifies this
      ensures var round := TryRound(old(buffer), marker);
        && more == round.Took?
        && (!more ==> buffer == old(buffer) && frames == old(frames))
        && (more ==> buffer == old(buffer)[round.cut..]
                     && frames == old(frames) + Emitted(round.frame))
    {
      hide IndexOf, OccursAt, HeaderStart, DataEnd;
      var markerPos := IndexOf(buffer, marker, 0);
      if markerPos < 0 {
        return false;
      }
      var headerStart := SkipLineEnd(markerPos + |marker|);
      var headerEndPos := IndexOf(buffer, HEADER_END, headerStart);
      if headerEndPos < 0 {
        return false;
      }
      var dataStart := headerEndPos + |HEADER_END|;
      var nextMarkerPos := IndexOf(buffer, marker, dataStart);
      if nextMarkerPos < 0 {
        return false;
      }
      var dataEnd := StripLineEnd(nextMarkerPos);
      if dataEnd > dataStart {
        frames := frames + [buffer[dataStart..dataEnd]];
      }
      buffer := buffer[nextMarkerPos..];
      return true;
    }

    method OnReadyRead(chunk: octets)
      modifies this
      ensures boundary != [] ==> (frames, buffer) == Feed((old(frames), old(buffer)), chunk, MarkerOf(boundary))
      ensures boundary == [] ==> (frames, buffer) == (old(frames), old(buffer) + chunk)
    {
      hide Parse;
      buffer := buffer + chunk;
      ParseBuffer();
    }
  }

  lemma FramesAssociate(a: seq<octets>, frame: octets, b: seq<octets>, c: seq<octets>)
    ensures a + (Emitted(frame) + b) == a + Emitted(frame) + b
    ensures Emitted(frame) + b + c == Emitted(frame) + (b + c)
  {
  }
}
