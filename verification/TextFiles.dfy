/** Text files: lines end in a newline, which a file opened as text on Windows holds as carriage return and
  * newline. The C++ library there also takes the byte 26 for the end of what it reads.
  */
module TextFiles {
  import opened DirectWire

  const NEWLINE: byte := 10
  const RETURN: byte := 13
  const END_MARK: byte := 26

  datatype TextMode = Untranslated | Windows

  // ---------------------------------------------------------------- line ends

  function Crlf(s: octets): octets
  {
    if s == [] then [] else (if s[0] == NEWLINE then [RETURN, NEWLINE] else [s[0]]) + Crlf(s[1..])
  }

  function Uncrlf(s: octets): octets
  {
    if |s| < 2 then s
    else if s[0] == RETURN && s[1] == NEWLINE then [NEWLINE] + Uncrlf(s[2..])
    else [s[0]] + Uncrlf(s[1..])
  }

  function UntilMark(s: octets): octets
  {
    if s == [] || s[0] == END_MARK then [] else [s[0]] + UntilMark(s[1..])
  }

  /** What the file holds once s has been written to it. */
  function ToNative(mode: TextMode, s: octets): octets
  {
    if mode.Windows? then Crlf(s) else s
  }

  /** What the C++ library reads from such a file. */
  function FromNative(mode: TextMode, s: octets): octets
  {
    if mode.Windows? then UntilMark(Uncrlf(s)) else s
  }

  lemma {:induction false} UncrlfUndoesCrlf(s: octets)
    ensures Uncrlf(Crlf(s)) == s
    ensures s != [] && s[0] != NEWLINE ==> Crlf(s) != [] && Crlf(s)[0] == s[0]
  {
    if s != [] {
      var rest := Crlf(s[1..]);
      UncrlfUndoesCrlf(s[1..]);
      if s[0] == NEWLINE {
        assert Crlf(s)[2..] == rest;
      } else {
        assert Crlf(s)[1..] == rest && (rest != [] ==> rest[0] != NEWLINE);
      }
    }
  }

  lemma {:induction false} UntilMarkIs(s: octets)
    ensures UntilMark(s) <= s && END_MARK !in UntilMark(s)
    ensures UntilMark(s) == s <==> END_MARK !in s
  {
    if s != [] {
      UntilMarkIs(s[1..]);
      assert s == [s[0]] + s[1..];
    }
  }

  /** What was written reads back up to an end mark, which counts on Windows alone. */
  lemma TextRoundTrip(mode: TextMode, s: octets)
    ensures FromNative(mode, ToNative(mode, s)) == if mode.Windows? then UntilMark(s) else s
    ensures FromNative(mode, ToNative(mode, s)) == s <==> mode.Windows? ==> 26 !in s
  {
    hide UntilMark, Crlf, Uncrlf;
    UncrlfUndoesCrlf(s);
    UntilMarkIs(s);
  }

  lemma {:induction false} CrlfConcat(a: octets, b: octets)
    ensures Crlf(a + b) == Crlf(a) + Crlf(b)
  {
    if a == [] {
      assert a + b == b;
    } else {
      assert (a + b)[1..] == a[1..] + b;
      CrlfConcat(a[1..], b);
    }
  }

  /** Line ends change byte by byte: a newline becomes return and newline on Windows, nothing else changes. */
  lemma NativeByByte(mode: TextMode, a: octets, c: byte, b: octets)
    ensures ToNative(mode, a + ([c] + b))
         == ToNative(mode, a) + ((if mode.Windows? && c == 10 then [13, 10] else [c]) + ToNative(mode, b))
  {
    if mode.Windows? {
      CrlfConcat(a, [c] + b);
      assert ([c] + b)[1..] == b;
    }
  }

  lemma NativeConcat(mode: TextMode, a: octets, b: octets)
    ensures ToNative(mode, a + b) == ToNative(mode, a) + ToNative(mode, b)
  {
    hide Crlf;
    CrlfConcat(a, b);
  }

  lemma {:induction false} NothingToUndo(s: octets)
    requires RETURN !in s
    ensures Uncrlf(s) == s
  {
    if |s| >= 2 {
      NothingToUndo(s[1..]);
      assert s == [s[0]] + s[1..];
    }
  }

  // ---------------------------------------------------------------- lines

  /** Length of the first line. */
  function LineEnd(text: octets): (n: nat)
    ensures n <= |text|
    ensures n < |text| ==> text[n] == NEWLINE
    ensures NEWLINE !in text[..n]
  {
    if text == [] || text[0] == NEWLINE then 0 else 1 + LineEnd(text[1..])
  }

  /** What reading line by line yields; a last line need not end in a newline. */
  function Lines(text: octets): seq<octets>
    decreases |text|
  {
    if text == [] then []
    else
      var n := LineEnd(text);
      [text[..n]] + if n < |text| then Lines(text[n + 1..]) else []
  }

  lemma {:induction false} LineEndOf(line: octets, rest: octets)
    requires NEWLINE !in line
    ensures LineEnd(line + [NEWLINE] + rest) == |line|
  {
    var text := line + [NEWLINE] + rest;
    if line != [] {
      assert text[1..] == line[1..] + [NEWLINE] + rest;
      LineEndOf(line[1..], rest);
    }
  }

  lemma FirstLine(line: octets, rest: octets)
    requires 10 !in line
    ensures Lines(line + [10] + rest) == [line] + Lines(rest) && Lines([]) == []
  {
    var text := line + [NEWLINE] + rest;
    LineEndOf(line, rest);
    assert text[..|line|] == line && text[|line| + 1..] == rest;
  }

  lemma {:induction false} LinesHaveNoNewline(text: octets, i: nat)
    requires i < |Lines(text)|
    ensures NEWLINE !in Lines(text)[i]
    decreases |text|
  {
    var n := LineEnd(text);
    if i > 0 {
      LinesHaveNoNewline(text[n + 1..], i - 1);
    }
  }

  lemma {:induction false} LinesAddNothing(text: octets, i: nat, c: byte)
    requires i < |Lines(text)| && c !in text
    ensures c !in Lines(text)[i]
    decreases |text|
  {
    var n := LineEnd(text);
    if i > 0 {
      LinesAddNothing(text[n + 1..], i - 1, c);
    }
  }
}
