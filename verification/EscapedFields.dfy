/** The line format of the retained store's file: fields joined with '|', special characters escaped
  * with a backslash, and numbers in decimal.
  */
module EscapedFields {
  import opened DirectWire
  import opened TextFiles

  const BACKSLASH: byte := 92
  const BAR: byte := 124

  predicate Special(c: byte)
  {
    c == BACKSLASH || c == BAR || c == NEWLINE || c == RETURN
  }

  function Escape(s: octets): octets
  {
    if s == [] then [] else (if Special(s[0]) then [BACKSLASH, s[0]] else [s[0]]) + Escape(s[1..])
  }

  function UnescapeFrom(s: octets, escaped: bool): octets
  {
    if s == [] then []
    else if escaped then [s[0]] + UnescapeFrom(s[1..], false)
    else if s[0] == BACKSLASH then UnescapeFrom(s[1..], true)
    else [s[0]] + UnescapeFrom(s[1..], false)
  }

  function Unescape(s: octets): octets
  {
    UnescapeFrom(s, false)
  }

  /** The fields found from here on, with part of a field already read and a backslash possibly pending. */
  function SplitFrom(s: octets, current: octets, escaped: bool): seq<octets>
    decreases |s|
  {
    if s == [] then [Unescape(if escaped then current + [BACKSLASH] else current)]
    else if escaped then SplitFrom(s[1..], current + [BACKSLASH, s[0]], false)
    else if s[0] == BACKSLASH then SplitFrom(s[1..], current, true)
    else if s[0] == BAR then [Unescape(current)] + SplitFrom(s[1..], [], false)
    else SplitFrom(s[1..], current + [s[0]], false)
  }

  function Split(s: octets): seq<octets>
  {
    SplitFrom(s, [], false)
  }

  function JoinFields(fields: seq<octets>): octets
    requires fields != []
  {
    if |fields| == 1 then Escape(fields[0]) else Escape(fields[0]) + [BAR] + JoinFields(fields[1..])
  }

  // ---------------------------------------------------------------- round trip

  lemma UnescapeStep(c: byte, rest: octets, escaped: bool)
    ensures UnescapeFrom([c] + rest, escaped) ==
      if !escaped && c == BACKSLASH then UnescapeFrom(rest, true) else [c] + UnescapeFrom(rest, false)
  {
    assert ([c] + rest)[1..] == rest;
  }

  lemma EscapeStep(s: octets, i: nat)
    requires i < |s|
    ensures Escape(s[i..]) == (if Special(s[i]) then [BACKSLASH, s[i]] else [s[i]]) + Escape(s[i + 1..])
    ensures s[i..] == [s[i]] + s[i + 1..]
  {
    assert s[i..][1..] == s[i + 1..];
  }

  lemma {:induction false} UnescapeUndoesEscape(s: octets)
    ensures Unescape(Escape(s)) == s
  {
    hide UnescapeFrom, Escape;
    if s == [] {
      EmptyUnescaped();
    } else {
      var c, rest := s[0], Escape(s[1..]);
      UnescapeUndoesEscape(s[1..]);
      EscapeStep(s, 0);
      assert s[0..] == s;
      if Special(c) {
        assert [BACKSLASH, c] + rest == [BACKSLASH] + ([c] + rest);
        UnescapeStep(BACKSLASH, [c] + rest, false);
        UnescapeStep(c, rest, true);
      } else {
        UnescapeStep(c, rest, false);
      }
    }
  }

  lemma EmptyUnescaped()
    ensures Unescape(Escape([])) == []
  {
  }

  /** The splitter reads an escaped field as a unit. */
  lemma SplitReadsByte(c: byte, more: octets, current: octets)
    ensures var shown := if Special(c) then [BACKSLASH, c] else [c];
      SplitFrom(shown + more, current, false) == SplitFrom(more, current + shown, false)
  {
    hide UnescapeFrom, Unescape;
    if Special(c) {
      var text := [BACKSLASH, c] + more;
      assert text[1..] == [c] + more && text[1..][1..] == more;
    } else {
      assert ([c] + more)[1..] == more;
    }
  }

  lemma {:induction false} SplitReadsField(s: octets, rest: octets, current: octets)
    ensures SplitFrom(Escape(s) + rest, current, false) == SplitFrom(rest, current + Escape(s), false)
    decreases |s|
  {
    hide SplitFrom;
    if s == [] {
      assert [] + rest == rest && current + [] == current;
    } else {
      var shown, tail := if Special(s[0]) then [BACKSLASH, s[0]] else [s[0]], Escape(s[1..]);
      SplitReadsByte(s[0], tail + rest, current);
      assert shown + tail + rest == shown + (tail + rest);
      SplitReadsField(s[1..], rest, current + shown);
      assert current + shown + tail == current + (shown + tail);
    }
  }

  /** Splitting a joined line returns the fields, whatever bytes they contain. */
  lemma {:induction false} SplitUndoesJoin(fields: seq<octets>)
    requires fields != []
    ensures Split(JoinFields(fields)) == fields
    decreases |fields|
  {
    var f := fields[0];
    UnescapeUndoesEscape(f);
    if |fields| == 1 {
      SplitReadsField(f, [], []);
      assert Escape(f) + [] == Escape(f) && [] + Escape(f) == Escape(f);
      assert fields == [f];
    } else {
      var more := [BAR] + JoinFields(fields[1..]);
      assert JoinFields(fields) == Escape(f) + more;
      SplitReadsField(f, more, []);
      assert [] + Escape(f) == Escape(f);
      assert more[1..] == JoinFields(fields[1..]);
      SplitUndoesJoin(fields[1..]);
    }
  }

  lemma {:induction false} PlainIsUnescaped(s: octets)
    requires forall i :: 0 <= i < |s| ==> !Special(s[i])
    ensures Escape(s) == s
  {
    if s != [] {
      PlainIsUnescaped(s[1..]);
    }
  }

  // ---------------------------------------------------------------- bytes that stay

  /** Escaping puts a backslash before a newline but leaves the newline there, as it does every other byte. */
  lemma {:induction false} EscapeKeeps(s: octets, c: byte)
    requires c != BACKSLASH
    ensures c in Escape(s) <==> c in s
  {
    if s != [] {
      EscapeKeeps(s[1..], c);
      assert s == [s[0]] + s[1..];
    }
  }

  lemma {:induction false} UnescapeAddsNothing(s: octets, escaped: bool, c: byte)
    requires c !in s
    ensures c !in UnescapeFrom(s, escaped)
  {
    if s != [] {
      UnescapeAddsNothing(s[1..], false, c);
      UnescapeAddsNothing(s[1..], true, c);
    }
  }

  lemma {:induction false} SplitAddsNothing(s: octets, current: octets, escaped: bool, i: nat, c: byte)
    requires c !in s && c !in current && c != BACKSLASH
    requires i < |SplitFrom(s, current, escaped)|
    ensures c !in SplitFrom(s, current, escaped)[i]
    decreases |s|
  {
    UnescapeAddsNothing(current, false, c);
    UnescapeAddsNothing(current + [BACKSLASH], false, c);
    if s != [] {
      if escaped {
        SplitAddsNothing(s[1..], current + [BACKSLASH, s[0]], false, i, c);
      } else if s[0] == BACKSLASH {
        SplitAddsNothing(s[1..], current, true, i, c);
      } else if s[0] == BAR {
        if i > 0 {
          SplitAddsNothing(s[1..], [], false, i - 1, c);
        }
      } else {
        SplitAddsNothing(s[1..], current + [s[0]], false, i, c);
      }
    }
  }

  // ---------------------------------------------------------------- numbers

  datatype Option<T> = None | Some(value: T)

  predicate IsDigit(c: byte)
  {
    48 <= c <= 57
  }

  predicate IsSpace(c: byte)
  {
    c == 32 || 9 <= c <= 13
  }

  function ToDecimal(n: nat): octets
  {
    if n < 10 then [48 + n] else ToDecimal(n / 10) + [48 + n % 10]
  }

  function DigitOf(c: byte): nat
    requires IsDigit(c)
  {
    var code: int := c;
    code - 48
  }

  function DigitsValue(s: octets): nat
    requires forall i :: 0 <= i < |s| ==> IsDigit(s[i])
  {
    if s == [] then 0 else 10 * DigitsValue(s[..|s| - 1]) + DigitOf(s[|s| - 1])
  }

  function DigitCount(s: octets): (n: nat)
    ensures n <= |s| && forall i :: 0 <= i < n ==> IsDigit(s[i])
    ensures n < |s| ==> !IsDigit(s[n])
  {
    if s == [] || !IsDigit(s[0]) then 0 else 1 + DigitCount(s[1..])
  }

  function SkipSpace(s: octets): octets
  {
    if s != [] && IsSpace(s[0]) then SkipSpace(s[1..]) else s
  }

  datatype Scanned = Scanned(negative: bool, magnitude: nat)

  /** White space, an optional sign and the longest run of digits; without a digit the conversion throws. */
  function Scan(s: octets): Option<Scanned>
  {
    var t := SkipSpace(s);
    var signed := t != [] && (t[0] == 43 || t[0] == 45);
    var digits := if signed then t[1..] else t;
    var n := DigitCount(digits);
    if n == 0 then None else Some(Scanned(signed && t[0] == 45, DigitsValue(digits[..n])))
  }

  /** std::stoi, narrowed to a byte by the caller. */
  function ParseKind(s: octets): Option<byte>
  {
    match Scan(s)
    case None => None
    case Some(Scanned(neg, m)) =>
      if (if neg then m > 0x8000_0000 else m > 0x7FFF_FFFF) then None
      else
        var value: int := if neg then 0 - m as int else m;
        Some(value % 256)
  }

  /** std::stoull. */
  function ParseUint64(s: octets): Option<uint64>
  {
    match Scan(s)
    case None => None
    case Some(Scanned(neg, m)) =>
      if m >= 0x1_0000_0000_0000_0000 then None
      else Some(if neg && m > 0 then 0x1_0000_0000_0000_0000 - m else m)
  }

  lemma {:induction false} DecimalRoundTrip(n: nat)
    ensures |ToDecimal(n)| > 0
    ensures forall i :: 0 <= i < |ToDecimal(n)| ==> IsDigit(ToDecimal(n)[i])
    ensures DigitsValue(ToDecimal(n)) == n
  {
    if n >= 10 {
      DecimalRoundTrip(n / 10);
      assert ToDecimal(n)[..|ToDecimal(n)| - 1] == ToDecimal(n / 10);
    }
  }

  lemma {:induction false} AllDigits(s: octets)
    requires forall i :: 0 <= i < |s| ==> IsDigit(s[i])
    ensures DigitCount(s) == |s|
  {
  }

  lemma NumberRoundTrip(n: nat)
    ensures Scan(ToDecimal(n)) == Some(Scanned(false, n))
    ensures n < 256 ==> ParseKind(ToDecimal(n)) == Some(n)
    ensures n < 0x1_0000_0000_0000_0000 ==> ParseUint64(ToDecimal(n)) == Some(n)
    ensures Escape(ToDecimal(n)) == ToDecimal(n)
  {
    hide ToDecimal, DigitsValue, DigitCount, Escape, Scan;
    DecimalRoundTrip(n);
    ScanDigits(ToDecimal(n));
    PlainIsUnescaped(ToDecimal(n));
  }

  lemma ScanDigits(s: octets)
    requires s != [] && forall i :: 0 <= i < |s| ==> IsDigit(s[i])
    ensures Scan(s) == Some(Scanned(false, DigitsValue(s)))
  {
    hide DigitsValue, DigitCount;
    AllDigits(s);
    assert IsDigit(s[0]) && SkipSpace(s) == s;
    assert s[..|s|] == s;
  }

  /** Decimal digits: the last is the remainder by ten, those before it are of the quotient. */
  lemma DecimalDigits(q: nat, d: nat)
    requires d < 10
    ensures ToDecimal(d) == [48 + d] && (q > 0 ==> ToDecimal(10 * q + d) == ToDecimal(q) + [48 + d])
  {
    hide ToDecimal;
    DecimalUnfolds(d);
    DecimalUnfolds(10 * q + d);
    assert (10 * q + d) / 10 == q && (10 * q + d) % 10 == d;
  }

  lemma DecimalUnfolds(n: nat)
    ensures ToDecimal(n) == if n < 10 then [48 + n] else ToDecimal(n / 10) + [48 + n % 10]
  {
  }

  predicate Digits(s: octets)
  {
    forall i :: 0 <= i < |s| ==> 48 <= s[i] <= 57
  }

  predicate Spaces(s: octets)
  {
    forall i :: 0 <= i < |s| ==> s[i] == 32 || 9 <= s[i] <= 13
  }

  /** Neither a digit nor more of the same number follows. */
  predicate Ends(rest: octets)
  {
    rest == [] || rest[0] < 48 || 57 < rest[0]
  }

  lemma {:induction false} SpacesSkipped(spaces: octets, rest: octets)
    requires Spaces(spaces) && (rest == [] || !(rest[0] == 32 || 9 <= rest[0] <= 13))
    ensures SkipSpace(spaces + rest) == rest
  {
    if spaces == [] {
      assert [] + rest == rest;
    } else {
      assert (spaces + rest)[1..] == spaces[1..] + rest;
      SpacesSkipped(spaces[1..], rest);
    }
  }

  lemma {:induction false} DigitsCounted(digits: octets, rest: octets)
    requires Digits(digits) && Ends(rest)
    ensures DigitCount(digits + rest) == |digits|
  {
    if digits == [] {
      assert [] + rest == rest;
    } else {
      assert (digits + rest)[1..] == digits[1..] + rest;
      DigitsCounted(digits[1..], rest);
    }
  }

  lemma DigitsWeigh(digits: octets, c: byte)
    requires Digits(digits) && 48 <= c <= 57
    ensures DigitsValue(digits + [c]) as int == 10 * DigitsValue(digits) + (c as int - 48) && DigitsValue([]) == 0
  {
    assert (digits + [c])[..|digits|] == digits;
  }

  /** A number in a field: spaces, at most one sign, and digits up to the first other byte. What follows is ignored,
    * a sign or no sign without digits throws, and so does a value that does not fit: 32 bits with a sign for the
    * type code, of which the low byte is kept, and 64 bits for the others, where a minus wraps around.
    */
  lemma NumberText(spaces: octets, sign: octets, digits: octets, rest: octets)
    requires Spaces(spaces) && sign in [[], [43], [45]] && Digits(digits) && Ends(rest)
    requires sign == [] && digits == [] ==> rest == [] || rest[0] !in [32, 9, 10, 11, 12, 13, 43, 45]
    ensures var text, value: int := spaces + (sign + (digits + rest)), DigitsValue(digits);
      var signed := if sign == [45] then -value else value;
      && Scan(text) == (if digits == [] then None else Some(Scanned(sign == [45], value)))
      && (ParseKind(text).None? <==> digits == [] || signed < -2147483648 || signed > 2147483647)
      && (ParseKind(text).Some? ==> ParseKind(text).value as int == signed % 256)
      && (ParseUint64(text).None? <==> digits == [] || value > 18446744073709551615)
      && (ParseUint64(text).Some? ==> ParseUint64(text).value as int == signed % 18446744073709551616)
  {
    hide DigitsValue, Scan;
    ScanText(spaces, sign, digits, rest);
  }

  lemma ScanText(spaces: octets, sign: octets, digits: octets, rest: octets)
    requires Spaces(spaces) && sign in [[], [43], [45]] && Digits(digits) && Ends(rest)
    requires sign == [] && digits == [] ==> rest == [] || rest[0] !in [32, 9, 10, 11, 12, 13, 43, 45]
    ensures Scan(spaces + (sign + (digits + rest)))
         == if digits == [] then None else Some(Scanned(sign == [45], DigitsValue(digits)))
  {
    hide DigitsValue, DigitCount, SkipSpace;
    var t := sign + (digits + rest);
    assert t != [] ==> t[0] == (if sign != [] then sign[0] else if digits != [] then digits[0] else rest[0]);
    SpacesSkipped(spaces, t);
    DigitsCounted(digits, rest);
    assert (digits + rest)[..|digits|] == digits;
    if sign == [] {
      assert t == digits + rest;
    } else {
      assert t[1..] == digits + rest;
    }
  }

  /** Escaping goes byte by byte: backslash, bar, newline and return get a backslash before them. */
  lemma {:induction false} EscapeByByte(a: octets, c: byte, b: octets)
    ensures Escape(a + ([c] + b)) == Escape(a) + ((if c in [92, 124, 10, 13] then [92, c] else [c]) + Escape(b))
  {
    if a == [] {
      assert [] + ([c] + b) == [c] + b && ([c] + b)[1..] == b;
    } else {
      assert (a + ([c] + b))[1..] == a[1..] + ([c] + b);
      EscapeByByte(a[1..], c, b);
    }
  }

  // ---------------------------------------------------------------- the loops

  method EscapeText(input: octets) returns (output: octets)
    ensures output == Escape(input)
  {
    hide Escape;
    output := [];
    assert input[0..] == input;
    for i := 0 to |input|
      invariant output + Escape(input[i..]) == Escape(input)
    {
      var c := input[i];
      EscapeStep(input, i);
      if c == BACKSLASH || c == BAR || c == NEWLINE || c == RETURN {
        output := output + [BACKSLASH];
      }
      output := output + [c];
    }
    assert input[|input|..] == [];
    EmptyEscaped();
  }

  lemma EmptyEscaped()
    ensures Escape([]) == []
  {
  }

  method UnescapeText(input: octets) returns (output: octets)
    ensures output == Unescape(input)
  {
    hide UnescapeFrom;
    output := [];
    var escaped := false;
    assert input[0..] == input;
    for i := 0 to |input|
      invariant output + UnescapeFrom(input[i..], escaped) == Unescape(input)
    {
      var c := input[i];
      UnescapeStep(c, input[i + 1..], escaped);
      assert input[i..] == [c] + input[i + 1..];
      if escaped {
        output := output + [c];
        escaped := false;
        continue;
      }
      if c == BACKSLASH {
        escaped := true;
        continue;
      }
      output := output + [c];
    }
    assert input[|input|..] == [];
    NothingLeft(escaped);
  }

  lemma NothingLeft(escaped: bool)
    ensures UnescapeFrom([], escaped) == []
  {
  }

  method SplitEscaped(input: octets) returns (parts: seq<octets>)
    ensures parts == Split(input)
  {
    hide Unescape;
    parts := [];
    var current: octets := [];
    var escaped := false;
    for i := 0 to |input|
      invariant parts + SplitFrom(input[i..], current, escaped) == Split(input)
    {
      var c := input[i];
      assert input[i..][1..] == input[i + 1..];
      if escaped {
        assert current + [BACKSLASH] + [c] == current + [BACKSLASH, c];
        current := current + [BACKSLASH];
        current := current + [c];
        escaped := false;
        continue;
      }
      if c == BACKSLASH {
        escaped := true;
        continue;
      }
      if c == BAR {
        var field := UnescapeText(current);
        assert parts + [field] + SplitFrom(input[i + 1..], [], false)
            == parts + ([field] + SplitFrom(input[i + 1..], [], false));
        parts := parts + [field];
        current := [];
        continue;
      }
      current := current + [c];
    }
    if escaped {
      current := current + [BACKSLASH];
    }
    var field := UnescapeText(current);
    parts := parts + [field];
  }
}
