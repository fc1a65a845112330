/** A log record as text: lines, each behind a prefix. */
module LogText {
  import opened LogRecord

  const NEWLINE: Byte := 10

  /** Record flags: the text ended with a newline, started with a prefix, or is part of a continued line. */
  predicate EndsLine(flags: nat) { flags / 2 % 2 == 1 }
  predicate StartsPrefix(flags: nat) { flags / 4 % 2 == 1 }
  predicate Continues(flags: nat) { flags / 8 % 2 == 1 }

  // --- the prefix -------------------------------------------------------------------------------------

  function Digits(n: nat): (s: seq<Byte>)
    ensures |s| > 0
  {
    if n < 10 then [48 + n] else Digits(n / 10) + [48 + n % 10]
  }

  function Repeat(b: Byte, n: nat): (s: seq<Byte>)
    ensures |s| == n
  {
    if n == 0 then [] else [b] + Repeat(b, n - 1)
  }

  function PadLeft(s: seq<Byte>, width: nat, b: Byte): (t: seq<Byte>)
    ensures |t| == if |s| < width then width else |s|
  {
    if |s| < width then Repeat(b, width - |s|) + s else s
  }

  const SECOND := 1000000000

  /** "[%5lu.%06lu] " of seconds and microseconds. */
  function TimeStamp(ts: nat): seq<Byte>
  {
    [91] + PadLeft(Digits(ts / SECOND), 5, 32) + [46] + PadLeft(Digits(ts % SECOND / 1000), 6, 48) + [93, 32]
  }

  function Priority(r: Record): nat { r.facility * 8 + r.level }

  /** print_prefix into a buffer. */
  function Prefix(r: Record, syslog: bool, time: bool): seq<Byte>
  {
    (if syslog then [60] + Digits(Priority(r)) + [62] else []) + if time then TimeStamp(r.ts) else []
  }

  /** print_prefix without a buffer: only the length. */
  function PrefixLength(r: Record, syslog: bool, time: bool): nat
  {
    (if syslog then
        3 + (if Priority(r) > 999 then 3 else if Priority(r) > 99 then 2 else if Priority(r) > 9 then 1 else 0) else 0)
    + if time then |[91] + PadLeft(Digits(r.ts / SECOND), 5, 32) + [46, 48, 48, 48, 48, 48, 48, 93, 32]| else 0
  }

  lemma DigitCount(n: nat)
    requires n < 1000000
    ensures |Digits(n)| == if n < 10 then 1 else if n < 100 then 2 else if n < 1000 then 3 else if n < 10000 then 4
        else if n < 100000 then 5 else 6
  {
    if n >= 10 {
      DigitCount(n / 10);
    }
  }

  /** The length computed without a buffer is the length of the prefix that is written. */
  lemma PrefixLengthExact(r: Record, syslog: bool, time: bool)
    requires r.level < 8
    ensures PrefixLength(r, syslog, time) == |Prefix(r, syslog, time)|
  {
    DigitCount(Priority(r));
    DigitCount(r.ts % SECOND / 1000);
  }

  // --- lines ------------------------------------------------------------------------------------------

  /** The position of the first newline, the length if there is none. */
  function FirstNewline(text: seq<Byte>): (i: nat)
    ensures i <= |text| && (forall j :: 0 <= j < i ==> text[j] != NEWLINE) && (i < |text| ==> text[i] == NEWLINE)
  {
    if text == [] || text[0] == NEWLINE then 0 else 1 + FirstNewline(text[1..])
  }

  /** The lines of a text: one more than it has newlines. */
  function Lines(text: seq<Byte>): (lines: seq<seq<Byte>>)
    ensures lines != []
    decreases |text|
  {
    var i := FirstNewline(text);
    if i == |text| then [text] else [text[..i]] + Lines(text[i + 1..])
  }

  /** One line as written. */
  function Line(line: seq<Byte>, prefix: bool, ends: bool, pre: seq<Byte>): seq<Byte>
  {
    (if prefix then pre else []) + line + if ends then [NEWLINE] else []
  }

  /** All lines as written; the last one ends only if `newline`. */
  function Whole(lines: seq<seq<Byte>>, prefix: bool, newline: bool, pre: seq<Byte>): seq<Byte>
  {
    if lines == [] then []
        else Line(lines[0], prefix, |lines| > 1 || newline, pre) + Whole(lines[1..], true, newline, pre)
  }

  /** The lines that fit a buffer of `room` bytes: up to the first that might not. */
  function Fitting(lines: seq<seq<Byte>>, prefix: bool, newline: bool, pre: seq<Byte>, room: nat): (out: seq<Byte>)
    ensures out == [] || |out| < room
    ensures out <= Whole(lines, prefix, newline, pre)
  {
    if lines == [] || |pre| + |lines[0]| + 1 >= room then []
    else
      var line := Line(lines[0], prefix, |lines| > 1 || newline, pre);
      line + Fitting(lines[1..], true, newline, pre, room - |line|)
  }

  // --- rendering --------------------------------------------------------------------------------------

  predicate WantsPrefix(flags: nat, prev: nat)
  {
    !(Continues(prev) && !StartsPrefix(flags)) && !(Continues(flags) && Continues(prev) && !EndsLine(prev))
  }

  predicate WantsNewline(flags: nat)
  {
    !(Continues(flags) && !EndsLine(flags))
  }

  function Rendered(r: Record, prev: nat, syslog: bool, time: bool, size: nat): (out: seq<Byte>)
    ensures out == [] || |out| < size
  {
    Fitting(Lines(r.text), WantsPrefix(r.flags, prev), WantsNewline(r.flags), Prefix(r, syslog, time), size)
  }

  /** msg_print_text into a buffer of `size` bytes. */
  method PrintText(r: Record, prev: nat, syslog: bool, time: bool, size: nat) returns (out: seq<Byte>)
    requires r.level < 8
    ensures out == Rendered(r, prev, syslog, time, size)
  {
    var text := r.text;
    var prefix, newline := true, true;
    if Continues(prev) && !StartsPrefix(r.flags) {
      prefix := false;
    }
    if Continues(r.flags) {
      if Continues(prev) && !EndsLine(prev) {
        prefix := false;
      }
      if !EndsLine(r.flags) {
        newline := false;
      }
    }
    out := PrintLines(r, prefix, newline, syslog, time, size);
  }

  /** The loop of msg_print_text. */
  method PrintLines(r: Record, prefix0: bool, newline: bool, syslog: bool, time: bool, size: nat)
    returns (out: seq<Byte>)
    requires r.level < 8
    ensures out == Fitting(Lines(r.text), prefix0, newline, Prefix(r, syslog, time), size)
  {
    var text, prefix := r.text, prefix0;
    ghost var pre := Prefix(r, syslog, time);
    ghost var goal := Fitting(Lines(r.text), prefix0, newline, pre, size);
    PrefixLengthExact(r, syslog, time);
    ghost var room := size;
    out := [];
    while true
      invariant |out| <= size && room == size - |out| && goal == out + Fitting(Lines(text), prefix, newline, pre, room)
      decreases |text|
    {
      var i := FirstNewline(text);
      if PrefixLength(r, syslog, time) + i + 1 >= size - |out| {
        NoLine(text, prefix, newline, pre, room);
        return;
      }
      if i == |text| {
        LastLine(text, prefix, newline, pre, room);
        out := out + Line(text, prefix, newline, Prefix(r, syslog, time));
        return;
      }
      var line := Line(text[..i], prefix, true, Prefix(r, syslog, time));
      MoreLines(goal, out, text, prefix, newline, pre, room, i, line);
      room := room - |line|;
      text := text[i + 1..];
      out := out + line;
      prefix := true;
    }
  }

  lemma Regroup(goal: seq<Byte>, out: seq<Byte>, f: seq<Byte>, line: seq<Byte>, rest: seq<Byte>)
    requires goal == out + f && f == line + rest
    ensures goal == (out + line) + rest
  {
  }

  lemma NoLine(text: seq<Byte>, prefix: bool, newline: bool, pre: seq<Byte>, room: nat)
    requires |pre| + FirstNewline(text) + 1 >= room
    ensures Fitting(Lines(text), prefix, newline, pre, room) == []
  {
    assert |Lines(text)[0]| == FirstNewline(text);
  }

  lemma LastLine(text: seq<Byte>, prefix: bool, newline: bool, pre: seq<Byte>, room: nat)
    requires FirstNewline(text) == |text| && |pre| + |text| + 1 < room
    ensures Fitting(Lines(text), prefix, newline, pre, room) == Line(text, prefix, newline, pre)
  {
    assert Lines(text) == [text] && Lines(text)[1..] == [];
  }

  lemma FittingCons(first: seq<Byte>, rest: seq<seq<Byte>>, prefix: bool, newline: bool, pre: seq<Byte>, room: nat)
    requires rest != [] && |pre| + |first| + 1 < room
    ensures |Line(first, prefix, true, pre)| < room
    ensures Fitting([first] + rest, prefix, newline, pre, room) ==
            Line(first, prefix, true, pre) + Fitting(rest, true, newline, pre, room - |Line(first, prefix, true, pre)|)
  {
    assert ([first] + rest)[1..] == rest;
  }

  lemma MoreLines(goal: seq<Byte>, out: seq<Byte>, text: seq<Byte>, prefix: bool, newline: bool, pre: seq<Byte>,
      room: nat, i: nat, line: seq<Byte>)
    requires i == FirstNewline(text) < |text| && |pre| + i + 1 < room
    requires goal == out + Fitting(Lines(text), prefix, newline, pre, room)
    requires line == Line(text[..i], prefix, true, pre)
    ensures |line| < room
    ensures goal == (out + line) + Fitting(Lines(text[i + 1..]), true, newline, pre, room - |line|)
  {
    var first, rest := text[..i], Lines(text[i + 1..]);
    assert Lines(text) == [first] + rest;
    FittingCons(first, rest, prefix, newline, pre, room);
    Regroup(goal, out, Fitting(Lines(text), prefix, newline, pre, room), line,
        Fitting(rest, true, newline, pre, room - |line|));
  }

  /** msg_print_text without a buffer: the length of the whole text. */
  method TextLength(r: Record, prev: nat, syslog: bool, time: bool) returns (len: nat)
    requires r.level < 8
    ensures len == |Whole(Lines(r.text), WantsPrefix(r.flags, prev), WantsNewline(r.flags), Prefix(r, syslog, time))|
  {
    var text := r.text;
    var prefix, newline := WantsPrefix(r.flags, prev), WantsNewline(r.flags);
    ghost var pre := Prefix(r, syslog, time);
    PrefixLengthExact(r, syslog, time);
    len := 0;
    while true
      invariant |Whole(Lines(r.text), WantsPrefix(r.flags, prev), newline, pre)| ==
          len + |Whole(Lines(text), prefix, newline, pre)|
      decreases |text|
    {
      var i := FirstNewline(text);
      if i < |text| {
        assert Lines(text)[1..] == Lines(text[i + 1..]);
      } else {
        assert Lines(text)[1..] == [];
      }
      len := len + (if prefix then PrefixLength(r, syslog, time) else 0) + i + if i < |text| || newline then 1 else 0;
      prefix := true;
      if i == |text| {
        return;
      }
      text := text[i + 1..];
    }
  }

  /** What the buffer gets is the whole text, or it is cut before a line that might not fit: the first line that, with a
      prefix and a newline, reaches the end of the buffer. */
  lemma {:induction false} CutOnlyWhenFull(lines: seq<seq<Byte>>, prefix: bool, newline: bool, pre: seq<Byte>,
      room: nat)
    requires |Whole(lines, prefix, newline, pre)| + |pre| + 1 < room
    ensures Fitting(lines, prefix, newline, pre, room) == Whole(lines, prefix, newline, pre)
  {
    if lines != [] {
      var line := Line(lines[0], prefix, |lines| > 1 || newline, pre);
      CutOnlyWhenFull(lines[1..], true, newline, pre, room - |line|);
    }
  }

  /** Clearing the already-shown mark, the lowest flag, changes no rendering. */
  lemma MarkInvisible(r: Record, prev: nat, syslog: bool, time: bool, size: nat, flags: nat, prev': nat)
    requires flags / 2 == r.flags / 2 && prev' / 2 == prev / 2
    ensures Rendered(r.(flags := flags), prev', syslog, time, size) == Rendered(r, prev, syslog, time, size)
  {
    SameHigherFlags(flags, r.flags);
    SameHigherFlags(prev', prev);
  }

  lemma SameHigherFlags(a: nat, b: nat)
    requires a / 2 == b / 2
    ensures EndsLine(a) == EndsLine(b) && StartsPrefix(a) == StartsPrefix(b) && Continues(a) == Continues(b)
  {
    assert a / 4 == a / 2 / 2 && b / 4 == b / 2 / 2;
    assert a / 8 == a / 2 / 4 && b / 8 == b / 2 / 4;
  }
}
