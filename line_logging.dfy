/** LineLogger: a line receiver with delimiter b'\n' that logs every complete line of a
    process's output as "[tag] line". */
module LineLogging {
  import opened Wrappers

  newtype Byte = b: int | 0 <= b < 256

  /** The line delimiter, b'\n'. */
  const NL: Byte := 10

  /** UTF-8 decoding (None when the bytes are not valid UTF-8) and Python's repr of a byte
      string. Neither is implemented here: the logger is handed both. */
  datatype Codec = Codec(decode: seq<Byte> -> Option<string>, escape: seq<Byte> -> string)

  /** The text logged for one line: its decoding, or its escaped form when decoding fails. */
  function LineText(codec: Codec, line: seq<Byte>): string {
    match codec.decode(line)
    case Some(text) => text
    case None => codec.escape(line)
  }

  function Message(tag: string, codec: Codec, line: seq<Byte>): string {
    "[" + tag + "] " + LineText(codec, line)
  }

  function Messages(tag: string, codec: Codec, lines: seq<seq<Byte>>): seq<string> {
    seq(|lines|, i requires 0 <= i < |lines| => Message(tag, codec, lines[i]))
  }

  lemma MessagesAppend(tag: string, codec: Codec, a: seq<seq<Byte>>, b: seq<seq<Byte>>)
    ensures Messages(tag, codec, a + b) == Messages(tag, codec, a) + Messages(tag, codec, b)
  {
  }

  lemma MessagesSnoc(tag: string, codec: Codec, a: seq<seq<Byte>>, line: seq<Byte>)
    ensures Messages(tag, codec, a + [line]) == Messages(tag, codec, a) + [Message(tag, codec, line)]
  {
  }

  /** Every line followed by its delimiter. */
  function JoinLines(lines: seq<seq<Byte>>): seq<Byte> {
    if lines == [] then [] else lines[0] + [NL] + JoinLines(lines[1..])
  }

  lemma {:induction false} JoinAppend(a: seq<seq<Byte>>, b: seq<seq<Byte>>)
    ensures JoinLines(a + b) == JoinLines(a) + JoinLines(b)
  {
    if a == [] {
      assert a + b == b;
    } else {
      assert (a + b)[0] == a[0];
      assert (a + b)[1..] == a[1..] + b;
      JoinAppend(a[1..], b);
    }
  }

  predicate NoDelimiter(lines: seq<seq<Byte>>) {
    forall i :: 0 <= i < |lines| ==> NL !in lines[i]
  }

  /** How a line receiver cuts a byte stream: the complete lines, each without its
      delimiter, and the partial line that stays buffered. */
  function SplitLines(s: seq<Byte>): (seq<seq<Byte>>, seq<Byte>)
    decreases |s|
  {
    match IndexOf(s, NL)
    case None => ([], s)
    case Some(k) =>
      var (lines, rest) := SplitLines(s[k + 1..]);
      ([s[..k]] + lines, rest)
  }

  /** A stream with a delimiter splits into its first line and the split of the rest. */
  lemma SplitFirst(s: seq<Byte>)
    requires IndexOf(s, NL).Some?
    ensures var k := IndexOf(s, NL).value;
      SplitLines(s).0 == [s[..k]] + SplitLines(s[k + 1..]).0
      && SplitLines(s).1 == SplitLines(s[k + 1..]).1
  {
  }

  /** The pieces hold no delimiter, and putting the delimiters back gives the stream. */
  lemma {:induction false} SplitLinesSound(s: seq<Byte>)
    ensures NoDelimiter(SplitLines(s).0) && NL !in SplitLines(s).1
    ensures JoinLines(SplitLines(s).0) + SplitLines(s).1 == s
    decreases |s|
  {
    var r := IndexOf(s, NL);
    if r.Some? {
      var k := r.value;
      var first, tail := s[..k], s[k + 1..];
      SplitLinesSound(tail);
      SplitFirst(s);
      var lines, rest := SplitLines(tail).0, SplitLines(tail).1;
      NoDelimiterAppend([first], lines);
      JoinCons(first, lines);
      SplitAround(s, k);
      AppendAssoc(first + [NL], JoinLines(lines), rest);
    }
  }

  lemma SplitAround(s: seq<Byte>, k: nat)
    requires k < |s|
    ensures s == s[..k] + [s[k]] + s[k + 1..]
  {
  }

  lemma JoinCons(line: seq<Byte>, lines: seq<seq<Byte>>)
    ensures JoinLines([line] + lines) == line + [NL] + JoinLines(lines)
  {
    assert ([line] + lines)[1..] == lines;
  }

  /** Splitting inverts joining: lines without delimiters and a delimiter-free tail are
      exactly what SplitLines recovers. */
  lemma {:induction false} SplitJoin(lines: seq<seq<Byte>>, rest: seq<Byte>)
    requires NoDelimiter(lines) && NL !in rest
    ensures SplitLines(JoinLines(lines) + rest) == (lines, rest)
  {
    var s := JoinLines(lines) + rest;
    if lines == [] {
      assert s == rest;
    } else {
      var tail := JoinLines(lines[1..]) + rest;
      AppendAssoc(lines[0] + [NL], JoinLines(lines[1..]), rest);
      assert s == lines[0] + [NL] + tail;
      IndexOfAfter(lines[0], NL, tail);
      assert s[|lines[0]| + 1..] == tail;
      assert s[..|lines[0]|] == lines[0];
      SplitJoin(lines[1..], rest);
      assert [lines[0]] + lines[1..] == lines;
    }
  }

  lemma SplitOf(s: seq<Byte>, lines: seq<seq<Byte>>, rest: seq<Byte>)
    requires NoDelimiter(lines) && NL !in rest && s == JoinLines(lines) + rest
    ensures SplitLines(s).0 == lines && SplitLines(s).1 == rest
  {
    SplitJoin(lines, rest);
  }

  lemma JoinThrough(s: seq<Byte>, t: seq<Byte>, lines: seq<seq<Byte>>, rest: seq<Byte>,
                    more: seq<seq<Byte>>, rest': seq<Byte>)
    requires s == JoinLines(lines) + rest && rest + t == JoinLines(more) + rest'
    ensures s + t == JoinLines(lines + more) + rest'
  {
    JoinAppend(lines, more);
    calc {
      s + t;
      (JoinLines(lines) + rest) + t;
      JoinLines(lines) + (rest + t);
      JoinLines(lines) + (JoinLines(more) + rest');
      (JoinLines(lines) + JoinLines(more)) + rest';
    }
  }

  lemma NoDelimiterAppend(a: seq<seq<Byte>>, b: seq<seq<Byte>>)
    requires NoDelimiter(a) && NoDelimiter(b)
    ensures NoDelimiter(a + b)
  {
    assert forall i :: 0 <= i < |a + b| ==> (a + b)[i] == if i < |a| then a[i] else b[i - |a|];
  }

  /** Feeding more bytes continues the split where the buffered partial line left off. */
  lemma SplitAppend(s: seq<Byte>, t: seq<Byte>)
    ensures SplitLines(s + t).0 == SplitLines(s).0 + SplitLines(SplitLines(s).1 + t).0
    ensures SplitLines(s + t).1 == SplitLines(SplitLines(s).1 + t).1
  {
    var lines, rest := SplitLines(s).0, SplitLines(s).1;
    var more, rest' := SplitLines(rest + t).0, SplitLines(rest + t).1;
    SplitLinesSound(s);
    SplitLinesSound(rest + t);
    JoinThrough(s, t, lines, rest, more, rest');
    NoDelimiterAppend(lines, more);
    SplitOf(s + t, lines + more, rest');
  }

  /** The stream ends at a line boundary: nothing was received, or the last byte was b'\n'. */
  predicate AtLineBoundary(s: seq<Byte>) {
    |s| == 0 || s[|s| - 1] == NL
  }

  /** Nothing stays buffered exactly when the stream ends at a line boundary. */
  lemma BufferEmptyAtBoundary(s: seq<Byte>)
    ensures SplitLines(s).1 == [] <==> AtLineBoundary(s)
  {
    var (lines, rest) := SplitLines(s);
    SplitLinesSound(s);
    if rest != [] {
      assert s[|s| - 1] == rest[|rest| - 1];
    } else if lines != [] {
      var init, last := lines[..|lines| - 1], lines[|lines| - 1];
      assert lines == init + [last];
      JoinAppend(init, [last]);
      assert JoinLines([last]) == last + [NL];
    }
  }

  /** Every line of the output, counting a trailing partial line as a line. */
  function CompleteLines(s: seq<Byte>): seq<seq<Byte>> {
    var (lines, rest) := SplitLines(s);
    if rest == [] then lines else lines + [rest]
  }

  /** The complete lines account for every byte of the output, and for nothing more than
      a closing delimiter where the output lacked one. */
  lemma CompleteLinesCoverOutput(s: seq<Byte>)
    ensures NoDelimiter(CompleteLines(s))
    ensures JoinLines(CompleteLines(s)) == if AtLineBoundary(s) then s else s + [NL]
  {
    var (lines, rest) := SplitLines(s);
    SplitLinesSound(s);
    BufferEmptyAtBoundary(s);
    if rest != [] {
      JoinAppend(lines, [rest]);
      assert JoinLines([rest]) == rest + [NL];
      assert forall i :: 0 <= i < |lines| + 1 ==>
        (lines + [rest])[i] == if i < |lines| then lines[i] else rest;
    }
  }

  class LineLogger {
    const tag: string
    const codec: Codec
    /** Bytes received after the last delimiter. */
    var buffer: seq<Byte>
    /** What this logger has sent to the log, oldest first. */
    var logged: seq<string>

    constructor (tag: string, codec: Codec)
      ensures this.tag == tag && this.codec == codec
      ensures buffer == [] && logged == []
    {
      this.tag := tag;
      this.codec := codec;
      buffer := [];
      logged := [];
    }

    /** lineReceived: decode the line (falling back to its repr) and log "[tag] text". */
    method LineReceived(line: seq<Byte>)
      modifies this
      ensures logged == old(logged) + [Message(tag, codec, line)]
      ensures buffer == old(buffer)
    {
      var text := match codec.decode(line) case Some(t) => t case None => codec.escape(line);
      logged := logged + ["[" + tag + "] " + text];
    }

    /** dataReceived: buffer the bytes and deliver every complete line, oldest first. */
    method DataReceived(data: seq<Byte>)
      modifies this
      ensures buffer == SplitLines(old(buffer) + data).1
      ensures logged == old(logged) + Messages(tag, codec, SplitLines(old(buffer) + data).0)
    {
      buffer := buffer + data;
      ghost var all := buffer;
      ghost var delivered: seq<seq<Byte>> := [];
      assert delivered + SplitLines(buffer).0 == SplitLines(buffer).0;
      var next := IndexOf(buffer, NL);
      while next.Some?
        invariant next == IndexOf(buffer, NL)
        invariant SplitLines(all) == (delivered + SplitLines(buffer).0, SplitLines(buffer).1)
        invariant logged == old(logged) + Messages(tag, codec, delivered)
        decreases |buffer|
      {
        var line := buffer[..next.value];
        ghost var before := buffer;
        buffer := buffer[next.value + 1..];
        SplitFirst(before);
        AppendAssoc(delivered, [line], SplitLines(buffer).0);
        MessagesSnoc(tag, codec, delivered, line);
        AppendAssoc(old(logged), Messages(tag, codec, delivered), [Message(tag, codec, line)]);
        LineReceived(line);
        delivered := delivered + [line];
        next := IndexOf(buffer, NL);
      }
      assert delivered + [] == delivered;
    }
  }
}
