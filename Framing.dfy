/**
 * The client's receive loop (`listen_to_server`): bytes arrive in chunks of
 * any size, are appended to a buffer, and every complete line, up to a
 * newline, is cut off the front of the buffer; a line that is not blank is
 * stripped and handed to the JSON parser. The server ends every message with
 * a newline, so lines are messages.
 */
module Framing {
  import opened Wrappers
  import opened Text

  /** Where `buffer.split('\n', 1)` splits: the first newline. */
  function FirstNewline(s: string): (k: nat)
    requires '\n' in s
    ensures k < |s| && s[k] == '\n' && '\n' !in s[..k]
  {
    if s[0] == '\n' then 0
    else
      assert s == [s[0]] + s[1..];
      var k := 1 + FirstNewline(s[1..]);
      assert s[..k] == [s[0]] + s[1..][..k - 1];
      k
  }

  /** Each line followed by its newline: what the server writes for a
      sequence of messages. */
  function Join(lines: seq<string>): string {
    if lines == [] then [] else lines[0] + "\n" + Join(lines[1..])
  }

  /** The complete lines at the front of `s`, and the unfinished remainder. */
  function Frame(s: string): (seq<string>, string)
    decreases |s|
  {
    if '\n' !in s then ([], s)
    else
      var k := FirstNewline(s);
      var (lines, rest) := Frame(s[k + 1..]);
      ([s[..k]] + lines, rest)
  }

  /** What one line hands to the parser: nothing when it is blank, else its
      strip. */
  function Kept(line: string): seq<string> {
    if Strip(line) == [] then [] else [Strip(line)]
  }

  /** The texts handed to the parser: each line that is not blank, stripped. */
  function Handed(lines: seq<string>): seq<string> {
    if lines == [] then [] else Kept(lines[0]) + Handed(lines[1..])
  }

  /** The chunks, one after the other. */
  function Concat(chunks: seq<string>): string {
    if chunks == [] then [] else Concat(chunks[..|chunks| - 1]) + chunks[|chunks| - 1]
  }

  /** The first empty chunk, where the receive loop stops (`if not data:
      break`), or the number of chunks if none is empty. */
  function Received(chunks: seq<string>): (n: nat)
    ensures n <= |chunks| && (n < |chunks| ==> chunks[n] == [])
    ensures forall j :: 0 <= j < n ==> chunks[j] != []
  {
    if chunks == [] || chunks[0] == [] then 0 else 1 + Received(chunks[1..])
  }

  lemma JoinCons(line: string, lines: seq<string>)
    ensures Join([line] + lines) == line + "\n" + Join(lines)
  {
    assert ([line] + lines)[0] == line;
    assert ([line] + lines)[1..] == lines;
  }

  /** A string is its part before position `k`, the newline at `k`, and the
      part after. */
  lemma SplitAt(s: string, k: nat)
    requires k < |s| && s[k] == '\n'
    ensures s[..k] + "\n" + s[k + 1..] == s
  {
  }

  /** Framing cuts `s` into newline-free lines and a newline-free remainder
      that put back together give `s`. */
  lemma {:induction false} FrameSpec(s: string)
    ensures Join(Frame(s).0) + Frame(s).1 == s
    ensures forall l :: l in Frame(s).0 ==> '\n' !in l
    ensures '\n' !in Frame(s).1
  {
    if '\n' in s {
      var k := FirstNewline(s);
      var line, after := s[..k], s[k + 1..];
      FrameSpec(after);
      var lines, rest := Frame(after).0, Frame(after).1;
      FrameStep(s);
      assert Frame(s) == ([line] + lines, rest);
      JoinCons(line, lines);
      Assoc(line + "\n", Join(lines), rest);
      SplitAt(s, k);
      assert forall l :: l in [line] + lines ==> l == line || l in lines;
    }
  }

  /** The line that `Join` puts first is where the first newline is found. */
  lemma FirstNewlineOfJoin(line: string, tail: string)
    requires '\n' !in line
    ensures '\n' in line + "\n" + tail
    ensures FirstNewline(line + "\n" + tail) == |line|
    ensures (line + "\n" + tail)[..|line|] == line && (line + "\n" + tail)[|line| + 1..] == tail
  {
    var s := line + "\n" + tail;
    assert s[|line|] == '\n';
  }

  /** Framing undoes joining: a stream made of newline-free lines followed by
      more text frames into those lines, then the framing of the rest. */
  lemma {:induction false} FrameJoin(lines: seq<string>, rest: string)
    requires forall l :: l in lines ==> '\n' !in l
    ensures Frame(Join(lines) + rest) == (lines + Frame(rest).0, Frame(rest).1)
  {
    if lines == [] {
      assert Join(lines) + rest == rest;
      assert lines + Frame(rest).0 == Frame(rest).0;
    } else {
      var l, others := lines[0], lines[1..];
      assert lines == [l] + others;
      var tail := Join(others) + rest;
      var s := Join(lines) + rest;
      JoinCons(l, others);
      Assoc(l + "\n", Join(others), rest);
      assert s == l + "\n" + tail;
      assert l in lines;
      FirstNewlineOfJoin(l, tail);
      assert forall m :: m in others ==> m in lines;
      FrameJoin(others, rest);
      FrameStep(s);
      Assoc([l], others, Frame(rest).0);
    }
  }

  /** One step of framing: the first line, then the framing of what follows
      its newline. */
  lemma FrameStep(s: string)
    requires '\n' in s
    ensures var k := FirstNewline(s);
      Frame(s) == ([s[..k]] + Frame(s[k + 1..]).0, Frame(s[k + 1..]).1)
  {
  }

  lemma {:induction false} HandedAppend(a: seq<string>, b: seq<string>)
    ensures Handed(a + b) == Handed(a) + Handed(b)
  {
    if a == [] {
      assert a + b == b;
    } else {
      HandedAppend(a[1..], b);
      assert (a + b)[1..] == a[1..] + b;
      calc {
        Handed(a + b);
        Kept(a[0]) + Handed(a[1..] + b);
        Kept(a[0]) + (Handed(a[1..]) + Handed(b));
        { Assoc(Kept(a[0]), Handed(a[1..]), Handed(b)); }
        (Kept(a[0]) + Handed(a[1..])) + Handed(b);
      }
    }
  }

  /** Exactly the lines that are not blank are handed on, stripped: every
      handed text is the non-empty strip of a line, and every line that is
      not all whitespace is handed on. */
  lemma {:induction false} HandedSpec(lines: seq<string>)
    ensures forall h :: h in Handed(lines) ==> h != [] && Strip(h) == h && exists l :: l in lines && h == Strip(l)
    ensures forall l :: l in lines && !AllSpace(l) ==> Strip(l) in Handed(lines)
  {
    if lines != [] {
      HandedSpec(lines[1..]);
      StripIdempotent(lines[0]);
      StripEmptyIff(lines[0]);
      assert lines == [lines[0]] + lines[1..];
      forall h | h in Handed(lines)
        ensures exists l :: l in lines && h == Strip(l)
      {
        if h !in Handed(lines[1..]) {
          assert h == Strip(lines[0]) && lines[0] in lines;
        }
      }
    }
  }

  /** Messages written by the server (non-empty, newline-free and without
      surrounding whitespace, as `json.dumps` gives them) reach the parser
      one by one, in order, however the stream is chunked, and nothing is
      left over. */
  lemma ReceivesWhatWasSent(msgs: seq<string>)
    requires forall m :: m in msgs ==> m != [] && '\n' !in m && Strip(m) == m
    ensures Handed(Frame(Join(msgs)).0) == msgs && Frame(Join(msgs)).1 == []
  {
    FrameJoin(msgs, []);
    assert Join(msgs) + [] == Join(msgs);
    assert Frame([]) == ([], []);
    assert msgs + [] == msgs;
    SentHanded(msgs);
  }

  lemma {:induction false} SentHanded(msgs: seq<string>)
    requires forall m :: m in msgs ==> m != [] && Strip(m) == m
    ensures Handed(msgs) == msgs
  {
    if msgs != [] {
      assert msgs[0] in msgs;
      assert forall m :: m in msgs[1..] ==> m in msgs;
      SentHanded(msgs[1..]);
    }
  }

  /** The inner loop of `listen_to_server`: while the buffer holds a
      newline, cut off the first line and hand it on unless it is blank. */
  method SplitLines(buffer: string) returns (handed: seq<string>, rest: string)
    ensures handed == Handed(Frame(buffer).0) && rest == Frame(buffer).1
  {
    handed := [];
    rest := buffer;
    while '\n' in rest
      invariant Handed(Frame(buffer).0) == handed + Handed(Frame(rest).0)
      invariant Frame(buffer).1 == Frame(rest).1
      decreases |rest|
    {
      var k := FirstNewline(rest);
      var line := rest[..k];
      var next := rest[k + 1..];
      FrameStep(rest);
      assert ([line] + Frame(next).0)[1..] == Frame(next).0;
      assert Handed(Frame(rest).0) == Kept(line) + Handed(Frame(next).0);
      Assoc(handed, Kept(line), Handed(Frame(next).0));
      var text := Strip(line);
      if text != [] {
        handed := handed + [text];
      } else {
        assert handed + Kept(line) == handed;
      }
      rest := next;
    }
  }

  /** `listen_to_server` when it ends at its `if not data: break` exit
      (its other exits are not modelled): the chunks are received until the
      first empty one;
      what is handed on, and what stays in the buffer, depend only on the
      bytes received, not on how they were chunked. */
  method Listen(chunks: seq<string>) returns (handed: seq<string>, buffer: string)
    ensures var stream := Concat(chunks[..Received(chunks)]);
      handed == Handed(Frame(stream).0) && buffer == Frame(stream).1
  {
    handed := [];
    buffer := [];
    var i := 0;
    assert chunks[..0] == [];
    while i < |chunks|
      invariant 0 <= i <= Received(chunks)
      invariant handed == Handed(Frame(Concat(chunks[..i])).0)
      invariant buffer == Frame(Concat(chunks[..i])).1
      decreases |chunks| - i
    {
      var data := chunks[i];
      if data == [] {
        break;
      }
      var stream := Concat(chunks[..i]);
      var lines := Frame(stream).0;
      FrameSpec(stream);
      assert chunks[..i + 1][..i] == chunks[..i];
      assert Concat(chunks[..i + 1]) == stream + data;
      Assoc(Join(lines), buffer, data);
      FrameJoin(lines, buffer + data);
      var more, left := SplitLines(buffer + data);
      HandedAppend(lines, Frame(buffer + data).0);
      handed := handed + more;
      buffer := left;
      i := i + 1;
    }
  }
}
