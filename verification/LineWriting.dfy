/** The writer that turns a stream of bytes into lines for its handlers. */
module LineWriting {
  import opened Basics

  // ---------------------------------------------------------------- lines of a stream

  /** The lines of a text, each with its line feed, and the text after the last line feed. */
  function Chop(text: string): (seq<string>, string)
    decreases |text|
  {
    var i := IndexOf(text, '\n');
    if i == |text| then ([], text) else After([text[..i + 1]], Chop(text[i + 1..]))
  }

  function After(done: seq<string>, chopped: (seq<string>, string)): (seq<string>, string) {
    (done + chopped.0, chopped.1)
  }

  /** With the unterminated text, if any, as the last line. */
  function Lines(text: string): seq<string> {
    Whole(Chop(text))
  }

  function Whole(chopped: (seq<string>, string)): seq<string> {
    if chopped.1 == "" then chopped.0 else chopped.0 + [chopped.1]
  }

  /** A line feed stands only at the end of a line, and every line but the last has one. */
  predicate IsLineSplit(lines: seq<string>) {
    forall i | 0 <= i < |lines| ::
      && lines[i] != "" && '\n' !in lines[i][..|lines[i]| - 1]
      && (i < |lines| - 1 ==> lines[i][|lines[i]| - 1] == '\n')
  }

  lemma {:induction false} LinesPartition(text: string)
    ensures Flatten(Lines(text)) == text
    decreases |text|
  {
    var i := IndexOf(text, '\n');
    if i < |text| {
      LinesStep(text);
      LinesPartition(text[i + 1..]);
      assert text == text[..i + 1] + text[i + 1..];
    } else if text != "" {
      assert Flatten([text]) == text + Flatten([]);
    }
  }

  lemma LinesStep(text: string)
    requires IndexOf(text, '\n') < |text|
    ensures var i := IndexOf(text, '\n'); Lines(text) == [text[..i + 1]] + Lines(text[i + 1..])
  {
    hide IndexOf, Whole, After, Chop;
    var i := IndexOf(text, '\n');
    ChopAt(text, i);
    WholeAfter([text[..i + 1]], Chop(text[i + 1..]));
  }

  lemma WholeAfter(done: seq<string>, chopped: (seq<string>, string))
    ensures Whole(After(done, chopped)) == done + Whole(chopped)
  {
    ConcatAssociative(done, chopped.0, [chopped.1]);
  }

  lemma {:induction false} LinesAreSplit(text: string)
    ensures IsLineSplit(Lines(text))
    decreases |text|
  {
    var i := IndexOf(text, '\n');
    if i < |text| {
      LinesStep(text);
      LinesAreSplit(text[i + 1..]);
      assert text[..i + 1][..i] == text[..i];
      LineThenLines(text[..i + 1], Lines(text[i + 1..]));
    } else if text != "" {
      assert text[..|text| - 1] + [text[|text| - 1]] == text;
    }
  }

  lemma LineThenLines(line: string, lines: seq<string>)
    requires IsLineSplit(lines)
    requires line != "" && '\n' !in line[..|line| - 1] && line[|line| - 1] == '\n'
    ensures IsLineSplit([line] + lines)
  {
    assert forall i | 0 < i < |lines| + 1 :: ([line] + lines)[i] == lines[i - 1];
  }

  /** The split of a text into lines is unique. */
  lemma {:induction false} SplitIsLines(lines: seq<string>)
    requires IsLineSplit(lines)
    ensures Lines(Flatten(lines)) == lines
    decreases |lines|
  {
    if lines != [] {
      var line, text := lines[0], Flatten(lines);
      SplitTail(lines);
      SplitIsLines(lines[1..]);
      if line[|line| - 1] == '\n' {
        assert forall k | 0 <= k < |line| - 1 :: text[k] == line[..|line| - 1][k];
        IndexIs(text, |line| - 1);
        LinesStep(text);
      } else {
        assert lines[1..] == [];
        assert text == line == line[..|line| - 1] + [line[|line| - 1]];
        assert IndexOf(text, '\n') == |text|;
        assert lines == [line];
      }
    }
  }

  lemma SplitTail(lines: seq<string>)
    requires lines != [] && IsLineSplit(lines)
    ensures IsLineSplit(lines[1..])
  {
    assert forall i | 0 <= i < |lines[1..]| :: lines[1..][i] == lines[i + 1];
  }

  lemma IndexIs(text: string, i: nat)
    requires i < |text| && text[i] == '\n' && forall k | 0 <= k < i :: text[k] != '\n'
    ensures IndexOf(text, '\n') == i
  {
  }

  lemma ConcatSlices(a: string, b: string, k: nat)
    requires k <= |a|
    ensures (a + b)[..k] == a[..k] && (a + b)[k..] == a[k..] + b
  {
  }

  lemma AfterAfter(x: seq<string>, y: seq<string>, chopped: (seq<string>, string))
    ensures After(x, After(y, chopped)) == After(x + y, chopped)
  {
    ConcatAssociative(x, y, chopped.0);
  }

  lemma ChopAt(text: string, i: nat)
    requires i < |text| && text[i] == '\n' && forall k | 0 <= k < i :: text[k] != '\n'
    ensures Chop(text) == After([text[..i + 1]], Chop(text[i + 1..]))
  {
    hide After;
    IndexIs(text, i);
  }

  /** A text cut anywhere has the first part's lines, then those of what it leaves and the second. */
  lemma {:induction false} ChopAppend(a: string, b: string)
    ensures Chop(a + b) == After(Chop(a).0, Chop(Chop(a).1 + b))
    decreases |a|
  {
    var i := IndexOf(a, '\n');
    if i < |a| {
      hide Chop, After;
      assert forall k | 0 <= k < i :: (a + b)[k] == a[k];
      ConcatSlices(a, b, i + 1);
      ChopAt(a + b, i);
      ChopAt(a, i);
      ChopAppend(a[i + 1..], b);
      var rest := Chop(a[i + 1..]);
      AfterParts([a[..i + 1]], rest);
      AfterAfter([a[..i + 1]], rest.0, Chop(rest.1 + b));
    } else {
      AfterNone(Chop(a + b));
    }
  }

  lemma AfterParts(done: seq<string>, chopped: (seq<string>, string))
    ensures After(done, chopped).0 == done + chopped.0 && After(done, chopped).1 == chopped.1
  {
  }

  lemma AfterNone(chopped: (seq<string>, string))
    ensures After([], chopped) == chopped
  {
    assert [] + chopped.0 == chopped.0;
  }

  // ---------------------------------------------------------------- handlers

  /** A handler changes the state and says whether the handlers after it see the line. */
  type Handler<!S> = (S, string) -> (S, bool)

  function HandleLine<S>(handlers: seq<Handler<S>>, state: S, line: string): S
    decreases |handlers|
  {
    if handlers == [] then state else
      var (next, ok) := handlers[0](state, line);
      if ok then HandleLine(handlers[1..], next, line) else next
  }

  function HandleLines<S>(handlers: seq<Handler<S>>, state: S, lines: seq<string>): S
    decreases |lines|
  {
    if lines == [] then state else HandleLines(handlers, HandleLine(handlers, state, lines[0]), lines[1..])
  }

  lemma {:induction false} HandleAppend<S>(handlers: seq<Handler<S>>, state: S, xs: seq<string>, ys: seq<string>)
    ensures HandleLines(handlers, state, xs + ys) == HandleLines(handlers, HandleLines(handlers, state, xs), ys)
    decreases |xs|
  {
    if xs == [] {
      assert xs + ys == ys;
    } else {
      assert (xs + ys)[1..] == xs[1..] + ys;
      HandleAppend(handlers, HandleLine(handlers, state, xs[0]), xs[1..], ys);
    }
  }

  // ---------------------------------------------------------------- the writer

  /** The writer. Its state is what its handlers have made of the lines so far. */
  class LineWriter<S> {
    const handlers: seq<Handler<S>>
    var state: S
    var buffer: string

    ghost predicate Valid() reads this {
      '\n' !in buffer
    }

    constructor (handlers: seq<Handler<S>>, state: S)
      ensures Valid() && buffer == "" && this.state == state && this.handlers == handlers
    {
      this.handlers, this.state, this.buffer := handlers, state, "";
    }

    method Handle(line: string)
      modifies this`state
      ensures state == HandleLine(handlers, old(state), line)
    {
      var i, ok := 0, true;
      while i < |handlers| && ok
        invariant i <= |handlers|
        invariant HandleLine(handlers, old(state), line) ==
                  if ok then HandleLine(handlers[i..], state, line) else state
      {
        var (next, more) := handlers[i](state, line);
        assert handlers[i..][1..] == handlers[i + 1..];
        state, ok := next, more;
        i := i + 1;
      }
    }

    /** Every byte is taken: the complete lines are handled, the rest is buffered. */
    method Write(p: string) returns (n: nat)
      requires Valid()
      modifies this
      ensures Valid() && n == |p|
      ensures state == HandleLines(handlers, old(state), Chop(old(buffer) + p).0)
      ensures buffer == Chop(old(buffer) + p).1
    {
      hide Chop, HandleLines, IndexOf, HandleLine;
      n := 0;
      assert buffer + p[0..] == buffer + p;
      while true
        invariant n <= |p| && Valid()
        invariant HandleLines(handlers, old(state), Chop(old(buffer) + p).0) ==
                  HandleLines(handlers, state, Chop(buffer + p[n..]).0)
        invariant Chop(old(buffer) + p).1 == Chop(buffer + p[n..]).1
        decreases |p| - n
      {
        var unread := p[n..];
        var i := IndexOf(unread, '\n');
        if i == |unread| {
          buffer := buffer + unread;
          n := n + i;
          ChopWhole(buffer);
          HandleNone(handlers, state);
          break;
        }
        ChopLine(buffer, unread);
        HandleFirst(handlers, state, buffer + unread[..i + 1], Chop(unread[i + 1..]).0);
        buffer := buffer + unread[..i + 1];
        n := n + i + 1;
        Handle(buffer);
        buffer := "";
        assert unread[i + 1..] == p[n..] == buffer + p[n..];
      }
    }

    /** What is buffered is handled as a last line; with nothing buffered nothing happens. */
    method Flush()
      requires Valid()
      modifies this
      ensures Valid() && buffer == ""
      ensures state == if old(buffer) == "" then old(state) else HandleLine(handlers, old(state), old(buffer))
    {
      if |buffer| == 0 {
        return;
      }
      Handle(buffer);
      buffer := "";
    }
  }

  lemma HandleNone<S>(handlers: seq<Handler<S>>, state: S)
    ensures HandleLines(handlers, state, []) == state
  {
  }

  lemma HandleFirst<S>(handlers: seq<Handler<S>>, state: S, line: string, rest: seq<string>)
    ensures HandleLines(handlers, state, [line] + rest) ==
            HandleLines(handlers, HandleLine(handlers, state, line), rest)
  {
    assert ([line] + rest)[1..] == rest;
  }

  lemma ChopWhole(text: string)
    requires '\n' !in text
    ensures Chop(text) == ([], text)
  {
    assert IndexOf(text, '\n') == |text|;
  }

  /** The buffered text and the next piece of input up to its line feed are one line. */
  lemma ChopLine(buffer: string, unread: string)
    requires '\n' !in buffer && IndexOf(unread, '\n') < |unread|
    ensures var i := IndexOf(unread, '\n');
            var rest := Chop(unread[i + 1..]);
            Chop(buffer + unread) == ([buffer + unread[..i + 1]] + rest.0, rest.1)
  {
    hide Chop, IndexOf, After;
    var i, text := IndexOf(unread, '\n'), buffer + unread;
    SlicesAfter(buffer, unread, i + 1);
    ChopAt(text, |buffer| + i);
    AfterParts([buffer + unread[..i + 1]], Chop(unread[i + 1..]));
  }

  lemma SlicesAfter(a: string, b: string, k: nat)
    requires k <= |b|
    ensures (a + b)[..|a| + k] == a + b[..k] && (a + b)[|a| + k..] == b[k..]
  {
  }

  /** A stream copied in any chunks and flushed: the handlers see the lines of its bytes. */
  method CopyAndFlush<S>(w: LineWriter<S>, chunks: seq<string>)
    requires w.Valid()
    modifies w
    ensures w.Valid() && w.buffer == ""
    ensures w.state == HandleLines(w.handlers, old(w.state), Lines(old(w.buffer) + Flatten(chunks)))
  {
    ghost var start := w.buffer;
    var i := 0;
    ghost var done := [];
    assert chunks[0..] == chunks;
    AfterNone(Chop(start + Flatten(chunks)));
    while i < |chunks|
      invariant i <= |chunks| && w.Valid()
      invariant w.state == HandleLines(w.handlers, old(w.state), done)
      invariant Chop(start + Flatten(chunks)) == After(done, Chop(w.buffer + Flatten(chunks[i..])))
    {
      ghost var before, rest := w.buffer, Flatten(chunks[i + 1..]);
      assert chunks[i..][0] == chunks[i] && chunks[i..][1..] == chunks[i + 1..];
      assert before + Flatten(chunks[i..]) == (before + chunks[i]) + rest;
      ChopAppend(before + chunks[i], rest);
      var n := w.Write(chunks[i]);
      ghost var lines := Chop(before + chunks[i]).0;
      HandleAppend(w.handlers, old(w.state), done, lines);
      ConcatAssociative(done, lines, Chop(w.buffer + rest).0);
      done := done + lines;
      i := i + 1;
    }
    assert w.buffer + Flatten([]) == w.buffer;
    ChopWhole(w.buffer);
    assert done + [] == done;
    assert Chop(start + Flatten(chunks)) == (done, w.buffer);
    HandleAppend(w.handlers, old(w.state), done, [w.buffer]);
    w.Flush();
  }
}
