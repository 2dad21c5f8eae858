/**
  The server-sent-event stream between hub and edges: the printer of
  internal/hub/stream.go and the two readers, internal/proxy/snapshot.go and
  internal/door/snapshot.go (section 9.2.6 of the WHATWG HTML Living Standard).

  JSON is a codec parameter. A buffered reader hands out lines until only an
  unterminated leftover remains; what it has not handed out yet is the `rest`
  of an outcome, and a later call on the same reader starts there. The leftover
  counts only when the stream ends with io.EOF.
 */
module Sse {

  datatype Option<+T> = None | Some(value: T)

  /** The JSON encoding of an event, its SSE type, and the event made of a frame that is not JSON. */
  datatype Codec<!E> = Codec(
    marshal: E -> string,
    unmarshal: string -> Option<E>,
    eventType: E -> string,
    synthesize: (string, string) -> E)

  const NL: char := '\n'

  // ------------------------------------------------------------------
  // The printer.

  function EventLine<E>(c: Codec<E>, ev: E): string { "event: " + c.eventType(ev) }
  function DataLine<E>(c: Codec<E>, ev: E): string { "data: " + c.marshal(ev) }

  function Frame<E>(c: Codec<E>, ev: E): string {
    EventLine(c, ev) + [NL] + DataLine(c, ev) + [NL] + [NL]
  }

  const KEEPALIVE: string := ": keepalive" + [NL] + [NL]

  datatype Item<+E> = Send(ev: E) | Keepalive

  function Print<E>(c: Codec<E>, items: seq<Item<E>>): string {
    if items == [] then "" else PrintItem(c, items[0]) + Print(c, items[1..])
  }

  function Sent<E>(items: seq<Item<E>>): seq<E> {
    if items == [] then [] else SentItem(items[0]) + Sent(items[1..])
  }

  /** A payload that stays on its data line, and that reads back as the event. */
  ghost predicate Printable<E>(c: Codec<E>, ev: E) {
    var p := c.marshal(ev);
    && p != "" && NL !in p && p[|p| - 1] != '\r'
    && NL !in c.eventType(ev)
    && c.unmarshal(p) == Some(ev)
  }

  ghost predicate AllPrintable<E>(c: Codec<E>, items: seq<Item<E>>) {
    forall i | 0 <= i < |items| && items[i].Send? :: Printable(c, items[i].ev)
  }

  // ------------------------------------------------------------------
  // One line.

  /** The first position of x in s, or |s|. */
  function IndexOf(s: string, x: char): (i: nat)
    ensures i <= |s| && x !in s[..i] && (i < |s| ==> s[i] == x)
  {
    if s == "" || s[0] == x then 0 else 1 + IndexOf(s[1..], x)
  }

  lemma {:induction false} IndexOfFirst(a: string, x: char, b: string)
    requires x !in a
    ensures IndexOf(a + [x] + b, x) == |a|
    decreases a
  {
    if a != "" {
      assert (a + [x] + b)[1..] == a[1..] + [x] + b;
      IndexOfFirst(a[1..], x, b);
    }
  }

  function TrimRight(line: string): string {
    if line != "" && (line[|line| - 1] == '\r' || line[|line| - 1] == '\n') then TrimRight(line[..|line| - 1])
    else line
  }

  function TrimSpaceOnce(val: string): string {
    if val != "" && val[0] == ' ' then val[1..] else val
  }

  /** The fields of the frame being read. */
  datatype Fields = Fields(evType: string, data: string)

  const FRESH := Fields("", "")

  function HandleLine(f: Fields, line: string): Fields {
    if line != "" && line[0] == ':' then f
    else
      var i := IndexOf(line, ':');
      if i == |line| then f
      else
        var key, val := line[..i], TrimSpaceOnce(line[i + 1..]);
        if key == "event" then f.(evType := val)
        else if key == "data" then f.(data := (if f.data != "" then f.data + [NL] else "") + val)
        else f
  }

  /** The event that the end of a frame emits, if any. */
  function Flush<E>(c: Codec<E>, f: Fields): seq<E> {
    if f.data == "" then []
    else
      match c.unmarshal(f.data)
      case Some(ev) => [ev]
      case None => if f.evType != "" then [c.synthesize(f.evType, f.data)] else []
  }

  lemma {:induction false} HandleEventLine(f: Fields, t: string)
    ensures HandleLine(f, "event: " + t) == f.(evType := t)
  {
    var line := "event: " + t;
    assert line == "event" + [':'] + (" " + t);
    IndexOfFirst("event", ':', " " + t);
    assert line[..5] == "event" && line[6..] == " " + t;
  }

  lemma {:induction false} HandleDataLine(f: Fields, p: string)
    requires f.data == ""
    ensures HandleLine(f, "data: " + p) == f.(data := p)
  {
    var line := "data: " + p;
    assert line == "data" + [':'] + (" " + p);
    IndexOfFirst("data", ':', " " + p);
    assert line[..4] == "data" && line[5..] == " " + p;
  }

  /**
    The rules for a line: one that starts with a colon is a comment, one without
    a colon says nothing; event and data take what follows the colon, less one
    blank; a second data line is joined to the first; other names are ignored.
   */
  lemma {:induction false} LineRules(f: Fields, name: string, v: string)
    requires ':' !in name && (v == "" || v[0] != ' ')
    ensures HandleLine(f, ":" + v) == f && HandleLine(f, name) == f
    ensures HandleLine(f, name + ":" + v) == HandleLine(f, name + ": " + v)
    ensures HandleLine(f, name + ":" + v) ==
              if name == "event" then Fields(v, f.data)
              else if name == "data" then Fields(f.evType, if f.data == "" then v else f.data + "\n" + v)
              else f
  {
    NoColon(name);
    FieldLine(f, name, v);
    FieldLine(f, name, " " + v);
    assert name + ": " + v == name + ":" + (" " + v);
    assert (" " + v)[1..] == v;
  }

  lemma {:induction false} NoColon(name: string)
    requires ':' !in name
    ensures IndexOf(name, ':') == |name|
  {}

  lemma {:induction false} FieldLine(f: Fields, name: string, after: string)
    requires ':' !in name
    ensures HandleLine(f, name + ":" + after) ==
              if name == "" then f
              else if name == "event" then f.(evType := TrimSpaceOnce(after))
              else if name == "data"
              then f.(data := (if f.data != "" then f.data + [NL] else "") + TrimSpaceOnce(after))
              else f
  {
    var line := name + ":" + after;
    assert line == name + [':'] + after;
    IndexOfFirst(name, ':', after);
    assert line[..|name|] == name && line[|name| + 1..] == after;
  }

  /** Data that is an event becomes that event; other data becomes one of the named type, or nothing without a name. */
  lemma {:induction false} FlushRules<E>(c: Codec<E>, evType: string, data: string)
    ensures Flush(c, Fields(evType, data)) ==
              if data == "" then []
              else if c.unmarshal(data).Some? then [c.unmarshal(data).value]
              else if evType == "" then [] else [c.synthesize(evType, data)]
  {}

  lemma {:induction false} TrimRightLine(a: string, t: string)
    requires a != "" && a[|a| - 1] == ' '
    ensures TrimRight(a + t) == a + TrimRight(t)
    decreases t
  {
    if t == "" {
      assert a + t == a;
    } else if t[|t| - 1] == '\r' || t[|t| - 1] == '\n' {
      assert (a + t)[..|a + t| - 1] == a + t[..|t| - 1];
      TrimRightLine(a, t[..|t| - 1]);
    }
  }

  // ------------------------------------------------------------------
  // The stream, for any treatment of its lines.

  datatype Stepped<+E> = Stepped(fields: Fields, out: seq<E>)

  /** What a reader does with a complete line, and with what is left at the end of the stream. */
  datatype LineReader<!E> = LineReader(
    step: (Fields, string) -> Stepped<E>,
    finish: (Fields, string) -> seq<E>)

  /** A reader that emits starts over with fresh fields. */
  ghost predicate StartsOver<E>(r: LineReader<E>) {
    forall f, line :: r.step(f, line).out != [] ==> r.step(f, line).fields == FRESH
  }

  /**
    What ReadString still has to hand out: lines, then the text after the last
    newline, with io.EOF or another error. Or the context is found done first.
   */
  datatype Stream = End(leftover: string) | Broken(leftover: string) | Cancelled | Line(line: string, rest: Stream)

  function ToStream(text: string): Stream
    decreases |text|
  {
    var i := IndexOf(text, NL);
    if i == |text| then End(text) else Line(text[..i], ToStream(text[i + 1..]))
  }

  lemma {:induction false} ToStreamLine(line: string, rest: string)
    requires NL !in line
    ensures ToStream(line + [NL] + rest) == Line(line, ToStream(rest))
  {
    var text := line + [NL] + rest;
    IndexOfFirst(line, NL, rest);
    assert text[..|line|] == line && text[|line| + 1..] == rest;
  }

  /** How a stream comes to its end. */
  datatype Ending = Clean | Failed | Cancel

  /** The same lines with this ending. */
  function Ends(s: Stream, k: Ending): Stream {
    match s
    case Line(line, rest) => Line(line, Ends(rest, k))
    case Cancelled => Cancelled
    case _ => match k case Clean => End(s.leftover) case Failed => Broken(s.leftover) case Cancel => Cancelled
  }

  /** Why a reader returned. */
  datatype Why = Enough | AtEnd | OnError | OnCancel

  datatype Outcome<+E> = Outcome(events: seq<E>, rest: Stream, why: Why)

  function Before<E>(out: seq<E>, o: Outcome<E>): Outcome<E> { Outcome(out + o.events, o.rest, o.why) }

  /** Reading stops when stopAfter is not negative and that many events have been emitted. */
  predicate Done(emitted: nat, stopAfter: int) { 0 <= stopAfter <= emitted }

  /** What the stream's end adds, and why the reader returns. */
  function Finished<E>(r: LineReader<E>, end: Stream, f: Fields): Outcome<E>
    requires !end.Line?
  {
    match end
    case End(leftover) => Outcome(if leftover != "" then r.finish(f, leftover) else [], End(""), AtEnd)
    case Broken(_) => Outcome([], Broken(""), OnError)
    case Cancelled => Outcome([], Cancelled, OnCancel)
  }

  function ReadFrom<E>(r: LineReader<E>, s: Stream, f: Fields, emitted: nat, stopAfter: int): Outcome<E> {
    if !s.Line? then Finished(r, s, f)
    else
      var st := r.step(f, s.line);
      if st.out != [] && Done(emitted + |st.out|, stopAfter) then Outcome(st.out, s.rest, Enough)
      else Before(st.out, ReadFrom(r, s.rest, st.fields, emitted + |st.out|, stopAfter))
  }

  /** Everything a reader gets out of a stream. */
  function ReadAll<E>(r: LineReader<E>, s: Stream): seq<E> {
    ReadFrom(r, s, FRESH, 0, -1).events
  }

  /** Without a stop count, the number already emitted makes no difference. */
  lemma {:induction false} EmittedIrrelevant<E>(r: LineReader<E>, s: Stream, f: Fields, m: nat, n: nat)
    ensures ReadFrom(r, s, f, m, -1) == ReadFrom(r, s, f, n, -1)
    decreases s
  {
    if s.Line? {
      var st := r.step(f, s.line);
      EmittedIrrelevant(r, s.rest, st.fields, m + |st.out|, n + |st.out|);
    }
  }

  /** Stopping after any number of events and resuming on the same reader loses and repeats nothing. */
  lemma {:induction false} StopAndResume<E>(r: LineReader<E>, s: Stream, f: Fields, emitted: nat, stopAfter: int)
    requires StartsOver(r)
    ensures var o := ReadFrom(r, s, f, emitted, stopAfter);
            ReadFrom(r, s, f, emitted, -1).events == o.events + ReadAll(r, o.rest)
    decreases s
  {
    if s.Line? {
      var st := r.step(f, s.line);
      if st.out != [] && Done(emitted + |st.out|, stopAfter) {
        EmittedIrrelevant(r, s.rest, FRESH, emitted + |st.out|, 0);
      } else {
        StopAndResume(r, s.rest, st.fields, emitted + |st.out|, stopAfter);
      }
    }
  }

  predicate LineBoundary(text: string) { text == "" || text[|text| - 1] == NL }

  /** s with more text after its last newline. */
  function Attach(s: Stream, more: Stream): Stream {
    match s case Line(line, rest) => Line(line, Attach(rest, more)) case _ => more
  }

  lemma {:induction false} FirstLine(head: string) returns (line: string, rest: string)
    requires LineBoundary(head) && head != ""
    ensures head == line + [NL] + rest && NL !in line && LineBoundary(rest)
  {
    var i := IndexOf(head, NL);
    assert i < |head|;
    line, rest := head[..i], head[i + 1..];
  }

  lemma {:induction false} ToStreamAttach(head: string, tail: string)
    requires LineBoundary(head)
    ensures ToStream(head + tail) == Attach(ToStream(head), ToStream(tail))
    ensures EndsClean(ToStream(head))
    decreases |head|
  {
    if head == "" {
      assert head + tail == tail;
    } else {
      var line, rest := FirstLine(head);
      assert head + tail == line + [NL] + (rest + tail);
      ToStreamLine(line, rest);
      ToStreamLine(line, rest + tail);
      ToStreamAttach(rest, tail);
    }
  }

  predicate EndsClean(s: Stream) {
    match s case Line(_, rest) => EndsClean(rest) case Cancelled => true case _ => s.leftover == ""
  }

  lemma {:induction false} AttachYieldsMore<E>(r: LineReader<E>, s: Stream, more: Stream, f: Fields, emitted: nat)
    requires EndsClean(s)
    ensures ReadFrom(r, s, f, emitted, -1).events <= ReadFrom(r, Attach(s, more), f, emitted, -1).events
    decreases s
  {
    if s.Line? {
      var st := r.step(f, s.line);
      AttachYieldsMore(r, s.rest, more, st.fields, emitted + |st.out|);
    }
  }

  lemma {:induction false} AttachEnds(s: Stream, more: Stream, k: Ending)
    requires EndsClean(s)
    ensures Attach(Ends(s, k), more) == Attach(s, more) && EndsClean(Ends(s, k))
    decreases s
  {
    if s.Line? {
      AttachEnds(s.rest, more, k);
    }
  }

  lemma {:induction false} EndsAttach(s: Stream, more: Stream, k: Ending)
    ensures Ends(Attach(s, more), k) == Attach(s, Ends(more, k))
    decreases s
  {
    if s.Line? {
      EndsAttach(s.rest, more, k);
    }
  }

  /** A stream cut at a line boundary yields a prefix of the events of the whole stream, however each of them ends. */
  lemma {:induction false} CutYieldsPrefix<E>(r: LineReader<E>, head: string, tail: string, k: Ending, l: Ending)
    requires LineBoundary(head)
    ensures ReadAll(r, Ends(ToStream(head), k)) <= ReadAll(r, Ends(ToStream(head + tail), l))
  {
    ToStreamAttach(head, tail);
    EndsAttach(ToStream(head), ToStream(tail), l);
    AttachEnds(ToStream(head), Ends(ToStream(tail), l), k);
    AttachYieldsMore(r, Ends(ToStream(head), k), Ends(ToStream(tail), l), FRESH, 0);
  }

  // ------------------------------------------------------------------
  // The stream, read as server-sent events.

  function SseStep<E>(c: Codec<E>, f: Fields, line: string): Stepped<E> {
    var trimmed := TrimRight(line);
    if trimmed == "" then Stepped(FRESH, Flush(c, f)) else Stepped(HandleLine(f, trimmed), [])
  }

  function SseFinish<E>(c: Codec<E>, f: Fields, leftover: string): seq<E> {
    Flush(c, HandleLine(f, leftover))
  }

  /** Proxy and door treat lines alike. */
  function SseReader<E>(c: Codec<E>): LineReader<E> {
    LineReader((f, line) => SseStep(c, f, line), (f, line) => SseFinish(c, f, line))
  }

  lemma {:induction false} SseStartsOver<E>(c: Codec<E>)
    ensures StartsOver(SseReader(c))
  {}

  lemma {:induction false} TrimPayload(p: string)
    requires p != "" && NL !in p && p[|p| - 1] != '\r'
    ensures TrimRight(p) == p
  {}

  /** The type as the reader sees it. */
  function ShownType<E>(c: Codec<E>, ev: E): string { TrimRight(c.eventType(ev)) }

  /** The three lines of a frame: type, payload, and the blank line that emits the event. */
  lemma {:induction false} FrameSteps<E>(c: Codec<E>, ev: E)
    requires Printable(c, ev)
    ensures SseStep(c, FRESH, EventLine(c, ev)) == Stepped(Fields(ShownType(c, ev), ""), [])
    ensures SseStep(c, Fields(ShownType(c, ev), ""), DataLine(c, ev)) ==
              Stepped(Fields(ShownType(c, ev), c.marshal(ev)), [])
    ensures SseStep(c, Fields(ShownType(c, ev), c.marshal(ev)), "") == Stepped(FRESH, [ev])
  {
    var t, p := c.eventType(ev), c.marshal(ev);
    TrimRightLine("event: ", t);
    TrimRightLine("data: ", p);
    TrimPayload(p);
    HandleEventLine(FRESH, TrimRight(t));
    HandleDataLine(Fields(TrimRight(t), ""), p);
  }

  function FrameLines<E>(c: Codec<E>, ev: E, rest: Stream): Stream {
    Line(EventLine(c, ev), Line(DataLine(c, ev), Line("", rest)))
  }

  /** r takes a printed frame for its event and a keepalive for nothing. */
  ghost predicate ReadsFrames<E(!new)>(r: LineReader<E>, c: Codec<E>) {
    && (forall ev | Printable(c, ev) ::
          && r.step(FRESH, EventLine(c, ev)) == Stepped(Fields(ShownType(c, ev), ""), [])
          && r.step(Fields(ShownType(c, ev), ""), DataLine(c, ev)) ==
               Stepped(Fields(ShownType(c, ev), c.marshal(ev)), [])
          && r.step(Fields(ShownType(c, ev), c.marshal(ev)), "") == Stepped(FRESH, [ev]))
    && r.step(FRESH, ": keepalive") == Stepped(FRESH, [])
    && r.step(FRESH, "") == Stepped(FRESH, [])
  }

  lemma {:induction false} SseReadsFrames<E(!new)>(c: Codec<E>)
    ensures ReadsFrames(SseReader(c), c)
  {
    forall ev | Printable(c, ev)
      ensures && SseStep(c, FRESH, EventLine(c, ev)) == Stepped(Fields(ShownType(c, ev), ""), [])
              && SseStep(c, Fields(ShownType(c, ev), ""), DataLine(c, ev)) ==
                   Stepped(Fields(ShownType(c, ev), c.marshal(ev)), [])
              && SseStep(c, Fields(ShownType(c, ev), c.marshal(ev)), "") == Stepped(FRESH, [ev])
    {
      FrameSteps(c, ev);
    }
    assert TrimRight(": keepalive") == ": keepalive";
    assert SseStep(c, FRESH, ": keepalive") == Stepped(FRESH, []);
    assert SseStep(c, FRESH, "") == Stepped(FRESH, []);
  }

  /** A frame without an event line: its data if that is an event, and nothing otherwise. */
  lemma {:induction false} DataAlone<E>(c: Codec<E>, v: string)
    requires v != "" && NL !in v && TrimRight(v) == v
    ensures SseStep(c, SseStep(c, FRESH, "data: " + v).fields, "").out ==
              if c.unmarshal(v).Some? then [c.unmarshal(v).value] else []
  {
    TrimRightLine("data: ", v);
    HandleDataLine(FRESH, v);
    FlushRules(c, "", v);
  }

  lemma {:induction false} FrameIsThreeLines<E>(c: Codec<E>, ev: E, rest: string)
    requires Printable(c, ev)
    ensures ToStream(Frame(c, ev) + rest) == FrameLines(c, ev, ToStream(rest))
  {
    var blank := "" + [NL] + rest;
    var data := DataLine(c, ev) + [NL] + blank;
    assert Frame(c, ev) + rest == EventLine(c, ev) + [NL] + data;
    ToStreamLine(EventLine(c, ev), data);
    ToStreamLine(DataLine(c, ev), blank);
    ToStreamLine("", rest);
  }

  /** A printed frame is read as its event, and nothing of it is left behind. */
  lemma {:induction false} ReadFrame<E(!new)>(
    r: LineReader<E>, c: Codec<E>, ev: E, rest: Stream, emitted: nat, stopAfter: int)
    requires ReadsFrames(r, c) && Printable(c, ev)
    ensures ReadFrom(r, FrameLines(c, ev, rest), FRESH, emitted, stopAfter) ==
              if Done(emitted + 1, stopAfter) then Outcome([ev], rest, Enough)
              else Before([ev], ReadFrom(r, rest, FRESH, emitted + 1, stopAfter))
  {
    var t, p := ShownType(c, ev), c.marshal(ev);
    var one := Line("", rest);
    var two := Line(DataLine(c, ev), one);
    assert ReadFrom(r, FrameLines(c, ev, rest), FRESH, emitted, stopAfter) ==
           Before([], ReadFrom(r, two, Fields(t, ""), emitted, stopAfter));
    assert ReadFrom(r, two, Fields(t, ""), emitted, stopAfter) ==
           Before([], ReadFrom(r, one, Fields(t, p), emitted, stopAfter));
  }

  lemma {:induction false} KeepaliveIsTwoLines(rest: string)
    ensures ToStream(KEEPALIVE + rest) == Line(": keepalive", Line("", ToStream(rest)))
  {
    var blank := "" + [NL] + rest;
    assert KEEPALIVE + rest == ": keepalive" + [NL] + blank;
    ToStreamLine(": keepalive", blank);
    ToStreamLine("", rest);
  }

  lemma {:induction false} ReadKeepalive<E(!new)>(
    r: LineReader<E>, c: Codec<E>, rest: Stream, emitted: nat, stopAfter: int)
    requires ReadsFrames(r, c)
    ensures ReadFrom(r, Line(": keepalive", Line("", rest)), FRESH, emitted, stopAfter) ==
              ReadFrom(r, rest, FRESH, emitted, stopAfter)
  {
    assert ReadFrom(r, Line("", rest), FRESH, emitted, stopAfter) ==
           Before([], ReadFrom(r, rest, FRESH, emitted, stopAfter));
  }

  function PrintItem<E>(c: Codec<E>, item: Item<E>): string {
    match item case Send(ev) => Frame(c, ev) case Keepalive => KEEPALIVE
  }

  function SentItem<E>(item: Item<E>): seq<E> {
    match item case Send(ev) => [ev] case Keepalive => []
  }

  function ItemLines<E>(c: Codec<E>, item: Item<E>, rest: Stream): Stream {
    match item case Send(ev) => FrameLines(c, ev, rest) case Keepalive => Line(": keepalive", Line("", rest))
  }

  lemma {:induction false} ItemIsLines<E>(c: Codec<E>, item: Item<E>, rest: string)
    requires item.Send? ==> Printable(c, item.ev)
    ensures ToStream(PrintItem(c, item) + rest) == ItemLines(c, item, ToStream(rest))
  {
    match item
    case Send(ev) => FrameIsThreeLines(c, ev, rest);
    case Keepalive => KeepaliveIsTwoLines(rest);
  }

  lemma {:induction false} ReadItem<E(!new)>(r: LineReader<E>, c: Codec<E>, item: Item<E>, rest: Stream, emitted: nat)
    requires ReadsFrames(r, c) && (item.Send? ==> Printable(c, item.ev))
    ensures ReadFrom(r, ItemLines(c, item, rest), FRESH, emitted, -1) ==
              Before(SentItem(item), ReadFrom(r, rest, FRESH, emitted + |SentItem(item)|, -1))
  {
    match item
    case Send(ev) => ReadFrame(r, c, ev, rest, emitted, -1);
    case Keepalive => ReadKeepalive(r, c, rest, emitted, -1);
  }

  lemma {:induction false} BeforeTwice<E>(a: seq<E>, b: seq<E>, o: Outcome<E>)
    ensures Before(a, Before(b, o)) == Before(a + b, o)
  {
    assert a + (b + o.events) == a + b + o.events;
  }

  /** Everything a reader gets out of a text that ends like this. */
  function ReadText<E>(r: LineReader<E>, text: string, k: Ending): seq<E> { ReadAll(r, Ends(ToStream(text), k)) }

  lemma {:induction false} ItemEnds<E>(c: Codec<E>, item: Item<E>, rest: Stream, k: Ending)
    ensures Ends(ItemLines(c, item, rest), k) == ItemLines(c, item, Ends(rest, k))
  {
    assert Ends(Line("", rest), k) == Line("", Ends(rest, k));
  }

  lemma {:induction false} ReadItemText<E(!new)>(r: LineReader<E>, c: Codec<E>, item: Item<E>, tail: string, k: Ending)
    requires ReadsFrames(r, c) && (item.Send? ==> Printable(c, item.ev))
    ensures ReadText(r, PrintItem(c, item) + tail, k) == SentItem(item) + ReadText(r, tail, k)
  {
    ItemIsLines(c, item, tail);
    ItemEnds(c, item, ToStream(tail), k);
    ReadItem(r, c, item, Ends(ToStream(tail), k), 0);
    EmittedIrrelevant(r, Ends(ToStream(tail), k), FRESH, |SentItem(item)|, 0);
  }

  ghost predicate ReadsItem<E>(read: string -> seq<E>, c: Codec<E>, item: Item<E>, tail: string) {
    read(PrintItem(c, item) + tail) == SentItem(item) + read(tail)
  }

  /** A reader that takes each item for its event, whatever comes after. */
  ghost predicate ReadsItems<E(!new)>(read: string -> seq<E>, c: Codec<E>) {
    && read("") == []
    && forall item: Item<E>, tail | item.Send? ==> Printable(c, item.ev) :: ReadsItem(read, c, item, tail)
  }

  lemma {:induction false} SseReadsItems<E(!new)>(c: Codec<E>, k: Ending)
    ensures ReadsItems(text => ReadText(SseReader(c), text, k), c)
  {
    var read := text => ReadText(SseReader(c), text, k);
    SseReadsFrames(c);
    NoNewlineIsLeftover("");
    forall item: Item<E>, tail | item.Send? ==> Printable(c, item.ev)
      ensures ReadsItem(read, c, item, tail)
    {
      ReadItemText(SseReader(c), c, item, tail, k);
    }
  }

  lemma {:induction false} ReadsBack<E(!new)>(read: string -> seq<E>, c: Codec<E>, items: seq<Item<E>>)
    requires ReadsItems(read, c) && AllPrintable(c, items)
    ensures read(Print(c, items)) == Sent(items)
    decreases items
  {
    if items != [] {
      ReadsBack(read, c, items[1..]);
      assert ReadsItem(read, c, items[0], Print(c, items[1..]));
    }
  }

  /** Round trip: whatever keepalives fall between the frames, the events come out as they went in. */
  lemma {:induction false} RoundTrip<E(!new)>(c: Codec<E>, items: seq<Item<E>>, k: Ending)
    requires AllPrintable(c, items)
    ensures ReadText(SseReader(c), Print(c, items), k) == Sent(items)
  {
    SseReadsItems(c, k);
    ReadsBack(text => ReadText(SseReader(c), text, k), c, items);
  }

  // ------------------------------------------------------------------
  // The stream, cut anywhere.

  lemma {:induction false} NoNewlineIsLeftover(text: string)
    requires NL !in text
    ensures ToStream(text) == End(text)
  {}

  const DATA: string := "data: "

  /** Where the payload begins and ends in a printed frame. */
  function PayloadStart<E>(c: Codec<E>, ev: E): nat { |EventLine(c, ev)| + 1 + |DATA| }
  function PayloadEnd<E>(c: Codec<E>, ev: E): nat { PayloadStart(c, ev) + |c.marshal(ev)| }

  /** The n characters of this item end inside a payload: that event, and how much of its payload is there. */
  function ItemFragment<E>(c: Codec<E>, item: Item<E>, n: nat): Option<(E, nat)> {
    if item.Send? && PayloadStart(c, item.ev) < n < PayloadEnd(c, item.ev)
    then Some((item.ev, n - PayloadStart(c, item.ev)))
    else None
  }

  /** A whole item emits its event, and so does a frame at whose payload the stream ends cleanly. */
  function ItemEmits<E>(c: Codec<E>, item: Item<E>, n: nat, k: Ending): seq<E> {
    if n >= |PrintItem(c, item)| || (k.Clean? && item.Send? && n == PayloadEnd(c, item.ev)) then SentItem(item) else []
  }

  /** The events whose text is there when the stream ends after n characters. */
  function Arrived<E>(c: Codec<E>, items: seq<Item<E>>, n: nat, k: Ending): seq<E> {
    if items == [] then []
    else
      var len := |PrintItem(c, items[0])|;
      ItemEmits(c, items[0], n, k) + if n < len then [] else Arrived(c, items[1..], n - len, k)
  }

  /** The fragment of a payload that such a cut leaves, if any. */
  function Fragment<E>(c: Codec<E>, items: seq<Item<E>>, n: nat): Option<(E, nat)> {
    if items == [] then None
    else
      var len := |PrintItem(c, items[0])|;
      if n < len then ItemFragment(c, items[0], n) else Fragment(c, items[1..], n - len)
  }

  /** What a reader makes of the fragment at the end of the stream. */
  function FragmentEmits<E>(c: Codec<E>, fragment: Option<(E, nat)>, k: Ending): seq<E> {
    match fragment
    case None => []
    case Some((ev, m)) =>
      if k.Clean? && m <= |c.marshal(ev)| then Flush(c, Fields(ShownType(c, ev), c.marshal(ev)[..m])) else []
  }

  lemma {:induction false} FinishEventLine<E>(c: Codec<E>, t: string, n: nat)
    requires n <= |"event: " + t|
    ensures SseFinish(c, FRESH, ("event: " + t)[..n]) == []
  {
    var line := ("event: " + t)[..n];
    if n <= 5 {
      assert line == "event"[..n];
      assert forall k | 0 <= k < |line| :: line[k] != ':';
      assert IndexOf(line, ':') == |line|;
    } else {
      assert line == "event" + [':'] + line[6..];
      IndexOfFirst("event", ':', line[6..]);
      assert line[..5] == "event";
    }
  }

  lemma {:induction false} FinishDataLine<E>(c: Codec<E>, t: string, p: string, n: nat)
    requires n <= |DATA + p|
    ensures SseFinish(c, Fields(t, ""), (DATA + p)[..n]) ==
              if n <= |DATA| then [] else Flush(c, Fields(t, p[..n - |DATA|]))
  {
    var line := (DATA + p)[..n];
    if n <= 4 {
      assert line == "data"[..n];
      assert forall k | 0 <= k < |line| :: line[k] != ':';
      assert IndexOf(line, ':') == |line|;
    } else if n == 5 {
      assert line == "data" + [':'] + "";
      IndexOfFirst("data", ':', "");
      assert line[..4] == "data" && line[5..] == "";
    } else {
      assert line == DATA + p[..n - |DATA|];
      HandleDataLine(Fields(t, ""), p[..n - |DATA|]);
    }
  }

  lemma {:induction false} FinishKeepalive<E>(c: Codec<E>, n: nat)
    requires 0 < n <= |": keepalive"|
    ensures SseFinish(c, FRESH, ": keepalive"[..n]) == []
  {
    assert ": keepalive"[..n][0] == ':';
  }

  lemma {:induction false} ReadLeftover<E>(r: LineReader<E>, last: string, k: Ending)
    requires NL !in last
    ensures ReadText(r, last, k) == if last == "" || !k.Clean? then [] else r.finish(FRESH, last)
  {
    NoNewlineIsLeftover(last);
  }

  /** One silent line, and what is left after it. */
  lemma {:induction false} ReadSecond<E>(r: LineReader<E>, first: string, f: Fields, last: string, k: Ending)
    requires NL !in first && NL !in last && r.step(FRESH, first) == Stepped(f, [])
    ensures ReadText(r, first + [NL] + last, k) == if last == "" || !k.Clean? then [] else r.finish(f, last)
  {
    ToStreamLine(first, last);
    NoNewlineIsLeftover(last);
    assert ReadFrom(r, Ends(End(last), k), f, 0, -1).events ==
           if last == "" || !k.Clean? then [] else r.finish(f, last);
  }

  /** Two silent lines, and nothing after them. */
  lemma {:induction false} ReadTwoLines<E>(
    r: LineReader<E>, first: string, f: Fields, second: string, g: Fields, k: Ending)
    requires NL !in first && NL !in second
    requires r.step(FRESH, first) == Stepped(f, []) && r.step(f, second) == Stepped(g, [])
    ensures ReadText(r, first + [NL] + (second + [NL] + ""), k) == []
  {
    ToStreamLine(first, second + [NL] + "");
    ToStreamLine(second, "");
    NoNewlineIsLeftover("");
    assert ReadFrom(r, Ends(End(""), k), g, 0, -1).events == [];
    assert ReadFrom(r, Ends(Line(second, End("")), k), f, 0, -1).events == [];
  }

  /** What r makes of an unfinished line of each kind. */
  ghost predicate FinishesEvent<E>(r: LineReader<E>, t: string) {
    forall n: nat | n <= |"event: " + t| :: r.finish(FRESH, ("event: " + t)[..n]) == []
  }

  ghost predicate FinishesData<E>(r: LineReader<E>, c: Codec<E>, t: string, p: string) {
    forall n: nat | n <= |DATA + p| ::
      r.finish(Fields(t, ""), (DATA + p)[..n]) == if n <= |DATA| then [] else Flush(c, Fields(t, p[..n - |DATA|]))
  }

  ghost predicate FinishesLines<E>(r: LineReader<E>, c: Codec<E>) {
    && (forall t :: FinishesEvent(r, t))
    && (forall t, p :: FinishesData(r, c, t, p))
    && (forall n: nat | 0 < n <= |": keepalive"| :: r.finish(FRESH, ": keepalive"[..n]) == [])
  }

  lemma {:induction false} SseFinishesLines<E>(c: Codec<E>)
    ensures FinishesLines(SseReader(c), c)
  {
    forall t, n: nat | n <= |"event: " + t|
      ensures SseReader(c).finish(FRESH, ("event: " + t)[..n]) == []
    {
      FinishEventLine(c, t, n);
    }
    forall t, p, n: nat | n <= |DATA + p|
      ensures SseReader(c).finish(Fields(t, ""), (DATA + p)[..n]) ==
                if n <= |DATA| then [] else Flush(c, Fields(t, p[..n - |DATA|]))
    {
      FinishDataLine(c, t, p, n);
    }
    forall n: nat | 0 < n <= |": keepalive"|
      ensures SseReader(c).finish(FRESH, ": keepalive"[..n]) == []
    {
      FinishKeepalive(c, n);
    }
  }

  lemma {:induction false} CutKeepalive<E(!new)>(r: LineReader<E>, c: Codec<E>, n: nat, k: Ending)
    requires ReadsFrames(r, c) && FinishesLines(r, c) && n < |KEEPALIVE|
    ensures ReadText(r, KEEPALIVE[..n], k) == []
  {
    var line := ": keepalive";
    if n <= |line| {
      assert KEEPALIVE[..n] == line[..n];
      ReadLeftover(r, line[..n], k);
    } else {
      assert KEEPALIVE[..n] == line + [NL] + "";
      ReadSecond(r, line, FRESH, "", k);
    }
  }

  lemma {:induction false} FramePrefix(e: string, d: string, n: nat)
    requires n < |e| + |d| + 3
    ensures (e + [NL] + d + [NL] + [NL])[..n] ==
              if n <= |e| then e[..n]
              else if n <= |e| + 1 + |d| then e + [NL] + d[..n - |e| - 1]
              else e + [NL] + (d + [NL] + "")
  {}

  /** The frame ends inside its first line. */
  lemma {:induction false} CutInEventLine<E(!new)>(r: LineReader<E>, c: Codec<E>, ev: E, n: nat, k: Ending)
    requires FinishesLines(r, c) && Printable(c, ev) && n <= |EventLine(c, ev)|
    ensures ReadText(r, EventLine(c, ev)[..n], k) == []
  {
    ReadLeftover(r, EventLine(c, ev)[..n], k);
    assert FinishesEvent(r, c.eventType(ev));
  }

  /** The frame ends inside its second line. */
  lemma {:induction false} CutInDataLine<E(!new)>(r: LineReader<E>, c: Codec<E>, ev: E, m: nat, k: Ending)
    requires ReadsFrames(r, c) && FinishesLines(r, c) && Printable(c, ev) && m <= |DataLine(c, ev)|
    ensures ReadText(r, EventLine(c, ev) + [NL] + DataLine(c, ev)[..m], k) ==
              if m <= |DATA| || !k.Clean? then [] else Flush(c, Fields(ShownType(c, ev), c.marshal(ev)[..m - |DATA|]))
  {
    ReadSecond(r, EventLine(c, ev), Fields(ShownType(c, ev), ""), DataLine(c, ev)[..m], k);
    assert FinishesData(r, c, ShownType(c, ev), c.marshal(ev));
  }

  /** Only the blank line is missing. */
  lemma {:induction false} CutBeforeBlank<E(!new)>(r: LineReader<E>, c: Codec<E>, ev: E, k: Ending)
    requires ReadsFrames(r, c) && Printable(c, ev)
    ensures ReadText(r, EventLine(c, ev) + [NL] + (DataLine(c, ev) + [NL] + ""), k) == []
  {
    var t := ShownType(c, ev);
    ReadTwoLines(r, EventLine(c, ev), Fields(t, ""), DataLine(c, ev), Fields(t, c.marshal(ev)), k);
  }

  /** What every proper prefix of a frame reads as. */
  lemma {:induction false} CutFrame<E(!new)>(r: LineReader<E>, c: Codec<E>, ev: E, n: nat, k: Ending)
    requires ReadsFrames(r, c) && FinishesLines(r, c) && Printable(c, ev) && n < |Frame(c, ev)|
    ensures ReadText(r, Frame(c, ev)[..n], k) ==
              if n <= PayloadStart(c, ev) || n > PayloadEnd(c, ev) || !k.Clean? then []
              else Flush(c, Fields(ShownType(c, ev), c.marshal(ev)[..n - PayloadStart(c, ev)]))
  {
    var text := FramePiece(c, ev, n);
    if n <= |EventLine(c, ev)| {
      CutInEventLine(r, c, ev, n, k);
    } else if n <= PayloadEnd(c, ev) {
      CutInDataLine(r, c, ev, n - |EventLine(c, ev)| - 1, k);
    } else {
      CutBeforeBlank(r, c, ev, k);
    }
  }

  lemma {:induction false} FramePiece<E>(c: Codec<E>, ev: E, n: nat) returns (text: string)
    requires n < |Frame(c, ev)|
    ensures text == Frame(c, ev)[..n]
    ensures n <= |EventLine(c, ev)| ==> text == EventLine(c, ev)[..n]
    ensures |EventLine(c, ev)| < n <= PayloadEnd(c, ev) ==>
              text == EventLine(c, ev) + [NL] + DataLine(c, ev)[..n - |EventLine(c, ev)| - 1]
    ensures PayloadEnd(c, ev) < n ==> text == EventLine(c, ev) + [NL] + (DataLine(c, ev) + [NL] + "")
  {
    text := Frame(c, ev)[..n];
    FramePrefix(EventLine(c, ev), DataLine(c, ev), n);
  }

  lemma {:induction false} CutItem<E(!new)>(r: LineReader<E>, c: Codec<E>, item: Item<E>, n: nat, k: Ending)
    requires ReadsFrames(r, c) && FinishesLines(r, c)
    requires (item.Send? ==> Printable(c, item.ev)) && n < |PrintItem(c, item)|
    ensures ReadText(r, PrintItem(c, item)[..n], k) ==
              ItemEmits(c, item, n, k) + FragmentEmits(c, ItemFragment(c, item, n), k)
  {
    match item
    case Send(ev) =>
      CutFrame(r, c, ev, n, k);
      assert c.marshal(ev)[..|c.marshal(ev)|] == c.marshal(ev);
    case Keepalive => CutKeepalive(r, c, n, k);
  }

  /** The reader takes a proper prefix of an item for what arrived of it. */
  ghost predicate CutsItem<E>(read: string -> seq<E>, c: Codec<E>, item: Item<E>, k: Ending) {
    forall n: nat | n < |PrintItem(c, item)| ::
      read(PrintItem(c, item)[..n]) == ItemEmits(c, item, n, k) + FragmentEmits(c, ItemFragment(c, item, n), k)
  }

  ghost predicate CutsItems<E(!new)>(read: string -> seq<E>, c: Codec<E>, k: Ending) {
    forall item: Item<E> | item.Send? ==> Printable(c, item.ev) :: CutsItem(read, c, item, k)
  }

  lemma {:induction false} SseCutsItems<E(!new)>(c: Codec<E>, k: Ending)
    ensures CutsItems(text => ReadText(SseReader(c), text, k), c, k)
  {
    var read := text => ReadText(SseReader(c), text, k);
    SseReadsFrames(c);
    SseFinishesLines(c);
    forall item: Item<E>, n: nat | (item.Send? ==> Printable(c, item.ev)) && n < |PrintItem(c, item)|
      ensures read(PrintItem(c, item)[..n]) == ItemEmits(c, item, n, k) + FragmentEmits(c, ItemFragment(c, item, n), k)
    {
      CutItem(SseReader(c), c, item, n, k);
    }
  }

  lemma {:induction false} PrintPrefix<E>(c: Codec<E>, items: seq<Item<E>>, n: nat)
    requires items != [] && n <= |Print(c, items)|
    ensures var first := PrintItem(c, items[0]);
            Print(c, items)[..n] ==
              if n < |first| then first[..n] else first + Print(c, items[1..])[..n - |first|]
  {}

  lemma {:induction false} Associate<E>(a: seq<E>, b: seq<E>, c: seq<E>)
    ensures (a + b) + c == a + (b + c)
  {}

  lemma {:induction false} CutReads<E(!new)>(
    read: string -> seq<E>, c: Codec<E>, items: seq<Item<E>>, n: nat, k: Ending)
    requires ReadsItems(read, c) && CutsItems(read, c, k) && AllPrintable(c, items) && n <= |Print(c, items)|
    ensures read(Print(c, items)[..n]) == Arrived(c, items, n, k) + FragmentEmits(c, Fragment(c, items, n), k)
    decreases items
  {
    if items != [] {
      var item, len := items[0], |PrintItem(c, items[0])|;
      PrintPrefix(c, items, n);
      if n < len {
        assert CutsItem(read, c, item, k);
      } else {
        var rest := items[1..];
        CutReads(read, c, rest, n - len, k);
        assert ReadsItem(read, c, item, Print(c, rest)[..n - len]);
        assert Arrived(c, items, n, k) == SentItem(item) + Arrived(c, rest, n - len, k);
        Associate(SentItem(item), Arrived(c, rest, n - len, k), FragmentEmits(c, Fragment(c, rest, n - len), k));
      }
    }
  }

  /** Every cut: the events that arrived, and what the reader makes of a fragment when the stream ends cleanly. */
  lemma {:induction false} CutAnywhere<E(!new)>(c: Codec<E>, items: seq<Item<E>>, n: nat, k: Ending)
    requires AllPrintable(c, items) && n <= |Print(c, items)|
    ensures ReadText(SseReader(c), Print(c, items)[..n], k) ==
              Arrived(c, items, n, k) + FragmentEmits(c, Fragment(c, items, n), k)
  {
    SseReadsItems(c, k);
    SseCutsItems(c, k);
    CutReads(text => ReadText(SseReader(c), text, k), c, items, n, k);
  }

  /** What arrived is a prefix of what was sent. */
  lemma {:induction false} ArrivedIsPrefix<E>(c: Codec<E>, items: seq<Item<E>>, n: nat, k: Ending)
    ensures Arrived(c, items, n, k) <= Sent(items)
    decreases items
  {
    if items != [] {
      var len := |PrintItem(c, items[0])|;
      if n >= len {
        ArrivedIsPrefix(c, items[1..], n - len, k);
        assert Arrived(c, items, n, k) == SentItem(items[0]) + Arrived(c, items[1..], n - len, k);
      }
    }
  }

  lemma {:induction false} ShiftNext<E>(head: seq<E>, arrived: seq<E>, sent: seq<E>, ev: E)
    requires |arrived| < |sent| && sent[|arrived|] == ev
    ensures |head + arrived| < |head + sent| && (head + sent)[|head + arrived|] == ev
  {}

  /** A fragment is a proper one, of the event that would have come next. */
  ghost predicate NextIs<E>(c: Codec<E>, items: seq<Item<E>>, arrived: seq<E>, sent: seq<E>, ev: E, m: nat) {
    Send(ev) in items && 0 < m < |c.marshal(ev)| && |arrived| < |sent| && sent[|arrived|] == ev
  }

  lemma {:induction false} FragmentIsNext<E>(c: Codec<E>, items: seq<Item<E>>, n: nat, k: Ending)
    requires Fragment(c, items, n).Some?
    ensures var (ev, m) := Fragment(c, items, n).value;
            NextIs(c, items, Arrived(c, items, n, k), Sent(items), ev, m)
    decreases items
  {
    var len := |PrintItem(c, items[0])|;
    var (ev, m) := Fragment(c, items, n).value;
    if n >= len {
      var rest := items[1..];
      FragmentIsNext(c, rest, n - len, k);
      ShiftNext(SentItem(items[0]), Arrived(c, rest, n - len, k), Sent(rest), ev);
      assert Arrived(c, items, n, k) == SentItem(items[0]) + Arrived(c, rest, n - len, k);
      assert Sent(items) == SentItem(items[0]) + Sent(rest);
      assert Send(ev) in rest;
    } else {
      assert Arrived(c, items, n, k) == [] && items[0] == Send(ev);
      assert Sent(items) == [ev] + Sent(items[1..]);
    }
  }

  /** No proper fragment of a payload is JSON, every type shows, and no synthesised event is one that was sent. */
  ghost predicate FragmentsFail<E>(c: Codec<E>, items: seq<Item<E>>) {
    forall i, m: nat | 0 <= i < |items| && items[i].Send? && 0 < m < |c.marshal(items[i].ev)| ::
      FragmentFails(c, items[i].ev, m)
  }

  ghost predicate FragmentFails<E>(c: Codec<E>, ev: E, m: nat) {
    && m <= |c.marshal(ev)| && ShownType(c, ev) != ""
    && c.unmarshal(c.marshal(ev)[..m]).None?
    && c.synthesize(ShownType(c, ev), c.marshal(ev)[..m]) != ev
  }

  /** At a clean end a fragment makes the readers emit an event that nobody sent. */
  lemma {:induction false} FragmentIsSynthesised<E>(c: Codec<E>, items: seq<Item<E>>, n: nat)
    requires AllPrintable(c, items) && FragmentsFail(c, items) && Fragment(c, items, n).Some?
    ensures var (ev, m) := Fragment(c, items, n).value;
            && m <= |c.marshal(ev)|
            && FragmentEmits(c, Fragment(c, items, n), Clean) == [c.synthesize(ShownType(c, ev), c.marshal(ev)[..m])]
            && c.synthesize(ShownType(c, ev), c.marshal(ev)[..m]) != ev
  {
    FragmentIsNext(c, items, n, Clean);
    var (ev, m) := Fragment(c, items, n).value;
    var i :| 0 <= i < |items| && items[i] == Send(ev);
    assert FragmentFails(c, items[i].ev, m);
  }

  /** A cut stream yields a prefix of what was sent unless it ends cleanly, with a fragment of a payload. */
  lemma {:induction false} CutIsPrefixIff<E(!new)>(c: Codec<E>, items: seq<Item<E>>, n: nat, k: Ending)
    requires AllPrintable(c, items) && FragmentsFail(c, items) && n <= |Print(c, items)|
    ensures ReadText(SseReader(c), Print(c, items)[..n], k) <= Sent(items)
            <==> !k.Clean? || Fragment(c, items, n).None?
  {
    CutAnywhere(c, items, n, k);
    ArrivedIsPrefix(c, items, n, k);
    if k.Clean? && Fragment(c, items, n).Some? {
      FragmentIsSynthesised(c, items, n);
      FragmentIsNext(c, items, n, k);
      var i := |Arrived(c, items, n, k)|;
      assert (Arrived(c, items, n, k) + FragmentEmits(c, Fragment(c, items, n), k))[i] != Sent(items)[i];
    }
  }

  // ------------------------------------------------------------------
  // The two readers.

  /** A reader that an error or the context stops has not had enough. */
  lemma {:induction false} StoppedShort<E>(r: LineReader<E>, s: Stream, f: Fields, emitted: nat, stopAfter: int)
    ensures var o := ReadFrom(r, s, f, emitted, stopAfter);
            o.why.OnError? || o.why.OnCancel? ==> o.events == [] || !Done(emitted + |o.events|, stopAfter)
    decreases s
  {
    if s.Line? {
      var st := r.step(f, s.line);
      StoppedShort(r, s.rest, st.fields, emitted + |st.out|, stopAfter);
    }
  }

  /** The proxy's reader loop. */
  method ReadEvents<E>(r: LineReader<E>, br: Stream, maxEvents: int) returns (events: seq<E>, rest: Stream, why: Why)
    ensures Outcome(events, rest, why) == ReadFrom(r, br, FRESH, 0, maxEvents)
  {
    events, rest := [], br;
    var f := FRESH;
    while rest.Line?
      invariant ReadFrom(r, br, FRESH, 0, maxEvents) == Before(events, ReadFrom(r, rest, f, |events|, maxEvents))
      decreases rest
    {
      var st := r.step(f, rest.line);
      BeforeTwice(events, st.out, ReadFrom(r, rest.rest, st.fields, |events| + |st.out|, maxEvents));
      rest, f, events := rest.rest, st.fields, events + st.out;
      if st.out != [] && Done(|events|, maxEvents) {
        return events, rest, Enough;
      }
    }
    var last := Finished(r, rest, f);
    events, rest, why := events + last.events, last.rest, last.why;
  }

  /** Fails exactly when reading does. */
  method ReadSSEEvents<E>(c: Codec<E>, br: Stream, maxEvents: int) returns (ok: bool, events: seq<E>, rest: Stream)
    ensures var o := ReadFrom(SseReader(c), br, FRESH, 0, maxEvents);
            events == o.events && rest == o.rest && ok == !o.why.OnError?
  {
    var why;
    events, rest, why := ReadEvents(SseReader(c), br, maxEvents);
    ok := !why.OnError?;
  }

  /** The proxy's first read: exactly one event, or an error when the stream comes to any end before it. */
  method ParseOneSSEEvent<E>(c: Codec<E>, br: Stream) returns (ok: bool, events: seq<E>, rest: Stream)
    ensures ok <==> events != []
    ensures events == ReadFrom(SseReader(c), br, FRESH, 0, 1).events
    ensures events + ReadAll(SseReader(c), rest) == ReadAll(SseReader(c), br)
  {
    ok, events, rest := ReadSSEEvents(c, br, 1);
    ok := ok && events != [];
    SseStartsOver(c);
    StopAndResume(SseReader(c), br, FRESH, 0, 1);
    StoppedShort(SseReader(c), br, FRESH, 0, 1);
  }

  /** The door also fails when the stream ends before enough events, but not when the context does. */
  predicate DoorOk(why: Why, emitted: nat, maxEvents: int) {
    match why case AtEnd => emitted >= maxEvents case OnError => false case _ => true
  }

  /** The door's reader loop. */
  method ParseEvents<E>(r: LineReader<E>, br: Stream, maxEvents: int) returns (ok: bool, events: seq<E>, rest: Stream)
    ensures var o := ReadFrom(r, br, FRESH, 0, maxEvents);
            events == o.events && rest == o.rest && ok == DoorOk(o.why, |o.events|, maxEvents)
    ensures ok && |events| < maxEvents ==> rest.Cancelled?
    ensures var why := ReadFrom(r, br, FRESH, 0, maxEvents).why;
            && (why.Enough? || why.OnCancel? ==> ok) && (why.OnError? ==> !ok)
            && (why.AtEnd? ==> (ok <==> |events| >= maxEvents))
  {
    events, rest := [], br;
    var f := FRESH;
    var emitted := 0;
    while rest.Line?
      invariant ReadFrom(r, br, FRESH, 0, maxEvents) == Before(events, ReadFrom(r, rest, f, |events|, maxEvents))
      invariant emitted == |events|
      decreases rest
    {
      var st := r.step(f, rest.line);
      BeforeTwice(events, st.out, ReadFrom(r, rest.rest, st.fields, |events| + |st.out|, maxEvents));
      rest, f, events := rest.rest, st.fields, events + st.out;
      emitted := emitted + |st.out|;
      if st.out != [] && Done(emitted, maxEvents) {
        return true, events, rest;
      }
    }
    var last := Finished(r, rest, f);
    events, rest := events + last.events, last.rest;
    emitted := emitted + |last.events|;
    ok := match last.why case AtEnd => !(maxEvents >= 0 && emitted < maxEvents) case why => why.OnCancel?;
  }

  method ParseSSE<E>(c: Codec<E>, br: Stream, maxEvents: int) returns (ok: bool, events: seq<E>, rest: Stream)
    ensures var o := ReadFrom(SseReader(c), br, FRESH, 0, maxEvents);
            events == o.events && rest == o.rest && ok == DoorOk(o.why, |o.events|, maxEvents)
  {
    ok, events, rest := ParseEvents(SseReader(c), br, maxEvents);
  }
}
