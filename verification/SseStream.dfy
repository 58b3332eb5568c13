/**
 Reassembly of a server-sent event stream from the chunks the network happens to deliver, and the
 handling of its events. `parse` stands for the JSON parser and the tests on what it returns.
 */
module SseStream {
  import opened Common
  import opened Text

  /** The events that matter here: a plan to approve, and anything else. */
  datatype Event = Approval(chainId: string) | Other

  const DONE: string := "[DONE]"
  const DATA: string := "data:"

  // ----- Cutting a text into events

  /** `s.indexOf("\n\n")` */
  function Find(s: string): (i: int)
    ensures -1 <= i && (i >= 0 ==> i + 2 <= |s|)
  {
    if |s| < 2 then -1
    else if s[0] == '\n' && s[1] == '\n' then 0
    else
      var i := Find(s[1..]);
      if i < 0 then -1 else i + 1
  }

  /** The parts of a text that end in a blank line: the leftmost split. */
  function RawEvents(s: string): seq<string> {
    var i := Find(s);
    if i < 0 then [] else [s[..i]] + RawEvents(s[i + 2..])
  }

  /** What follows the last blank line. */
  function Tail(s: string): string {
    var i := Find(s);
    if i < 0 then s else Tail(s[i + 2..])
  }

  function DataLines(lines: seq<string>): seq<string> {
    if lines == [] then []
    else (if StartsWith(lines[0], DATA) then [TrimStart(lines[0][|DATA|..])] else []) + DataLines(lines[1..])
  }

  function Payload(raw: string): string {
    Trim(Join(DataLines(Split(raw, '\n')), "\n"))
  }

  function Payloads(raws: seq<string>): seq<string> {
    if raws == [] then [] else [Payload(raws[0])] + Payloads(raws[1..])
  }

  function Events(s: string): seq<string> {
    Payloads(RawEvents(s))
  }

  // ----- What an event says

  /** A line of an event: data with the white space before it, or any other line. */
  datatype FieldLine = Data(gap: string, content: string) | Noise(line: string)

  predicate IsFieldLine(f: FieldLine) {
    match f
    case Data(gap, content) =>
      Blank(gap) && (content != "" ==> !IsSpace(content[0])) && '\n' !in gap && '\n' !in content
    case Noise(line) => '\n' !in line && (|line| < 5 || line[..5] != "data:")
  }

  function LineText(f: FieldLine): string {
    match f
    case Data(gap, content) => "data:" + (gap + content)
    case Noise(line) => line
  }

  function LineTexts(fields: seq<FieldLine>): seq<string> {
    seq(|fields|, i requires 0 <= i < |fields| => LineText(fields[i]))
  }

  function Contents(fields: seq<FieldLine>): seq<string> {
    if fields == [] then []
    else (if fields[0].Data? then [fields[0].content] else []) + Contents(fields[1..])
  }

  lemma DataLineMeaning(f: FieldLine, rest: seq<string>)
    requires IsFieldLine(f)
    ensures DataLines([LineText(f)] + rest) == (if f.Data? then [f.content] else []) + DataLines(rest)
  {
    var line := LineText(f);
    assert ([line] + rest)[1..] == rest;
    if f.Data? {
      assert line[..5] == "data:" && line[5..] == f.gap + f.content;
      if f.content == "" {
        assert f.gap + "" == f.gap;
        TrimStartDrops(f.gap);
      } else {
        TrimStartOfIndented(f.gap, f.content);
      }
    }
  }

  lemma {:induction false} DataLinesMeaning(fields: seq<FieldLine>)
    requires forall i :: 0 <= i < |fields| ==> IsFieldLine(fields[i])
    ensures DataLines(LineTexts(fields)) == Contents(fields)
  {
    if fields != [] {
      DataLineMeaning(fields[0], LineTexts(fields[1..]));
      DataLinesMeaning(fields[1..]);
      assert LineTexts(fields) == [LineText(fields[0])] + LineTexts(fields[1..]);
    }
  }

  lemma NoLineFeed(f: FieldLine)
    requires IsFieldLine(f)
    ensures '\n' !in LineText(f)
  {
    assert f.Data? ==> '\n' !in "data:" && '\n' !in f.gap + f.content;
  }

  /** The payload of an event is what its data lines hold, line by line; its other lines do not count. */
  lemma PayloadMeaning(fields: seq<FieldLine>)
    requires fields != [] && forall i :: 0 <= i < |fields| ==> IsFieldLine(fields[i])
    ensures Payload(Join(LineTexts(fields), "\n")) == Trim(Join(Contents(fields), "\n"))
  {
    hide DataLines, Contents, IsFieldLine, LineText, Trim, Split, Join;
    forall i | 0 <= i < |fields| ensures '\n' !in LineTexts(fields)[i] {
      NoLineFeed(fields[i]);
    }
    SplitJoin(LineTexts(fields), '\n');
    DataLinesMeaning(fields);
  }

  // ----- Handling events

  /** Everything handed to `processEvent`, the plans approved, and whether the reading loop is over. */
  datatype Progress = Progress(handled: seq<string>, approved: seq<string>, done: bool, failed: bool)

  const INITIAL: Progress := Progress([], [], false, false)

  function Handle(p: Progress, payload: string, parse: string -> Option<Event>): Progress {
    var handled := p.handled + [payload];
    if payload == "" || payload == DONE then p.(handled := handled, done := payload == DONE)
    else
      match parse(payload)
      case None => p.(handled := handled, failed := true)
      case Some(Approval(id)) =>
        if id != "" && id !in p.approved then p.(handled := handled, approved := p.approved + [id])
        else p.(handled := handled)
      case Some(Other) => p.(handled := handled)
  }

  function HandleAll(p: Progress, payloads: seq<string>, parse: string -> Option<Event>): Progress
    decreases |payloads|
  {
    if p.failed || payloads == [] then p else HandleAll(Handle(p, payloads[0], parse), payloads[1..], parse)
  }

  /** The inner loop: every complete event in the buffer, whether or not the stream has said it is done. */
  function Drain(buffer: string, p: Progress, parse: string -> Option<Event>): (string, Progress)
    decreases |buffer|
  {
    var i := Find(buffer);
    if p.failed || i < 0 then (buffer, p)
    else Drain(buffer[i + 2..], Handle(p, Payload(buffer[..i]), parse), parse)
  }

  /** The outer loop: chunks are read until the stream is done or an event cannot be parsed. */
  function Read(buffer: string, p: Progress, chunks: seq<string>, parse: string -> Option<Event>): Progress
    decreases |chunks|
  {
    if p.done || p.failed || chunks == [] then p
    else
      var (rest, next) := Drain(buffer + chunks[0], p, parse);
      Read(rest, next, chunks[1..], parse)
  }

  class StreamReader {
    const parse: string -> Option<Event>
    var buffer: string
    var handled: seq<string>
    var approvedChainIds: set<string>
    var approvals: seq<string>
    var done: bool
    var failed: bool

    constructor (parse: string -> Option<Event>)
      ensures this.parse == parse && buffer == "" && Valid() && Snapshot() == INITIAL
    {
      this.parse := parse;
      buffer, handled, approvedChainIds, approvals, done, failed := "", [], {}, [], false, false;
    }

    ghost predicate Valid()
      reads this
    {
      forall id :: id in approvedChainIds <==> id in approvals
    }

    function Snapshot(): Progress
      reads this
    {
      Progress(handled, approvals, done, failed)
    }

    method ProcessEvent(payload: string)
      requires Valid()
      modifies this
      ensures Valid() && buffer == old(buffer)
      ensures Snapshot() == Handle(old(Snapshot()), payload, parse)
    {
      handled := handled + [payload];
      if payload == "" || payload == DONE {
        done := payload == DONE;
        return;
      }
      match parse(payload)
      case None => failed := true;
      case Some(Approval(chainId)) =>
        if chainId != "" && chainId !in approvedChainIds {
          approvedChainIds := approvedChainIds + {chainId};
          approvals := approvals + [chainId];
        }
      case Some(Other) =>
    }

    /** One chunk of the outer loop. */
    method Feed(chunk: string)
      requires Valid() && !failed
      modifies this
      ensures Valid()
      ensures (buffer, Snapshot()) == Drain(old(buffer) + chunk, old(Snapshot()), parse)
    {
      buffer := buffer + chunk;
      ghost var all := Drain(buffer, Snapshot(), parse);
      var separatorIndex := Find(buffer);
      while separatorIndex != -1 && !failed
        invariant Valid() && separatorIndex == Find(buffer)
        invariant all == Drain(buffer, Snapshot(), parse)
        decreases |buffer|
      {
        var rawEvent := buffer[..separatorIndex];
        buffer := buffer[separatorIndex + 2..];
        ProcessEvent(Payload(rawEvent));
        separatorIndex := Find(buffer);
      }
    }

    method ReadAll(chunks: seq<string>)
      requires Valid() && !failed
      modifies this
      ensures Valid()
      ensures Snapshot() == Read(old(buffer), old(Snapshot()), chunks, parse)
    {
      var i := 0;
      ghost var all := Read(buffer, Snapshot(), chunks, parse);
      assert chunks[0..] == chunks;
      while !done && !failed && i < |chunks|
        invariant i <= |chunks| && Valid()
        invariant all == Read(buffer, Snapshot(), chunks[i..], parse)
        decreases |chunks| - i
      {
        assert chunks[i..][0] == chunks[i] && chunks[i..][1..] == chunks[i + 1..];
        Feed(chunks[i]);
        i := i + 1;
      }
    }
  }

  // ----- What one event does

  /** Every event is kept; `[DONE]` ends the reading, an empty event resumes it; a plan is approved once. */
  lemma HandleMeaning(p: Progress, payload: string, parse: string -> Option<Event>)
    ensures var next := Handle(p, payload, parse);
            var event := if payload == "" || payload == "[DONE]" then Some(Other) else parse(payload);
            && next.handled == p.handled + [payload]
            && next.done == (payload == "[DONE]" || (payload != "" && p.done))
            && next.failed == (p.failed || event == None)
            && next.approved ==
               if event.Some? && event.value.Approval?
                  && event.value.chainId != "" && event.value.chainId !in p.approved
               then p.approved + [event.value.chainId] else p.approved
  {
  }

  // ----- The leftmost split does not depend on where the text is cut

  lemma {:induction false} FindInLonger(s: string, t: string)
    requires Find(s) >= 0
    ensures Find(s + t) == Find(s)
  {
    if !(s[0] == '\n' && s[1] == '\n') {
      assert (s + t)[1..] == s[1..] + t;
      FindInLonger(s[1..], t);
    }
  }

  /** Events of a longer text: those of the text so far, then those of its tail with the new chunk. */
  lemma {:induction false} EventsOfLonger(s: string, t: string)
    ensures Events(s + t) == Events(s) + Events(Tail(s) + t)
    ensures Tail(s + t) == Tail(Tail(s) + t)
    decreases |s|
  {
    hide Payload;
    var i := Find(s);
    SplitFirst(s);
    SplitFirst(s + t);
    if i >= 0 {
      FindInLonger(s, t);
      var rest := s[i + 2..];
      CutFirstPart(s, t, i);
      CutFirstPart(s, t, i + 2);
      EventsOfLonger(rest, t);
      AppendAssociates([Payload(s[..i])], Events(rest), Events(Tail(s) + t));
    }
  }

  lemma {:induction false} SplitFirst(s: string)
    ensures var i := Find(s);
            Events(s) == if i < 0 then [] else [Payload(s[..i])] + Events(s[i + 2..])
    ensures var i := Find(s);
            Tail(s) == if i < 0 then s else Tail(s[i + 2..])
  {
    hide Payload;
    var i := Find(s);
    if i >= 0 {
      PayloadsCons(s[..i], RawEvents(s[i + 2..]));
    }
  }

  lemma PayloadsCons(raw: string, raws: seq<string>)
    ensures Payloads([raw] + raws) == [Payload(raw)] + Payloads(raws)
  {
    assert ([raw] + raws)[1..] == raws;
  }

  /** The pieces of a text, each with the blank line after it, and the tail. */
  function Glued(raws: seq<string>, tail: string): string {
    if raws == [] then tail else raws[0] + "\n\n" + Glued(raws[1..], tail)
  }

  /** The first pair of line feeds. */
  lemma {:induction false} FindPair(s: string)
    ensures Find(s) >= 0 ==> s[Find(s)] == '\n' && s[Find(s) + 1] == '\n'
    ensures forall k :: 0 <= k < |s| - 1 && (Find(s) < 0 || k < Find(s)) ==> !(s[k] == '\n' && s[k + 1] == '\n')
  {
    if |s| >= 2 && !(s[0] == '\n' && s[1] == '\n') {
      var rest := s[1..];
      FindPair(rest);
      forall k | 0 <= k < |s| - 1 && (Find(s) < 0 || k < Find(s)) ensures !(s[k] == '\n' && s[k + 1] == '\n') {
        assert k > 0 ==> rest[k - 1] == s[k] && rest[k] == s[k + 1];
      }
    }
  }

  lemma FindMeaning(s: string)
    ensures Find(s) >= 0 ==> s[Find(s)..Find(s) + 2] == "\n\n" && Find(s[..Find(s)] + "\n\n") == Find(s)
    ensures Find(s) < 0 ==> forall k :: 0 <= k < |s| - 1 ==> !(s[k] == '\n' && s[k + 1] == '\n')
    ensures Find(s) >= 0 ==> forall k :: 0 <= k < Find(s) ==> !(s[k] == '\n' && s[k + 1] == '\n')
  {
    hide Find;
    FindPair(s);
    var i := Find(s);
    if i >= 0 {
      FindAtEnd(s, i);
      assert s[..i + 2] == s[..i] + "\n\n";
    }
  }

  /**
   The split puts the text back together, leaves no blank line in the tail, and ends every piece at
   the first blank line there is.
   */
  lemma {:induction false} SplitMeaning(text: string)
    ensures Glued(RawEvents(text), Tail(text)) == text
    ensures Find(Tail(text)) < 0
    ensures forall k :: 0 <= k < |RawEvents(text)| ==> Find(RawEvents(text)[k] + "\n\n") == |RawEvents(text)[k]|
    decreases |text|
  {
    hide Find;
    var i := Find(text);
    FindMeaning(text);
    if i >= 0 {
      SplitMeaning(text[i + 2..]);
      var raws := RawEvents(text);
      assert raws[1..] == RawEvents(text[i + 2..]);
      assert text == text[..i] + text[i..i + 2] + text[i + 2..];
    }
  }

  // ----- Handling in one go or in pieces

  lemma {:induction false} HandleAppend(p: Progress, a: seq<string>, b: seq<string>, parse: string -> Option<Event>)
    ensures HandleAll(p, a + b, parse) == HandleAll(HandleAll(p, a, parse), b, parse)
    decreases |a|
  {
    if a == [] {
      assert a + b == b;
    } else if !p.failed {
      assert (a + b)[1..] == a[1..] + b;
      HandleAppend(Handle(p, a[0], parse), a[1..], b, parse);
    }
  }

  /** Draining a buffer handles its events and leaves its tail. */
  lemma {:induction false} DrainHandles(buffer: string, p: Progress, parse: string -> Option<Event>)
    ensures Drain(buffer, p, parse).1 == HandleAll(p, Events(buffer), parse)
    ensures !Drain(buffer, p, parse).1.failed ==> Drain(buffer, p, parse).0 == Tail(buffer)
    decreases |buffer|
  {
    var i := Find(buffer);
    if i >= 0 && !p.failed {
      PayloadsCons(buffer[..i], RawEvents(buffer[i + 2..]));
      assert Events(buffer)[1..] == Events(buffer[i + 2..]);
      DrainHandles(buffer[i + 2..], Handle(p, Payload(buffer[..i]), parse), parse);
    } else if !p.failed {
      assert Events(buffer) == [];
    }
  }

  /** The events up to the first that cannot be parsed, that one included. */
  function Handleable(payloads: seq<string>, parse: string -> Option<Event>): seq<string> {
    if payloads == [] then []
    else if payloads[0] != "" && payloads[0] != DONE && parse(payloads[0]).None? then [payloads[0]]
    else [payloads[0]] + Handleable(payloads[1..], parse)
  }

  /** Handling a list of events handles its handleable part, all of it unless an event fails. */
  lemma {:induction false} HandledPart(p: Progress, payloads: seq<string>, parse: string -> Option<Event>)
    requires !p.failed
    ensures var q, part := HandleAll(p, payloads, parse), Handleable(payloads, parse);
            && q.handled == p.handled + part
            && (part != [] && !q.failed ==> part == payloads)
            && (q.failed ==> part != [])
            && (!p.done && q.done ==> DONE in part)
    decreases |payloads|
  {
    if payloads != [] {
      var next := Handle(p, payloads[0], parse);
      var part := Handleable(payloads, parse);
      if !next.failed {
        HandledPart(next, payloads[1..], parse);
        AppendAssociates(p.handled, [payloads[0]], Handleable(payloads[1..], parse));
      }
    }
  }

  lemma {:induction false} HandleableAppend(p: Progress, a: seq<string>, b: seq<string>, parse: string -> Option<Event>)
    requires !p.failed
    ensures Handleable(a + b, parse) ==
            if HandleAll(p, a, parse).failed then Handleable(a, parse) else a + Handleable(b, parse)
    decreases |a|
  {
    hide Handle;
    if a == [] {
      assert a + b == b;
    } else {
      CutFirstPart(a, b, 1);
      HandleMeaning(p, a[0], parse);
      var next := Handle(p, a[0], parse);
      if !next.failed {
        HandleableAppend(next, a[1..], b, parse);
        AppendAssociates([a[0]], a[1..], Handleable(b, parse));
        assert a == [a[0]] + a[1..];
      }
    }
  }

  // ----- Main results

  /** No event comes after the one that says the stream is done. */
  predicate DoneIsLast(payloads: seq<string>) {
    forall i :: 0 <= i < |payloads| - 1 ==> payloads[i] != DONE
  }

  function Handled(chunks: seq<string>, parse: string -> Option<Event>): seq<string> {
    Read("", INITIAL, chunks, parse).handled
  }

  /** After the chunks of `prefix`, the rest of the text is handled as if it had come with it. */
  lemma {:induction false} ReadFrom(prefix: string, chunks: seq<string>, parse: string -> Option<Event>)
    requires var p := HandleAll(INITIAL, Events(prefix), parse); !p.failed
    requires DoneIsLast(Handleable(Events(prefix + Concat(chunks)), parse))
    ensures Read(Tail(prefix), HandleAll(INITIAL, Events(prefix), parse), chunks, parse).handled ==
            Handleable(Events(prefix + Concat(chunks)), parse)
    decreases |chunks|
  {
    hide Events, Tail, Find, Handle;
    var before := Events(prefix);
    var p := HandleAll(INITIAL, before, parse);
    HandledPart(INITIAL, before, parse);
    if chunks == [] {
      assert prefix + Concat(chunks) == prefix;
    } else if p.done {
      NothingAfterDone(prefix, Concat(chunks), parse);
    } else {
      var text := prefix + chunks[0];
      AppendAssociates(prefix, chunks[0], Concat(chunks[1..]));
      EventsOfLonger(prefix, chunks[0]);
      HandleAppend(INITIAL, before, Events(Tail(prefix) + chunks[0]), parse);
      DrainHandles(Tail(prefix) + chunks[0], p, parse);
      var next := HandleAll(INITIAL, Events(text), parse);
      if next.failed {
        HandledPart(INITIAL, Events(text), parse);
        EventsOfLonger(text, Concat(chunks[1..]));
        HandleableAppend(INITIAL, Events(text), Events(Tail(text) + Concat(chunks[1..])), parse);
      } else {
        ReadFrom(text, chunks[1..], parse);
      }
    }
  }

  lemma NothingAfterDone(prefix: string, rest: string, parse: string -> Option<Event>)
    requires var p := HandleAll(INITIAL, Events(prefix), parse); !p.failed && p.done
    requires DoneIsLast(Handleable(Events(prefix + rest), parse))
    ensures Handleable(Events(prefix + rest), parse) == Handleable(Events(prefix), parse)
  {
    hide Events, Tail, Find, Handle, Handleable;
    var before, after := Events(prefix), Events(Tail(prefix) + rest);
    HandledPart(INITIAL, before, parse);
    EventsOfLonger(prefix, rest);
    HandleableAppend(INITIAL, before, after, parse);
    HandleableAppend(INITIAL, before, [], parse);
    assert before + [] == before;
    assert Handleable([], parse) == [];
    var all := Handleable(Events(prefix + rest), parse);
    var i :| 0 <= i < |before| && before[i] == DONE;
    assert all[i] == DONE;
  }

  /**
   However the text is cut into chunks, the events handled are those of its leftmost split at blank
   lines, up to the first that cannot be parsed, as long as none comes after `[DONE]`.
   */
  lemma ChunkingIndependent(chunks: seq<string>, parse: string -> Option<Event>)
    requires DoneIsLast(Handleable(Events(Concat(chunks)), parse))
    ensures Handled(chunks, parse) == Handleable(Events(Concat(chunks)), parse)
  {
    assert "" + Concat(chunks) == Concat(chunks);
    assert Events("") == [] && Tail("") == "";
    ReadFrom("", chunks, parse);
  }

  /** Reading the first chunk of a stream. */
  lemma FirstChunk(chunks: seq<string>, parse: string -> Option<Event>)
    requires chunks != []
    ensures var p := HandleAll(INITIAL, Events(chunks[0]), parse);
            p.done || p.failed || |chunks| == 1 ==> Read("", INITIAL, chunks, parse) == p
  {
    hide Events, Tail, Find, Handle, HandleAll, Drain;
    assert "" + chunks[0] == chunks[0];
    DrainHandles(chunks[0], INITIAL, parse);
  }

  /** A text that arrives in one piece has all its events handled, those after `[DONE]` too. */
  lemma OneChunkHandlesAll(text: string, parse: string -> Option<Event>)
    ensures Handled([text], parse) == Handleable(Events(text), parse)
  {
    hide Events, Read, HandleAll, Handleable;
    FirstChunk([text], parse);
    HandledPart(INITIAL, Events(text), parse);
  }

  /** A complete event in front of a text is its first event. */
  lemma EventInFront(text: string, i: nat, more: string)
    requires Find(text) == i
    ensures Events(text[..i + 2] + more) == [Payload(text[..i])] + Events(more)
  {
    hide Find, Events, Payload;
    var head := text[..i + 2];
    var all := head + more;
    FindAtEnd(text, i);
    FindInLonger(head, more);
    SplitFirst(all);
    assert head[..i] == text[..i];
    CutFirstPart(head, more, i);
    assert all[i + 2..] == more;
  }

  lemma NoEvents()
    ensures Events("") == []
  {
  }

  /** A cut right after event number `k` leaves exactly the events before the cut complete. */
  lemma {:induction false} CutAfter(text: string, k: nat) returns (front: string, back: string)
    requires k <= |Events(text)|
    ensures text == front + back
    ensures Events(front) == Events(text)[..k]
    decreases |text|
  {
    hide Payload, Find, Events;
    var i := Find(text);
    SplitFirst(text);
    if k == 0 {
      front, back := "", text;
      NoEvents();
    } else {
      var rest := text[i + 2..];
      var f, b := CutAfter(rest, k - 1);
      front, back := text[..i + 2] + f, b;
      EventInFront(text, i, f);
      assert text == text[..i + 2] + rest;
      AppendAssociates(text[..i + 2], f, b);
    }
  }

  lemma {:induction false} FindAtEnd(text: string, i: nat)
    requires Find(text) == i
    ensures Find(text[..i + 2]) == i
    decreases i
  {
    if i > 0 {
      FindAtEnd(text[1..], i - 1);
      assert text[..i + 2][1..] == text[1..][..i + 1];
    }
  }

  /** Every way of cutting the text leads to the same events exactly when none comes after `[DONE]`. */
  lemma ChunkingIndependentIff(text: string, parse: string -> Option<Event>)
    ensures (forall chunks :: Concat(chunks) == text ==> Handled(chunks, parse) == Handled([text], parse)) <==>
            DoneIsLast(Handleable(Events(text), parse))
  {
    OneChunkHandlesAll(text, parse);
    var all := Handleable(Events(text), parse);
    if DoneIsLast(all) {
      forall chunks | Concat(chunks) == text ensures Handled(chunks, parse) == Handled([text], parse) {
        ChunkingIndependent(chunks, parse);
      }
    } else {
      var chunks := EarlyCut(text, parse);
    }
  }

  /** Handling a list that ends in `[DONE]` leaves the stream done, unless an event fails. */
  lemma {:induction false} EndsDone(p: Progress, payloads: seq<string>, parse: string -> Option<Event>)
    requires payloads != [] && payloads[|payloads| - 1] == DONE
    ensures HandleAll(p, payloads, parse).failed || HandleAll(p, payloads, parse).done
    decreases |payloads|
  {
    if |payloads| > 1 && !p.failed {
      EndsDone(Handle(p, payloads[0], parse), payloads[1..], parse);
    }
  }

  /** An event after `[DONE]` is lost when a chunk happens to end right after `[DONE]`. */
  lemma EarlyCut(text: string, parse: string -> Option<Event>) returns (chunks: seq<string>)
    requires !DoneIsLast(Handleable(Events(text), parse))
    ensures Concat(chunks) == text && Handled(chunks, parse) != Handleable(Events(text), parse)
  {
    hide Events, Read, HandleAll, Handleable;
    var all := Handleable(Events(text), parse);
    var i :| 0 <= i < |all| - 1 && all[i] == DONE;
    HandleableIsPrefix(Events(text), parse);
    var front, back := CutAfter(text, i + 1);
    chunks := [front, back];
    assert chunks[1..] == [back] && [back][1..] == [] && Concat([back]) == back + "" == back;
    assert Events(front)[i] == DONE;
    EndsDone(INITIAL, Events(front), parse);
    FirstChunk(chunks, parse);
    HandledPart(INITIAL, Events(front), parse);
    HandleableIsPrefix(Events(front), parse);
    assert |Handled(chunks, parse)| <= i + 1;
  }

  lemma {:induction false} HandleableIsPrefix(payloads: seq<string>, parse: string -> Option<Event>)
    ensures |Handleable(payloads, parse)| <= |payloads|
    ensures Handleable(payloads, parse) == payloads[..|Handleable(payloads, parse)|]
  {
    if payloads != [] {
      HandleableIsPrefix(payloads[1..], parse);
    }
  }

  // ----- Approvals

  predicate Distinct(ids: seq<string>) {
    forall i, j :: 0 <= i < j < |ids| ==> ids[i] != ids[j]
  }

  /** The plan an event asks to approve. */
  function PlanOf(payload: string, parse: string -> Option<Event>): Option<string> {
    if payload == "" || payload == DONE then None
    else
      match parse(payload)
      case Some(Approval(id)) => if id == "" then None else Some(id)
      case _ => None
  }

  ghost predicate ApprovesOnce(p: Progress, parse: string -> Option<Event>) {
    && Distinct(p.approved)
    && (forall id :: id in p.approved <==> exists i :: 0 <= i < |p.handled| && PlanOf(p.handled[i], parse) == Some(id))
  }

  lemma HandleApprovesOnce(p: Progress, payload: string, parse: string -> Option<Event>)
    requires ApprovesOnce(p, parse)
    ensures ApprovesOnce(Handle(p, payload, parse), parse)
  {
    var q := Handle(p, payload, parse);
    assert q.handled == p.handled + [payload] && q.handled[|p.handled|] == payload;
    forall id
      ensures id in q.approved <==> exists i :: 0 <= i < |q.handled| && PlanOf(q.handled[i], parse) == Some(id)
    {
      if i :| 0 <= i < |p.handled| && PlanOf(p.handled[i], parse) == Some(id) {
        assert q.handled[i] == p.handled[i];
      }
      if i :| 0 <= i < |q.handled| && PlanOf(q.handled[i], parse) == Some(id) {
        assert i < |p.handled| ==> q.handled[i] == p.handled[i];
      }
    }
  }

  lemma {:induction false} HandleAllApprovesOnce(p: Progress, payloads: seq<string>, parse: string -> Option<Event>)
    requires ApprovesOnce(p, parse)
    ensures ApprovesOnce(HandleAll(p, payloads, parse), parse)
    decreases |payloads|
  {
    if payloads != [] && !p.failed {
      HandleApprovesOnce(p, payloads[0], parse);
      HandleAllApprovesOnce(Handle(p, payloads[0], parse), payloads[1..], parse);
    }
  }

  /** Over any chunks, a plan is approved exactly once if an event handled asks for it, and never otherwise. */
  lemma {:induction false} PlansApprovedOnce(buffer: string, p: Progress, chunks: seq<string>,
                                             parse: string -> Option<Event>)
    requires ApprovesOnce(p, parse)
    ensures ApprovesOnce(Read(buffer, p, chunks, parse), parse)
    decreases |chunks|
  {
    if !p.done && !p.failed && chunks != [] {
      var (rest, next) := Drain(buffer + chunks[0], p, parse);
      DrainHandles(buffer + chunks[0], p, parse);
      HandleAllApprovesOnce(p, Events(buffer + chunks[0]), parse);
      PlansApprovedOnce(rest, next, chunks[1..], parse);
    }
  }

  /** An empty event right behind `[DONE]` in the same chunk makes the reading go on. */
  lemma EmptyEventResumes(chunk: string, chunks: seq<string>, parse: string -> Option<Event>)
    requires Events(chunk) == ["[DONE]", ""] && Tail(chunk) == ""
    ensures Read("", INITIAL, [chunk] + chunks, parse) ==
            Read("", Progress(["[DONE]", ""], [], false, false), chunks, parse)
  {
    var p := HandleAll(INITIAL, Events(chunk), parse);
    DrainHandles(chunk, INITIAL, parse);
    assert "" + chunk == chunk && ([chunk] + chunks)[1..] == chunks;
    assert ["[DONE]", ""][1..] == [""] && [""][1..] == [];
    assert INITIAL.handled + ["[DONE]"] == ["[DONE]"] && ["[DONE]"] + [""] == ["[DONE]", ""];
    assert p == Progress(["[DONE]", ""], [], false, false);
  }
}
