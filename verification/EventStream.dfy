/**
 Reading a command's event stream: newline-delimited JSON is cut out of text chunks of any size, and
 each value goes through the identity, sequence and terminal checks of one stream call.
 */
module EventStream {
  import opened Optional
  import opened BlankText
  import opened TextSplit

  // ----- Lines -----

  /** `text.split("\n")`. */
  function Lines(text: string): (lines: seq<string>)
    ensures lines != []
  {
    Split(text, '\n')
  }

  /** The lines a newline has ended. */
  function Complete(text: string): seq<string>
  {
    Front(Lines(text))
  }

  /** What follows the last newline. */
  function Partial(text: string): string
  {
    Last(Lines(text))
  }

  function NonBlank(lines: seq<string>): seq<string>
  {
    if lines == [] then []
    else if Blank(lines[0]) then NonBlank(lines[1..])
    else [lines[0]] + NonBlank(lines[1..])
  }

  lemma {:induction false} NonBlankAppend(a: seq<string>, b: seq<string>)
    ensures NonBlank(a + b) == NonBlank(a) + NonBlank(b)
  {
    if a == [] {
      assert a + b == b;
    } else {
      assert (a + b)[1..] == a[1..] + b;
      NonBlankAppend(a[1..], b);
    }
  }

  /** Appending text only extends the last line and adds lines after it. */
  lemma LinesAppend(a: string, b: string)
    ensures Lines(a + b) == Complete(a) + Lines(Partial(a) + b)
  {
    SplitAppend(a, b, '\n');
  }

  function Concat(chunks: seq<string>): string
  {
    if chunks == [] then [] else Concat(chunks[..|chunks| - 1]) + chunks[|chunks| - 1]
  }

  /** The values a stream hands out when it ends: all non-blank lines of its text, the last one unended or not. */
  function Values(text: string): seq<string>
  {
    NonBlank(Lines(text))
  }

  // ----- The checks of one stream call -----

  datatype Command = Command(requestId: string, operationId: string)

  datatype EventKind = Accepted | Progress | Terminal

  datatype Event = Event(requestId: string, operationId: string, sequence: int, kind: EventKind)

  /** Parsing and decoding of a line, and the caller's handler given all events so far; both may throw. */
  datatype Surroundings = Surroundings(decode: string -> Option<Event>, handle: seq<Event> -> bool)

  predicate IsTerminal(e: Event) { !e.kind.Accepted? && !e.kind.Progress? }

  /** Event `i` of a stream: it carries the command's identities and its own position, and ends nothing early. */
  predicate InProtocol(c: Command, events: seq<Event>)
  {
    forall i :: 0 <= i < |events| ==>
      && events[i].requestId == c.requestId && events[i].operationId == c.operationId
      && events[i].sequence == i
      && (IsTerminal(events[i]) ==> i == |events| - 1)
  }

  /** The events of some lines, as far as the lines decode. */
  function Decoded(s: Surroundings, lines: seq<string>): (events: seq<Event>)
    ensures |events| <= |lines|
  {
    if lines == [] || s.decode(lines[0]).None? then []
    else [s.decode(lines[0]).value] + Decoded(s, lines[1..])
  }

  /** A line that can follow the events delivered before it. */
  predicate Fits(c: Command, s: Surroundings, before: seq<Event>, line: string)
  {
    s.decode(line).Some? && InProtocol(c, before + [s.decode(line).value])
  }

  /** Result of feeding lines in order: the events delivered, and whether something failed. */
  datatype Fed = Fed(events: seq<Event>, ok: bool)

  /** Delivers events until one does not fit or its handler throws; the last delivered event is the one that threw. */
  function Feed(c: Command, s: Surroundings, from: Fed, lines: seq<string>): Fed
    decreases |lines|
  {
    if !from.ok || lines == [] then from
    else if !Fits(c, s, from.events, lines[0]) then Fed(from.events, false)
    else
      var events := from.events + [s.decode(lines[0]).value];
      Feed(c, s, Fed(events, s.handle(events)), lines[1..])
  }

  lemma {:induction false} FeedAppend(c: Command, s: Surroundings, from: Fed, a: seq<string>, b: seq<string>)
    ensures Feed(c, s, from, a + b) == Feed(c, s, Feed(c, s, from, a), b)
    decreases |a|
  {
    if a == [] {
      assert a + b == b;
    } else if from.ok && Fits(c, s, from.events, a[0]) {
      assert (a + b)[1..] == a[1..] + b;
      var events := from.events + [s.decode(a[0]).value];
      FeedAppend(c, s, Fed(events, s.handle(events)), a[1..], b);
    }
  }

  /** The variables the consuming closure of `stream` captures, and the events its caller has received. */
  class StreamConsumer {
    const command: Command
    const surroundings: Surroundings
    var sequence: int
    var terminalReceived: bool
    var delivered: seq<Event>

    ghost predicate Valid()
      reads this
    {
      && InProtocol(command, delivered)
      && sequence == |delivered| - 1
      && terminalReceived == (delivered != [] && IsTerminal(delivered[|delivered| - 1]))
    }

    constructor (command: Command, surroundings: Surroundings)
      ensures Valid() && delivered == []
      ensures this.command == command && this.surroundings == surroundings
    {
      this.command, this.surroundings := command, surroundings;
      sequence, terminalReceived, delivered := -1, false, [];
    }

    /** One value: false stands for a thrown error. */
    method Consume(line: string) returns (ok: bool)
      requires Valid()
      modifies this
      ensures Valid()
      ensures Fed(delivered, ok) == Feed(command, surroundings, Fed(old(delivered), true), [line])
    {
      var decoded := surroundings.decode(line);
      if decoded.None? {
        return false;
      }
      var event := decoded.value;
      ghost var next := delivered + [event];
      assert next[|delivered|] == event;
      if event.requestId != command.requestId || event.operationId != command.operationId {
        return false;
      }
      if event.sequence != sequence + 1 {
        return false;
      }
      if terminalReceived {
        assert IsTerminal(next[|delivered| - 1]);
        return false;
      }
      sequence := event.sequence;
      terminalReceived := IsTerminal(event);
      delivered := delivered + [event];
      ok := surroundings.handle(delivered);
    }
  }

  /**
   `readNdjson`. The chunks are the decoded texts of the reads, the last one that of the final flush;
   `ended` is false when a read fails after them. False stands for a thrown error.
   */
  method ReadNdjson(chunks: seq<string>, ended: bool, consumer: StreamConsumer) returns (ok: bool)
    requires consumer.Valid()
    modifies consumer
    ensures consumer.Valid()
    ensures var values := if ended then Values(Concat(chunks)) else NonBlank(Complete(Concat(chunks)));
            var fed := Feed(consumer.command, consumer.surroundings, Fed(old(consumer.delivered), true), values);
            consumer.delivered == fed.events && ok == (fed.ok && ended)
  {
    ghost var c, s, from := consumer.command, consumer.surroundings, Fed(consumer.delivered, true);
    var buffered := "";
    for i := 0 to |chunks|
      invariant consumer.Valid()
      invariant buffered == Partial(Concat(chunks[..i]))
      invariant Fed(consumer.delivered, true) == Feed(c, s, from, NonBlank(Complete(Concat(chunks[..i]))))
    {
      ghost var text := Concat(chunks[..i]);
      assert chunks[..i + 1][..i] == chunks[..i];
      assert Concat(chunks[..i + 1]) == text + chunks[i];
      LinesAppend(text, chunks[i]);
      buffered := buffered + chunks[i];
      var lines := Lines(buffered);
      buffered := Last(lines);
      lines := Front(lines);
      FrontAppend(Complete(text), Lines(Partial(text) + chunks[i]));
      NonBlankAppend(Complete(text), lines);
      FeedAppend(c, s, from, NonBlank(Complete(text)), NonBlank(lines));
      ok := ConsumeLines(lines, consumer);
      if !ok {
        RestIgnored(c, s, from, chunks, i + 1);
        return false;
      }
    }
    assert chunks[..|chunks|] == chunks;
    if !ended {
      return false;
    }
    ghost var text := Concat(chunks);
    assert Lines(text) == Complete(text) + [buffered];
    NonBlankAppend(Complete(text), [buffered]);
    FeedAppend(c, s, from, NonBlank(Complete(text)), NonBlank([buffered]));
    ok := ConsumeLines([buffered], consumer);
  }

  /** The inner loop over the complete lines of one read. */
  method ConsumeLines(lines: seq<string>, consumer: StreamConsumer) returns (ok: bool)
    requires consumer.Valid()
    modifies consumer
    ensures consumer.Valid()
    ensures Fed(consumer.delivered, ok)
         == Feed(consumer.command, consumer.surroundings, Fed(old(consumer.delivered), true), NonBlank(lines))
  {
    ghost var c, s, from := consumer.command, consumer.surroundings, Fed(consumer.delivered, true);
    for i := 0 to |lines|
      invariant consumer.Valid()
      invariant Fed(consumer.delivered, true) == Feed(c, s, from, NonBlank(lines[..i]))
    {
      assert lines == lines[..i] + ([lines[i]] + lines[i + 1..]) && lines[..i + 1] == lines[..i] + [lines[i]];
      assert NonBlank([lines[i]]) == if Blank(lines[i]) then [] else [lines[i]];
      NonBlankAppend(lines[..i], [lines[i]]);
      assert NonBlank(lines[..i]) + [] == NonBlank(lines[..i]);
      NonBlankAppend(lines[..i], [lines[i]] + lines[i + 1..]);
      if !Blank(lines[i]) {
        FeedAppend(c, s, from, NonBlank(lines[..i]), [lines[i]]);
        FeedAppend(c, s, from, NonBlank(lines[..i]), [lines[i]] + NonBlank(lines[i + 1..]));
        FeedAppend(c, s, Fed(consumer.delivered, true), [lines[i]], NonBlank(lines[i + 1..]));
        ok := consumer.Consume(lines[i]);
        if !ok {
          return;
        }
      }
    }
    assert lines[..|lines|] == lines;
    return true;
  }

  /** Once a value has failed, later chunks change nothing. */
  lemma RestIgnored(c: Command, s: Surroundings, from: Fed, chunks: seq<string>, n: nat)
    requires n <= |chunks| && !Feed(c, s, from, NonBlank(Complete(Concat(chunks[..n])))).ok
    ensures Feed(c, s, from, NonBlank(Complete(Concat(chunks)))) ==
      Feed(c, s, from, NonBlank(Complete(Concat(chunks[..n]))))
    ensures Feed(c, s, from, Values(Concat(chunks))) == Feed(c, s, from, NonBlank(Complete(Concat(chunks[..n]))))
  {
    var head, tail := Concat(chunks[..n]), Concat(chunks[n..]);
    assert chunks == chunks[..n] + chunks[n..];
    ConcatAppend(chunks[..n], chunks[n..]);
    LinesAppend(head, tail);
    var more := Lines(Partial(head) + tail);
    FrontAppend(Complete(head), more);
    NonBlankAppend(Complete(head), Front(more));
    NonBlankAppend(Complete(head), more);
    FeedAppend(c, s, from, NonBlank(Complete(head)), NonBlank(Front(more)));
    FeedAppend(c, s, from, NonBlank(Complete(head)), NonBlank(more));
  }

  lemma {:induction false} ConcatAppend(a: seq<string>, b: seq<string>)
    ensures Concat(a + b) == Concat(a) + Concat(b)
    decreases |b|
  {
    if b == [] {
      assert a + b == a;
    } else {
      var n := |b| - 1;
      assert (a + b)[..|a + b| - 1] == a + b[..n] && (a + b)[|a + b| - 1] == b[n];
      ConcatAppend(a, b[..n]);
      assert Concat(a) + Concat(b[..n]) + b[n] == Concat(a) + (Concat(b[..n]) + b[n]);
    }
  }

  /** `stream`, from the first read on: false stands for any thrown error. */
  method Stream(command: Command, surroundings: Surroundings, chunks: seq<string>, ended: bool)
    returns (ok: bool, delivered: seq<Event>)
    ensures ok <==> ended && CompleteStream(command, surroundings, Values(Concat(chunks)))
    ensures ok ==> delivered == Decoded(surroundings, Values(Concat(chunks)))
    ensures InProtocol(command, delivered) && delivered <= Decoded(surroundings, Values(Concat(chunks)))
  {
    var consumer := new StreamConsumer(command, surroundings);
    ok := ReadNdjson(chunks, ended, consumer);
    delivered := consumer.delivered;
    ghost var text := Concat(chunks);
    ghost var values := if ended then Values(text) else NonBlank(Complete(text));
    FeedDelivers(command, surroundings, Fed([], true), values);
    assert [] + Decoded(surroundings, values) == Decoded(surroundings, values);
    if !ended {
      assert Lines(text) == Complete(text) + [Partial(text)];
      NonBlankAppend(Complete(text), [Partial(text)]);
      DecodedPrefix(surroundings, NonBlank(Complete(text)), NonBlank([Partial(text)]));
    }
    if ok && consumer.sequence < 0 {
      ok := false;
    }
    if ok && !consumer.terminalReceived {
      ok := false;
    }
    FeedCompletes(command, surroundings, values);
  }

  /**
   What a complete stream looks like: every value decodes to an event, the events carry the command's
   identities, are numbered from zero without a gap, only the last is terminal, and no handler throws.
   */
  ghost predicate CompleteStream(c: Command, s: Surroundings, values: seq<string>)
  {
    var events := Decoded(s, values);
    && values != [] && |events| == |values|
    && (forall i :: 0 <= i < |events| ==>
          && events[i].requestId == c.requestId && events[i].operationId == c.operationId && events[i].sequence == i
          && (IsTerminal(events[i]) <==> i == |events| - 1))
    && forall n :: 0 < n <= |events| ==> s.handle(events[..n])
  }

  lemma {:induction false} DecodedPrefix(s: Surroundings, a: seq<string>, b: seq<string>)
    ensures Decoded(s, a) <= Decoded(s, a + b)
  {
    if a != [] {
      assert (a + b)[1..] == a[1..] + b;
      DecodedPrefix(s, a[1..], b);
    }
  }

  /** Feeding delivers a protocol prefix of the decoded values, nothing after a terminal event. */
  lemma {:induction false} FeedDelivers(c: Command, s: Surroundings, from: Fed, lines: seq<string>)
    requires InProtocol(c, from.events)
    ensures var fed := Feed(c, s, from, lines);
            && InProtocol(c, fed.events) && fed.events <= from.events + Decoded(s, lines)
            && (from.ok && fed.ok ==> fed.events == from.events + Decoded(s, lines))
    decreases |lines|
  {
    if from.ok && lines != [] && Fits(c, s, from.events, lines[0]) {
      var e := s.decode(lines[0]).value;
      var events := from.events + [e];
      FeedDelivers(c, s, Fed(events, s.handle(events)), lines[1..]);
      assert from.events + ([e] + Decoded(s, lines[1..])) == events + Decoded(s, lines[1..]);
    }
  }

  /** Feeding all lines without failure is having all of them decode, fit and be handled. */
  lemma {:induction false} FeedSucceeds(c: Command, s: Surroundings, before: seq<Event>, lines: seq<string>)
    requires InProtocol(c, before)
    ensures var all := before + Decoded(s, lines);
            Feed(c, s, Fed(before, true), lines).ok <==>
              && |Decoded(s, lines)| == |lines| && InProtocol(c, all)
              && forall n :: |before| < n <= |all| ==> s.handle(all[..n])
    decreases |lines|
  {
    var all := before + Decoded(s, lines);
    if lines != [] && s.decode(lines[0]).Some? {
      var e := s.decode(lines[0]).value;
      var events := before + [e];
      assert all == events + Decoded(s, lines[1..]);
      assert all[..|events|] == events;
      if InProtocol(c, all) {
        ProtocolPrefix(c, events, all);
      }
      if InProtocol(c, events) && s.handle(events) {
        FeedSucceeds(c, s, events, lines[1..]);
      }
    }
  }

  lemma ProtocolPrefix(c: Command, events: seq<Event>, all: seq<Event>)
    requires events <= all && InProtocol(c, all)
    ensures InProtocol(c, events)
  {
    assert forall i :: 0 <= i < |events| ==> events[i] == all[i];
  }

  lemma FeedCompletes(c: Command, s: Surroundings, values: seq<string>)
    ensures var fed := Feed(c, s, Fed([], true), values);
            CompleteStream(c, s, values) <==> fed.ok && fed.events != [] && IsTerminal(fed.events[|fed.events| - 1])
  {
    var events := Decoded(s, values);
    FeedSucceeds(c, s, [], values);
    FeedDelivers(c, s, Fed([], true), values);
    assert [] + events == events;
  }
}
