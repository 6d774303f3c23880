/**
 * A stream buffer that forwards everything except whole lines starting with a prefix. It decides character by
 * character and may be told to sync at any moment; the specification looks at whole lines instead.
 */
module LineFilter {
  import opened Prelude

  datatype Event = Put(c: char) | Sync

  const NEWLINE: Event := Put('\n')

  // ----- the line-level filter -----

  /** The events since the last newline. */
  ghost function LastLine(events: seq<Event>): seq<Event> {
    if events == [] || events[|events| - 1] == NEWLINE then []
    else LastLine(events[..|events| - 1]) + [events[|events| - 1]]
  }

  /** The completed lines, each with its newline. */
  ghost function Lines(events: seq<Event>): seq<seq<Event>> {
    if events == [] then []
    else
      var before := events[..|events| - 1];
      if events[|events| - 1] == NEWLINE then Lines(before) + [LastLine(before) + [NEWLINE]] else Lines(before)
  }

  ghost function Text(events: seq<Event>): string {
    if events == [] then ""
    else
      var before := Text(events[..|events| - 1]);
      if events[|events| - 1].Put? then before + [events[|events| - 1].c] else before
  }

  /** A sync comes at this event, while the line has begun and may still become one with the prefix. */
  ghost predicate SyncsEarly(prefix: string, line: seq<Event>, i: nat) {
    i < |line| && line[i].Sync? && "" < Text(line[..i]) < prefix
  }

  ghost predicate Interrupted(prefix: string, line: seq<Event>) {
    exists i: nat :: SyncsEarly(prefix, line, i)
  }

  /** A line that starts with a prefix the filter can recognise. */
  ghost predicate Matches(prefix: string, line: seq<Event>) {
    prefix != "" && '\n' !in prefix && prefix <= Text(line)
  }

  ghost predicate Drops(prefix: string, line: seq<Event>) {
    Matches(prefix, line) && !Interrupted(prefix, line)
  }

  ghost predicate Withholds(prefix: string, line: seq<Event>) {
    Text(line) < prefix && !Interrupted(prefix, line)
  }

  ghost function Kept(prefix: string, lines: seq<seq<Event>>): string {
    if lines == [] then ""
    else
      var line := lines[|lines| - 1];
      Kept(prefix, lines[..|lines| - 1]) + if Drops(prefix, line) then "" else Text(line)
  }

  /** What has left the filter: the completed lines that stay, and the current line unless dropped or undecided. */
  ghost function Filtered(prefix: string, events: seq<Event>): string {
    var line := LastLine(events);
    Kept(prefix, Lines(events)) + if Drops(prefix, line) || Withholds(prefix, line) then "" else Text(line)
  }

  // ----- the stream buffer -----

  datatype State = Undecided | Forwarding | Dropping

  class Sink {
    var written: string
    /** How much of it has been flushed. */
    var flushed: nat

    constructor ()
      ensures written == "" && flushed == 0
    {
      written := "";
      flushed := 0;
    }
  }

  class LinePrefixFilter {
    const sink: Sink
    const prefix: string
    var held: string
    var state: State
    ghost var events: seq<Event>

    /** The fields are what the current line says, and the sink holds what the line-level filter lets through. */
    ghost predicate Valid()
      reads this, sink
    {
      var line := LastLine(events);
      && Represents(prefix, line, state, held)
      && sink.written == Filtered(prefix, events)
    }

    constructor (sink: Sink, prefix: string)
      requires sink.written == ""
      ensures Valid() && this.sink == sink && this.prefix == prefix && events == []
    {
      this.sink := sink;
      this.prefix := prefix;
      held := "";
      state := Undecided;
      events := [];
    }

    method Forward()
      modifies sink
      ensures sink.written == old(sink.written) + held && sink.flushed == old(sink.flushed)
    {
      sink.written := sink.written + held;
    }

    method Reset()
      modifies this
      ensures state == Undecided && held == "" && events == old(events)
    {
      state := Undecided;
      held := "";
    }

    /** One character, or the end-of-file value, which is ignored. */
    method Overflow(ch: Option<char>)
      requires Valid()
      modifies this, sink
      ensures Valid() && sink.flushed == old(sink.flushed)
      ensures held != "" ==> state == Undecided && held < prefix && held == Text(LastLine(events))
      ensures events == old(events) + if ch.Some? then [Put(ch.value)] else []
    {
      hide Represents, Filtered, LastLine;
      HeldIsProperPrefix(prefix, LastLine(events), state, held);
      if ch.None? {
        return;
      }
      var c := ch.value;
      match state {
        case Undecided =>
          held := held + [c];
          if c == '\n' {
            Forward();
            Reset();
          } else if |held| > |prefix| || prefix[..|held|] != held {
            Forward();
            state := Forwarding;
            held := "";
          } else if |held| == |prefix| {
            state := Dropping;
            held := "";
          }
        case Forwarding =>
          sink.written := sink.written + [c];
          if c == '\n' {
            Reset();
          }
        case Dropping =>
          if c == '\n' {
            Reset();
          }
      }
      events := events + [Put(c)];
      if c == '\n' {
        NewlineStep(prefix, old(events), old(state), old(held));
      } else if old(state) == Undecided {
        UndecidedStep(prefix, old(events), c, old(held));
      } else {
        DecidedStep(prefix, old(events), c, old(state));
      }
      HeldIsProperPrefix(prefix, LastLine(events), state, held);
    }

    method Sync()
      requires Valid()
      modifies this, sink
      ensures Valid() && events == old(events) + [Event.Sync]
      ensures held == "" && sink.flushed == |sink.written|
    {
      hide Represents, Filtered, LastLine;
      if held != "" {
        Forward();
        state := Forwarding;
        held := "";
      }
      sink.flushed := |sink.written|;
      events := events + [Event.Sync];
      SyncStep(prefix, old(events), old(state), old(held));
    }
  }

  ghost predicate Represents(prefix: string, line: seq<Event>, state: State, held: string) {
    && (state == Undecided <==> Text(line) == "" || Withholds(prefix, line))
    && (state == Dropping <==> Drops(prefix, line))
    && (state == Undecided ==> !Interrupted(prefix, line))
    && held == (if state == Undecided then Text(line) else "")
    && NEWLINE !in line
  }

  lemma TextGrows(line: seq<Event>, e: Event)
    ensures Text(line + [e]) == Text(line) + if e.Put? then [e.c] else ""
  {
  }

  lemma SyncsEarlyGrows(prefix: string, line: seq<Event>, e: Event, i: nat)
    ensures SyncsEarly(prefix, line + [e], i)
            <==> SyncsEarly(prefix, line, i) || (i == |line| && e.Sync? && "" < Text(line) < prefix)
  {
    hide Text;
    var longer := line + [e];
    if i < |line| {
      assert longer[..i] == line[..i];
    } else if i == |line| {
      assert longer[..i] == line;
    }
  }

  lemma Extends(prefix: string, line: seq<Event>, e: Event)
    ensures Text(line + [e]) == Text(line) + if e.Put? then [e.c] else ""
    ensures Interrupted(prefix, line + [e])
            <==> Interrupted(prefix, line) || (e.Sync? && "" < Text(line) < prefix)
  {
    hide Text, SyncsEarly;
    TextGrows(line, e);
    SyncsEarlyGrows(prefix, line, e, |line|);
    forall i: nat
      ensures SyncsEarly(prefix, line, i) ==> SyncsEarly(prefix, line + [e], i)
      ensures SyncsEarly(prefix, line + [e], i) ==> SyncsEarly(prefix, line, i) || i == |line|
    {
      SyncsEarlyGrows(prefix, line, e, i);
    }
  }

  lemma {:induction false} NoNewlineInText(line: seq<Event>)
    requires NEWLINE !in line
    ensures '\n' !in Text(line)
  {
    if line != [] {
      NoNewlineInText(line[..|line| - 1]);
      assert line[|line| - 1] in line;
    }
  }

  /** One more event other than a newline: only the current line grows. */
  lemma LineGrows(events: seq<Event>, e: Event)
    requires e != NEWLINE
    ensures LastLine(events + [e]) == LastLine(events) + [e] && Lines(events + [e]) == Lines(events)
  {
  }

  /** A newline ends the current line. */
  lemma NewlineCuts(events: seq<Event>)
    ensures LastLine(events + [NEWLINE]) == []
    ensures Lines(events + [NEWLINE]) == Lines(events) + [LastLine(events) + [NEWLINE]]
  {
  }

  lemma LineEnds(prefix: string, events: seq<Event>)
    ensures LastLine(events + [NEWLINE]) == []
    ensures Kept(prefix, Lines(events + [NEWLINE]))
            == Kept(prefix, Lines(events)) + var line := LastLine(events) + [NEWLINE];
                                             if Drops(prefix, line) then "" else Text(line)
  {
  }

  /** The newline itself never completes the prefix. */
  lemma NewlineDecidesNothing(prefix: string, line: seq<Event>)
    requires NEWLINE !in line
    ensures Drops(prefix, line + [NEWLINE]) <==> Drops(prefix, line)
    ensures Text(line + [NEWLINE]) == Text(line) + "\n"
  {
    hide Text, Interrupted;
    Extends(prefix, line, NEWLINE);
    var text, whole := Text(line), Text(line) + "\n";
    if prefix <= whole && |prefix| > |text| {
      assert prefix[|text|] == '\n';
    } else if prefix <= whole {
      assert prefix <= text;
    }
    if prefix <= text {
      assert prefix <= whole;
    }
  }

  lemma NewlineStep(prefix: string, events: seq<Event>, state: State, held: string)
    requires Represents(prefix, LastLine(events), state, held)
    ensures Represents(prefix, LastLine(events + [NEWLINE]), Undecided, "")
    ensures Filtered(prefix, events + [NEWLINE])
            == Filtered(prefix, events) + match state
                                          case Undecided => held + "\n"
                                          case Forwarding => "\n"
                                          case Dropping => ""
  {
    hide Lines, LastLine, Kept, Text, Interrupted, SyncsEarly;
    LineEnds(prefix, events);
    NewlineDecidesNothing(prefix, LastLine(events));
    EmptyLine(prefix);
    var line := LastLine(events);
    assert Drops(prefix, line) ==> state == Dropping;
  }

  lemma EmptyLine(prefix: string)
    ensures Text([]) == "" && !Interrupted(prefix, [])
  {
  }

  lemma UndecidedStep(prefix: string, events: seq<Event>, c: char, held: string)
    requires Represents(prefix, LastLine(events), Undecided, held) && c != '\n'
    ensures var longer := held + [c];
            var line := LastLine(events + [Put(c)]);
            if |longer| > |prefix| || prefix[..|longer|] != longer then
              && Represents(prefix, line, Forwarding, "")
              && Filtered(prefix, events + [Put(c)]) == Filtered(prefix, events) + longer
            else if |longer| == |prefix| then
              Represents(prefix, line, Dropping, "") && Filtered(prefix, events + [Put(c)]) == Filtered(prefix, events)
            else
              && Represents(prefix, line, Undecided, longer)
              && Filtered(prefix, events + [Put(c)]) == Filtered(prefix, events)
  {
    hide Lines, LastLine, Kept, Text, Interrupted, SyncsEarly;
    LineGrows(events, Put(c));
    Extends(prefix, LastLine(events), Put(c));
    NoNewlineInText(LastLine(events) + [Put(c)]);
  }

  lemma DecidedStep(prefix: string, events: seq<Event>, c: char, state: State)
    requires Represents(prefix, LastLine(events), state, "") && c != '\n' && state != Undecided
    ensures Represents(prefix, LastLine(events + [Put(c)]), state, "")
    ensures Filtered(prefix, events + [Put(c)]) == Filtered(prefix, events) + if state == Dropping then "" else [c]
  {
    hide Lines, LastLine, Kept, Text, Interrupted, SyncsEarly;
    LineGrows(events, Put(c));
    Extends(prefix, LastLine(events), Put(c));
  }

  lemma SyncStep(prefix: string, events: seq<Event>, state: State, held: string)
    requires Represents(prefix, LastLine(events), state, held)
    ensures Represents(prefix, LastLine(events + [Sync]), if held == "" then state else Forwarding, "")
    ensures Filtered(prefix, events + [Sync]) == Filtered(prefix, events) + held
  {
    hide Lines, LastLine, Kept, Text, Interrupted, SyncsEarly;
    LineGrows(events, Sync);
    Extends(prefix, LastLine(events), Sync);
  }

  // ----- what follows for whole inputs -----

  ghost function Flatten(lines: seq<seq<Event>>): seq<Event> {
    if lines == [] then [] else Flatten(lines[..|lines| - 1]) + lines[|lines| - 1]
  }

  ghost predicate IsLine(line: seq<Event>) {
    line != [] && line[|line| - 1] == NEWLINE && NEWLINE !in line[..|line| - 1]
  }

  lemma FlattenGrows(lines: seq<seq<Event>>, line: seq<Event>)
    ensures Flatten(lines + [line]) == Flatten(lines) + line
  {
  }

  /** The cut is exactly at the newlines ... */
  lemma {:induction false} LinesEndAtNewlines(events: seq<Event>)
    ensures NEWLINE !in LastLine(events)
    ensures forall k :: 0 <= k < |Lines(events)| ==> IsLine(Lines(events)[k])
  {
    if events != [] {
      var before := events[..|events| - 1];
      LinesEndAtNewlines(before);
      var line := LastLine(before) + [NEWLINE];
      assert line[..|line| - 1] == LastLine(before);
      assert IsLine(line);
      hide IsLine;
    }
  }

  lemma NothingCut()
    ensures Lines([]) == [] && LastLine([]) == [] && Flatten([]) == []
  {
  }

  /** ... and loses nothing. */
  lemma {:induction false} LinesPartition(events: seq<Event>)
    ensures Flatten(Lines(events)) + LastLine(events) == events
  {
    hide Flatten, Lines, LastLine;
    NothingCut();
    if events != [] {
      var before, e := events[..|events| - 1], events[|events| - 1];
      LinesPartition(before);
      assert events == before + [e];
      if e == NEWLINE {
        NewlineCuts(before);
        FlattenGrows(Lines(before), LastLine(before) + [e]);
      } else {
        LineGrows(before, e);
      }
      assert Flatten(Lines(before)) + (LastLine(before) + [e]) == before + [e];
    }
  }

  /** While a line is undecided, what is held back is a proper prefix of the pattern. */
  lemma HeldIsProperPrefix(prefix: string, line: seq<Event>, state: State, held: string)
    requires Represents(prefix, line, state, held)
    ensures held != "" ==> state == Undecided && held < prefix && held == Text(line)
  {
  }

  /** Feeds any interleaving of characters and syncs to a fresh filter. */
  method Feed(prefix: string, input: seq<Event>) returns (filter: LinePrefixFilter)
    ensures fresh(filter) && fresh(filter.sink) && filter.Valid()
    ensures filter.prefix == prefix && filter.sink.written == Filtered(prefix, input)
  {
    hide Represents, Filtered, LastLine;
    var sink := new Sink();
    filter := new LinePrefixFilter(sink, prefix);
    for i := 0 to |input|
      invariant fresh(filter) && fresh(filter.sink) && filter.Valid()
      invariant filter.prefix == prefix && filter.events == input[..i]
    {
      if input[i].Sync? {
        filter.Sync();
      } else {
        filter.Overflow(Some(input[i].c));
      }
      assert input[..i + 1] == input[..i] + [input[i]];
    }
    assert input[..|input|] == input;
  }

  ghost function Puts(text: string): seq<Event> {
    seq(|text|, i requires 0 <= i < |text| => Put(text[i]))
  }

  ghost predicate Uninterrupted(prefix: string, events: seq<Event>) {
    && !Interrupted(prefix, LastLine(events))
    && forall k :: 0 <= k < |Lines(events)| ==> !Interrupted(prefix, Lines(events)[k])
  }

  lemma PutsGrows(text: string, c: char)
    ensures Puts(text + [c]) == Puts(text) + [Put(c)]
  {
  }

  lemma {:induction false} PutsText(text: string)
    ensures Text(Puts(text)) == text
  {
    if text != "" {
      var before := text[..|text| - 1];
      PutsText(before);
      assert text == before + [text[|text| - 1]];
      PutsGrows(before, text[|text| - 1]);
      TextGrows(Puts(before), Put(text[|text| - 1]));
    }
  }

  lemma PutsUninterrupted(prefix: string, text: string)
    ensures !Interrupted(prefix, Puts(text))
  {
  }

  /** The plain characters are cut into the same lines, without their syncs. */
  ghost predicate SameLines(plain: seq<Event>, events: seq<Event>) {
    && LastLine(plain) == Puts(Text(LastLine(events)))
    && |Lines(plain)| == |Lines(events)|
    && forall k :: 0 <= k < |Lines(events)| ==> Lines(plain)[k] == Puts(Text(Lines(events)[k]))
  }

  /** Dropping the syncs keeps the cut into lines. */
  lemma {:induction false} LinesOfText(events: seq<Event>)
    ensures SameLines(Puts(Text(events)), events)
  {
    if events == [] {
      NothingCut();
    } else {
      hide SameLines, Text;
      var before, e := events[..|events| - 1], events[|events| - 1];
      LinesOfText(before);
      TextGrows(before, e);
      assert events == before + [e];
      match e
      case Put(c) =>
        PutsGrows(Text(before), c);
        SamePut(Puts(Text(before)), before, e);
      case Sync =>
        assert Text(before) + "" == Text(before);
        SameSync(Puts(Text(before)), before);
    }
  }

  lemma SameSync(plain: seq<Event>, events: seq<Event>)
    requires SameLines(plain, events)
    ensures SameLines(plain, events + [Sync])
  {
    hide Text;
    LineGrows(events, Sync);
    TextGrows(LastLine(events), Sync);
    assert Text(LastLine(events)) + "" == Text(LastLine(events));
  }

  lemma SamePut(plain: seq<Event>, events: seq<Event>, e: Event)
    requires SameLines(plain, events) && e.Put?
    ensures SameLines(plain + [e], events + [e])
  {
    TextGrows(LastLine(events), e);
    PutsGrows(Text(LastLine(events)), e.c);
    if e == NEWLINE {
      NewlineCuts(plain);
      NewlineCuts(events);
    } else {
      LineGrows(plain, e);
      LineGrows(events, e);
    }
  }

  /** A line that starts with the prefix leaves all the same, because of a sync. */
  ghost predicate LetOut(prefix: string, line: seq<Event>) {
    Matches(prefix, line) && Interrupted(prefix, line)
  }

  lemma InterruptedHasText(prefix: string, line: seq<Event>)
    requires Interrupted(prefix, line)
    ensures Text(line) != ""
  {
    var i: nat :| SyncsEarly(prefix, line, i);
    TextLasts(line, i);
  }

  lemma {:induction false} TextLasts(line: seq<Event>, i: nat)
    requires i <= |line|
    ensures Text(line[..i]) <= Text(line)
  {
    if i < |line| {
      TextLasts(line[..|line| - 1], i);
      assert line[..|line| - 1][..i] == line[..i];
    } else {
      assert line[..i] == line;
    }
  }

  lemma OneMore(a: string, b: string, c: string, d: string)
    requires |a| >= |b| && (c == d || (c != "" && d == ""))
    ensures |a + c| >= |b + d|
    ensures a + c == b + d <==> a == b && c == d
  {
    if a + c == b + d {
      assert |a| == |b| && c == d;
      assert (a + c)[..|a|] == a && (b + d)[..|b|] == b;
    }
  }

  lemma LetOutLonger(prefix: string, line: seq<Event>)
    ensures var plain := Puts(Text(line));
            var with, without := if Drops(prefix, line) then "" else Text(line),
                                 if Drops(prefix, plain) then "" else Text(plain);
            && (with == without || (with != "" && without == ""))
            && (with == without <==> !LetOut(prefix, line))
  {
    hide Interrupted, Puts, Text;
    PutsText(Text(line));
    PutsUninterrupted(prefix, Text(line));
    if Interrupted(prefix, line) {
      InterruptedHasText(prefix, line);
    }
  }

  ghost predicate NoneLetOut(prefix: string, lines: seq<seq<Event>>) {
    forall k :: 0 <= k < |lines| ==> !LetOut(prefix, lines[k])
  }

  lemma NoneLetOutStep(prefix: string, lines: seq<seq<Event>>)
    requires lines != []
    ensures NoneLetOut(prefix, lines)
            <==> NoneLetOut(prefix, lines[..|lines| - 1]) && !LetOut(prefix, lines[|lines| - 1])
  {
    hide LetOut;
  }

  /** Without syncs no completed line is let out, and everything else is kept or dropped alike. */
  lemma {:induction false} KeptOfText(prefix: string, lines: seq<seq<Event>>, plain: seq<seq<Event>>)
    requires |plain| == |lines| && forall k :: 0 <= k < |lines| ==> plain[k] == Puts(Text(lines[k]))
    ensures |Kept(prefix, lines)| >= |Kept(prefix, plain)|
    ensures Kept(prefix, lines) == Kept(prefix, plain) <==> NoneLetOut(prefix, lines)
  {
    if lines != [] {
      hide Drops, LetOut, Puts, Text, NoneLetOut;
      var n := |lines| - 1;
      KeptOfText(prefix, lines[..n], plain[..n]);
      NoneLetOutStep(prefix, lines);
      LetOutLonger(prefix, lines[n]);
      OneMore(Kept(prefix, lines[..n]), Kept(prefix, plain[..n]),
              if Drops(prefix, lines[n]) then "" else Text(lines[n]),
              if Drops(prefix, plain[n]) then "" else Text(plain[n]));
    }
  }

  /** No line was let out, and the current one would be held back or dropped without its syncs, too. */
  ghost predicate NothingLetOut(prefix: string, events: seq<Event>) {
    && !(Interrupted(prefix, LastLine(events)) &&
         (Matches(prefix, LastLine(events)) || Text(LastLine(events)) < prefix))
    && NoneLetOut(prefix, Lines(events))
  }

  /** The output is that of the text alone exactly when the syncs have let no line out. */
  lemma LetOutExactly(prefix: string, events: seq<Event>)
    ensures Filtered(prefix, events) == Filtered(prefix, Puts(Text(events))) <==> NothingLetOut(prefix, events)
  {
    hide Interrupted, Puts, Text, Lines, LastLine, Kept;
    var line, plain := LastLine(events), Puts(Text(events));
    LinesOfText(events);
    KeptOfText(prefix, Lines(events), Lines(plain));
    PutsText(Text(line));
    PutsUninterrupted(prefix, Text(line));
    if Interrupted(prefix, line) {
      InterruptedHasText(prefix, line);
    }
    OneMore(Kept(prefix, Lines(events)), Kept(prefix, Lines(plain)),
            if Drops(prefix, line) || Withholds(prefix, line) then "" else Text(line),
            if Drops(prefix, LastLine(plain)) || Withholds(prefix, LastLine(plain)) then ""
            else Text(LastLine(plain)));
  }

  /** As long as no sync falls inside an undecided line, the output depends on the text alone. */
  lemma ChunkingIrrelevant(prefix: string, first: seq<Event>, second: seq<Event>)
    requires Text(first) == Text(second) && Uninterrupted(prefix, first) && Uninterrupted(prefix, second)
    ensures Filtered(prefix, first) == Filtered(prefix, second)
  {
    LetOutExactly(prefix, first);
    LetOutExactly(prefix, second);
  }

  // ----- which prefixes ever drop anything -----

  /** What has not left the filter yet. */
  ghost function Pending(prefix: string, events: seq<Event>): string {
    if Withholds(prefix, LastLine(events)) then Text(LastLine(events)) else ""
  }

  ghost predicate Transparent(prefix: string) {
    forall events :: Filtered(prefix, events) + Pending(prefix, events) == Text(events)
  }

  lemma NothingYet(prefix: string)
    ensures LastLine([]) == [] && Kept(prefix, Lines([])) == "" && Text([]) == ""
  {
  }

  lemma {:induction false} NothingDropped(prefix: string, events: seq<Event>)
    requires prefix == "" || '\n' in prefix
    ensures Kept(prefix, Lines(events)) + Text(LastLine(events)) == Text(events)
  {
    hide Interrupted, Text, Kept, Lines, LastLine;
    NothingYet(prefix);
    if events != [] {
      var before, e := events[..|events| - 1], events[|events| - 1];
      NothingDropped(prefix, before);
      assert events == before + [e];
      TextGrows(LastLine(before), e);
      TextGrows(before, e);
      if e == NEWLINE {
        LineEnds(prefix, before);
        assert !Drops(prefix, LastLine(before) + [e]);
        EmptyLine(prefix);
      } else {
        LineGrows(before, e);
      }
    }
  }

  lemma PrefixLineDropped(prefix: string)
    requires prefix != "" && '\n' !in prefix
    ensures Filtered(prefix, Puts(prefix)) == "" && Pending(prefix, Puts(prefix)) == "" && Text(Puts(prefix)) == prefix
  {
    PutsText(prefix);
    PutsUninterrupted(prefix, prefix);
    OneLine(Puts(prefix));
  }

  lemma {:induction false} OneLine(events: seq<Event>)
    requires NEWLINE !in events
    ensures LastLine(events) == events && Lines(events) == []
  {
    if events != [] {
      OneLine(events[..|events| - 1]);
      assert events[|events| - 1] in events;
    }
  }

  /** An empty prefix, or one with a newline in it, drops nothing ever; every other prefix drops something. */
  lemma TransparentExactly(prefix: string)
    ensures Transparent(prefix) <==> prefix == "" || '\n' in prefix
  {
    if prefix == "" || '\n' in prefix {
      forall events: seq<Event>
        ensures Filtered(prefix, events) + Pending(prefix, events) == Text(events)
      {
        NothingDropped(prefix, events);
      }
    } else {
      PrefixLineDropped(prefix);
      assert Filtered(prefix, Puts(prefix)) + Pending(prefix, Puts(prefix)) != Text(Puts(prefix));
    }
  }
}
