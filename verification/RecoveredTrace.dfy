/** The recovered trace file as bytes and as events: its lines are the lines of the original bytes
    followed by those of the appended ones, so what the bytes keep, the events keep. */
module RecoveredTrace {
  import opened Prelude
  import opened HumanTrace
  import opened InterruptedRecovery

  // ---- Lines ----

  /** Where the first line of the text ends. */
  function LineEnd(text: Content): (n: nat)
    ensures n <= |text|
  {
    if text == "" || text[0] == '\n' then 0 else 1 + LineEnd(text[1..])
  }

  /** What follows the first line and its newline. */
  function Rest(text: Content): (rest: Content)
    requires text != ""
    ensures |rest| < |text|
  {
    if LineEnd(text) < |text| then text[LineEnd(text) + 1..] else ""
  }

  /** Each line without its newline; the last one need not have one. */
  function Lines(text: Content): seq<string>
    decreases |text|
  {
    if text == "" then [] else [text[..LineEnd(text)]] + Lines(Rest(text))
  }

  /** The text is empty or its last line is finished. */
  predicate Finished(text: Content) {
    text == "" || text[|text| - 1] == '\n'
  }

  /** The first line of a nonempty finished text ends inside it, whatever comes after the text. */
  lemma {:induction false} FirstLine(a: Content, b: Content)
    requires a != "" && Finished(a)
    ensures LineEnd(a) < |a| && LineEnd(a + b) == LineEnd(a)
  {
    if a[0] != '\n' {
      assert (a + b)[1..] == a[1..] + b;
      assert a[1..][|a| - 2] == a[|a| - 1];
      FirstLine(a[1..], b);
    }
  }

  lemma {:induction false} RestJoins(a: Content, b: Content)
    requires a != "" && Finished(a)
    ensures Finished(Rest(a)) && Rest(a + b) == Rest(a) + b
    ensures (a + b)[..LineEnd(a + b)] == a[..LineEnd(a)]
  {
    FirstLine(a, b);
    var rest := Rest(a);
    assert rest != "" ==> rest[|rest| - 1] == a[|a| - 1];
    assert Rest(a + b) == Rest(a) + b;
  }

  lemma Associates<T>(a: seq<T>, b: seq<T>, c: seq<T>)
    ensures a + (b + c) == a + b + c
  {
  }

  /** The lines of a text that continues finished lines are those of both parts. */
  lemma {:induction false} LinesJoin(a: Content, b: Content)
    requires Finished(a)
    ensures Lines(a + b) == Lines(a) + Lines(b)
    decreases |a|
  {
    if a == "" {
      assert a + b == b;
    } else {
      RestJoins(a, b);
      LinesJoin(Rest(a), b);
      var first := [a[..LineEnd(a)]];
      assert Lines(a + b) == first + Lines(Rest(a) + b);
      assert Lines(a) == first + Lines(Rest(a));
      Associates(first, Lines(Rest(a)), Lines(b));
    }
  }

  // ---- Events ----

  predicate Blank(line: string) {
    forall i :: 0 <= i < |line| ==> line[i] == ' ' || line[i] == '\t' || line[i] == '\r'
  }

  /** The events of the lines that are not blank. */
  function EventsOf(lines: seq<string>, parse: string -> Event): (trace: Trace)
    ensures |trace| <= |lines|
  {
    if lines == [] then []
    else
      var n := |lines| - 1;
      EventsOf(lines[..n], parse) + if Blank(lines[n]) then [] else [parse(lines[n])]
  }

  function TraceOf(text: Content, parse: string -> Event): Trace {
    EventsOf(Lines(text), parse)
  }

  lemma {:induction false} EventsJoin(a: seq<string>, b: seq<string>, parse: string -> Event)
    ensures EventsOf(a + b, parse) == EventsOf(a, parse) + EventsOf(b, parse)
  {
    if b == [] {
      assert a + b == a;
    } else {
      var n := |b| - 1;
      EventsJoin(a, b[..n], parse);
      assert (a + b)[..|a| + n] == a + b[..n];
    }
  }

  /** The events of a text that continues finished lines are those of both parts. */
  lemma {:induction false} TraceJoin(a: Content, b: Content, parse: string -> Event)
    requires Finished(a)
    ensures TraceOf(a + b, parse) == TraceOf(a, parse) + TraceOf(b, parse)
  {
    LinesJoin(a, b);
    EventsJoin(Lines(a), Lines(b), parse);
  }

  /** A line as it is written: no newline in it, and something besides spaces. */
  predicate Written(line: string) {
    '\n' !in line && exists i :: 0 <= i < |line| && line[i] != ' ' && line[i] != '\t' && line[i] != '\r'
  }

  function Write(lines: seq<string>): Content {
    if lines == [] then "" else Write(lines[..|lines| - 1]) + lines[|lines| - 1] + "\n"
  }

  lemma {:induction false} EndOfWritten(line: string)
    requires '\n' !in line
    ensures LineEnd(line + "\n") == |line|
  {
    if line == "" {
      assert (line + "\n")[0] == '\n';
    } else {
      assert (line + "\n")[1..] == line[1..] + "\n" && line[0] in line;
      EndOfWritten(line[1..]);
    }
  }

  lemma {:induction false} OneLine(line: string)
    requires '\n' !in line
    ensures Lines(line + "\n") == [line]
  {
    EndOfWritten(line);
    var text := line + "\n";
    assert text[..|line|] == line && Rest(text) == "";
  }

  lemma {:induction false} LinesOfWritten(lines: seq<string>)
    requires forall k :: 0 <= k < |lines| ==> Written(lines[k])
    ensures Lines(Write(lines)) == lines && Finished(Write(lines))
  {
    if lines != [] {
      var n := |lines| - 1;
      var front := lines[..n];
      LinesOfWritten(front);
      OneLine(lines[n]);
      LinesJoin(Write(front), lines[n] + "\n");
      Associates(Write(front), lines[n], "\n");
      assert lines == front + [lines[n]];
    }
  }

  lemma WrittenNotBlank(line: string)
    requires Written(line)
    ensures !Blank(line)
  {
  }

  lemma {:induction false} EventsOfWritten(lines: seq<string>, parse: string -> Event)
    requires forall k :: 0 <= k < |lines| ==> Written(lines[k])
    ensures |EventsOf(lines, parse)| == |lines|
    ensures forall k :: 0 <= k < |lines| ==> EventsOf(lines, parse)[k] == parse(lines[k])
  {
    if lines != [] {
      var n := |lines| - 1;
      var front := lines[..n];
      EventsOfWritten(front, parse);
      WrittenNotBlank(lines[n]);
      var events := EventsOf(front, parse);
      assert EventsOf(lines, parse) == events + [parse(lines[n])];
      forall k | 0 <= k < |lines| ensures EventsOf(lines, parse)[k] == parse(lines[k]) {
        assert k < n ==> (events + [parse(lines[n])])[k] == events[k] && events[k] == parse(front[k]);
      }
    }
  }

  /** Reading back what was written gives one event for each line, in order. */
  lemma {:induction false} TraceOfWritten(lines: seq<string>, parse: string -> Event)
    requires forall k :: 0 <= k < |lines| ==> Written(lines[k])
    ensures Finished(Write(lines)) && NoBlank(Lines(Write(lines)))
    ensures |TraceOf(Write(lines), parse)| == |lines|
    ensures forall k :: 0 <= k < |lines| ==> TraceOf(Write(lines), parse)[k] == parse(lines[k])
  {
    LinesOfWritten(lines);
    EventsOfWritten(lines, parse);
  }

  predicate NoBlank(lines: seq<string>) {
    forall k :: 0 <= k < |lines| ==> !Blank(lines[k])
  }

  /** _jsonl: blank lines are skipped. */
  method ReadTrace(text: Content, parse: string -> Event) returns (trace: Trace)
    ensures trace == TraceOf(text, parse)
  {
    var lines := Lines(text);
    trace := [];
    for i := 0 to |lines|
      invariant trace == EventsOf(lines[..i], parse)
    {
      assert lines[..i + 1][..i] == lines[..i];
      if !Blank(lines[i]) {
        trace := trace + [parse(lines[i])];
      }
    }
    assert lines[..|lines|] == lines;
  }

  /** The appended lines: a blank one does not parse. */
  method ReadSuffix(lines: seq<string>, parse: string -> Event) returns (added: Option<Trace>)
    ensures added.Some? <==> NoBlank(lines)
    ensures added.Some? ==> added.value == EventsOf(lines, parse)
  {
    var events: Trace := [];
    for i := 0 to |lines|
      invariant NoBlank(lines[..i]) && events == EventsOf(lines[..i], parse)
    {
      assert lines[..i + 1][..i] == lines[..i];
      if Blank(lines[i]) {
        assert !NoBlank(lines);
        return None;
      }
      events := events + [parse(lines[i])];
    }
    assert lines[..|lines|] == lines;
    added := Some(events);
  }

  // ---- The whole check ----

  /** How many bytes of the file the inventory vouches for. */
  function OriginalBytes(inventory: seq<Entry>, name: string): int {
    if inventory == [] then 0
    else
      var last := inventory[|inventory| - 1];
      if last.name == name then last.bytes else OriginalBytes(inventory[..|inventory| - 1], name)
  }

  lemma {:induction false} OriginalBytesFound(inventory: seq<Entry>, name: string)
    requires name in Names(inventory)
    ensures exists k :: 0 <= k < |inventory| && inventory[k].name == name
                && inventory[k].bytes == OriginalBytes(inventory, name)
  {
    var n := |inventory| - 1;
    if inventory[n].name != name {
      var k :| 0 <= k < |inventory| && inventory[k].name == name;
      assert inventory[..n][k].name == name;
      OriginalBytesFound(inventory[..n], name);
      var j :| 0 <= j < n && inventory[..n][j].name == name
          && inventory[..n][j].bytes == OriginalBytes(inventory[..n], name);
      assert inventory[j] == inventory[..n][j];
    }
  }

  /** The trace file splits where its original bytes end. */
  lemma {:induction false} TraceSplits(raw: map<string, Content>, hash: Content -> string, inventory: seq<Entry>)
    requires FilesPreserved(raw, hash, inventory)
    ensures TRACE_FILE in raw
    ensures var n := OriginalBytes(inventory, TRACE_FILE);
            0 <= n <= |raw[TRACE_FILE]| && Finished(raw[TRACE_FILE][..n])
  {
    OriginalBytesFound(inventory, TRACE_FILE);
    var k :| 0 <= k < |inventory| && inventory[k].name == TRACE_FILE
        && inventory[k].bytes == OriginalBytes(inventory, TRACE_FILE);
    assert EntryPreserved(raw, hash, inventory[k]);
  }

  ghost function OriginalText(raw: map<string, Content>, hash: Content -> string, inventory: seq<Entry>): Content
    requires FilesPreserved(raw, hash, inventory)
  {
    TraceSplits(raw, hash, inventory);
    raw[TRACE_FILE][..OriginalBytes(inventory, TRACE_FILE)]
  }

  ghost function AddedText(raw: map<string, Content>, hash: Content -> string, inventory: seq<Entry>): Content
    requires FilesPreserved(raw, hash, inventory)
  {
    TraceSplits(raw, hash, inventory);
    raw[TRACE_FILE][OriginalBytes(inventory, TRACE_FILE)..]
  }

  /** Files and trace pass: the events of the original bytes are closed by those of the appended ones. */
  ghost predicate RecoveryPasses(raw: map<string, Content>, hash: Content -> string, parse: string -> Event,
                                 inventory: seq<Entry>, unknownsAdded: int) {
    FilesPreserved(raw, hash, inventory)
    && var added := AddedText(raw, hash, inventory);
       && NoBlank(Lines(added))
       && ClosureValid(TraceOf(OriginalText(raw, hash, inventory), parse), TraceOf(added, parse), unknownsAdded)
  }

  /** verify_recovery on files and trace: the code reads the whole trace, reads the appended lines once
      more, and takes as original what is left. */
  method VerifyRecovery(raw: map<string, Content>, hash: Content -> string, parse: string -> Event,
                        inventory: seq<Entry>, unknownsAdded: int) returns (ok: bool)
    ensures ok <==> RecoveryPasses(raw, hash, parse, inventory, unknownsAdded)
  {
    ok := VerifyFiles(raw, hash, inventory);
    if !ok {
      return;
    }
    TraceSplits(raw, hash, inventory);
    var text, n := raw[TRACE_FILE], OriginalBytes(inventory, TRACE_FILE);
    assert text == text[..n] + text[n..];
    TraceJoin(text[..n], text[n..], parse);
    var trace := ReadTrace(text, parse);
    var added := ReadSuffix(Lines(text[n..]), parse);
    if added.None? {
      return false;
    }
    var originalLines := |trace| - |added.value|;
    assert trace[..originalLines] == TraceOf(text[..n], parse) && trace[originalLines..] == added.value;
    ok := VerifyClosure(trace, originalLines, unknownsAdded);
  }

  lemma {:induction false} OriginalTextIsBefore(raw: map<string, Content>, hash: Content -> string,
                                                inventory: seq<Entry>, before: map<string, Content>)
    requires Injective(hash) && Describes(inventory, hash, before) && FilesPreserved(raw, hash, inventory)
    ensures TRACE_FILE in before && OriginalText(raw, hash, inventory) == before[TRACE_FILE]
    ensures TRACE_FILE in raw && raw[TRACE_FILE] == before[TRACE_FILE] + AddedText(raw, hash, inventory)
  {
    TraceSplits(raw, hash, inventory);
    RecoveryOnlyAppends(raw, hash, inventory, before);
    OriginalBytesFound(inventory, TRACE_FILE);
    assert TRACE_FILE in before.Keys;
    assert OriginalBytes(inventory, TRACE_FILE) == |before[TRACE_FILE]|;
  }

  /** From the interrupted file to the recovered one: its events come first and unchanged, one unknown
      follows for each pending action, and every accepted action of the recovered file has exactly one
      disposition if and only if none had two in the interrupted file. */
  lemma {:induction false} RecoveredTraceSettled(raw: map<string, Content>, hash: Content -> string,
                                                 parse: string -> Event, inventory: seq<Entry>,
                                                 before: map<string, Content>, unknownsAdded: int)
    requires Injective(hash) && Describes(inventory, hash, before)
    requires RecoveryPasses(raw, hash, parse, inventory, unknownsAdded)
    ensures TRACE_FILE in before && TRACE_FILE in raw
    ensures var original, recovered := TraceOf(before[TRACE_FILE], parse), TraceOf(raw[TRACE_FILE], parse);
            && original <= recovered && |recovered| == |original| + |PendingWitnesses(original)|
            && (forall e :: e in recovered[|original|..] ==> ClosesPending(original, e))
            && (ExactlyOneDisposition(recovered) <==> AtMostOneTerminal(original))
  {
    OriginalTextIsBefore(raw, hash, inventory, before);
    TraceSplits(raw, hash, inventory);
    var added := AddedText(raw, hash, inventory);
    TraceJoin(before[TRACE_FILE], added, parse);
    var original, closing := TraceOf(before[TRACE_FILE], parse), TraceOf(added, parse);
    assert (original + closing)[|original|..] == closing;
    RecoveryClosesTrace(original, closing, unknownsAdded);
  }
}
