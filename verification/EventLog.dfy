/** The incremental reader of producer event logs (pkg/provenance.go): a fold over complete lines that
    reads only what was appended. A log is its text; decoding one line is a parameter. */
module EventLog {
  import opened Text

  datatype Record = Record(itemID: string, sessionID: string, host: string, cwd: string, toolName: string, pane: string)

  /** JSON decoding of one trimmed line; None when it does not parse. */
  type Decode = string -> Option<Record>

  datatype Log = Log(offset: nat, events: map<string, Record>)

  const NEW_LOG: Log := Log(0, map[])

  // ---- lines ----

  function FirstNewline(s: string): (i: nat)
    ensures i <= |s| && '\n' !in s[..i] && (i < |s| ==> s[i] == '\n')
  {
    if s == [] || s[0] == '\n' then 0
    else
      var i := 1 + FirstNewline(s[1..]);
      assert s[..i] == [s[0]] + s[1..][..i - 1];
      i
  }

  /** strings.Split at newlines. */
  function Split(s: string): (lines: seq<string>)
    ensures lines != []
    decreases |s|
  {
    var i := FirstNewline(s);
    if i == |s| then [s] else [s[..i]] + Split(s[i + 1..])
  }

  /** One past the last newline. */
  function CompleteEnd(s: string): (e: nat)
    ensures e <= |s| && (e == 0 || s[e - 1] == '\n') && '\n' !in s[e..]
  {
    if s == [] || s[|s| - 1] == '\n' then |s|
    else
      var e := CompleteEnd(s[..|s| - 1]);
      assert s[e..] == s[..|s| - 1][e..] + [s[|s| - 1]];
      e
  }

  predicate Complete(s: string) { s == [] || s[|s| - 1] == '\n' }

  /** A line that names an item; blank, unparsable and unnamed lines say nothing. */
  function RecordOf(decode: Decode, line: string): Option<Record> {
    var text := TrimSpace(line);
    if text == "" || decode(text) == None || decode(text).value.itemID == "" then None else decode(text)
  }

  function Decoded(decode: Decode, lines: seq<string>): seq<Record> {
    if lines == [] then []
    else
      var before, last := Decoded(decode, lines[..|lines| - 1]), RecordOf(decode, lines[|lines| - 1]);
      if last == None then before else before + [last.value]
  }

  /** What a log says: the records of its complete lines. */
  function Records(decode: Decode, text: string): seq<Record> { Decoded(decode, Split(text[..CompleteEnd(text)])) }

  predicate Carries(r: Record) { r.host != "" || r.cwd != "" || r.pane != "" }

  function Take(events: map<string, Record>, r: Record): map<string, Record> {
    if r.itemID in events && Carries(events[r.itemID]) then events else events[r.itemID := r]
  }

  function Fold(events: map<string, Record>, records: seq<Record>): map<string, Record> {
    if records == [] then events else Take(Fold(events, records[..|records| - 1]), records[|records| - 1])
  }

  lemma FoldNothing(events: map<string, Record>)
    ensures Fold(events, []) == events
  {
  }

  lemma FoldLine(decode: Decode, events: map<string, Record>, lines: seq<string>, i: nat)
    requires i < |lines|
    ensures var before := Fold(events, Decoded(decode, lines[..i]));
            Fold(events, Decoded(decode, lines[..i + 1])) ==
              match RecordOf(decode, lines[i]) { case None => before case Some(r) => Take(before, r) }
  {
    hide RecordOf, Take;
    assert lines[..i + 1][..i] == lines[..i];
    var before := Decoded(decode, lines[..i]);
    if RecordOf(decode, lines[i]).Some? {
      assert (before + [RecordOf(decode, lines[i]).value])[..|before|] == before;
    }
  }

  // ---- what the fold keeps ----

  /** The first record of the item that carries provenance; with none, its last record. */
  predicate IsChosen(records: seq<Record>, id: string, k: nat) {
    && k < |records| && records[k].itemID == id
    && if Carries(records[k]) then forall j :: 0 <= j < k && records[j].itemID == id ==> !Carries(records[j])
       else forall j :: 0 <= j < |records| && records[j].itemID == id ==> !Carries(records[j]) && j <= k
  }

  lemma {:induction false} FoldChooses(records: seq<Record>, id: string) returns (k: nat)
    ensures id in Fold(map[], records) <==> exists j :: 0 <= j < |records| && records[j].itemID == id
    ensures id in Fold(map[], records) ==> IsChosen(records, id, k) && Fold(map[], records)[id] == records[k]
  {
    k := 0;
    if records != [] {
      var front, last := records[..|records| - 1], records[|records| - 1];
      assert records == front + [last];
      k := FoldChooses(front, id);
      if last.itemID == id && !(id in Fold(map[], front) && Carries(Fold(map[], front)[id])) { k := |front|; }
    }
  }

  lemma ChosenOnce(records: seq<Record>, id: string, j: nat, k: nat)
    requires IsChosen(records, id, j) && IsChosen(records, id, k)
    ensures j == k
  {
  }

  /** So the fold is told by that record alone: whichever index is the chosen one, its record is kept. */
  lemma FoldKeepsChosen(records: seq<Record>, id: string, k: nat)
    requires IsChosen(records, id, k)
    ensures id in Fold(map[], records) && Fold(map[], records)[id] == records[k]
  {
    var j := FoldChooses(records, id);
    ChosenOnce(records, id, j, k);
  }

  /** By the fields: the first record of the item with a host, a directory or a pane is kept; with none such,
      the last record of the item. */
  lemma FoldByFields(records: seq<Record>, id: string, k: nat)
    requires k < |records| && records[k].itemID == id
    requires if records[k].host != "" || records[k].cwd != "" || records[k].pane != ""
             then forall j :: 0 <= j < k && records[j].itemID == id ==>
                    records[j].host == "" && records[j].cwd == "" && records[j].pane == ""
             else forall j :: 0 <= j < |records| && records[j].itemID == id ==>
                    j <= k && records[j].host == "" && records[j].cwd == "" && records[j].pane == ""
    ensures id in Fold(map[], records) && Fold(map[], records)[id] == records[k]
  {
    hide Fold;
    assert IsChosen(records, id, k);
    FoldKeepsChosen(records, id, k);
  }

  lemma {:induction false} FoldConcat(events: map<string, Record>, a: seq<Record>, b: seq<Record>)
    ensures Fold(events, a + b) == Fold(Fold(events, a), b)
  {
    if b == [] { assert a + b == a; }
    else {
      assert (a + b)[..|a + b| - 1] == a + b[..|b| - 1];
      FoldConcat(events, a, b[..|b| - 1]);
    }
  }

  /** A record that carries a host, a directory or a pane is never replaced. */
  lemma {:induction false} CarriedStays(events: map<string, Record>, records: seq<Record>, id: string)
    requires id in events && Carries(events[id])
    ensures id in Fold(events, records) && Fold(events, records)[id] == events[id]
  {
    if records != [] { CarriedStays(events, records[..|records| - 1], id); }
  }

  // ---- appending ----

  lemma {:induction false} DecodedConcat(decode: Decode, a: seq<string>, b: seq<string>)
    ensures Decoded(decode, a + b) == Decoded(decode, a) + Decoded(decode, b)
  {
    hide RecordOf;
    if b == [] { assert a + b == a; }
    else {
      assert (a + b)[..|a + b| - 1] == a + b[..|b| - 1];
      DecodedConcat(decode, a, b[..|b| - 1]);
    }
  }

  lemma {:induction false} SplitConcat(a: string, b: string)
    requires Complete(a)
    ensures Split(a)[|Split(a)| - 1] == ""
    ensures Split(a + b) == Split(a)[..|Split(a)| - 1] + Split(b)
    decreases |a|
  {
    hide FirstNewline, Split;
    if a == [] {
      assert a + b == b;
      SplitOne(a);
    } else {
      var i := FirstNewline(a);
      var tail := a[i + 1..];
      FirstNewlineStays(a, b);
      SplitConcat(tail, b);
      SplitMore(a);
      SplitMore(a + b);
      assert (a + b)[..i] == a[..i] && (a + b)[i + 1..] == tail + b;
      ConsFront(a[..i], Split(tail), Split(b));
    }
  }

  lemma ConsFront<T>(x: T, xs: seq<T>, ys: seq<T>)
    requires xs != []
    ensures ([x] + xs)[..|xs|] + ys == [x] + (xs[..|xs| - 1] + ys)
    ensures ([x] + xs)[|xs|] == xs[|xs| - 1]
  {
  }

  lemma SplitOne(s: string)
    requires s == []
    ensures Split(s) == [""]
  {
  }

  lemma SplitMore(s: string)
    requires FirstNewline(s) < |s|
    ensures Split(s) == [s[..FirstNewline(s)]] + Split(s[FirstNewline(s) + 1..])
  {
    hide FirstNewline;
  }

  lemma FirstNewlineStays(a: string, b: string)
    requires a != [] && Complete(a)
    ensures FirstNewline(a) < |a| && FirstNewline(a + b) == FirstNewline(a)
  {
    var i, j := FirstNewline(a), FirstNewline(a + b);
    assert a[i] == '\n' && (a + b)[i] == '\n';
  }

  lemma LastOnly(s: string, e: nat)
    requires e <= |s| && (e == 0 || s[e - 1] == '\n') && '\n' !in s[e..]
    ensures CompleteEnd(s) == e
  {
    hide CompleteEnd;
    var f := CompleteEnd(s);
    forall k | f <= k < |s| ensures s[k] != '\n' { Beyond(s, f, k); }
    forall k | e <= k < |s| ensures s[k] != '\n' { Beyond(s, e, k); }
  }

  lemma Beyond(s: string, e: nat, k: nat)
    requires e <= k < |s| && '\n' !in s[e..]
    ensures s[k] != '\n'
  {
    assert s[e..][k - e] == s[k];
  }

  lemma CompleteEndConcat(a: string, b: string)
    requires Complete(a)
    ensures CompleteEnd(a + b) == |a| + CompleteEnd(b)
  {
    LastOnly(a + b, |a| + CompleteEnd(b));
  }

  /** Splitting a log after a complete line splits what it says. */
  lemma RecordsConcat(decode: Decode, a: string, b: string)
    requires Complete(a)
    ensures Records(decode, a + b) == Records(decode, a) + Records(decode, b)
  {
    hide Decoded, Split, CompleteEnd;
    CompleteEndConcat(a, b);
    CompleteEndConcat(a, ""); assert a + "" == a;
    EmptyEnd();
    var rest := b[..CompleteEnd(b)];
    assert (a + b)[..CompleteEnd(a + b)] == a + rest;
    SplitConcat(a, rest);
    var lines := Split(a);
    var front := lines[..|lines| - 1];
    assert lines == front + [""];
    DecodedConcat(decode, front, Split(rest));
    DecodedConcat(decode, front, [""]);
    BlankSaysNothing(decode);
    assert a[..|a|] == a;
  }

  lemma EmptyEnd()
    ensures CompleteEnd("") == 0
  {
  }

  lemma BlankSaysNothing(decode: Decode)
    ensures Decoded(decode, []) == [] && Decoded(decode, [""]) == [] && Decoded(decode, Split("")) == []
  {
    TrimEmpty();
    assert [""][..0] == [];
  }

  // ---- one render ----

  /** What ReadFrom answers: a failure, no file, or the file from the given offset to its end. */
  datatype Read = Failed | Absent | Text(file: string)

  function DataOf(read: Read, base: nat): string {
    if read.Text? && base <= |read.file| then read.file[base..] else ""
  }

  /** The client goes away before line k is decoded. */
  predicate Cancelled(cancel: Option<nat>, data: string) {
    CompleteEnd(data) > 0 && cancel.Some? && cancel.value < |Split(data[..CompleteEnd(data)])|
  }

  /** readEvents under its lock: the size at one instant, the bytes at a later one. */
  function Rendered(decode: Decode, log: Log, size: Option<nat>, read: Read, cancel: Option<nat>): Log {
    if size == None || size.value == log.offset || read == Failed then log
    else
      var shrunk := size.value < log.offset;
      var base, accumulated := if shrunk then 0 else log.offset, if shrunk then map[] else log.events;
      var data := DataOf(read, base);
      if Cancelled(cancel, data) then log
      else Log(base + CompleteEnd(data), Fold(accumulated, Records(decode, data)))
  }

  /** mergeEventBytes. */
  method MergeEventBytes(decode: Decode, accumulated: map<string, Record>, data: string, cancel: Option<nat>)
    returns (merged: map<string, Record>, consumed: nat, done: bool)
    ensures done == !Cancelled(cancel, data)
    ensures done ==> consumed == CompleteEnd(data) && merged == Fold(accumulated, Records(decode, data))
    ensures !done ==> consumed == 0 && merged == accumulated
  {
    hide TrimSpace, Fold, Decoded, Split, CompleteEnd, Carries;
    var end := CompleteEnd(data);
    if end == 0 {
      assert data[..0] == "";
      BlankSaysNothing(decode);
      FoldNothing(accumulated);
      return accumulated, 0, true;
    }
    merged := accumulated;
    FoldNothing(accumulated);
    BlankSaysNothing(decode);
    var lines := Split(data[..end]);
    for i := 0 to |lines|
      invariant merged == Fold(accumulated, Decoded(decode, lines[..i]))
      invariant cancel.Some? ==> cancel.value >= i
    {
      FoldLine(decode, accumulated, lines, i);
      if cancel == Some(i) { return accumulated, 0, false; }
      var line := TrimSpace(lines[i]);
      if line == "" { continue; }
      var record := decode(line);
      if record == None { continue; }
      if record.value.itemID == "" { continue; }
      if record.value.itemID in merged && Carries(merged[record.value.itemID]) { continue; }
      merged := merged[record.value.itemID := record.value];
    }
    assert lines[..|lines|] == lines;
    consumed, done := end, true;
  }

  /** The resolver's logs, one per producer. */
  class EventReader {
    var logs: map<string, Log>

    constructor ()
      ensures logs == map[]
    {
      logs := map[];
    }

    function LogOf(producer: string): Log
      reads this
    {
      if producer in logs then logs[producer] else NEW_LOG
    }

    method ReadEvents(decode: Decode, producer: string, size: Option<nat>, read: Read, cancel: Option<nat>)
      returns (events: map<string, Record>)
      modifies this
      ensures logs == old(logs)[producer := Rendered(decode, old(LogOf(producer)), size, read, cancel)]
      ensures events == LogOf(producer).events
    {
      hide Fold, Records, Cancelled, CompleteEnd, DataOf;
      var log := LogOf(producer);
      logs := logs[producer := log];
      if size == None { return log.events; }
      if size.value == log.offset { return log.events; }
      var base, accumulated := log.offset, log.events;
      if size.value < log.offset { base, accumulated := 0, map[]; }
      if read == Failed { return log.events; }
      var merged, consumed, done := MergeEventBytes(decode, accumulated, DataOf(read, base), cancel);
      if !done { return log.events; }
      assert logs[producer := Log(base + consumed, merged)] == old(logs)[producer := Log(base + consumed, merged)];
      logs := logs[producer := Log(base + consumed, merged)];
      return merged;
    }
  }

  // ---- the fold over an append-only log ----

  /** The reader has folded the complete lines before its offset, and nothing else. */
  predicate Synced(decode: Decode, log: Log, file: string) {
    && log.offset <= |file| && Complete(file[..log.offset])
    && log.events == Fold(map[], Records(decode, file[..log.offset]))
  }

  lemma SyncedLonger(decode: Decode, log: Log, file: string, longer: string)
    requires Synced(decode, log, file) && IsPrefix(file, longer)
    ensures Synced(decode, log, longer)
  {
    hide Fold, Records;
    assert longer[..log.offset] == longer[..|file|][..log.offset];
  }

  lemma PrefixComplete(file: string, from: nat)
    requires from <= |file| && Complete(file[..from])
    ensures var end := from + CompleteEnd(file[from..]);
            Complete(file[..end]) && end == CompleteEnd(file)
  {
    hide CompleteEnd, Complete;
    var head, tail := file[..from], file[from..];
    CompleteEndConcat(head, tail);
    assert head + tail == file;
    CompleteAt(file, CompleteEnd(file));
  }

  lemma CompleteAt(s: string, e: nat)
    requires e <= |s| && (e == 0 || s[e - 1] == '\n')
    ensures Complete(s[..e])
  {
  }

  lemma RecordsOfComplete(decode: Decode, file: string)
    ensures Records(decode, file[..CompleteEnd(file)]) == Records(decode, file)
  {
    var head := file[..CompleteEnd(file)];
    assert Complete(head);
    CompleteEndConcat(head, "");
    assert head + "" == head;
    EmptyEnd();
    assert head[..|head|] == head;
  }

  /** Folding on from a synced reader is folding the whole log. */
  lemma ReadOn(decode: Decode, log: Log, file: string)
    requires Synced(decode, log, file)
    ensures var next := Log(log.offset + CompleteEnd(file[log.offset..]),
                            Fold(log.events, Records(decode, file[log.offset..])));
            && Synced(decode, next, file) && next.offset == CompleteEnd(file)
            && next.events == Fold(map[], Records(decode, file))
  {
    hide Fold, Records, CompleteEnd, Complete;
    var head, tail := file[..log.offset], file[log.offset..];
    assert head + tail == file;
    RecordsConcat(decode, head, tail);
    FoldConcat(map[], Records(decode, head), Records(decode, tail));
    PrefixComplete(file, log.offset);
    RecordsOfComplete(decode, file);
  }

  /** A render over a log that only grows, whether it fails, is cancelled or completes, stays synced;
      one that completes has folded every complete line of the log it statted. */
  lemma RenderStaysSynced(decode: Decode, log: Log, file: string, later: string, seen: bool, read: Read,
                          cancel: Option<nat>)
    requires Synced(decode, log, file) && IsPrefix(file, later)
    requires read.Text? ==> read.file == later
    ensures var next := Rendered(decode, log, if seen then Some(|file|) else None, read, cancel);
            && Synced(decode, next, later) && log.offset <= next.offset
            && (forall id :: id in log.events && Carries(log.events[id]) ==>
                  id in next.events && next.events[id] == log.events[id])
            && (seen && read.Text? && !Cancelled(cancel, DataOf(read, log.offset)) ==>
                  next.events == Fold(map[], Records(decode, if |file| == log.offset then file else later)))
  {
    hide Fold, Records, Carries, CompleteEnd, Cancelled;
    SyncedLonger(decode, log, file, later);
    if |file| == log.offset { assert file[..log.offset] == file; }
    var next := Rendered(decode, log, if seen then Some(|file|) else None, read, cancel);
    if next != log {
      if read.Text? { ReadOn(decode, log, later); }
      else { NothingRead(decode, log); }
      var more := Records(decode, DataOf(read, log.offset));
      forall id | id in log.events && Carries(log.events[id])
        ensures id in next.events && next.events[id] == log.events[id] { CarriedStays(log.events, more, id); }
    }
    if seen && |file| != log.offset && read.Text? { ReadOn(decode, log, later); }
  }

  lemma NothingRead(decode: Decode, log: Log)
    ensures Log(log.offset + CompleteEnd(""), Fold(log.events, Records(decode, ""))) == log
  {
    EmptyEnd();
    BlankSaysNothing(decode);
    assert ""[..0] == "";
  }

  /** What a read from the start delivers; nothing when it finds no file. */
  function Whole(read: Read): string { DataOf(read, 0) }

  /** A render that sees a shorter log and completes starts over: it has folded what the read delivers onto
      nothing, so a log found shorter and then not found at all is shown as empty. One that fails or is
      cancelled changes nothing. */
  lemma ShorterLogRestarts(decode: Decode, log: Log, size: nat, read: Read, cancel: Option<nat>)
    requires size < log.offset
    ensures var next := Rendered(decode, log, Some(size), read, cancel);
            if read == Failed || Cancelled(cancel, Whole(read)) then next == log
            else
              && next.events == Fold(map[], Records(decode, Whole(read)))
              && next.offset == CompleteEnd(Whole(read)) && Synced(decode, next, Whole(read))
              && (read == Absent ==> next == NEW_LOG && forall file :: Synced(decode, next, file))
  {
    hide Fold, Records, Cancelled, CompleteEnd;
    var file := Whole(read);
    assert file[0..] == file;
    PrefixComplete(file, 0);
    RecordsOfComplete(decode, file);
    if read == Absent {
      NothingRead(decode, NEW_LOG);
      forall any ensures Synced(decode, NEW_LOG, any) { NewLogSynced(decode, any); }
    }
  }

  lemma NewLogSynced(decode: Decode, file: string)
    ensures Synced(decode, NEW_LOG, file)
  {
    hide Fold, Records;
    NothingRead(decode, NEW_LOG);
    assert file[..0] == "";
  }

  // ---- runs ----

  /** What happens to the log between a render's stat and its read. */
  datatype Gap = Grows(bytes: string) | Swaps(file: string)

  datatype Step =
    | Append(bytes: string)
    | Replace(file: string)
    | Render(seen: bool, gap: Gap, read: Read, cancel: Option<nat>)

  datatype World = World(file: string, log: Log)

  /** The log as a render finds it at its read. */
  function AtRead(file: string, gap: Gap): string {
    match gap
    case Grows(bytes) => file + bytes
    case Swaps(other) => other
  }

  /** The step puts another log in place of what is there. */
  predicate Replaces(s: Step) { s.Replace? || (s.Render? && s.gap.Swaps?) }

  predicate Enabled(w: World, s: Step) { s.Render? && s.read.Text? ==> s.read.file == AtRead(w.file, s.gap) }

  function Next(decode: Decode, w: World, s: Step): World {
    match s
    case Append(bytes) => w.(file := w.file + bytes)
    case Replace(file) => w.(file := file)
    case Render(seen, gap, read, cancel) =>
      World(AtRead(w.file, gap), Rendered(decode, w.log, if seen then Some(|w.file|) else None, read, cancel))
  }

  predicate Legal(decode: Decode, w: World, run: seq<Step>)
    decreases |run|
  {
    run == [] || (Enabled(w, run[0]) && Legal(decode, Next(decode, w, run[0]), run[1..]))
  }

  function After(decode: Decode, w: World, run: seq<Step>): World
    decreases |run|
  {
    if run == [] then w else After(decode, Next(decode, w, run[0]), run[1..])
  }

  /** Torn appends in any pieces, renders in any number and with any failures: the events are the fold of
      the complete lines before the offset, the offset never goes back, and a record that carries
      provenance stays. */
  lemma {:induction false} RunStaysSynced(decode: Decode, w: World, run: seq<Step>)
    requires Synced(decode, w.log, w.file) && Legal(decode, w, run) && forall s :: s in run ==> !Replaces(s)
    ensures var t := After(decode, w, run);
            && Synced(decode, t.log, t.file) && w.log.offset <= t.log.offset
            && (forall id :: id in w.log.events && Carries(w.log.events[id]) ==>
                  id in t.log.events && t.log.events[id] == w.log.events[id])
    decreases |run|
  {
    hide Synced, Carries, Rendered;
    if run != [] {
      assert run[0] in run;
      match run[0] {
        case Append(bytes) => SyncedLonger(decode, w.log, w.file, w.file + bytes);
        case Render(seen, gap, read, cancel) =>
          RenderStaysSynced(decode, w.log, w.file, AtRead(w.file, gap), seen, read, cancel);
      }
      RunStaysSynced(decode, Next(decode, w, run[0]), run[1..]);
    }
  }

  /** However the log was cut into appends and renders, one completed render at the end shows the fold
      of the whole log. */
  lemma RunThenRenderShowsAll(decode: Decode, run: seq<Step>)
    requires Legal(decode, World("", NEW_LOG), run) && forall s :: s in run ==> !Replaces(s)
    ensures var t := After(decode, World("", NEW_LOG), run);
            Rendered(decode, t.log, Some(|t.file|), Text(t.file), None).events == Fold(map[], Records(decode, t.file))
  {
    hide Rendered, Fold, Records, Cancelled;
    assert ""[..0] == "";
    NewLogSynced(decode, "");
    RunStaysSynced(decode, World("", NEW_LOG), run);
    var t := After(decode, World("", NEW_LOG), run);
    NeverCancelled(DataOf(Text(t.file), t.log.offset));
    RenderStaysSynced(decode, t.log, t.file, t.file, true, Text(t.file), None);
  }

  lemma NeverCancelled(data: string)
    ensures !Cancelled(None, data)
  {
  }

  // ---- logs that are truncated or replaced ----

  /** The render sees a log shorter than its offset and completes, finding the log or finding none: it
      starts over. */
  predicate StartsOver(w: World, s: Step) {
    s.Render? && s.seen && |w.file| < w.log.offset && s.read != Failed && !Cancelled(s.cancel, Whole(s.read))
  }

  lemma {:induction false} AfterSplit(decode: Decode, w: World, run: seq<Step>, n: nat)
    requires Legal(decode, w, run) && n <= |run|
    ensures Legal(decode, w, run[..n]) && Legal(decode, After(decode, w, run[..n]), run[n..])
    ensures After(decode, After(decode, w, run[..n]), run[n..]) == After(decode, w, run)
    decreases n
  {
    hide Next, Enabled;
    if n == 0 { assert run[..0] == [] && run[0..] == run; }
    else {
      AfterSplit(decode, Next(decode, w, run[0]), run[1..], n - 1);
      assert run[..n][0] == run[0] && run[..n][1..] == run[1..][..n - 1] && run[1..][n - 1..] == run[n..];
    }
  }

  /** After truncations and replacements of whatever kind, in any state at all: one render that starts over
      makes the reader synced, and it stays so until the log is replaced again. */
  lemma StartingOverSyncs(decode: Decode, w: World, run: seq<Step>, n: nat)
    requires Legal(decode, w, run) && n < |run|
    requires Legal(decode, w, run[..n]) && StartsOver(After(decode, w, run[..n]), run[n])
    requires forall s :: s in run[n + 1..] ==> !Replaces(s)
    ensures var t := After(decode, w, run); Synced(decode, t.log, t.file)
  {
    hide Synced, Rendered, Cancelled;
    AfterSplit(decode, w, run, n);
    AfterSplit(decode, w, run, n + 1);
    AfterSplit(decode, w, run[..n + 1], n);
    assert run[..n + 1][..n] == run[..n] && run[..n + 1][n..] == [run[n]] && run[n..][0] == run[n];
    assert [run[n]][1..] == [];
    var before := After(decode, w, run[..n]);
    ShorterLogRestarts(decode, before.log, |before.file|, run[n].read, run[n].cancel);
    assert run[n].read.Text? ==> Whole(run[n].read) == AtRead(before.file, run[n].gap);
    RunStaysSynced(decode, Next(decode, before, run[n]), run[n + 1..]);
  }

  /** A record that carries provenance is held after a step, of whatever kind and with whatever read, exactly
      when the step does not start over or what was read, folded on its own, holds it too. */
  lemma OnlyStartingOverForgets(decode: Decode, w: World, s: Step, id: string)
    requires Enabled(w, s) && id in w.log.events && Carries(w.log.events[id])
    ensures var events := Next(decode, w, s).log.events;
            (id in events && events[id] == w.log.events[id]) <==>
              (StartsOver(w, s) ==>
                 var refold := Fold(map[], Records(decode, Whole(s.read)));
                 id in refold && refold[id] == w.log.events[id])
  {
    hide Records, Carries, CompleteEnd, Cancelled, Fold;
    if s.Render? {
      CarriedStays(w.log.events, Records(decode, DataOf(s.read, w.log.offset)), id);
      if |w.file| < w.log.offset { ShorterLogRestarts(decode, w.log, |w.file|, s.read, s.cancel); }
    }
  }

  const LINES: Decode := (line: string) => Some(Record(line, "", "h", "", "", ""))

  const FIRST_LOG: string := "a\n"
  const OTHER_LOG: string := "b\n"

  const SHOWN: Log := Log(2, map["a" := Record("a", "", "h", "", "", "")])
  const REPLACED_RUN: seq<Step> := [Append(FIRST_LOG), Render(true, Grows(""), Text(FIRST_LOG), None),
                                    Replace(OTHER_LOG), Render(true, Grows(""), Text(OTHER_LOG), None)]

  lemma FirstLogShown()
    ensures Rendered(LINES, NEW_LOG, Some(2), Text(FIRST_LOG), None) == SHOWN
  {
    hide Fold, Records, CompleteEnd;
    OneLine('a');
    NeverCancelled(FIRST_LOG);
    assert FIRST_LOG[0..] == FIRST_LOG && FIRST_LOG == ['a', '\n'];
  }

  lemma Unfold(decode: Decode, w: World, s: Step, rest: seq<Step>)
    requires Enabled(w, s) && Legal(decode, Next(decode, w, s), rest)
    ensures Legal(decode, w, [s] + rest) && After(decode, w, [s] + rest) == After(decode, Next(decode, w, s), rest)
  {
    hide Next, Enabled;
    assert ([s] + rest)[0] == s && ([s] + rest)[1..] == rest;
  }

  lemma ReplacedSteps()
    ensures Enabled(World("", NEW_LOG), REPLACED_RUN[0]) && Enabled(World(FIRST_LOG, SHOWN), REPLACED_RUN[2])
    ensures Enabled(World(FIRST_LOG, SHOWN), Replace(""))
    ensures Next(LINES, World("", NEW_LOG), REPLACED_RUN[0]) == World(FIRST_LOG, NEW_LOG)
    ensures Next(LINES, World(FIRST_LOG, NEW_LOG), REPLACED_RUN[1]) == World(FIRST_LOG, SHOWN)
    ensures Next(LINES, World(FIRST_LOG, SHOWN), REPLACED_RUN[2]) == World(OTHER_LOG, SHOWN)
    ensures Next(LINES, World(OTHER_LOG, SHOWN), REPLACED_RUN[3]) == World(OTHER_LOG, SHOWN)
    ensures Enabled(World(FIRST_LOG, NEW_LOG), REPLACED_RUN[1]) && Enabled(World(OTHER_LOG, SHOWN), REPLACED_RUN[3])
  {
    hide Fold, Records, CompleteEnd, Cancelled;
    FirstLogShown();
    assert "" + FIRST_LOG == FIRST_LOG && FIRST_LOG + "" == FIRST_LOG && OTHER_LOG + "" == OTHER_LOG;
  }

  /** A log replaced by one not shorter than the offset goes unnoticed: the reader goes on showing the log
      that is gone, also through renders that complete. */
  lemma ReplacedUnnoticed()
    ensures Legal(LINES, World("", NEW_LOG), REPLACED_RUN)
    ensures var t := After(LINES, World("", NEW_LOG), REPLACED_RUN);
            && t.file == OTHER_LOG && "a" in t.log.events && "b" !in t.log.events
            && "b" in Fold(map[], Records(LINES, OTHER_LOG)) && !Synced(LINES, t.log, t.file)
  {
    hide Next, Fold, Records;
    ReplacedSteps();
    OneLine('b');
    assert OTHER_LOG[..2] == OTHER_LOG && OTHER_LOG == ['b', '\n'];
    var run := REPLACED_RUN;
    assert [run[3]] + [] == run[3..] && [run[2]] + run[3..] == run[2..] && [run[1]] + run[2..] == run[1..];
    Unfold(LINES, World(OTHER_LOG, SHOWN), run[3], []);
    Unfold(LINES, World(FIRST_LOG, SHOWN), run[2], run[3..]);
    Unfold(LINES, World(FIRST_LOG, NEW_LOG), run[1], run[2..]);
    assert [run[0]] + run[1..] == run;
    Unfold(LINES, World("", NEW_LOG), run[0], run[1..]);
  }

  lemma OneLine(c: char)
    requires c == 'a' || c == 'b'
    ensures CompleteEnd([c, '\n']) == 2
    ensures Records(LINES, [c, '\n']) == [Record([c], "", "h", "", "", "")]
    ensures Fold(map[], Records(LINES, [c, '\n'])) == map[[c] := Record([c], "", "h", "", "", "")]
  {
    var text: string := [c, '\n'];
    assert text[..2] == text && text[1..] == "\n" && text[..1] == [c];
    assert FirstNewline(text) == 1 && text[2..] == "";
    assert Split(text) == [[c], ""];
    assert TrimSpace([c]) == [c] && TrimSpace("") == "";
    assert RecordOf(LINES, [c]) == Some(Record([c], "", "h", "", "", "")) && RecordOf(LINES, "") == None;
    assert [[c], ""][..1] == [[c]] && [[c]][..0] == [];
    assert Decoded(LINES, [[c]]) == [Record([c], "", "h", "", "", "")];
    assert [Record([c], "", "h", "", "", "")][..0] == [];
  }

  const ERASED_RUN: seq<Step> := REPLACED_RUN[..2] + [Replace(""), Render(true, Grows(""), Absent, None)]

  lemma ErasedSteps()
    ensures Next(LINES, World(FIRST_LOG, SHOWN), ERASED_RUN[2]) == World("", SHOWN)
    ensures Enabled(World("", SHOWN), ERASED_RUN[3])
    ensures Next(LINES, World("", SHOWN), ERASED_RUN[3]) == World("", NEW_LOG)
    ensures StartsOver(World("", SHOWN), ERASED_RUN[3])
  {
    hide Fold, Records;
    NeverCancelled("");
    ShorterLogRestarts(LINES, SHOWN, 0, Absent, None);
  }

  /** A log that is found shorter and is gone when it is read erases every record that was shown, although
      a log that is gone already at the stat erases none. */
  lemma AbsentReadErases()
    ensures Legal(LINES, World("", NEW_LOG), ERASED_RUN)
    ensures After(LINES, World("", NEW_LOG), ERASED_RUN[..2]).log == SHOWN
    ensures "a" in SHOWN.events && Carries(SHOWN.events["a"])
    ensures After(LINES, World("", NEW_LOG), ERASED_RUN).log == NEW_LOG
    ensures forall read, cancel :: Rendered(LINES, SHOWN, None, read, cancel) == SHOWN
  {
    hide Next, Fold, Records, Enabled;
    ReplacedSteps();
    ErasedSteps();
    var run := ERASED_RUN;
    assert run[0] == REPLACED_RUN[0] && run[1] == REPLACED_RUN[1];
    assert [run[3]] + [] == run[3..] && [run[2]] + run[3..] == run[2..] && [run[1]] + run[2..] == run[1..];
    assert [run[0]] + run[1..] == run && [run[1]] + [] == [run[1]] && [run[0]] + [run[1]] == run[..2];
    Unfold(LINES, World("", SHOWN), run[3], []);
    Unfold(LINES, World(FIRST_LOG, SHOWN), run[2], run[3..]);
    Unfold(LINES, World(FIRST_LOG, NEW_LOG), run[1], run[2..]);
    Unfold(LINES, World("", NEW_LOG), run[0], run[1..]);
    Unfold(LINES, World(FIRST_LOG, NEW_LOG), run[1], []);
    Unfold(LINES, World("", NEW_LOG), run[0], [run[1]]);
  }
}
