/**
 * Follows one access log across restarts and rotations.  The value-level
 * functions say what a poll does; the class LogTailer does it in place.
 */
module LogTailer {
  import opened Options
  import opened Events
  import opened PyText
  import EventStore

  /**
   * The file system as the tailer sees it: file contents by inode, and the
   * inode now at the watched path.  A renamed file stays readable through an
   * open handle, so contents are never removed.
   */
  datatype FileSystem = FileSystem(files: map<nat, string>, current: Option<nat>) {
    ghost predicate Valid() { current.Some? ==> current.value in files }

    function Text(inode: nat): string { if inode in files then files[inode] else "" }

    /** What read() returns to a handle standing at `offset`. */
    function Rest(inode: nat, offset: nat): string {
      if offset <= |Text(inode)| then Text(inode)[offset..] else ""
    }
  }

  /** An open file: which inode, and how far it has been read. */
  datatype Handle = Handle(inode: nat, offset: nat)

  /** A read position as it is persisted: with the unterminated line already consumed. */
  datatype Position = Position(inode: nat, offset: nat, partial: string)

  /** How one source's lines become events: its parser, and the client addresses it ignores. */
  datatype Source = Source(parse: string -> Option<ParsedEvent>, excluded: set<string>)

  datatype Tailer = Tailer(handle: Option<Handle>, partial: string, lastRead: Option<Position>)

  datatype PollResult = PollResult(missing: bool, events: seq<ParsedEvent>, next: Tailer)

  const FRESH := Tailer(None, "", None)

  /** What one terminated line contributes. */
  function LineEvents(src: Source, line: string): seq<ParsedEvent> {
    if IsBlank(line) then []
    else match src.parse(line)
      case None => []
      case Some(event) => if event.clientIp in src.excluded then [] else [event]
  }

  function EventsOf(src: Source, lines: seq<string>): seq<ParsedEvent> {
    if lines == [] then []
    else EventsOf(src, lines[..|lines| - 1]) + LineEvents(src, lines[|lines| - 1])
  }

  /** The events of a text read from its beginning: those of its terminated lines. */
  function ReadEvents(src: Source, text: string): seq<ParsedEvent> {
    EventsOf(src, Terminated(text))
  }

  lemma {:induction false} EventsOfConcat(src: Source, a: seq<string>, b: seq<string>)
    ensures EventsOf(src, a + b) == EventsOf(src, a) + EventsOf(src, b)
  {
    hide LineEvents;
    if b == [] {
      assert a + b == a;
    } else {
      EventsOfConcat(src, a, b[..|b| - 1]);
      assert (a + b)[..|a + b| - 1] == a + b[..|b| - 1];
      assert (a + b)[|a + b| - 1] == b[|b| - 1];
    }
  }

  /** Any split of a text into two reads yields the same events. */
  lemma ReadEventsConcat(src: Source, a: string, b: string)
    ensures ReadEvents(src, a + b) == ReadEvents(src, a) + ReadEvents(src, Tail(a) + b)
  {
    TerminatedConcat(a, b);
    EventsOfConcat(src, Terminated(a), Terminated(Tail(a) + b));
  }

  lemma OneLine(src: Source, line: string)
    requires '\n' !in line
    ensures ReadEvents(src, line + "\n") == LineEvents(src, line) && Tail(line + "\n") == ""
  {
    assert Join([line, ""], '\n') == line + "\n";
    JoinThenSplit([line, ""], '\n');
    assert Terminated(line + "\n") == [line];
    assert EventsOf(src, [line]) == EventsOf(src, []) + LineEvents(src, line);
  }

  // ---- Which events, and in which order -------------------------------------

  /** `line` parses to `event`, whose address is not excluded. */
  predicate Keeps(src: Source, line: string, event: ParsedEvent) {
    !IsBlank(line) && src.parse(line) == Some(event) && event.clientIp !in src.excluded
  }

  /** The same of a line that could have been written. */
  predicate Yields(src: Source, line: string, event: ParsedEvent) { '\n' !in line && Keeps(src, line, event) }

  /** `at` lists in order, once each, the lines that are kept, and `events` is what they parse to. */
  ghost predicate KeptInOrder(src: Source, lines: seq<string>, at: seq<nat>, events: seq<ParsedEvent>) {
    && |at| == |events| && (forall i :: 0 <= i < |at| ==> at[i] < |lines| && Keeps(src, lines[at[i]], events[i]))
    && (forall i, j :: 0 <= i < j < |at| ==> at[i] < at[j])
    && forall n, e :: 0 <= n < |lines| && Keeps(src, lines[n], e) ==> n in at
  }

  lemma {:induction false} EventsAreKept(src: Source, lines: seq<string>) returns (at: seq<nat>)
    ensures KeptInOrder(src, lines, at, EventsOf(src, lines))
  {
    if lines == [] { return []; }
    var n := |lines| - 1;
    var front := EventsAreKept(src, lines[..n]);
    at := front + if LineEvents(src, lines[n]) == [] then [] else [n];
    forall m, e | 0 <= m < |lines| && Keeps(src, lines[m], e) ensures m in at {
      if m < n { assert Keeps(src, lines[..n][m], e); }
    }
  }

  /**
   * The events read from a text are, in order and once each, what its non-blank
   * terminated lines parse to where the address is not excluded.
   */
  lemma EventsRead(src: Source, text: string)
    ensures exists at :: KeptInOrder(src, Terminated(text), at, ReadEvents(src, text))
    ensures forall e :: e in ReadEvents(src, text) <==> exists line :: line in Terminated(text) && Keeps(src, line, e)
  {
    hide Terminated, Keeps, EventsOf, KeptInOrder;
    var at := EventsAreKept(src, Terminated(text));
    assert KeptInOrder(src, Terminated(text), at, ReadEvents(src, text));
    forall e ensures e in ReadEvents(src, text) <==> exists line :: line in Terminated(text) && Keeps(src, line, e) {
      KeptAre(src, Terminated(text), at, ReadEvents(src, text), e);
    }
  }

  lemma KeptAre(src: Source, lines: seq<string>, at: seq<nat>, events: seq<ParsedEvent>, e: ParsedEvent)
    requires KeptInOrder(src, lines, at, events)
    ensures e in events <==> exists line :: line in lines && Keeps(src, line, e)
  {
    hide Keeps;
    if e in events {
      var i: nat :| i < |events| && events[i] == e;
      assert lines[at[i]] in lines && Keeps(src, lines[at[i]], e);
    }
    if line :| line in lines && Keeps(src, line, e) {
      var n: nat :| n < |lines| && lines[n] == line;
      assert n in at;
      var i: nat :| i < |at| && at[i] == n;
      KeepsOnce(src, line, e, events[i]);
    }
  }

  lemma KeepsOnce(src: Source, line: string, e: ParsedEvent, f: ParsedEvent)
    requires Keeps(src, line, e) && Keeps(src, line, f)
    ensures e == f
  {}

  /** Where nothing is excluded and every line parses: one event per line, in order. */
  lemma {:induction false} EveryLineIsRead(src: Source, lines: seq<string>, tail: string)
    requires src.excluded == {} && '\n' !in tail
    requires forall i :: 0 <= i < |lines| ==> '\n' !in lines[i] && !IsBlank(lines[i]) && src.parse(lines[i]).Some?
    ensures var events := ReadEvents(src, Written(lines) + tail);
            |events| == |lines| && forall i :: 0 <= i < |lines| ==> src.parse(lines[i]) == Some(events[i])
  {
    LinesAndTail(Written(lines) + tail, lines, tail);
    hide Terminated, Written, IsBlank;
    EventPerLine(src, lines);
  }

  lemma {:induction false} EventPerLine(src: Source, lines: seq<string>)
    requires src.excluded == {}
    requires forall i :: 0 <= i < |lines| ==> !IsBlank(lines[i]) && src.parse(lines[i]).Some?
    ensures var events := EventsOf(src, lines);
            |events| == |lines| && forall i :: 0 <= i < |lines| ==> src.parse(lines[i]) == Some(events[i])
  {
    hide IsBlank;
    if lines != [] { EventPerLine(src, lines[..|lines| - 1]); }
  }

  // ---- One poll, as a value-level step -------------------------------------

  /** Where the first open of a process puts the handle. */
  function OpenInitial(fs: FileSystem, disk: Option<Position>, t: Tailer): Tailer
    requires fs.current.Some?
  {
    var inode := fs.current.value;
    match disk
    case Some(p) =>
      if p.inode == inode then t.(handle := Some(Handle(inode, p.offset)), partial := p.partial)
      else t.(handle := Some(Handle(inode, 0)), partial := "")
    case None =>
      t.(handle := Some(Handle(inode, |fs.Text(inode)|)), partial := "")
  }

  /** Reads to the end of the open file and splits off the finished lines. */
  function Read(src: Source, fs: FileSystem, t: Tailer): (seq<ParsedEvent>, Tailer)
    requires t.handle.Some?
  {
    var h := t.handle.value;
    var text := t.partial + fs.Rest(h.inode, h.offset);
    if fs.Rest(h.inode, h.offset) == "" then ([], t)
    else (ReadEvents(src, text),
          t.(partial := Tail(text), handle := Some(h.(offset := |fs.Text(h.inode)|))))
  }

  /** What the rotation and truncation checks leave the poll to read from. */
  function FollowRotation(src: Source, fs: FileSystem, t: Tailer): (seq<ParsedEvent>, Tailer)
    requires t.handle.Some? && fs.current.Some?
  {
    var h := t.handle.value;
    if fs.current.value != h.inode then
      (ReadEvents(src, t.partial + fs.Rest(h.inode, h.offset)),
       t.(handle := Some(Handle(fs.current.value, 0)), partial := ""))
    else if |fs.Text(h.inode)| < h.offset then
      ([], t.(handle := Some(h.(offset := 0)), partial := ""))
    else ([], t)
  }

  function Snapshot(t: Tailer): Tailer {
    if t.handle.Some? then
      t.(lastRead := Some(Position(t.handle.value.inode, t.handle.value.offset, t.partial)))
    else t
  }

  /** The events dispatched before the callback raises, or all of them. */
  function Delivered(events: seq<ParsedEvent>, raisesAfter: Option<nat>): (taken: seq<ParsedEvent>)
    ensures taken <= events
    ensures |taken| == if raisesAfter.Some? && raisesAfter.value < |events| then raisesAfter.value else |events|
  {
    if raisesAfter.Some? && raisesAfter.value < |events| then events[..raisesAfter.value] else events
  }

  function Poll(src: Source, fs: FileSystem, disk: Option<Position>, t: Tailer): PollResult {
    if fs.current.None? then PollResult(true, [], t.(handle := None))
    else
      var started := if t.handle.None? then OpenInitial(fs, disk, t) else t;
      var (drained, ready) := FollowRotation(src, fs, started);
      var (recent, done) := Read(src, fs, ready);
      PollResult(false, drained + recent, Snapshot(done))
  }

  /**
   * Copy-truncation is noticed only by the file being shorter than what was
   * read.  When it is, the new content is read from its start; otherwise the
   * new content is taken up at the old offset, and glued to the old tail.
   */
  lemma TruncationNoticedIffShorter(src: Source, fs: FileSystem, disk: Option<Position>, t: Tailer)
    requires fs.current.Some? && t.handle.Some? && t.handle.value.inode == fs.current.value
    ensures var h := t.handle.value;
            var text := fs.Text(h.inode);
            var r := Poll(src, fs, disk, t);
            && r.next.handle == Some(Handle(h.inode, |text|))
            && (|text| < h.offset ==> r.events == ReadEvents(src, text) && r.next.partial == Tail(text))
            && (|text| > h.offset ==>
                  r.events == ReadEvents(src, t.partial + text[h.offset..])
                  && r.next.partial == Tail(t.partial + text[h.offset..]))
            && (|text| == h.offset ==> r.events == [] && r.next.partial == t.partial)
  {
    hide ReadEvents, Tail;
    NothingToRead(src);
    var h := t.handle.value;
    var text := fs.Text(h.inode);
    assert "" + text == text && text[0..] == text;
  }

  // ---- A restart ------------------------------------------------------------

  /** What a position vouches for in a file: the text before its offset, of which `partial` is the unterminated tail. */
  ghost predicate Marks(p: Position, inode: nat, text: string) {
    p.inode == inode && p.offset <= |text| && p.partial == Tail(text[..p.offset])
  }

  /**
   * The first poll of a new process, by what it finds: a position marking the
   * file is taken up exactly where it was left; a position past the file's end
   * or in another file means the whole file is new; no position, only what
   * follows from now on.
   */
  lemma RestartReads(src: Source, fs: FileSystem, disk: Option<Position>)
    requires fs.current.Some?
    ensures var inode := fs.current.value;
            var text := fs.Text(inode);
            var r := Poll(src, fs, disk, FRESH);
            && r.next.handle == Some(Handle(inode, |text|))
            && (disk.Some? && Marks(disk.value, inode, text) ==>
                  && ReadEvents(src, text[..disk.value.offset]) + r.events == ReadEvents(src, text)
                  && r.next.partial == Tail(text))
            && (disk.Some? && (disk.value.inode != inode || disk.value.offset > |text|) ==>
                  r.events == ReadEvents(src, text) && r.next.partial == Tail(text))
            && (disk.None? ==> r.events == [] && r.next.partial == "")
  {
    hide ReadEvents, Tail, Poll;
    var inode := fs.current.value;
    var text := fs.Text(inode);
    NothingToRead(src);
    assert "" + text == text && text[0..] == text;
    OpensThenPolls(src, fs, disk);
    TruncationNoticedIffShorter(src, fs, disk, OpenInitial(fs, disk, FRESH));
    if disk.Some? && Marks(disk.value, inode, text) {
      var front, rest := text[..disk.value.offset], text[disk.value.offset..];
      assert front + rest == text;
      if rest == "" { assert front == text; }
      ReadEventsConcat(src, front, rest);
      TerminatedConcat(front, rest);
    }
  }

  lemma OpensThenPolls(src: Source, fs: FileSystem, disk: Option<Position>)
    requires fs.current.Some?
    ensures Poll(src, fs, disk, FRESH) == Poll(src, fs, disk, OpenInitial(fs, disk, FRESH))
  {
    hide ReadEvents, Tail;
  }

  lemma NothingToRead(src: Source)
    ensures ReadEvents(src, "") == [] && Tail("") == ""
  {}

  // ---- Counters -------------------------------------------------------------

  function Count(lines: seq<string>, p: string -> bool): nat {
    if lines == [] then 0 else Count(lines[..|lines| - 1], p) + if p(lines[|lines| - 1]) then 1 else 0
  }

  /** What one more line adds to the events and to each counter. */
  lemma LineCounts(src: Source, lines: seq<string>, i: nat)
    requires i < |lines|
    ensures EventsOf(src, lines[..i + 1]) == EventsOf(src, lines[..i]) + LineEvents(src, lines[i])
    ensures forall p :: Count(lines[..i + 1], p) == Count(lines[..i], p) + if p(lines[i]) then 1 else 0
  {
    assert lines[..i + 1][..i] == lines[..i];
  }

  lemma NoLinesYet(src: Source, lines: seq<string>)
    ensures EventsOf(src, lines[..0]) == [] && forall p :: Count(lines[..0], p) == 0
  {}

  function SeenLine(): string -> bool { (line: string) => !IsBlank(line) }

  function ParsedLine(src: Source): string -> bool { (line: string) => !IsBlank(line) && src.parse(line).Some? }

  function ExcludedLine(src: Source): string -> bool {
    (line: string) =>
      !IsBlank(line) && src.parse(line).Some? && src.parse(line).value.clientIp in src.excluded
  }

  // ---- The tailer object ----------------------------------------------------

  /** The directory holding the persisted position; it outlives the process. */
  class StateDir {
    var saved: Option<Position>
    constructor () ensures saved == None { saved := None; }
  }

  class LogTailer {
    const source: Source
    const sink: EventStore.RingBuffer
    const stateDir: StateDir?
    var handle: Option<Handle>
    var partial: string
    var lastRead: Option<Position>
    var lastPersisted: Option<Position>
    var linesSeen: nat
    var linesParsed: nat
    var linesExcluded: nat

    function Value(): Tailer reads this { Tailer(handle, partial, lastRead) }

    function Disk(): Option<Position> reads this, stateDir {
      if stateDir == null then None else stateDir.saved
    }

    constructor (source: Source, sink: EventStore.RingBuffer, stateDir: StateDir?)
      ensures this.source == source && this.sink == sink && this.stateDir == stateDir
      ensures Value() == FRESH && lastPersisted == None
      ensures linesSeen == linesParsed == linesExcluded == 0
    {
      this.source, this.sink, this.stateDir := source, sink, stateDir;
      handle, partial, lastRead, lastPersisted := None, "", None, None;
      linesSeen, linesParsed, linesExcluded := 0, 0, 0;
    }

    /**
     * One iteration; `fs` is the file system as it stands during the poll.
     * Where `on_event` raises, `raisesAfter` events have been taken; the rest
     * of this poll is not dispatched, but the position moves past it all the same.
     */
    method PollOnce(fs: FileSystem, raisesAfter: Option<nat>) returns (missing: bool)
      requires sink.Valid()
      modifies this, sink
      ensures sink.Valid() && lastPersisted == old(lastPersisted)
      ensures var r := Poll(source, fs, old(Disk()), old(Value()));
              && missing == r.missing && Value() == r.next
              && sink.Value() == old(sink.Value()).AppendAll(Delivered(r.events, raisesAfter))
    {
      var events;
      missing, events := PollOnceSync(fs);
      if missing { return; }
      Dispatch(events, raisesAfter);
      if handle.Some? {
        lastRead := Some(Position(handle.value.inode, handle.value.offset, partial));
      }
    }

    /** Hands the events on one by one, until the callback raises. */
    method Dispatch(events: seq<ParsedEvent>, raisesAfter: Option<nat>)
      requires sink.Valid()
      modifies sink
      ensures sink.Valid() && sink.Value() == old(sink.Value()).AppendAll(Delivered(events, raisesAfter))
    {
      ghost var start, taken := sink.Value(), Delivered(events, raisesAfter);
      var i := 0;
      while i < |events| && raisesAfter != Some(i)
        invariant 0 <= i <= |taken|
        invariant sink.Valid()
        invariant start.AppendAll(taken) == sink.Value().AppendAll(taken[i..])
      {
        assert taken[i..][1..] == taken[i + 1..];
        var _ := sink.Append(events[i]);
        i := i + 1;
      }
    }

    /** Everything up to dispatching: open, follow rotations, read, parse. */
    method PollOnceSync(fs: FileSystem) returns (missing: bool, events: seq<ParsedEvent>)
      modifies this
      ensures lastPersisted == old(lastPersisted)
      ensures var r := Poll(source, fs, old(Disk()), old(Value()));
              missing == r.missing && events == r.events && r.next == if missing then Value() else Snapshot(Value())
    {
      events := [];
      if handle.None? {
        if fs.current.None? { return true, []; }
        DoOpenInitial(fs);
      }
      if fs.current.None? {
        handle := None;
        return true, [];
      }
      if fs.current.value != handle.value.inode {
        events := HandleCreateRotation(fs);
      } else if |fs.Text(handle.value.inode)| < handle.value.offset {
        handle, partial := Some(Handle(handle.value.inode, 0)), "";
      }
      var recent := ReadAvailable(fs);
      missing, events := false, events + recent;
    }

    method DoOpenInitial(fs: FileSystem)
      requires fs.current.Some?
      modifies this
      ensures Value() == OpenInitial(fs, old(Disk()), old(Value())) && lastPersisted == old(lastPersisted)
    {
      var inode := fs.current.value;
      var state: Option<Position> := None;
      if stateDir != null { state := stateDir.saved; }
      if state.Some? && state.value.inode == inode {
        handle, partial := Some(Handle(inode, state.value.offset)), state.value.partial;
      } else if state.Some? {
        handle, partial := Some(Handle(inode, 0)), "";
      } else {
        handle, partial := Some(Handle(inode, |fs.Text(inode)|)), "";
      }
    }

    method HandleCreateRotation(fs: FileSystem) returns (events: seq<ParsedEvent>)
      requires handle.Some? && fs.current.Some?
      modifies this
      ensures lastRead == old(lastRead) && lastPersisted == old(lastPersisted)
      ensures handle == Some(Handle(fs.current.value, 0)) && partial == ""
      ensures events == ReadEvents(source, old(partial + fs.Rest(handle.value.inode, handle.value.offset)))
    {
      partial := partial + fs.Rest(handle.value.inode, handle.value.offset);
      events := FlushCompleteLines();
      handle, partial := Some(Handle(fs.current.value, 0)), "";
    }

    method ReadAvailable(fs: FileSystem) returns (events: seq<ParsedEvent>)
      requires handle.Some?
      modifies this
      ensures lastPersisted == old(lastPersisted)
      ensures (events, Value()) == Read(source, fs, old(Value()))
    {
      var h := handle.value;
      var chunk := fs.Rest(h.inode, h.offset);
      if chunk == "" { return []; }
      handle := Some(Handle(h.inode, h.offset + |chunk|));
      partial := partial + chunk;
      events := FlushCompleteLines();
    }

    /** Parses the finished lines of `partial` and keeps the rest; counts lines as it goes. */
    method FlushCompleteLines() returns (events: seq<ParsedEvent>)
      modifies this
      ensures handle == old(handle) && lastRead == old(lastRead) && lastPersisted == old(lastPersisted)
      ensures events == ReadEvents(source, old(partial)) && partial == Tail(old(partial))
      ensures var lines := Terminated(old(partial));
              && linesSeen == old(linesSeen) + Count(lines, SeenLine())
              && linesParsed == old(linesParsed) + Count(lines, ParsedLine(source))
              && linesExcluded == old(linesExcluded) + Count(lines, ExcludedLine(source))
    {
      hide Split, IsBlank, EventsOf, Count;
      var lines := Split(partial, '\n');
      partial, lines := lines[|lines| - 1], lines[..|lines| - 1];
      events := [];
      var i := 0;
      NoLinesYet(source, lines);
      while i < |lines|
        invariant 0 <= i <= |lines|
        invariant unchanged(`handle, `lastRead, `lastPersisted) && partial == Tail(old(partial))
        invariant events == EventsOf(source, lines[..i])
        invariant linesSeen == old(linesSeen) + Count(lines[..i], SeenLine())
        invariant linesParsed == old(linesParsed) + Count(lines[..i], ParsedLine(source))
        invariant linesExcluded == old(linesExcluded) + Count(lines[..i], ExcludedLine(source))
      {
        LineCounts(source, lines, i);
        var line := lines[i];
        i := i + 1;
        if IsBlank(line) { continue; }
        linesSeen := linesSeen + 1;
        var event := source.parse(line);
        if event.Some? {
          linesParsed := linesParsed + 1;
          if event.value.clientIp in source.excluded {
            linesExcluded := linesExcluded + 1;
          } else {
            events := events + [event.value];
          }
        }
      }
      assert lines[..i] == lines;
    }

    /**
     * Persists the last dispatched position.  `writable` is whether the state
     * file can be written; a failed write is logged and forgotten.
     */
    method Checkpoint(writable: bool)
      modifies this`lastPersisted, stateDir
      ensures Value() == old(Value())
      ensures old(lastPersisted.Some? ==> Disk() == lastPersisted) ==> lastPersisted.Some? ==> Disk() == lastPersisted
      ensures old(lastPersisted.Some? ==> Disk() == lastPersisted) && stateDir != null ==>
                stateDir.saved == Persisted(lastRead, old(stateDir.saved), writable)
    {
      if stateDir == null { return; }
      if lastRead.None? || lastRead == lastPersisted { return; }
      if writable {
        stateDir.saved := lastRead;
        lastPersisted := lastRead;
      }
    }
  }

  /** The state file after a checkpoint attempt. */
  function Persisted(lastRead: Option<Position>, disk: Option<Position>, writable: bool): Option<Position> {
    if lastRead.Some? && writable then lastRead else disk
  }
}
