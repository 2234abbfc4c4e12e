/**
 * The ingest path as one state machine: a growing file, a tailer, the ring
 * buffer, a flush that may be interrupted by polls, and a process that may
 * die at any step.  Every event of the log is accounted for in every state.
 */
module Pipeline {
  import opened Options
  import opened Events
  import opened PyText
  import opened LogTailer
  import opened EventStore

  /**
   * `text`, `disk` and `committed` survive a crash; `tailer`, `ring`,
   * `flushed`, `inFlight` and `stopped` (the tailer's) belong to the process.
   *
   * The rest is history, read by no step.  The log is followed from `base`
   * on; this process took over at `start`, has dispatched `emitted`, and
   * `vouched` of those had been dispatched when the persisted position was
   * taken.  `lost` was evicted unflushed, `skipped` was passed by a persisted
   * position and died uncommitted, `recounted` was flushed and read again.
   */
  datatype System = System(
    inode: nat, text: string, tailer: Tailer, ring: Ring, flushed: nat, inFlight: seq<StoredEvent>, stopped: bool,
    disk: Option<Position>, committed: seq<ParsedEvent>,
    base: nat, start: nat, emitted: seq<ParsedEvent>, vouched: nat,
    lost: seq<ParsedEvent>, skipped: seq<ParsedEvent>, recounted: seq<ParsedEvent>)

  datatype Action =
    | Append(chunk: string)
    | PollNow
    | BeginFlush
    | CommitFlush(writable: bool)
    | FailFlush
    | Stop(writable: bool)
    | Crash

  function Boot(inode: nat, text: string, capacity: nat): System {
    System(inode, text, FRESH, EmptyRing(capacity), 0, [], false, None, [], |text|, |text|, [], 0, [], [], [])
  }

  function Fs(s: System): FileSystem { FileSystem(map[s.inode := s.text], Some(s.inode)) }

  /** The (possibly empty) stretch of a sequence from one index to another. */
  function Stretch<T>(xs: seq<T>, from: nat, to: nat): seq<T> {
    if from <= to <= |xs| then xs[from..to] else []
  }

  /**
   * A flush is one at a time, a stopped tailer polls no more, and the end of
   * the process is only considered once a position has been persisted.
   */
  predicate Legal(s: System, a: Action) {
    match a
    case PollNow => !s.stopped
    case Stop(_) => !s.stopped
    case BeginFlush => s.inFlight == []
    case CommitFlush(_) => s.inFlight != []
    case FailFlush => s.inFlight != []
    case Crash => s.disk.Some?
    case _ => true
  }

  function Do(src: Source, s: System, a: Action): System {
    match a
    case Append(chunk) => s.(text := s.text + chunk)
    case PollNow => DoPoll(src, s)
    case BeginFlush => s.(inFlight := Above(s.ring.buffer, s.flushed))
    case CommitFlush(writable) => if s.inFlight == [] then s else DoCheckpoint(DoCommit(s), writable)
    case FailFlush => s.(inFlight := [])
    case Stop(writable) => DoCheckpoint(s.(stopped := true), writable)
    case Crash => if s.disk.None? then s else DoCrash(s)
  }

  function DoPoll(src: Source, s: System): System {
    var r := Poll(src, Fs(s), s.disk, s.tailer);
    var at := if s.tailer.handle.None? && s.disk.None? then |s.text| else s.start;
    s.(tailer := r.next, ring := s.ring.AppendAll(r.events), emitted := s.emitted + r.events,
       base := if s.tailer.handle.None? && s.disk.None? then |s.text| else s.base, start := at)
  }

  function DoCommit(s: System): System
    requires s.inFlight != []
  {
    var first, last := s.inFlight[0].id, s.inFlight[|s.inFlight| - 1].id;
    s.(committed := s.committed + Payload(s.inFlight), flushed := last, inFlight := [],
       lost := s.lost + (if first > 0 then Stretch(s.emitted, s.flushed, first - 1) else []))
  }

  function DoCheckpoint(s: System, writable: bool): System {
    s.(disk := Persisted(s.tailer.lastRead, s.disk, writable),
       vouched := if s.tailer.lastRead.Some? && writable then |s.emitted| else s.vouched)
  }

  function DoCrash(s: System): System
    requires s.disk.Some?
  {
    s.(tailer := FRESH, ring := EmptyRing(s.ring.capacity), flushed := 0, inFlight := [], stopped := false,
       start := s.disk.value.offset, emitted := [], vouched := 0,
       skipped := s.skipped + Debt(s), recounted := s.recounted + Ahead(s))
  }

  /** Dispatched before the persisted position was taken, and not flushed yet: ids in (flushed, vouched]. */
  function Debt(s: System): seq<ParsedEvent> { Stretch(s.emitted, s.flushed, s.vouched) }

  /** Flushed, but past the persisted position: a restart reads these again. */
  function Ahead(s: System): seq<ParsedEvent> { Stretch(s.emitted, s.vouched, s.flushed) }

  /** The events of the log from `base` up to an offset, and the unterminated line there. */
  function Upto(src: Source, text: string, base: nat, offset: nat): seq<ParsedEvent> {
    if base <= offset <= |text| then ReadEvents(src, text[base..offset]) else []
  }

  function TailAt(text: string, base: nat, offset: nat): string {
    if base <= offset <= |text| then Tail(text[base..offset]) else ""
  }

  // ---- The invariant --------------------------------------------------------

  /** Buffer entries carry the events dispatched under their ids. */
  ghost predicate Numbered(emitted: seq<ParsedEvent>, stored: seq<StoredEvent>) {
    forall i :: 0 <= i < |stored| ==> 0 < stored[i].id <= |emitted| && stored[i].event == emitted[stored[i].id - 1]
  }

  ghost predicate Mirrors(ring: Ring, emitted: seq<ParsedEvent>) {
    ring.Valid() && ring.latest == |emitted| && Numbered(emitted, ring.buffer)
  }

  ghost predicate Batched(s: System) {
    && s.flushed <= |s.emitted| && s.vouched <= |s.emitted| && Numbered(s.emitted, s.inFlight)
    && (forall i :: 0 <= i < |s.inFlight| ==> s.inFlight[i].id == s.inFlight[0].id + i)
    && (s.inFlight != [] ==> s.flushed < s.inFlight[0].id)
  }

  ghost predicate Reading(src: Source, s: System) {
    && s.base <= s.start <= |s.text|
    && match s.tailer.handle
       case None =>
         && s.emitted == [] && s.tailer.lastRead == None
         && (s.disk.Some? ==> s.disk.value.offset == s.start) && (s.disk.None? ==> s.base == s.start)
       case Some(h) =>
         && h.inode == s.inode && s.start <= h.offset <= |s.text|
         && s.tailer.partial == TailAt(s.text, s.base, h.offset)
         && s.tailer.lastRead == Some(Position(h.inode, h.offset, s.tailer.partial))
         && Upto(src, s.text, s.base, h.offset) == Upto(src, s.text, s.base, s.start) + s.emitted
  }

  ghost predicate Recorded(src: Source, s: System) {
    s.disk.Some? ==>
      var p := s.disk.value;
      && p.inode == s.inode && s.base <= p.offset <= |s.text|
      && p.partial == TailAt(s.text, s.base, p.offset)
      && Upto(src, s.text, s.base, p.offset)
         == Upto(src, s.text, s.base, s.start) + Stretch(s.emitted, 0, s.vouched)
  }

  /** What left the process, one way or another. */
  function Settled(s: System): multiset<ParsedEvent> {
    multiset(s.committed) + multiset(s.lost) + multiset(s.skipped)
  }

  ghost predicate Balanced(src: Source, s: System) {
    multiset(Upto(src, s.text, s.base, s.start)) + multiset(Stretch(s.emitted, 0, s.flushed)) + multiset(s.recounted)
    == Settled(s)
  }

  ghost predicate Inv(src: Source, s: System) {
    Mirrors(s.ring, s.emitted) && Batched(s) && Reading(src, s) && Recorded(src, s) && Balanced(src, s)
  }

  lemma NothingRead(src: Source, text: string, base: nat)
    requires base <= |text|
    ensures Upto(src, text, base, base) == [] && TailAt(text, base, base) == ""
  {
    assert text[base..base] == "";
  }

  lemma BootHolds(src: Source, inode: nat, text: string, capacity: nat)
    ensures Inv(src, Boot(inode, text, capacity))
  {
    NothingRead(src, text, |text|);
  }

  // ---- Each step keeps it ---------------------------------------------------

  lemma AppendKeeps(src: Source, s: System, chunk: string)
    requires Inv(src, s)
    ensures Inv(src, Do(src, s, Append(chunk)))
  {
    hide ReadEvents, Tail;
    var text' := s.text + chunk;
    forall x: nat | s.base <= x <= |s.text|
      ensures Upto(src, text', s.base, x) == Upto(src, s.text, s.base, x)
      ensures TailAt(text', s.base, x) == TailAt(s.text, s.base, x)
    {
      assert text'[s.base..x] == s.text[s.base..x];
    }
  }

  lemma MirrorsAppend(ring: Ring, emitted: seq<ParsedEvent>, event: ParsedEvent)
    requires Mirrors(ring, emitted)
    ensures Mirrors(ring.Append(event), emitted + [event])
  {
    AppendKeepsValid(ring, event);
    var grown := ring.buffer + [StoredEvent(ring.latest + 1, event)];
    assert Numbered(emitted + [event], grown);
  }

  /** Appending a batch of events to the buffer numbers them on from the last. */
  lemma {:induction false} MirrorsAppendAll(ring: Ring, emitted: seq<ParsedEvent>, events: seq<ParsedEvent>)
    requires Mirrors(ring, emitted)
    ensures Mirrors(ring.AppendAll(events), emitted + events)
    decreases |events|
  {
    if events == [] {
      assert emitted + events == emitted;
    } else {
      MirrorsAppend(ring, emitted, events[0]);
      MirrorsAppendAll(ring.Append(events[0]), emitted + [events[0]], events[1..]);
      assert (emitted + [events[0]]) + events[1..] == emitted + events;
    }
  }

  /** Reading on from a position yields the events in between, and the tail at the end. */
  lemma ReadOn(src: Source, text: string, base: nat, at: nat)
    requires base <= at <= |text|
    ensures Upto(src, text, base, |text|)
            == Upto(src, text, base, at) + ReadEvents(src, TailAt(text, base, at) + text[at..])
    ensures Tail(TailAt(text, base, at) + text[at..]) == TailAt(text, base, |text|)
    ensures at == |text| ==> ReadEvents(src, TailAt(text, base, at) + text[at..]) == []
  {
    hide ReadEvents, Tail, Terminated;
    var read, rest := text[base..at], text[at..];
    assert text[base..|text|] == read + rest;
    ReadEventsConcat(src, read, rest);
    TerminatedConcat(read, rest);
  }

  /** Where a poll starts reading: at the handle, or on the first poll where the state file or the file's end says. */
  function Standing(s: System): Tailer {
    if s.tailer.handle.None? then OpenInitial(Fs(s), s.disk, s.tailer) else s.tailer
  }

  function Based(src: Source, s: System): System {
    s.(base := DoPoll(src, s).base, start := DoPoll(src, s).start)
  }

  lemma StandingIsPosition(src: Source, s: System)
    requires Reading(src, s) && Recorded(src, s) && s.vouched <= |s.emitted|
    ensures var b := Based(src, s);
            var t := Standing(s);
            && t.handle.Some? && t.handle.value.inode == s.inode
            && b.base <= b.start <= t.handle.value.offset <= |s.text|
            && t.partial == TailAt(s.text, b.base, t.handle.value.offset)
            && Upto(src, s.text, b.base, t.handle.value.offset) == Upto(src, s.text, b.base, b.start) + s.emitted
  {
    hide ReadEvents, Tail, Poll, Upto, TailAt;
    NothingRead(src, s.text, |s.text|);
    if s.tailer.handle.None? {
      assert Stretch(s.emitted, 0, s.vouched) == [] == s.emitted;
    }
  }

  /** A poll reads exactly the rest of the file. */
  lemma PollReads(src: Source, s: System)
    requires Standing(s).handle.Some? && Standing(s).handle.value.inode == s.inode
    requires Standing(s).handle.value.offset <= |s.text|
    ensures var t := Standing(s);
            var text := t.partial + s.text[t.handle.value.offset..];
            var r := Poll(src, Fs(s), s.disk, s.tailer);
            && r.next.handle == Some(Handle(s.inode, |s.text|))
            && r.next.lastRead == Some(Position(s.inode, |s.text|, r.next.partial))
            && (t.handle.value.offset < |s.text| ==> r.events == ReadEvents(src, text) && r.next.partial == Tail(text))
            && (t.handle.value.offset == |s.text| ==> r.events == [] && r.next.partial == t.partial)
  {
    hide ReadEvents, Tail;
  }

  lemma PollKeepsReading(src: Source, s: System)
    requires Reading(src, s) && Recorded(src, s) && s.vouched <= |s.emitted|
    ensures Reading(src, DoPoll(src, s))
    ensures DoPoll(src, s).tailer.handle == Some(Handle(s.inode, |s.text|))
  {
    hide ReadEvents, Tail, Poll, Upto, TailAt;
    StandingIsPosition(src, s);
    PollReads(src, s);
    var b := Based(src, s);
    ReadOn(src, s.text, b.base, Standing(s).handle.value.offset);
  }

  lemma PollKeeps(src: Source, s: System)
    requires Inv(src, s)
    ensures Inv(src, Do(src, s, PollNow))
    ensures Do(src, s, PollNow).tailer.handle == Some(Handle(s.inode, |s.text|))
  {
    hide ReadEvents, Tail, Poll, Upto, TailAt, Ring.AppendAll;
    PollKeepsReading(src, s);
    var s' := DoPoll(src, s);
    var events := Poll(src, Fs(s), s.disk, s.tailer).events;
    MirrorsAppendAll(s.ring, s.emitted, events);
    assert Stretch(s'.emitted, 0, s.flushed) == Stretch(s.emitted, 0, s.flushed);
    assert Stretch(s'.emitted, 0, s.vouched) == Stretch(s.emitted, 0, s.vouched);
    NothingRead(src, s.text, |s.text|);
    NothingRead(src, s.text, s.base);
  }

  lemma BeginKeeps(src: Source, s: System)
    requires Inv(src, s) && s.inFlight == []
    ensures Inv(src, Do(src, s, BeginFlush))
    ensures var s' := Do(src, s, BeginFlush);
            && (s'.inFlight != [] ==> s'.inFlight[|s'.inFlight| - 1].id == |s.emitted|)
            && (s'.inFlight == [] && s.ring.capacity > 0 ==> s.flushed == |s.emitted|)
  {
    hide Above, Upto, TailAt, Batched, Numbered;
    BeginTakesBatch(s);
  }

  lemma BeginTakesBatch(s: System)
    requires Mirrors(s.ring, s.emitted) && Batched(s)
    ensures var s' := s.(inFlight := Above(s.ring.buffer, s.flushed));
            && Batched(s')
            && (s'.inFlight != [] ==> s'.inFlight[|s'.inFlight| - 1].id == |s.emitted|)
            && (s'.inFlight == [] && s.ring.capacity > 0 ==> s.flushed == |s.emitted|)
  {
    hide Above;
    var first := s.ring.latest - |s.ring.buffer| + 1;
    assert forall i :: 0 <= i < |s.ring.buffer| ==> s.ring.buffer[i].id == first + i;
    AboveIsSuffix(s.ring.buffer, first, s.flushed);
  }

  lemma StretchSplit<T>(xs: seq<T>, a: nat, b: nat, c: nat)
    requires a <= b <= c <= |xs|
    ensures Stretch(xs, a, c) == Stretch(xs, a, b) + Stretch(xs, b, c)
    ensures |Stretch(xs, a, b)| == b - a
  {}

  /** A batch of consecutive ids is a stretch of what was dispatched. */
  lemma PayloadIsStretch(s: System)
    requires Batched(s) && s.inFlight != []
    ensures var first, last := s.inFlight[0].id, s.inFlight[|s.inFlight| - 1].id;
            s.flushed < first <= last <= |s.emitted| && Payload(s.inFlight) == Stretch(s.emitted, first - 1, last)
  {
    var first, last := s.inFlight[0].id, s.inFlight[|s.inFlight| - 1].id;
    assert last == first + |s.inFlight| - 1;
  }

  /** A commit moves `gap` to the lost events and the batch to the committed ones, in the order they were dispatched. */
  ghost predicate CommitAdds(s: System, gap: seq<ParsedEvent>)
    requires s.inFlight != []
  {
    var s' := DoCommit(s);
    && Stretch(s.emitted, 0, s'.flushed) == Stretch(s.emitted, 0, s.flushed) + gap + Payload(s.inFlight)
    && s'.lost == s.lost + gap && s'.committed == s.committed + Payload(s.inFlight)
  }

  /** What a commit adds to the flushed events: the evicted gap, which is lost, and the batch. */
  lemma CommitExtends(s: System)
    requires Batched(s) && s.inFlight != []
    ensures var s' := DoCommit(s);
            && s.flushed < s'.flushed <= |s.emitted| && exists gap :: CommitAdds(s, gap)
  {
    hide Batched, Payload, Stretch;
    PayloadIsStretch(s);
    var first, last := s.inFlight[0].id, s.inFlight[|s.inFlight| - 1].id;
    var gap := Stretch(s.emitted, s.flushed, first - 1);
    StretchSplit(s.emitted, 0, s.flushed, first - 1);
    StretchSplit(s.emitted, 0, first - 1, last);
    assert CommitAdds(s, gap);
  }

  lemma CommitMoves(s: System) returns (moved: multiset<ParsedEvent>)
    requires Batched(s) && s.inFlight != []
    ensures var s' := DoCommit(s);
            && multiset(Stretch(s.emitted, 0, s'.flushed)) == multiset(Stretch(s.emitted, 0, s.flushed)) + moved
            && Settled(s') == Settled(s) + moved
  {
    CommitExtends(s);
    hide Batched, Payload, Stretch;
    var s' := DoCommit(s);
    var gap :| CommitAdds(s, gap);
    moved := multiset(gap) + multiset(Payload(s.inFlight));
    assert multiset(s'.lost) == multiset(s.lost) + multiset(gap);
    assert multiset(s'.committed) == multiset(s.committed) + multiset(Payload(s.inFlight));
  }

  lemma CommitKeeps(src: Source, s: System)
    requires Inv(src, s) && s.inFlight != []
    ensures Inv(src, DoCommit(s))
  {
    hide ReadEvents, Tail, Upto, TailAt, Stretch, Settled;
    var moved := CommitMoves(s);
    CommitExtends(s);
  }

  lemma CheckpointKeeps(src: Source, s: System, writable: bool)
    requires Inv(src, s)
    ensures Inv(src, DoCheckpoint(s, writable))
  {
    hide ReadEvents, Tail, Upto, TailAt;
    assert Stretch(s.emitted, 0, |s.emitted|) == s.emitted;
  }

  /** The flushed and the vouched-for events differ by the debt one way and by what is ahead the other. */
  lemma DebtAndAhead(s: System)
    requires s.flushed <= |s.emitted| && s.vouched <= |s.emitted|
    ensures multiset(Stretch(s.emitted, 0, s.vouched)) + multiset(Ahead(s))
            == multiset(Stretch(s.emitted, 0, s.flushed)) + multiset(Debt(s))
  {
    var low := if s.flushed <= s.vouched then s.flushed else s.vouched;
    assert Stretch(s.emitted, 0, s.vouched) == s.emitted[..low] + Debt(s);
    assert Stretch(s.emitted, 0, s.flushed) == s.emitted[..low] + Ahead(s);
  }

  lemma Exchange<T>(u: multiset<T>, v: multiset<T>, f: multiset<T>, ahead: multiset<T>, debt: multiset<T>,
      r: multiset<T>)
    requires v + ahead == f + debt
    ensures (u + v) + (r + ahead) == ((u + f) + r) + debt
  {
    assert (u + v) + (r + ahead) == (u + r) + (v + ahead);
  }

  lemma CrashKeeps(src: Source, s: System)
    requires Inv(src, s) && s.disk.Some?
    ensures Inv(src, DoCrash(s))
  {
    hide ReadEvents, Tail, Upto, TailAt, Debt, Ahead;
    DebtAndAhead(s);
    var s' := DoCrash(s);
    assert Stretch(s'.emitted, 0, 0) == [];
    var upto := Upto(src, s.text, s.base, s'.start);
    assert upto + [] == upto;
    assert multiset(upto) == multiset(Upto(src, s.text, s.base, s.start)) + multiset(Stretch(s.emitted, 0, s.vouched));
    assert multiset(s'.recounted) == multiset(s.recounted) + multiset(Ahead(s));
    assert multiset(s'.skipped) == multiset(s.skipped) + multiset(Debt(s));
    assert Settled(s') == Settled(s) + multiset(Debt(s));
    var u := multiset(Upto(src, s.text, s.base, s.start));
    var v := multiset(Stretch(s.emitted, 0, s.vouched));
    var f := multiset(Stretch(s.emitted, 0, s.flushed));
    Exchange(u, v, f, multiset(Ahead(s)), multiset(Debt(s)), multiset(s.recounted));
  }

  lemma StepKeeps(src: Source, s: System, a: Action)
    requires Inv(src, s) && Legal(s, a)
    ensures Inv(src, Do(src, s, a))
  {
    hide ReadEvents, Tail, DoPoll, DoCommit, DoCheckpoint, DoCrash, Upto, TailAt;
    match a
    case Append(chunk) => AppendKeeps(src, s, chunk);
    case PollNow => PollKeeps(src, s);
    case BeginFlush => BeginKeeps(src, s);
    case CommitFlush(writable) => CommitKeeps(src, s); CheckpointKeeps(src, DoCommit(s), writable);
    case FailFlush => FailKeeps(src, s);
    case Stop(writable) => StoppedKeeps(src, s); CheckpointKeeps(src, s.(stopped := true), writable);
    case Crash => CrashKeeps(src, s);
  }

  lemma StoppedKeeps(src: Source, s: System)
    requires Inv(src, s)
    ensures Inv(src, s.(stopped := true))
  {
    hide ReadEvents, Tail, Upto, TailAt;
  }

  lemma FailKeeps(src: Source, s: System)
    requires Inv(src, s)
    ensures Inv(src, s.(inFlight := []))
  {
    hide ReadEvents, Tail, Upto, TailAt;
  }

  // ---- Whole runs -----------------------------------------------------------

  ghost predicate LegalRun(src: Source, s: System, actions: seq<Action>)
    decreases |actions|
  {
    actions == [] || (Legal(s, actions[0]) && LegalRun(src, Do(src, s, actions[0]), actions[1..]))
  }

  function After(src: Source, s: System, actions: seq<Action>): System
    decreases |actions|
  {
    if actions == [] then s else After(src, Do(src, s, actions[0]), actions[1..])
  }

  lemma {:induction false} RunKeeps(src: Source, s: System, actions: seq<Action>)
    requires Inv(src, s) && LegalRun(src, s, actions)
    ensures Inv(src, After(src, s, actions))
    decreases |actions|
  {
    hide Inv, Legal, Do;
    if actions != [] {
      StepKeeps(src, s, actions[0]);
      RunKeeps(src, Do(src, s, actions[0]), actions[1..]);
    }
  }

  /**
   * Conservation, over every run and whatever polls a flush is interrupted
   * by: the events the persisted position has passed, plus those counted
   * twice, are the committed ones, plus those evicted unflushed, plus those
   * dead runs left uncommitted, plus the debt -- and the debt is exactly the
   * dispatched ids in (flushed, vouched].  The persisted partial line is the
   * unterminated tail at the persisted offset.
   */
  lemma Conservation(src: Source, inode: nat, text: string, capacity: nat, actions: seq<Action>)
    requires LegalRun(src, Boot(inode, text, capacity), actions)
    ensures var s := After(src, Boot(inode, text, capacity), actions);
            s.disk.Some? ==>
              && s.disk.value.partial == TailAt(s.text, s.base, s.disk.value.offset)
              && multiset(Upto(src, s.text, s.base, s.disk.value.offset)) + multiset(s.recounted) + multiset(Ahead(s))
                 == Settled(s) + multiset(Debt(s))
  {
    hide ReadEvents, Tail, Upto, TailAt, Debt, Ahead, After;
    var s := After(src, Boot(inode, text, capacity), actions);
    BootHolds(src, inode, text, capacity);
    RunKeeps(src, Boot(inode, text, capacity), actions);
    if s.disk.Some? {
      DebtAndAhead(s);
      var u := multiset(Upto(src, s.text, s.base, s.start));
      var v := multiset(Stretch(s.emitted, 0, s.vouched));
      var f := multiset(Stretch(s.emitted, 0, s.flushed));
      Exchange(u, v, f, multiset(Ahead(s)), multiset(Debt(s)), multiset(s.recounted));
      assert multiset(Upto(src, s.text, s.base, s.disk.value.offset)) == u + v;
      assert (u + v) + multiset(s.recounted) + multiset(Ahead(s))
          == (u + v) + (multiset(s.recounted) + multiset(Ahead(s)));
    }
  }

  /**
   * After a commit whose checkpoint was written, the persisted position has
   * passed only flushed events if and only if nothing was dispatched between
   * reading the batch and committing it.
   */
  lemma DebtFreeIffQuiet(src: Source, s: System)
    requires Inv(src, s) && s.inFlight != [] && s.tailer.lastRead.Some?
    ensures var s' := Do(src, s, CommitFlush(true));
            Debt(s') == [] <==> s.inFlight[|s.inFlight| - 1].id == |s.emitted|
  {
    hide ReadEvents, Tail, Upto, TailAt;
  }

  /**
   * A stopping tailer persists its position at once, ahead of the final flush:
   * it has passed only flushed events if and only if none was waiting.
   */
  lemma StopDebtFreeIffFlushed(src: Source, s: System)
    requires Inv(src, s) && s.tailer.lastRead.Some?
    ensures Debt(Do(src, s, Stop(true))) == [] <==> s.flushed == |s.emitted|
  {
    hide ReadEvents, Tail, Upto, TailAt;
  }

  /** The final flush, when it goes through, pays that debt. */
  lemma FinalFlushSettles(src: Source, s: System, writable: bool)
    requires Inv(src, s) && s.inFlight == [] && s.ring.capacity > 0
    ensures var s' := Do(src, Do(src, s, BeginFlush), CommitFlush(writable));
            s'.flushed == |s'.emitted| == |s.emitted| && Debt(s') == []
  {
    hide ReadEvents, Tail, Upto, TailAt, Above, Inv;
    BeginKeeps(src, s);
  }

  /** Polls happen between flushes only, and a stopped process ends with everything dispatched flushed. */
  predicate Orderly(s: System, a: Action) {
    match a
    case PollNow => s.inFlight == []
    case Crash => s.stopped ==> s.flushed == |s.emitted|
    case _ => true
  }

  ghost predicate OrderlyRun(src: Source, s: System, actions: seq<Action>)
    decreases |actions|
  {
    actions == [] ||
    (Legal(s, actions[0]) && Orderly(s, actions[0]) && OrderlyRun(src, Do(src, s, actions[0]), actions[1..]))
  }

  ghost predicate Solvent(s: System) {
    && (!s.stopped ==> s.vouched <= s.flushed) && s.skipped == []
    && (s.inFlight != [] ==> s.inFlight[|s.inFlight| - 1].id == |s.emitted|)
  }

  lemma OrderlyStep(src: Source, s: System, a: Action)
    requires Inv(src, s) && Solvent(s) && Legal(s, a) && Orderly(s, a)
    ensures Solvent(Do(src, s, a))
  {
    hide ReadEvents, Tail, Upto, TailAt, Poll, Above;
    if a == BeginFlush { BeginKeeps(src, s); }
  }

  lemma {:induction false} OrderlyRunKeeps(src: Source, s: System, actions: seq<Action>)
    requires Inv(src, s) && Solvent(s) && OrderlyRun(src, s, actions)
    ensures Inv(src, After(src, s, actions)) && Solvent(After(src, s, actions)) && LegalRun(src, s, actions)
    decreases |actions|
  {
    hide Inv, Legal, Orderly, Do, Solvent;
    if actions != [] {
      StepKeeps(src, s, actions[0]);
      OrderlyStep(src, s, actions[0]);
      OrderlyRunKeeps(src, Do(src, s, actions[0]), actions[1..]);
    }
  }

  /**
   * Crash safety, when no poll falls inside a flush and no process that was
   * stopped ends before its final flush: over every such run, however often
   * flushes or checkpoint writes fail and the running process dies, every
   * event before the persisted offset is committed (or was evicted by an
   * overflowing buffer, which `lost` records), so a restart reads again
   * everything that is not.
   */
  lemma CrashSafety(src: Source, inode: nat, text: string, capacity: nat, actions: seq<Action>)
    requires OrderlyRun(src, Boot(inode, text, capacity), actions)
    ensures var s := After(src, Boot(inode, text, capacity), actions);
            s.disk.Some? && (s.stopped ==> s.flushed == |s.emitted|) ==>
              && s.disk.value.partial == TailAt(s.text, s.base, s.disk.value.offset)
              && multiset(Upto(src, s.text, s.base, s.disk.value.offset)) <= multiset(s.committed) + multiset(s.lost)
  {
    hide ReadEvents, Tail, Upto, TailAt, After;
    var s := After(src, Boot(inode, text, capacity), actions);
    BootHolds(src, inode, text, capacity);
    OrderlyRunKeeps(src, Boot(inode, text, capacity), actions);
    Conservation(src, inode, text, capacity, actions);
    if s.disk.Some? && (s.stopped ==> s.flushed == |s.emitted|) {
      NoDebt(src, s);
      assert multiset(s.skipped) == multiset{} && multiset(Debt(s)) == multiset{};
      Part(multiset(Upto(src, s.text, s.base, s.disk.value.offset)), multiset(s.recounted), multiset(Ahead(s)),
           multiset(s.committed) + multiset(s.lost));
    }
  }

  lemma NoDebt(src: Source, s: System)
    requires Inv(src, s) && Solvent(s) && (s.stopped ==> s.flushed == |s.emitted|)
    ensures Debt(s) == [] && s.skipped == []
  {
    hide ReadEvents, Tail, Upto, TailAt;
  }

  lemma Part<T>(x: multiset<T>, r: multiset<T>, a: multiset<T>, whole: multiset<T>)
    requires x + r + a == whole
    ensures x <= whole
  {}

  /**
   * From any state between flushes, a poll and a successful flush bring
   * everything the log holds so far to rest, and leave no debt.
   */
  lemma CatchUp(src: Source, s: System, writable: bool)
    requires Inv(src, s) && s.inFlight == [] && s.ring.capacity > 0
    ensures var s' := Do(src, Do(src, Do(src, s, PollNow), BeginFlush), CommitFlush(writable));
            && s'.flushed == |s'.emitted| && Debt(s') == [] && s'.text == s.text
            && multiset(Upto(src, s'.text, s'.base, |s'.text|)) + multiset(s'.recounted) == Settled(s')
  {
    hide Inv, DoPoll, Settled, Upto, Debt, Above;
    var s1 := Do(src, s, PollNow);
    PollKeeps(src, s);
    PollOnlyReads(src, s);
    var s2 := Do(src, s1, BeginFlush);
    BeginKeeps(src, s1);
    var s3 := Do(src, s2, CommitFlush(writable));
    if s2.inFlight != [] { StepKeeps(src, s2, CommitFlush(writable)); }
    AllSettled(src, s3);
  }

  lemma PollOnlyReads(src: Source, s: System)
    ensures var s' := DoPoll(src, s);
            && s'.inFlight == s.inFlight && s'.ring.capacity == s.ring.capacity
            && s'.text == s.text && s'.inode == s.inode
  {
    hide Poll, Ring.AppendAll;
    var _ := s.ring.AppendAll(Poll(src, Fs(s), s.disk, s.tailer).events);
  }

  /** Read to the end and flushed to the end: every event of the log is accounted for. */
  lemma AllSettled(src: Source, s: System)
    requires Inv(src, s) && s.tailer.handle == Some(Handle(s.inode, |s.text|)) && s.flushed == |s.emitted|
    ensures Debt(s) == []
    ensures multiset(Upto(src, s.text, s.base, |s.text|)) + multiset(s.recounted) == Settled(s)
  {
    hide Upto, TailAt, Settled;
    assert Stretch(s.emitted, 0, s.flushed) == s.emitted;
  }

  /** A flush leaves events behind exactly when the overflow warning is raised for it. */
  lemma LosesIffWarned(src: Source, s: System)
    requires Inv(src, s) && s.inFlight == []
    ensures var s1 := Do(src, s, BeginFlush);
            s1.inFlight != [] ==> (DoCommit(s1).lost != s.lost <==> LikelyLost(s.ring, s.flushed))
  {
    hide ReadEvents, Tail, Upto, TailAt, Above;
    var first := s.ring.latest - |s.ring.buffer| + 1;
    assert forall i :: 0 <= i < |s.ring.buffer| ==> s.ring.buffer[i].id == first + i;
    AboveIsSuffix(s.ring.buffer, first, s.flushed);
    var s1 := Do(src, s, BeginFlush);
    if s1.inFlight != [] {
      assert |DoCommit(s1).lost| == |s.lost| + |Stretch(s.emitted, s.flushed, s1.inFlight[0].id - 1)|;
    }
  }

  // ---- Runs without a crash -------------------------------------------------

  /** Nothing has been counted twice, and unless something was evicted the commits are in dispatch order. */
  ghost predicate InOrder(s: System) {
    && s.recounted == [] && s.skipped == [] && s.base == s.start
    && (s.lost == [] ==> s.committed == Stretch(s.emitted, 0, s.flushed))
  }

  lemma InOrderStep(src: Source, s: System, a: Action)
    requires Inv(src, s) && InOrder(s) && Legal(s, a) && a != Crash
    ensures InOrder(Do(src, s, a))
  {
    hide ReadEvents, Tail, Upto, TailAt, Poll, Above, Ring.AppendAll;
    match a
    case PollNow =>
      var s' := Do(src, s, a);
      assert Stretch(s'.emitted, 0, s.flushed) == Stretch(s.emitted, 0, s.flushed);
    case CommitFlush(_) => InOrderCommit(s);
    case _ =>
  }

  lemma InOrderCommit(s: System)
    requires Batched(s) && InOrder(s) && s.inFlight != []
    ensures InOrder(DoCommit(s))
  {
    hide Batched, Payload, Stretch;
    CommitExtends(s);
    var gap :| CommitAdds(s, gap);
    assert DoCommit(s).lost == [] ==> s.lost == [] && gap == [];
  }

  lemma {:induction false} InOrderRun(src: Source, s: System, actions: seq<Action>)
    requires Inv(src, s) && InOrder(s) && LegalRun(src, s, actions) && Crash !in actions
    ensures Inv(src, After(src, s, actions)) && InOrder(After(src, s, actions))
    decreases |actions|
  {
    hide Inv, Legal, Do, InOrder;
    if actions != [] {
      StepKeeps(src, s, actions[0]);
      InOrderStep(src, s, actions[0]);
      InOrderRun(src, Do(src, s, actions[0]), actions[1..]);
    }
  }

  /**
   * While the process lives and the buffer never overflows, the committed
   * events are the first `flushed` events of the log, each once and in order,
   * however flushes fail and polls interleave with them.
   */
  lemma CommittedOnceInOrder(src: Source, inode: nat, text: string, capacity: nat, actions: seq<Action>)
    requires LegalRun(src, Boot(inode, text, capacity), actions) && Crash !in actions
    ensures var s := After(src, Boot(inode, text, capacity), actions);
            && (s.tailer.handle.Some? ==> s.emitted == Upto(src, s.text, s.base, s.tailer.handle.value.offset))
            && (s.lost == [] ==> s.flushed <= |s.emitted| && s.committed == s.emitted[..s.flushed])
  {
    hide ReadEvents, Tail, Upto, TailAt, After;
    var s := After(src, Boot(inode, text, capacity), actions);
    BootHolds(src, inode, text, capacity);
    InOrderRun(src, Boot(inode, text, capacity), actions);
    NothingRead(src, s.text, s.base);
  }

  // ---- The unconditional claim fails ----------------------------------------

  /** A file that grows by one finished line is polled. */
  function GrowAndPoll(src: Source, s: System, line: string): System {
    Do(src, Do(src, s, Append(line + "\n")), PollNow)
  }

  lemma PollOneLine(src: Source, s: System, line: string, event: ParsedEvent)
    requires Yields(src, line, event)
    requires s.tailer.handle == Some(Handle(s.inode, |s.text|)) && s.tailer.partial == ""
    ensures var s' := GrowAndPoll(src, s, line);
            && s'.tailer == Tailer(Some(Handle(s.inode, |s'.text|)), "", Some(Position(s.inode, |s'.text|, "")))
            && s' == s.(text := s.text + (line + "\n"), tailer := s'.tailer,
                        ring := s.ring.AppendAll([event]), emitted := s.emitted + [event])
  {
    hide ReadEvents, Tail, Ring.AppendAll, Poll;
    OneLine(src, line);
    var s1 := Do(src, s, Append(line + "\n"));
    assert s1.text[|s.text|..] == line + "\n";
    assert "" + (line + "\n") == line + "\n";
    PollReads(src, s1);
  }

  /**
   * The claim that only durable events are ever vouched for is not an
   * invariant.  A line read while a flush is running is passed by that
   * flush's checkpoint; a crash before the next flush loses it for good.
   */
  lemma PollInsideFlushLoses(src: Source, line: string, event: ParsedEvent)
    requires Yields(src, line, event)
    ensures var opened' := Do(src, Boot(1, "", 10), PollNow);
            var flushing := Do(src, GrowAndPoll(src, opened', line), BeginFlush);
            var flushed := Do(src, GrowAndPoll(src, flushing, line), CommitFlush(true));
            var restarted := Do(src, Do(src, flushed, Crash), PollNow);
            && flushing.inFlight != [] && flushed.disk.Some?
            && restarted.committed == [event] == restarted.skipped && restarted.emitted == [] == restarted.lost
  {
    hide ReadEvents, Tail, Poll, GrowAndPoll, Ring.AppendAll;
    OneMore(event);
    var s0 := Do(src, Boot(1, "", 10), PollNow);
    FirstPoll(src);
    var s1 := GrowAndPoll(src, s0, line);
    PollOneLine(src, s0, line, event);
    assert s1.ring == Ring(10, [StoredEvent(1, event)], 1);
    var s2 := Do(src, s1, BeginFlush);
    assert Above(s1.ring.buffer[1..], 0) == [];
    assert s2.inFlight == [StoredEvent(1, event)];
    var s3 := GrowAndPoll(src, s2, line);
    PollOneLine(src, s2, line, event);
    var s4 := Do(src, s3, CommitFlush(true));
    assert s4.disk == Some(Position(1, |s3.text|, "")) && s4.vouched == 2 && s4.flushed == 1;
    var s5 := Do(src, s4, Crash);
    assert s5.skipped == [event];
    PollReads(src, s5);
  }

  // ---- When a restart counts nothing twice ----------------------------------

  /**
   * A commit leaves nothing for a restart to count again exactly if its checkpoint is
   * written, or an earlier one passed the batch.
   */
  lemma AheadIffUnwritten(src: Source, s: System, writable: bool)
    requires Inv(src, s) && s.inFlight != []
    ensures Ahead(Do(src, s, CommitFlush(writable))) == [] <==> writable || s.inFlight[|s.inFlight| - 1].id <= s.vouched
  {
    hide ReadEvents, Tail, Upto, TailAt;
  }

  /** Every commit writes its checkpoint. */
  ghost predicate AlwaysWritable(actions: seq<Action>) {
    forall i :: 0 <= i < |actions| ==> actions[i] != CommitFlush(false)
  }

  lemma NothingAheadStep(src: Source, s: System, a: Action)
    requires Inv(src, s) && Legal(s, a) && s.flushed <= s.vouched && a != CommitFlush(false)
    ensures var s' := Do(src, s, a); s'.flushed <= s'.vouched && s'.recounted == s.recounted
  {
    hide ReadEvents, Tail, Upto, TailAt, Poll, Above;
  }

  /**
   * Over every run whose commits all write their checkpoint, whatever else
   * fails and however often the process dies, no event is counted twice.
   */
  lemma {:induction false} NothingRecounted(src: Source, s: System, actions: seq<Action>)
    requires Inv(src, s) && LegalRun(src, s, actions) && AlwaysWritable(actions)
    requires s.flushed <= s.vouched && s.recounted == []
    ensures After(src, s, actions).recounted == []
    decreases |actions|
  {
    hide Inv, Legal, Do;
    if actions != [] {
      StepKeeps(src, s, actions[0]);
      NothingAheadStep(src, s, actions[0]);
      NothingRecounted(src, Do(src, s, actions[0]), actions[1..]);
    }
  }

  lemma {:induction false} AboveLast(buffer: seq<StoredEvent>, mark: nat, last: StoredEvent)
    requires (forall i :: 0 <= i < |buffer| ==> buffer[i].id <= mark) && last.id > mark
    ensures Above(buffer + [last], mark) == [last]
  {
    if buffer == [] {
      assert [last][1..] == [];
    } else {
      AboveLast(buffer[1..], mark, last);
      assert (buffer + [last])[1..] == buffer[1..] + [last];
    }
  }

  /** One more event, dispatched after everything else was flushed, is what the next flush commits. */
  lemma FlushesOne(src: Source, s: System, event: ParsedEvent, writable: bool)
    requires s.inFlight == [] && s.ring.latest == |s.emitted| == s.flushed + 1 && s.ring.buffer != []
    requires s.ring.buffer[|s.ring.buffer| - 1] == StoredEvent(s.flushed + 1, event)
    requires forall i :: 0 <= i < |s.ring.buffer| - 1 ==> s.ring.buffer[i].id <= s.flushed
    ensures Do(src, Do(src, s, BeginFlush), CommitFlush(writable)) ==
            DoCheckpoint(s.(committed := s.committed + [event], flushed := s.flushed + 1), writable)
  {
    hide Above;
    var n := |s.ring.buffer| - 1;
    assert s.ring.buffer == s.ring.buffer[..n] + [s.ring.buffer[n]];
    AboveLast(s.ring.buffer[..n], s.flushed, s.ring.buffer[n]);
    assert Payload([StoredEvent(s.flushed + 1, event)]) == [event];
    assert s.lost + [] == s.lost;
  }

  function FlushOne(src: Source, s: System, line: string, writable: bool): System {
    Do(src, Do(src, GrowAndPoll(src, s, line), BeginFlush), CommitFlush(writable))
  }

  /** Read to the end and flushed to the end. */
  predicate Idle(s: System) {
    && s.tailer.handle == Some(Handle(s.inode, |s.text|)) && s.tailer.partial == "" && s.inFlight == []
    && s.flushed == |s.emitted| == s.ring.latest && |s.ring.buffer| < s.ring.capacity
    && forall i :: 0 <= i < |s.ring.buffer| ==> s.ring.buffer[i].id <= s.flushed
  }

  lemma OneMoreCommitted(src: Source, s: System, line: string, event: ParsedEvent, writable: bool)
    requires Yields(src, line, event) && Idle(s)
    ensures var s' := FlushOne(src, s, line, writable);
            && s' == s.(text := s.text + (line + "\n"), tailer := s'.tailer, ring := s.ring.Append(event),
                        flushed := s.flushed + 1, committed := s.committed + [event], emitted := s.emitted + [event],
                        disk := if writable then Some(Position(s.inode, |s'.text|, "")) else s.disk,
                        vouched := if writable then |s.emitted| + 1 else s.vouched)
            && s'.tailer.handle == Some(Handle(s.inode, |s'.text|)) && s'.tailer.partial == ""
  {
    hide ReadEvents, Tail, Poll, GrowAndPoll, Ring.AppendAll;
    OneMore(event);
    PollOneLine(src, s, line, event);
    FlushesOne(src, GrowAndPoll(src, s, line), event, writable);
  }

  /**
   * Events counted before a crash and not passed by the persisted position are
   * counted again: adding is not idempotent.
   */
  lemma RereadCountsTwice(src: Source, line: string, event: ParsedEvent)
    requires Yields(src, line, event)
    ensures var once := FlushOne(src, Do(src, Boot(1, "", 10), PollNow), line, true);
            var twice := FlushOne(src, once, line, false);
            var again := Do(src, Do(src, Do(src, Do(src, twice, Crash), PollNow), BeginFlush), CommitFlush(true));
            && once.disk.Some? && twice.committed == [event, event]
            && again.text == twice.text && again.committed == [event, event, event] && again.recounted == [event]
  {
    hide ReadEvents, Tail, Poll, FlushOne, DoPoll, Above, Stretch;
    FirstPoll(src);
    var s0 := Do(src, Boot(1, "", 10), PollNow);
    OneMoreCommitted(src, s0, line, event, true);
    var s1 := FlushOne(src, s0, line, true);
    OneMoreCommitted(src, s1, line, event, false);
    RecountsLast(src, FlushOne(src, s1, line, false), line, event);
  }

  lemma RecountsLast(src: Source, s: System, line: string, event: ParsedEvent)
    requires Yields(src, line, event)
    requires s.inode == 1 && s.text == "" + (line + "\n") + (line + "\n") && s.disk == Some(Position(1, |line| + 1, ""))
    requires s.emitted == [event, event] && s.vouched == 1 && s.flushed == 2
    requires s.recounted == [] && s.ring.capacity == 10
    ensures var s' := Do(src, Do(src, Do(src, Do(src, s, Crash), PollNow), BeginFlush), CommitFlush(true));
            s'.text == s.text && s'.committed == s.committed + [event] && s'.recounted == [event]
  {
    hide ReadEvents, Tail, Poll, DoPoll, Above;
    var dead := Do(src, s, Crash);
    assert dead.recounted == [event];
    RestartReadsRest(src, dead, line + "\n", line, event);
    FlushesOne(src, Do(src, dead, PollNow), event, true);
  }

  lemma RestartReadsRest(src: Source, s: System, read: string, line: string, event: ParsedEvent)
    requires Yields(src, line, event)
    requires s.inode == 1 && s.text == read + (line + "\n") && s.disk == Some(Position(1, |read|, ""))
    requires s.tailer == FRESH && s.ring == EmptyRing(10) && s.emitted == []
    ensures var s' := Do(src, s, PollNow);
            && s'.ring == Ring(10, [StoredEvent(1, event)], 1) && s'.emitted == [event]
            && s' == s.(tailer := s'.tailer, ring := s'.ring, emitted := s'.emitted)
  {
    hide ReadEvents, Tail, Poll, Ring.AppendAll;
    OneMore(event);
    OneLine(src, line);
    assert s.text[|read|..] == line + "\n" && "" + (line + "\n") == line + "\n";
    PollReads(src, s);
    assert [] + [event] == [event];
  }

  /**
   * A shutdown whose final flush fails loses what was waiting: the stopping
   * tailer had already persisted a position past it.
   */
  lemma FailedFinalFlushLoses(src: Source, line: string, event: ParsedEvent)
    requires Yields(src, line, event)
    ensures var waiting := GrowAndPoll(src, Do(src, Boot(1, "", 10), PollNow), line);
            var failed := Do(src, Do(src, Do(src, waiting, Stop(true)), BeginFlush), FailFlush);
            var restarted := Do(src, Do(src, failed, Crash), PollNow);
            && failed.disk.Some? && restarted.skipped == [event]
            && restarted.committed == restarted.emitted == restarted.lost == []
  {
    hide ReadEvents, Tail, Poll, GrowAndPoll, Ring.AppendAll;
    OneMore(event);
    var s0 := Do(src, Boot(1, "", 10), PollNow);
    FirstPoll(src);
    var s1 := GrowAndPoll(src, s0, line);
    PollOneLine(src, s0, line, event);
    var s2 := Do(src, s1, Stop(true));
    assert s2.disk == Some(Position(1, |s1.text|, "")) && s2.vouched == 1 && s2.flushed == 0;
    var s3 := Do(src, Do(src, s2, BeginFlush), FailFlush);
    var s4 := Do(src, s3, Crash);
    assert s4.skipped == [event];
    PollReads(src, s4);
  }

  lemma FirstPoll(src: Source)
    ensures var s := Do(src, Boot(1, "", 10), PollNow);
            && s == Boot(1, "", 10).(tailer := s.tailer) && s.tailer.handle == Some(Handle(1, 0))
                && s.tailer.partial == ""
  {
    hide ReadEvents, Tail, Poll;
    PollReads(src, Boot(1, "", 10));
  }

  lemma OneMore(event: ParsedEvent)
    ensures forall r: Ring :: r.AppendAll([event]) == r.Append(event)
  {
    forall r: Ring ensures r.AppendAll([event]) == r.Append(event) {
      assert r.Append(event).AppendAll([]) == r.Append(event);
    }
  }
}
