/**
 * The tables beside the pipeline: what they hold in every state a run of polls,
 * flushes, stops and crashes can reach.
 */
module Ledger {
  import opened Options
  import opened Events
  import opened PyText
  import opened LogTailer
  import opened EventStore
  import opened Aggregates
  import opened Reconciliation
  import opened Columns
  import opened Pipeline
  import LogParser
  import Renderings

  /** The tables after one step: only a flush that commits writes to them. */
  function Written(category: string -> string, s: System, store: Store, a: Action): Store {
    if a.CommitFlush? && s.inFlight != [] then Flushed(category, store, Payload(s.inFlight)) else store
  }

  function TablesAfter(category: string -> string, src: Source, s: System, store: Store, actions: seq<Action>): Store
    decreases |actions|
  {
    if actions == [] then store
    else TablesAfter(category, src, Do(src, s, actions[0]), Written(category, s, store, actions[0]), actions[1..])
  }

  lemma StepKeepsBatch(category: string -> string, src: Source, s: System, store: Store, a: Action)
    requires IsBatch(category, store, s.committed)
    ensures IsBatch(category, Written(category, s, store, a), Do(src, s, a).committed)
  {
    hide IsBatch, Flushed, Poll, Ring.AppendAll, Above, Payload;
    if a.CommitFlush? && s.inFlight != [] { FlushKeepsBatch(category, store, s.committed, Payload(s.inFlight)); }
  }

  lemma {:induction false} RunKeepsBatch(category: string -> string, src: Source, s: System, store: Store,
      actions: seq<Action>)
    requires IsBatch(category, store, s.committed)
    ensures IsBatch(category, TablesAfter(category, src, s, store, actions), After(src, s, actions).committed)
    decreases |actions|
  {
    hide IsBatch, Do, Written;
    if actions != [] {
      StepKeepsBatch(category, src, s, store, actions[0]);
      RunKeepsBatch(category, src, Do(src, s, actions[0]), Written(category, s, store, actions[0]), actions[1..]);
    }
  }

  // ---- Every committed event was parsed from a line -------------------------

  ghost predicate FromLine(src: Source, e: ParsedEvent) { exists line :: src.parse(line) == Some(e) }

  ghost predicate AllFromLines(src: Source, events: seq<ParsedEvent>) {
    forall i :: 0 <= i < |events| ==> FromLine(src, events[i])
  }

  ghost predicate StoredFromLines(src: Source, stored: seq<StoredEvent>) {
    forall i :: 0 <= i < |stored| ==> FromLine(src, stored[i].event)
  }

  ghost predicate Traced(src: Source, s: System) {
    AllFromLines(src, s.committed) && StoredFromLines(src, s.ring.buffer) && StoredFromLines(src, s.inFlight)
  }

  lemma {:induction false} ParsedFromLines(src: Source, lines: seq<string>)
    ensures AllFromLines(src, EventsOf(src, lines))
  {
    if lines != [] {
      ParsedFromLines(src, lines[..|lines| - 1]);
      LineFromLine(src, lines[|lines| - 1]);
      hide LineEvents, FromLine;
    }
  }

  lemma LineFromLine(src: Source, line: string)
    ensures AllFromLines(src, LineEvents(src, line))
  {}

  lemma PolledFromLines(src: Source, fs: FileSystem, disk: Option<Position>, t: Tailer)
    ensures AllFromLines(src, Poll(src, fs, disk, t).events)
  {
    hide Tail, Terminated, FromLine, EventsOf;
    forall lines ensures AllFromLines(src, EventsOf(src, lines)) { ParsedFromLines(src, lines); }
  }

  lemma {:induction false} BufferedFromLines(src: Source, r: Ring, events: seq<ParsedEvent>)
    requires StoredFromLines(src, r.buffer) && AllFromLines(src, events)
    ensures StoredFromLines(src, r.AppendAll(events).buffer)
    decreases |events|
  {
    hide FromLine;
    if events != [] { BufferedFromLines(src, r.Append(events[0]), events[1..]); }
  }

  lemma {:induction false} BatchFromLines(src: Source, buffer: seq<StoredEvent>, mark: nat)
    requires StoredFromLines(src, buffer)
    ensures StoredFromLines(src, Above(buffer, mark))
  {
    hide FromLine;
    if buffer != [] { BatchFromLines(src, buffer[1..], mark); }
  }

  lemma StepKeepsTraced(src: Source, s: System, a: Action)
    requires Traced(src, s)
    ensures Traced(src, Do(src, s, a))
  {
    hide FromLine, Poll, Above, Ring.AppendAll;
    match a
    case PollNow =>
      PolledFromLines(src, Fs(s), s.disk, s.tailer);
      BufferedFromLines(src, s.ring, Poll(src, Fs(s), s.disk, s.tailer).events);
    case BeginFlush => BatchFromLines(src, s.ring.buffer, s.flushed);
    case _ =>
  }

  lemma {:induction false} RunKeepsTraced(src: Source, s: System, actions: seq<Action>)
    requires Traced(src, s)
    ensures Traced(src, After(src, s, actions))
    decreases |actions|
  {
    hide Traced, Do;
    if actions != [] {
      StepKeepsTraced(src, s, actions[0]);
      RunKeepsTraced(src, Do(src, s, actions[0]), actions[1..]);
    }
  }

  // ---- Main results ---------------------------------------------------------

  /**
   * In every state any run reaches, polls inside flushes, failures, stops and
   * crashes included, each table is the group-by of exactly the committed
   * events, and those meet all that the reconciliation of the tables assumes.
   */
  lemma TablesAreCommitted(category: string -> string, lib: LogParser.Library, src: Source, inode: nat, text: string,
      capacity: nat, actions: seq<Action>)
    requires forall line, e :: src.parse(line) == Some(e) ==> Parsed(lib, e)
    ensures var s := After(src, Boot(inode, text, capacity), actions);
            && IsBatch(category, TablesAfter(category, src, Boot(inode, text, capacity), EMPTY_STORE, actions),
                s.committed)
            && WellParsed(s.committed) && forall e :: e in s.committed ==> e.user != Some("")
  {
    var boot := Boot(inode, text, capacity);
    NothingCommitted(category);
    hide IsBatch, TablesAfter, After, WellParsed, Parsed;
    RunKeepsBatch(category, src, boot, EMPTY_STORE, actions);
    RunKeepsTraced(src, boot, actions);
    var s := After(src, boot, actions);
    forall e | e in s.committed ensures Parsed(lib, e) {
      assert FromLine(src, e);
      var line :| src.parse(line) == Some(e);
    }
    ParsedEventsQualify(lib, s.committed);
  }

  lemma NothingCommitted(category: string -> string)
    ensures IsBatch(category, EMPTY_STORE, [])
  {
    IncrementalIsBatch(category, []);
  }

  /**
   * While the process lives and the buffer never overflows, the tables are
   * the group-by of the log's first `flushed` events -- no sampling, no
   * double counting, however flushes fail.
   */
  lemma TablesAreTheLog(category: string -> string, src: Source, inode: nat, text: string, capacity: nat,
      actions: seq<Action>)
    requires LegalRun(src, Boot(inode, text, capacity), actions) && Crash !in actions
    ensures var s := After(src, Boot(inode, text, capacity), actions);
            var tables := TablesAfter(category, src, Boot(inode, text, capacity), EMPTY_STORE, actions);
            s.lost == [] && s.tailer.handle.Some? ==>
              var log := Upto(src, s.text, s.base, s.tailer.handle.value.offset);
              s.flushed <= |log| && IsBatch(category, tables, log[..s.flushed])
  {
    hide IsBatch, TablesAfter, After, LegalRun, Upto;
    NothingCommitted(category);
    RunKeepsBatch(category, src, Boot(inode, text, capacity), EMPTY_STORE, actions);
    CommittedOnceInOrder(src, inode, text, capacity, actions);
  }

  // ---- A database that enforces its columns ---------------------------------

  /** No batch is committed with a row that does not fit its columns. */
  ghost predicate Enforced(category: string -> string, src: Source, s: System, store: Store, actions: seq<Action>)
    decreases |actions|
  {
    actions == [] ||
    ((actions[0].CommitFlush? ==> Takes(category, store, Payload(s.inFlight)))
     && Enforced(category, src, Do(src, s, actions[0]), Written(category, s, store, actions[0]), actions[1..]))
  }

  lemma {:induction false} EnforcedKeepsLists(category: string -> string, src: Source, s: System, store: Store,
      actions: seq<Action>)
    requires ListsWithin(store.client) && Enforced(category, src, s, store, actions)
    ensures ListsWithin(TablesAfter(category, src, s, store, actions).client)
    decreases |actions|
  {
    hide ListsWithin, Takes, Do, Flushed, Payload;
    if actions != [] {
      if actions[0].CommitFlush? { TakesKeepsLists(category, store, Payload(s.inFlight)); }
      EnforcedKeepsLists(category, src, Do(src, s, actions[0]), Written(category, s, store, actions[0]), actions[1..]);
    }
  }

  /** Everything the run has handled came out of the parser. */
  ghost predicate Parses(lib: LogParser.Library, src: Source) { forall line,
      e :: src.parse(line) == Some(e) ==> Parsed(lib, e) }

  lemma SanitizedFromLines(lib: LogParser.Library, src: Source, events: seq<ParsedEvent>)
    requires Parses(lib, src) && AllFromLines(src, events)
    ensures AllCountable(events) && forall i :: 0 <= i < |events| ==> LogParser.Sanitized(events[i])
  {
    hide LogParser.Sanitized, Parsed, Countable;
    forall i | 0 <= i < |events| ensures LogParser.Sanitized(events[i]) && Countable(events[i]) {
      assert FromLine(src, events[i]);
      ParsedEventSanitized(lib, events[i]);
      SanitizedIsCountable(events[i]);
    }
  }

  // ---- An event the tables never take ---------------------------------------

  /** Wider than the status or address column of a table that every event is written to. */
  predicate Oversized(e: ParsedEvent) {
    e.statusCode > LogParser.MAX_INTEGER || |e.clientIp| > LogParser.MAX_ADDRESS_LEN
  }

  lemma {:induction false} AppendAllForgetsOnly(r: Ring, events: seq<ParsedEvent>, x: StoredEvent)
    requires x in r.AppendAll(events).buffer && x.id <= r.latest
    ensures x in r.buffer
    decreases |events|
  {
    if events != [] { AppendAllForgetsOnly(r.Append(events[0]), events[1..], x); }
  }

  lemma {:induction false} RetainedIsTaken(buffer: seq<StoredEvent>, mark: nat, x: StoredEvent)
    requires x in buffer && x.id > mark
    ensures x in Above(buffer, mark)
  {
    if buffer[0] != x { RetainedIsTaken(buffer[1..], mark, x); }
  }

  /** While `x` is in the buffer nothing has been committed since `before`, and an open flush carries it. */
  ghost predicate Stalled(s: System, x: StoredEvent, before: System) {
    && x.id <= s.ring.latest
    && (x in s.ring.buffer ==>
          s.committed == before.committed && s.flushed == before.flushed && (s.inFlight == [] || x in s.inFlight))
  }

  lemma StepKeepsStalled(src: Source, s: System, a: Action, x: StoredEvent, before: System)
    requires Stalled(s, x, before) && before.flushed < x.id && Legal(s, a) && a != Crash
    requires a.CommitFlush? ==> x !in s.inFlight
    ensures Stalled(Do(src, s, a), x, before)
  {
    hide Poll, Above, Ring.AppendAll, Persisted;
    match a
    case PollNow =>
      var events := Poll(src, Fs(s), s.disk, s.tailer).events;
      if x in s.ring.AppendAll(events).buffer { AppendAllForgetsOnly(s.ring, events, x); }
    case BeginFlush => if x in s.ring.buffer { RetainedIsTaken(s.ring.buffer, s.flushed, x); }
    case _ =>
  }

  lemma NotTaken(category: string -> string, store: Store, batch: seq<StoredEvent>, x: StoredEvent)
    requires Takes(category, store, Payload(batch)) && Oversized(x.event)
    ensures x !in batch
  {
    hide Takes;
    if x in batch {
      var i :| 0 <= i < |batch| && batch[i] == x;
      assert Payload(batch)[i] == x.event;
      TakesNoOversized(category, store, Payload(batch), x.event);
      assert false;
    }
  }

  lemma {:induction false} RunKeepsStalled(category: string -> string, src: Source, s: System, store: Store,
      actions: seq<Action>, x: StoredEvent, before: System)
    requires Stalled(s, x, before) && before.flushed < x.id && Oversized(x.event)
    requires LegalRun(src, s, actions) && Enforced(category, src, s, store, actions) && Crash !in actions
    ensures Stalled(After(src, s, actions), x, before)
    decreases |actions|
  {
    hide Stalled, Oversized, Do, Legal, Takes, Written, Payload;
    if actions != [] {
      if actions[0].CommitFlush? { NotTaken(category, store, s.inFlight, x); }
      StepKeepsStalled(src, s, actions[0], x, before);
      RunKeepsStalled(category, src, Do(src, s, actions[0]), Written(category, s, store, actions[0]), actions[1..], x,
          before);
    }
  }

  /**
   * From the moment an oversized event is in the buffer, with no flush open,
   * nothing is committed any more until the buffer has evicted it.
   */
  lemma OversizedStalls(category: string -> string, src: Source, s: System, store: Store, x: StoredEvent,
      actions: seq<Action>)
    requires LegalRun(src, s, actions) && Enforced(category, src, s, store, actions) && Crash !in actions
    requires s.inFlight == [] && s.flushed < x.id <= s.ring.latest && Oversized(x.event)
    ensures var s' := After(src, s, actions);
            x in s'.ring.buffer ==> s'.committed == s.committed && s'.flushed == s.flushed
  {
    hide Oversized, LegalRun, Enforced, After;
    RunKeepsStalled(category, src, s, store, actions, x, s);
  }

  // ---- A window the tables do not take --------------------------------------

  /**
   * Appending leaves a window in the buffer at the front of what is above the mark,
   * as long as its oldest entry is there.
   */
  lemma {:induction false} WindowStays(r: Ring, events: seq<ParsedEvent>, mark: nat, window: seq<StoredEvent>)
    requires r.Valid() && window != [] && window <= Above(r.buffer, mark)
    requires window[0] in r.AppendAll(events).buffer
    ensures r.AppendAll(events).Valid() && window <= Above(r.AppendAll(events).buffer, mark)
    decreases |events|
  {
    if events != [] {
      hide Ring.Append, Ring.Valid;
      AppendKeepsValid(r, events[0]);
      FrontIsRetained(r, mark, window);
      assert r.Append(events[0]).latest == r.latest + 1 by { AppendCounts(r, events[0]); }
      AppendAllForgetsOnly(r.Append(events[0]), events[1..], window[0]);
      WindowStaysOnce(r, events[0], mark, window);
      WindowStays(r.Append(events[0]), events[1..], mark, window);
    }
  }

  lemma AppendCounts(r: Ring, event: ParsedEvent)
    ensures r.Append(event).latest == r.latest + 1
  {}

  lemma FrontIsRetained(r: Ring, mark: nat, window: seq<StoredEvent>)
    requires r.Valid() && window != [] && window <= Above(r.buffer, mark)
    ensures window[0] in r.buffer && mark < window[0].id <= r.latest
  {
    SinceIsExact(r, mark);
    hide Above;
    assert window[0] == Above(r.buffer, mark)[0];
  }

  lemma WindowStaysOnce(r: Ring, event: ParsedEvent, mark: nat, window: seq<StoredEvent>)
    requires r.Valid() && window != [] && window <= Above(r.buffer, mark) && window[0] in r.Append(event).buffer
    requires window[0].id <= r.latest
    ensures window <= Above(r.Append(event).buffer, mark)
  {
    var last := StoredEvent(r.latest + 1, event);
    var grown := r.buffer + [last];
    AboveGrows(r.buffer, last, mark);
    if |grown| > r.capacity {
      assert grown == [grown[0]] + grown[1..];
      assert grown[0].id <= mark;
    }
  }

  lemma {:induction false} AboveGrows(buffer: seq<StoredEvent>, last: StoredEvent, mark: nat)
    ensures Above(buffer, mark) <= Above(buffer + [last], mark)
  {
    if buffer != [] {
      AboveGrows(buffer[1..], last, mark);
      assert (buffer + [last])[1..] == buffer[1..] + [last];
    }
  }

  /**
   * While the oldest entry of `window` is in the buffer, nothing has been committed
   * and every flush starts with the window.
   */
  ghost predicate Waiting(s: System, window: seq<StoredEvent>, before: System) {
    && s.ring.Valid() && window != [] && window[0].id <= s.ring.latest
    && (window[0] in s.ring.buffer ==>
          && s.committed == before.committed && s.flushed == before.flushed
          && window <= Above(s.ring.buffer, s.flushed) && (s.inFlight == [] || window <= s.inFlight))
  }

  lemma StepKeepsWaiting(src: Source, s: System, a: Action, window: seq<StoredEvent>, before: System)
    requires Waiting(s, window, before) && Legal(s, a) && a != Crash
    requires a.CommitFlush? ==> window[0] !in s.ring.buffer
    ensures Waiting(Do(src, s, a), window, before)
  {
    hide Poll, Above, Ring.AppendAll, Persisted, Ring.Valid;
    match a
    case PollNow =>
      var events := Poll(src, Fs(s), s.disk, s.tailer).events;
      AppendAllKeepsValid(s.ring, events);
      if window[0] in s.ring.AppendAll(events).buffer {
        AppendAllForgetsOnly(s.ring, events, window[0]);
        WindowStays(s.ring, events, s.flushed, window);
      }
    case _ =>
  }

  lemma {:induction false} AppendAllKeepsValid(r: Ring, events: seq<ParsedEvent>)
    requires r.Valid()
    ensures r.AppendAll(events).Valid()
    decreases |events|
  {
    hide Ring.Valid, Ring.Append;
    if events != [] {
      AppendKeepsValid(r, events[0]);
      AppendAllKeepsValid(r.Append(events[0]), events[1..]);
    }
  }

  /** A batch that begins with a refused window is refused. */
  lemma LongerBatchRefused(category: string -> string, lib: LogParser.Library, src: Source, store: Store,
      done: seq<ParsedEvent>, window: seq<StoredEvent>, batch: seq<StoredEvent>)
    requires Parses(lib, src) && IsBatch(category, store, done) && ListsWithin(store.client)
    requires AllFromLines(src, done) && StoredFromLines(src, batch) && window <= batch
    requires !Takes(category, store, Payload(window))
    ensures !Takes(category, store, Payload(batch))
  {
    hide Takes, IsBatch, ListsWithin, FromLine, Parses;
    var more := batch[|window|..];
    assert Payload(batch) == Payload(window) + Payload(more);
    SanitizedFromLines(lib, src, done);
    SanitizedFromLines(lib, src, Payload(window));
    SanitizedFromLines(lib, src, Payload(more));
    hide AllCountable;
    if Takes(category, store, Payload(batch)) { TakesPrefix(category, store, done, Payload(window), Payload(more)); }
  }

  lemma {:induction false} RunKeepsWaiting(category: string -> string, lib: LogParser.Library, src: Source, s: System,
      store: Store, actions: seq<Action>, window: seq<StoredEvent>, before: System, held: Store)
    requires Parses(lib, src) && Traced(src, s) && Traced(src, before) && Waiting(s, window, before)
    requires window[0] in s.ring.buffer ==> store == held
    requires IsBatch(category, held, before.committed) && ListsWithin(held.client)
    requires !Takes(category, held, Payload(window))
    requires LegalRun(src, s, actions) && Enforced(category, src, s, store, actions) && Crash !in actions
    ensures var s' := After(src, s, actions);
            && Waiting(s', window, before)
            && (window[0] in s'.ring.buffer ==> TablesAfter(category, src, s, store, actions) == held)
    decreases |actions|
  {
    hide Parses, Traced, IsBatch, ListsWithin, Takes, Do, Legal, Payload, Above, Flushed;
    if actions != [] {
      var a := actions[0];
      if a.CommitFlush? && window[0] in s.ring.buffer {
        CommitIsOpen(s, a);
        TracedParts(src, s, before);
        LongerBatchRefused(category, lib, src, held, before.committed, window, s.inFlight);
        assert false;
      }
      StepKeepsWaiting(src, s, a, window, before);
      StepKeepsTraced(src, s, a);
      if window[0] in Do(src, s, a).ring.buffer { StillThere(src, s, a, window[0]); }
      RunKeepsWaiting(category, lib, src, Do(src, s, a), Written(category, s, store, a), actions[1..], window, before,
          held);
    }
  }

  lemma CommitIsOpen(s: System, a: Action)
    requires Legal(s, a) && a.CommitFlush?
    ensures s.inFlight != []
  {}

  lemma TracedParts(src: Source, s: System, before: System)
    requires Traced(src, s) && Traced(src, before)
    ensures StoredFromLines(src, s.inFlight) && AllFromLines(src, before.committed)
  {}

  lemma StillThere(src: Source, s: System, a: Action, x: StoredEvent)
    requires x in Do(src, s, a).ring.buffer && x.id <= s.ring.latest && a != Crash
    ensures x in s.ring.buffer
  {
    hide Poll, Above, Ring.AppendAll, Persisted;
    if a == PollNow { AppendAllForgetsOnly(s.ring, Poll(src, Fs(s), s.disk, s.tailer).events, x); }
  }

  /**
   * Once the events waiting for a flush are refused as a window, in any
   * state a run can reach, no further run commits anything or changes a table
   * until the buffer has evicted the oldest of them.
   */
  lemma RefusedStalls(category: string -> string, lib: LogParser.Library, src: Source, inode: nat, text: string,
      capacity: nat, earlier: seq<Action>, actions: seq<Action>)
    requires Parses(lib, src) && LegalRun(src, Boot(inode, text, capacity), earlier)
    requires Enforced(category, src, Boot(inode, text, capacity), EMPTY_STORE, earlier)
    requires var s := After(src, Boot(inode, text, capacity), earlier);
             var store := TablesAfter(category, src, Boot(inode, text, capacity), EMPTY_STORE, earlier);
             && s.inFlight == [] && !Takes(category, store, Payload(Above(s.ring.buffer, s.flushed)))
             && LegalRun(src, s, actions) && Enforced(category, src, s, store, actions) && Crash !in actions
    ensures var s := After(src, Boot(inode, text, capacity), earlier);
            var store := TablesAfter(category, src, Boot(inode, text, capacity), EMPTY_STORE, earlier);
            var window := Above(s.ring.buffer, s.flushed);
            var s' := After(src, s, actions);
            && window != []
            && (window[0] in s'.ring.buffer ==>
                  && s'.committed == s.committed && s'.flushed == s.flushed
                  && TablesAfter(category, src, s, store, actions) == store)
  {
    var boot := Boot(inode, text, capacity);
    NothingCommitted(category);
    BootHolds(src, inode, text, capacity);
    hide IsBatch, TablesAfter, After, LegalRun, Enforced, Takes, ListsWithin, Above, Parses, Payload;
    EmptyListsWithin();
    RunKeeps(src, boot, earlier);
    RunKeepsBatch(category, src, boot, EMPTY_STORE, earlier);
    EnforcedKeepsLists(category, src, boot, EMPTY_STORE, earlier);
    RunKeepsTraced(src, boot, earlier);
    var s := After(src, boot, earlier);
    var store := TablesAfter(category, src, boot, EMPTY_STORE, earlier);
    var window := Above(s.ring.buffer, s.flushed);
    NothingIsTaken(category, store);
    assert Payload([]) == [] by { NothingToPay(); }
    RingIsValid(src, s);
    FrontIsRetained(s.ring, s.flushed, window);
    hide Inv, Traced;
    RunKeepsWaiting(category, lib, src, s, store, actions, window, s, store);
  }

  lemma NothingToPay()
    ensures Payload([]) == []
  {}

  lemma RingIsValid(src: Source, s: System)
    requires Inv(src, s)
    ensures s.ring.Valid()
  {
    hide ReadEvents, Tail, Upto, TailAt;
  }

  // ---- The raw table --------------------------------------------------------

  /** The names the log source is configured with fit their columns. */
  ghost predicate NamesFit(src: Source) { forall line, e :: src.parse(line) == Some(e) ==> SourceFits(e) }

  /**
   * With such names, a database that enforces its columns has a raw row for
   * every committed event, in every state a run can reach.
   */
  lemma RawIsCommitted(category: string -> string, lib: LogParser.Library, src: Source, inode: nat, text: string,
      capacity: nat, actions: seq<Action>)
    requires Parses(lib, src) && NamesFit(src)
    requires Enforced(category, src, Boot(inode, text, capacity), EMPTY_STORE, actions)
    ensures var s := After(src, Boot(inode, text, capacity), actions);
            TablesAfter(category, src, Boot(inode, text, capacity), EMPTY_STORE, actions).raw == s.committed
            && forall e :: e in s.committed ==> LogParser.FitsColumns(e)
  {
    var boot := Boot(inode, text, capacity);
    NothingCommitted(category);
    hide IsBatch, TablesAfter, After, Enforced, Parses, NamesFit;
    RunKeepsBatch(category, src, boot, EMPTY_STORE, actions);
    RunKeepsFitting(category, lib, src, boot, EMPTY_STORE, actions);
    var s := After(src, boot, actions);
    RawIsCompleteIff(category, TablesAfter(category, src, boot, EMPTY_STORE, actions), s.committed);
  }

  ghost predicate AllFit(events: seq<ParsedEvent>) {
    forall i :: 0 <= i < |events| ==> LogParser.FitsColumns(events[i])
  }

  lemma BatchFits(category: string -> string, lib: LogParser.Library, src: Source, store: Store,
      batch: seq<StoredEvent>)
    requires Parses(lib, src) && NamesFit(src) && StoredFromLines(src, batch) && Takes(category, store, Payload(batch))
    ensures AllFit(Payload(batch))
  {
    hide Takes, LogParser.FitsColumns, LogParser.Sanitized, Parses, KeysFit, SourceFits;
    SanitizedFromLines(lib, src, Payload(batch));
    forall i | 0 <= i < |batch| ensures LogParser.FitsColumns(Payload(batch)[i]) {
      var e := batch[i].event;
      assert FromLine(src, e);
      assert SourceFits(e);
      assert e in Payload(batch) by { assert Payload(batch)[i] == e; }
      TakesNoOversized(category, store, Payload(batch), e);
      FitsUnlessOversized(e);
    }
  }

  lemma FitsUnlessOversized(e: ParsedEvent)
    requires LogParser.Sanitized(e) && SourceFits(e) && !Oversized(e)
    ensures LogParser.FitsColumns(e)
  {
    hide LogParser.IsRefusal;
  }

  lemma {:induction false} RunKeepsFitting(category: string -> string, lib: LogParser.Library, src: Source, s: System,
      store: Store, actions: seq<Action>)
    requires Parses(lib, src) && NamesFit(src) && Traced(src, s) && AllFit(s.committed)
    requires Enforced(category, src, s, store, actions)
    ensures AllFit(After(src, s, actions).committed)
    decreases |actions|
  {
    hide Parses, NamesFit, Traced, Takes, Payload;
    if actions != [] {
      StepKeepsTraced(src, s, actions[0]);
      StepKeepsFitting(category, lib, src, s, store, actions[0]);
      hide Do, AllFit;
      RunKeepsFitting(category, lib, src, Do(src, s, actions[0]), Written(category, s, store, actions[0]),
          actions[1..]);
    }
  }

  lemma StepKeepsFitting(category: string -> string, lib: LogParser.Library, src: Source, s: System, store: Store,
      a: Action)
    requires Parses(lib, src) && NamesFit(src) && Traced(src, s) && AllFit(s.committed)
    requires a.CommitFlush? ==> Takes(category, store, Payload(s.inFlight))
    ensures AllFit(Do(src, s, a).committed)
  {
    hide Takes, LogParser.FitsColumns, Parses, NamesFit, Poll, Above, Ring.AppendAll, Persisted, FromLine;
    if a.CommitFlush? { BatchFits(category, lib, src, store, s.inFlight); }
  }

  // ---- Two lines that fit and are refused together --------------------------

  /**
   * A byte count of 2^63 - 1 and one more byte in the same minute: each event
   * fits its row, and every flush that carries both is refused.
   */
  lemma HugeSizesAreRefused(category: string -> string, lib: LogParser.Library, store: Store, ms: int)
    requires LogParser.IsInstant(ms) && lib.isIp("10.0.0.1")
    ensures var first := LogParser.ParseLine(lib,
        Renderings.NativeLine(ms, Renderings.SizeRecord(LogParser.MAX_BIGINT)), "main", None);
            var second := LogParser.ParseLine(lib, Renderings.NativeLine(ms, Renderings.SizeRecord(1)), "main", None);
            && first.Returned? && first.event.Some? && second.Returned? && second.event.Some?
            && var e, f := first.event.value, second.event.value;
               && LogParser.FitsColumns(e) && LogParser.FitsColumns(f) && Insertable([e, f]) == [e, f]
               && !Takes(category, store, [e, f])
  {
    hide Takes, LogParser.ParseLine, Renderings.NativeLine, LogParser.FitsColumns, Renderings.SizeRecord;
    Renderings.SizeReads(lib, ms, LogParser.MAX_BIGINT);
    Renderings.SizeReads(lib, ms, 1);
    var e := LogParser.ParseLine(lib, Renderings.NativeLine(ms, Renderings.SizeRecord(LogParser.MAX_BIGINT)), "main",
        None).event.value;
    var f := LogParser.ParseLine(lib, Renderings.NativeLine(ms, Renderings.SizeRecord(1)), "main", None).event.value;
    InsertableIff([e, f]);
    SumOverflows(category, store, e, f);
  }
}
