/**
 * Whole runs of a tailer that stays up while its file grows and is rotated
 * by renaming: every terminated line of every file is emitted exactly once.
 */
module TailerRuns {
  import opened Options
  import opened Events
  import opened PyText
  import opened LogTailer

  /** Where the tailer stood when the run began. */
  datatype Origin = Origin(offset: nat, partial: string)

  /**
   * `emitted` is everything dispatched.  `journal` lists the inodes that have
   * been at the path, oldest first; `open` is the place in it of the file held
   * open, and `consumed` is what has been read of that file.
   */
  datatype World = World(
    fs: FileSystem, tailer: Tailer, emitted: seq<ParsedEvent>, journal: seq<nat>, open: nat, consumed: string)

  datatype Action =
    | Append(inode: nat, chunk: string)
    | Rotate(inode: nat, content: string)
    | Truncate(content: string)
    | PollNow

  /** The part of the k-th file that this run is responsible for. */
  function Stream(o: Origin, w: World, k: nat): string
    requires k < |w.journal|
  {
    if k == 0 then o.partial + w.fs.Rest(w.journal[0], o.offset) else w.fs.Text(w.journal[k])
  }

  /** The parses of all terminated lines of the first n files, in order. */
  function FirstFiles(src: Source, o: Origin, w: World, n: nat): seq<ParsedEvent>
    requires n <= |w.journal|
  {
    if n == 0 then [] else FirstFiles(src, o, w, n - 1) + ReadEvents(src, Stream(o, w, n - 1))
  }

  /** The run begins with an open file at the path, and no finished line waiting. */
  ghost predicate Start(o: Origin, w: World) {
    && w.fs.Valid() && w.fs.current.Some? && w.emitted == [] && w.journal == [w.fs.current.value] && w.open == 0
    && w.tailer.handle == Some(Handle(w.fs.current.value, o.offset))
    && o.offset <= |w.fs.Text(w.fs.current.value)|
    && w.tailer.partial == o.partial == w.consumed && '\n' !in o.partial
  }

  /** What can happen to the files: writes to the one at the path or the one held open, and rotation to a new inode. */
  predicate Possible(w: World, a: Action) {
    match a
    case Append(inode, _) =>
      inode in w.fs.files && (w.fs.current == Some(inode) || (w.open < |w.journal| && w.journal[w.open] == inode))
    case Rotate(inode, _) => inode !in w.fs.files
    case Truncate(_) => w.fs.current.Some?
    case PollNow => true
  }

  /** What the tailer is made for: no truncation, and at most one rotation between polls. */
  predicate Legal(w: World, a: Action) {
    Possible(w, a) && !a.Truncate? && (a.Rotate? ==> w.open + 1 == |w.journal|)
  }

  function Do(src: Source, w: World, a: Action): World {
    match a
    case Append(inode, chunk) => w.(fs := w.fs.(files := w.fs.files[inode := w.fs.Text(inode) + chunk]))
    case Rotate(inode, content) =>
      w.(fs := FileSystem(w.fs.files[inode := content], Some(inode)), journal := w.journal + [inode])
    case Truncate(content) =>
      if w.fs.current.None? then w else w.(fs := w.fs.(files := w.fs.files[w.fs.current.value := content]))
    case PollNow =>
      var r := Poll(src, w.fs, None, w.tailer);
      w.(tailer := r.next, emitted := w.emitted + r.events,
         open := if |w.journal| > 0 then |w.journal| - 1 else 0, consumed := NowConsumed(w))
  }

  function NowConsumed(w: World): string {
    if w.tailer.handle.None? || w.fs.current.None? then w.consumed
    else
      var h := w.tailer.handle.value;
      if h.inode == w.fs.current.value && h.offset <= |w.fs.Text(h.inode)| then
        w.consumed + w.fs.Rest(h.inode, h.offset)
      else w.fs.Text(w.fs.current.value)
  }

  ghost predicate Journaled(w: World) {
    && w.open < |w.journal| && w.fs.current == Some(w.journal[|w.journal| - 1])
    && (forall k :: 0 <= k < |w.journal| ==> w.journal[k] in w.fs.files)
    && forall i, k :: 0 <= i < k < |w.journal| ==> w.journal[i] != w.journal[k]
  }

  /** The open file splits into what was consumed and what the handle has ahead of it. */
  ghost predicate Positioned(o: Origin, w: World) {
    && w.open < |w.journal| && w.tailer.handle.Some?
    && var h := w.tailer.handle.value;
       && h.inode == w.journal[w.open] && h.offset <= |w.fs.Text(h.inode)|
       && (w.open == 0 ==> o.offset <= |w.fs.Text(h.inode)|)
       && Stream(o, w, w.open) == w.consumed + w.fs.Rest(h.inode, h.offset)
       && w.tailer.partial == Tail(w.consumed)
  }

  /** Everything up to the read position has been emitted, however many rotations are pending. */
  ghost predicate Behind(src: Source, o: Origin, w: World) {
    && Journaled(w) && Positioned(o, w)
    && w.emitted == FirstFiles(src, o, w, w.open) + ReadEvents(src, w.consumed)
  }

  ghost predicate Inv(src: Source, o: Origin, w: World) { Behind(src, o, w) && |w.journal| <= w.open + 2 }

  lemma StartHolds(src: Source, o: Origin, w: World)
    requires Start(o, w)
    ensures Inv(src, o, w)
  {
    JoinThenSplit([o.partial], '\n');
  }

  /** Files keep their contribution when another file changes. */
  lemma {:induction false} FirstFilesStable(src: Source, o: Origin, w: World, w': World, n: nat)
    requires n <= |w.journal| <= |w'.journal| && w.journal <= w'.journal
    requires forall k :: 0 <= k < n ==> w.fs.Text(w.journal[k]) == w'.fs.Text(w.journal[k])
    ensures FirstFiles(src, o, w, n) == FirstFiles(src, o, w', n)
  {
    if n > 0 {
      FirstFilesStable(src, o, w, w', n - 1);
      assert w'.journal[n - 1] == w.journal[n - 1] && w'.journal[0] == w.journal[0];
      assert Stream(o, w, n - 1) == Stream(o, w', n - 1);
    }
  }

  lemma AppendKeeps(src: Source, o: Origin, w: World, inode: nat, chunk: string)
    requires Behind(src, o, w) && Possible(w, Append(inode, chunk))
    ensures Behind(src, o, Do(src, w, Append(inode, chunk)))
  {
    hide ReadEvents, Tail, FirstFiles;
    var w' := Do(src, w, Append(inode, chunk));
    var h := w.tailer.handle.value;
    var more := if inode == h.inode then chunk else "";
    assert w'.fs.Text(h.inode) == w.fs.Text(h.inode) + more;
    assert w'.fs.Rest(h.inode, h.offset) == w.fs.Rest(h.inode, h.offset) + more;
    if w.open == 0 {
      assert w'.fs.Rest(h.inode, o.offset) == w.fs.Rest(h.inode, o.offset) + more;
    }
    assert w.open > 0 ==> w'.fs.Text(w.journal[w.open]) == w.fs.Text(w.journal[w.open]) + more;
    assert Stream(o, w', w.open) == Stream(o, w, w.open) + more;
    FirstFilesStable(src, o, w, w', w.open);
  }

  lemma RotateKeeps(src: Source, o: Origin, w: World, inode: nat, content: string)
    requires Behind(src, o, w) && Possible(w, Rotate(inode, content))
    ensures Behind(src, o, Do(src, w, Rotate(inode, content)))
  {
    hide ReadEvents, Tail, FirstFiles;
    var w' := Do(src, w, Rotate(inode, content));
    assert w'.journal[w.open] == w.journal[w.open];
    assert Stream(o, w', w.open) == Stream(o, w, w.open);
    FirstFilesStable(src, o, w, w', w.open);
  }

  /** Reading the rest of the open file turns what was consumed into its whole stream. */
  lemma ReadCompletes(src: Source, o: Origin, w: World)
    requires Behind(src, o, w)
    ensures var h := w.tailer.handle.value;
            var text := w.tailer.partial + w.fs.Rest(h.inode, h.offset);
            && FirstFiles(src, o, w, w.open + 1) == w.emitted + ReadEvents(src, text)
            && Tail(text) == Tail(Stream(o, w, w.open))
  {
    hide ReadEvents, Tail, Terminated;
    var h := w.tailer.handle.value;
    var rest := w.fs.Rest(h.inode, h.offset);
    ReadEventsConcat(src, w.consumed, rest);
    TerminatedConcat(w.consumed, rest);
  }

  /** A world whose open file is read to its end: what every poll arrives at. */
  ghost predicate CaughtUp(src: Source, o: Origin, w: World) {
    && Inv(src, o, w) && w.open + 1 == |w.journal|
    && w.consumed == Stream(o, w, w.open)
    && w.emitted == FirstFiles(src, o, w, |w.journal|)
    && w.tailer.partial == Tail(Stream(o, w, w.open))
  }

  /** What a poll does when the file held open is the one at the path. */
  lemma PollSameShape(src: Source, w: World)
    requires Journaled(w) && w.tailer.handle.Some? && w.open + 1 == |w.journal|
    requires w.journal[w.open] == w.tailer.handle.value.inode
    requires w.tailer.handle.value.offset <= |w.fs.Text(w.tailer.handle.value.inode)|
    requires Terminated(w.tailer.partial) == [] && Tail(w.tailer.partial) == w.tailer.partial
    ensures var h := w.tailer.handle.value;
            var rest := w.fs.Rest(h.inode, h.offset);
            var text := w.tailer.partial + rest;
            var w' := Do(src, w, PollNow);
            && w'.emitted == w.emitted + ReadEvents(src, text)
            && w'.tailer.handle == Some(Handle(h.inode, |w.fs.Text(h.inode)|))
            && w'.tailer.partial == Tail(text)
            && w'.consumed == w.consumed + rest
            && (w'.fs, w'.journal, w'.open) == (w.fs, w.journal, w.open)
  {
    hide Tail, Terminated, ReadEvents;
    var h := w.tailer.handle.value;
    var rest := w.fs.Rest(h.inode, h.offset);
    NoLines(src, w.tailer.partial);
    if rest == "" { assert w.tailer.partial + rest == w.tailer.partial; }
  }

  lemma NoLines(src: Source, text: string)
    requires Terminated(text) == []
    ensures ReadEvents(src, text) == []
  {}

  /** The file held open is the one at the path. */
  lemma PollSameFile(src: Source, o: Origin, w: World)
    requires Inv(src, o, w) && w.open + 1 == |w.journal|
    ensures CaughtUp(src, o, Do(src, w, PollNow))
  {
    hide Do, ReadEvents, Tail;
    var w' := Do(src, w, PollNow);
    TailHasNoNewline(w.consumed);
    PollSameShape(src, w);
    ReadCompletes(src, o, w);
    SameFiles(src, o, w, w');
  }

  lemma SameFiles(src: Source, o: Origin, w: World, w': World)
    requires (w'.fs, w'.journal, w'.open) == (w.fs, w.journal, w.open)
    ensures forall n :: 0 <= n <= |w.journal| ==> FirstFiles(src, o, w', n) == FirstFiles(src, o, w, n)
  {
    forall n | 0 <= n <= |w.journal| ensures FirstFiles(src, o, w', n) == FirstFiles(src, o, w, n) {
      FirstFilesStable(src, o, w, w', n);
    }
  }

  /** The world after the old file has been drained and the new one opened. */
  function Drained(src: Source, w: World): World
    requires w.tailer.handle.Some? && w.fs.current.Some?
  {
    var h := w.tailer.handle.value;
    World(w.fs, w.tailer.(handle := Some(Handle(w.fs.current.value, 0)), partial := ""),
          w.emitted + ReadEvents(src, w.tailer.partial + w.fs.Rest(h.inode, h.offset)), w.journal, w.open + 1, "")
  }

  lemma DrainedKeeps(src: Source, o: Origin, w: World)
    requires Inv(src, o, w) && w.open + 2 == |w.journal|
    ensures Inv(src, o, Drained(src, w))
  {
    hide ReadEvents, Tail;
    ReadCompletes(src, o, w);
    var mid := Drained(src, w);
    FirstFilesStable(src, o, w, mid, w.open + 1);
    NothingToRead(src);
    assert mid.fs.Rest(w.fs.current.value, 0) == w.fs.Text(w.fs.current.value);
  }

  /** Polling across a rotation is draining the old file and then polling the new one. */
  lemma PollDrains(src: Source, w: World)
    requires Journaled(w) && w.tailer.handle.Some? && w.open + 2 == |w.journal|
    requires w.journal[w.open] == w.tailer.handle.value.inode
    ensures Do(src, w, PollNow) == Do(src, Drained(src, w), PollNow)
  {
    hide ReadEvents, Tail;
    var mid := Drained(src, w);
    assert mid.fs.Rest(w.fs.current.value, 0) == w.fs.Text(w.fs.current.value);
    assert Do(src, mid, PollNow).emitted == Do(src, w, PollNow).emitted;
  }

  /**
   * After any poll everything at the path has been emitted, once and in
   * order, and the carried partial line is the current file's last one.
   */
  lemma PollCatchesUp(src: Source, o: Origin, w: World)
    requires Inv(src, o, w)
    ensures CaughtUp(src, o, Do(src, w, PollNow))
  {
    hide Do, ReadEvents, Tail, CaughtUp, FirstFiles;
    if w.open + 1 == |w.journal| {
      PollSameFile(src, o, w);
    } else {
      DrainedKeeps(src, o, w);
      PollDrains(src, w);
      PollSameFile(src, o, Drained(src, w));
    }
  }

  ghost predicate LegalRun(src: Source, w: World, actions: seq<Action>)
    decreases |actions|
  {
    actions == [] || (Legal(w, actions[0]) && LegalRun(src, Do(src, w, actions[0]), actions[1..]))
  }

  function After(src: Source, w: World, actions: seq<Action>): World
    decreases |actions|
  {
    if actions == [] then w else After(src, Do(src, w, actions[0]), actions[1..])
  }

  lemma StepKeeps(src: Source, o: Origin, w: World, a: Action)
    requires Inv(src, o, w) && Legal(w, a)
    ensures Inv(src, o, Do(src, w, a))
  {
    match a
    case Append(inode, chunk) => AppendKeeps(src, o, w, inode, chunk);
    case Rotate(inode, content) => RotateKeeps(src, o, w, inode, content);
    case PollNow => PollCatchesUp(src, o, w);
  }

  lemma {:induction false} RunKeeps(src: Source, o: Origin, w: World, actions: seq<Action>)
    requires Inv(src, o, w) && LegalRun(src, w, actions)
    ensures Inv(src, o, After(src, w, actions))
    decreases |actions|
  {
    if actions != [] {
      StepKeeps(src, o, w, actions[0]);
      RunKeeps(src, o, Do(src, w, actions[0]), actions[1..]);
    }
  }

  /**
   * Exactly-once tailing: after every run of writes, polls and rename
   * rotations, one more poll has emitted the parses of all terminated lines of
   * all files, in order, and holds the last file's unterminated tail.
   */
  lemma ExactlyOnce(src: Source, o: Origin, w: World, actions: seq<Action>)
    requires Start(o, w) && LegalRun(src, w, actions)
    ensures var end := Do(src, After(src, w, actions), PollNow);
            && end.journal != [] && end.emitted == FirstFiles(src, o, end, |end.journal|)
            && end.tailer.partial == Tail(Stream(o, end, |end.journal| - 1))
  {
    hide ReadEvents, Tail, Do, After, LegalRun, Start, Behind, FirstFiles, Stream;
    StartHolds(src, o, w);
    RunKeeps(src, o, w, actions);
    PollCatchesUp(src, o, After(src, w, actions));
  }

  // ---- More rotations than polls --------------------------------------------

  /** The events of the files after the open one, up to the n-th. */
  function Skipped(src: Source, o: Origin, w: World, n: nat): seq<ParsedEvent>
    requires n <= |w.journal|
  {
    if n <= w.open + 1 then [] else Skipped(src, o, w, n - 1) + ReadEvents(src, Stream(o, w, n - 1))
  }

  lemma {:induction false} SkippedNothingIff(src: Source, o: Origin, w: World, n: nat)
    requires n <= |w.journal|
    ensures Skipped(src, o, w, n) == [] <==> forall k :: w.open < k < n ==> ReadEvents(src, Stream(o, w, k)) == []
  {
    hide ReadEvents, Stream;
    if n > w.open + 1 { SkippedNothingIff(src, o, w, n - 1); }
  }

  lemma {:induction false} FilesSplit(src: Source, o: Origin, w: World, n: nat)
    requires w.open + 1 <= n <= |w.journal|
    ensures FirstFiles(src, o, w, n) == FirstFiles(src, o, w, w.open + 1) + Skipped(src, o, w, n)
  {
    hide ReadEvents, Stream;
    if n > w.open + 1 { FilesSplit(src, o, w, n - 1); }
  }

  /** A poll reads the open file to its end, and then only the file at the path. */
  lemma PollReadsEnds(src: Source, o: Origin, w: World)
    requires Behind(src, o, w) && w.open + 1 < |w.journal|
    ensures var w' := Do(src, w, PollNow);
            && w'.emitted == FirstFiles(src, o, w, w.open + 1) + ReadEvents(src, Stream(o, w, |w.journal| - 1))
            && (w'.fs, w'.journal) == (w.fs, w.journal)
  {
    hide ReadEvents, Tail, FirstFiles, Poll, Stream, Behind;
    ReadCompletes(src, o, w);
    RotatedAway(src, o, w);
    var h, last := w.tailer.handle.value, w.journal[|w.journal| - 1];
    PollAcross(src, w.fs, w.tailer);
    var drained := ReadEvents(src, w.tailer.partial + w.fs.Rest(h.inode, h.offset));
    assert (w.emitted + drained) + ReadEvents(src, w.fs.Text(last))
        == w.emitted + (drained + ReadEvents(src, w.fs.Text(last)));
  }

  lemma RotatedAway(src: Source, o: Origin, w: World)
    requires Behind(src, o, w) && w.open + 1 < |w.journal|
    ensures w.tailer.handle.Some? && w.fs.current == Some(w.journal[|w.journal| - 1])
    ensures w.tailer.handle.value.inode != w.fs.current.value
    ensures Stream(o, w, |w.journal| - 1) == w.fs.Text(w.fs.current.value)
  {
    hide ReadEvents, Tail, FirstFiles;
  }

  lemma PollAcross(src: Source, fs: FileSystem, t: Tailer)
    requires fs.current.Some? && t.handle.Some? && t.handle.value.inode != fs.current.value
    ensures var h := t.handle.value;
            Poll(src, fs, None, t).events ==
            ReadEvents(src, t.partial + fs.Rest(h.inode, h.offset)) + ReadEvents(src, fs.Text(fs.current.value))
  {
    hide ReadEvents, Tail;
    NothingToRead(src);
    var last := fs.current.value;
    assert fs.Rest(last, 0) == fs.Text(last) && "" + fs.Text(last) == fs.Text(last);
  }

  /** Writes and rotations between two polls, any number of each. */
  ghost predicate Unpolled(src: Source, w: World, actions: seq<Action>)
    decreases |actions|
  {
    actions == [] ||
    (Possible(w, actions[0]) && (actions[0].Append? || actions[0].Rotate?)
     && Unpolled(src, Do(src, w, actions[0]), actions[1..]))
  }

  lemma {:induction false} UnpolledKeeps(src: Source, o: Origin, w: World, actions: seq<Action>)
    requires Behind(src, o, w) && Unpolled(src, w, actions)
    ensures Behind(src, o, After(src, w, actions))
    decreases |actions|
  {
    hide Behind, Do;
    if actions != [] {
      if actions[0].Append? {
        AppendKeeps(src, o, w, actions[0].inode, actions[0].chunk);
      } else {
        RotateKeeps(src, o, w, actions[0].inode, actions[0].content);
      }
      UnpolledKeeps(src, o, Do(src, w, actions[0]), actions[1..]);
    }
  }

  /**
   * From every reachable world: after any writes and rotations, the next poll
   * has emitted all files' lines if and only if the files it skipped, those
   * neither held open nor at the path, had none to emit.
   */
  lemma CompleteIffNothingSkipped(src: Source, o: Origin, w: World, actions: seq<Action>)
    requires Inv(src, o, w) && Unpolled(src, w, actions)
    ensures var w1 := After(src, w, actions);
            var end := Do(src, w1, PollNow);
            && w1.journal != [] && end.journal == w1.journal
            && (end.emitted == FirstFiles(src, o, end, |end.journal|) <==>
                  forall k :: w1.open < k < |w1.journal| - 1 ==> ReadEvents(src, Stream(o, w1, k)) == [])
  {
    UnpolledKeeps(src, o, w, actions);
    var w1 := After(src, w, actions);
    hide ReadEvents, Unpolled, After, FirstFiles, Skipped, Do, Stream;
    if w1.open + 1 == |w1.journal| {
      PollCatchesUp(src, o, w1);
      PollKeepsFiles(src, w1);
    } else {
      PollSkipsMiddle(src, o, w1);
    }
  }

  lemma PollKeepsFiles(src: Source, w: World)
    ensures Do(src, w, PollNow).journal == w.journal && Do(src, w, PollNow).fs == w.fs
  {
    hide Poll;
  }

  lemma PollSkipsMiddle(src: Source, o: Origin, w: World)
    requires Behind(src, o, w) && w.open + 1 < |w.journal|
    ensures var end := Do(src, w, PollNow);
            && end.journal == w.journal
            && (end.emitted == FirstFiles(src, o, end, |end.journal|) <==>
                  forall k :: w.open < k < |w.journal| - 1 ==> ReadEvents(src, Stream(o, w, k)) == [])
  {
    hide ReadEvents, FirstFiles, Skipped, Do, Stream, Behind;
    var n := |w.journal| - 1;
    var end := Do(src, w, PollNow);
    PollReadsEnds(src, o, w);
    FilesSplit(src, o, w, n);
    SkippedNothingIff(src, o, w, n);
    LastFile(src, o, w, n);
    FirstFilesStable(src, o, w, end, n + 1);
    MiddlePart(FirstFiles(src, o, w, w.open + 1), Skipped(src, o, w, n), ReadEvents(src, Stream(o, w, n)));
  }

  lemma LastFile(src: Source, o: Origin, w: World, n: nat)
    requires n < |w.journal|
    ensures FirstFiles(src, o, w, n + 1) == FirstFiles(src, o, w, n) + ReadEvents(src, Stream(o, w, n))
  {}

  lemma MiddlePart<T>(a: seq<T>, b: seq<T>, c: seq<T>)
    ensures a + c == a + b + c <==> b == []
  {
    if a + c == a + b + c { assert |a + c| == |a + b + c|; }
    if b == [] { assert a + b == a; }
  }

  /** Two rotations between polls, say: nothing of the file in between is ever read. */
  lemma MiddleFileIsSkipped(src: Source, text: string, middle: string, last: string)
    ensures var w := World(FileSystem(map[1 := text], Some(1)), Tailer(Some(Handle(1, |text|)), "", None), [], [1], 0,
        "");
            var twice := Do(src, Do(src, w, Rotate(2, middle)), Rotate(3, last));
            var end := Do(src, twice, PollNow);
            && Unpolled(src, w, [Rotate(2, middle), Rotate(3, last)])
            && end.emitted == ReadEvents(src, last) && end.tailer.partial == Tail(last)
  {
    assert "" + "" == "" && "" + last == last && last[0..] == last;
    var w := World(FileSystem(map[1 := text], Some(1)), Tailer(Some(Handle(1, |text|)), "", None), [], [1], 0, "");
    var twice := Do(src, Do(src, w, Rotate(2, middle)), Rotate(3, last));
    assert twice.fs.Text(1) == text && twice.fs.Rest(1, |text|) == "";
    assert twice.fs.Rest(3, 0) == last;
    assert [Rotate(2, middle), Rotate(3, last)][1..] == [Rotate(3, last)];
  }

  // ---- Truncation in place --------------------------------------------------

  /** A truncated file as the start of a run of its own. */
  function Anew(src: Source, w: World, content: string): World
    requires w.fs.current.Some?
  {
    w.(emitted := ReadEvents(src, content), journal := [w.fs.current.value], open := 0, consumed := content)
  }

  lemma TruncationRestarts(src: Source, o: Origin, w: World, content: string)
    requires Inv(src, o, w) && w.open + 1 == |w.journal| && |content| < w.tailer.handle.value.offset
    ensures var w' := Do(src, Do(src, w, Truncate(content)), PollNow);
            && w'.emitted == w.emitted + ReadEvents(src, content) && w'.open + 1 == |w'.journal|
            && w'.journal == w.journal && w'.fs.current == w.fs.current && w.fs.current.Some? && w'.consumed == content
            && Inv(src, Origin(0, ""), Anew(src, w', content))
  {
    hide ReadEvents, Tail, Poll;
    var w1 := Do(src, w, Truncate(content));
    var w' := Do(src, w1, PollNow);
    TruncationNoticedIffShorter(src, w1.fs, None, w1.tailer);
    assert w'.fs.Text(w.fs.current.value) == content && w'.fs.Rest(w.fs.current.value, |content|) == "";
    assert content + "" == content && "" + content == content;
    assert w'.fs.Rest(w.fs.current.value, 0) == content;
    var anew := Anew(src, w', content);
    assert FirstFiles(src, Origin(0, ""), anew, 0) == [];
  }

  /** Two worlds that differ only in what came before: earlier events and earlier files. */
  ghost predicate SameFrom(w: World, v: World, pre: seq<ParsedEvent>, before: seq<nat>) {
    && w.fs == v.fs && w.tailer == v.tailer && w.consumed == v.consumed
    && w.emitted == pre + v.emitted && w.journal == before + v.journal && w.open == |before| + v.open && v.journal != []
  }

  lemma SameFromStep(src: Source, w: World, v: World, pre: seq<ParsedEvent>, before: seq<nat>, a: Action)
    requires SameFrom(w, v, pre, before) && Legal(w, a)
    ensures Legal(v, a) && SameFrom(Do(src, w, a), Do(src, v, a), pre, before)
  {
    hide Poll;
    if a.Append? && w.open < |w.journal| { assert w.journal[w.open] == v.journal[v.open]; }
    if a.Rotate? { assert w.journal + [a.inode] == before + (v.journal + [a.inode]); }
    if a.PollNow? {
      var events := Poll(src, w.fs, None, w.tailer).events;
      assert w.emitted + events == pre + (v.emitted + events);
    }
  }

  lemma {:induction false} SameFromRun(src: Source, w: World, v: World, pre: seq<ParsedEvent>, before: seq<nat>,
      actions: seq<Action>)
    requires SameFrom(w, v, pre, before) && LegalRun(src, w, actions)
    ensures LegalRun(src, v, actions) && SameFrom(After(src, w, actions), After(src, v, actions), pre, before)
    decreases |actions|
  {
    hide SameFrom, Do, Legal;
    if actions != [] {
      SameFromStep(src, w, v, pre, before, actions[0]);
      SameFromRun(src, Do(src, w, actions[0]), Do(src, v, actions[0]), pre, before, actions[1..]);
    }
  }

  /**
   * From every reachable world: when the next poll finds the truncated file
   * shorter than what was read, every terminated line of the new content and
   * of all later files is emitted once and in order, over every further run.
   */
  lemma NoticedTruncationLosesNothingNew(src: Source, o: Origin, w: World, content: string, actions: seq<Action>)
    requires Inv(src, o, w) && w.open + 1 == |w.journal| && |content| < w.tailer.handle.value.offset
    requires LegalRun(src, Do(src, Do(src, w, Truncate(content)), PollNow), actions)
    ensures var w' := Do(src, Do(src, w, Truncate(content)), PollNow);
            var end := Do(src, After(src, w', actions), PollNow);
            exists v: World :: SameFrom(end, v, w.emitted, w.journal[..w.open])
                               && v.emitted == FirstFiles(src, Origin(0, ""), v, |v.journal|)
                               && v.tailer.partial == Tail(Stream(Origin(0, ""), v, |v.journal| - 1))
  {
    hide ReadEvents, Tail, FirstFiles;
    var o', w' := Origin(0, ""), Do(src, Do(src, w, Truncate(content)), PollNow);
    TruncationRestarts(src, o, w, content);
    var v := Anew(src, w', content);
    hide Do, Legal;
    assert w'.journal == w.journal[..w.open] + v.journal;
    SameFromRun(src, w', v, w.emitted, w.journal[..w.open], actions);
    RunKeeps(src, o', v, actions);
    var w1, v1 := After(src, w', actions), After(src, v, actions);
    PollCatchesUp(src, o', v1);
    PollIsLegal(w1);
    SameFromStep(src, w1, v1, w.emitted, w.journal[..w.open], PollNow);
    assert SameFrom(Do(src, w1, PollNow), Do(src, v1, PollNow), w.emitted, w.journal[..w.open]);
  }

  lemma PollIsLegal(w: World)
    ensures Legal(w, PollNow)
  {}

  /** Otherwise lines are lost: a file rewritten with as much text as had been read emits nothing of it. */
  lemma UnnoticedTruncationLoses(src: Source, line: string, other: string, event: ParsedEvent)
    requires |line| == |other| && Yields(src, other, event)
    ensures var w := World(FileSystem(map[1 := line + "\n"], Some(1)), Tailer(Some(Handle(1, |line| + 1)), "", None),
                           [], [1], 0, line + "\n");
            var end := Do(src, Do(src, w, Truncate(other + "\n")), PollNow);
            && ReadEvents(src, other + "\n") == [event] && end.emitted == []
            && Do(src, end, PollNow).emitted == []
  {
    var w := World(FileSystem(map[1 := line + "\n"], Some(1)), Tailer(Some(Handle(1, |line| + 1)), "", None),
                   [], [1], 0, line + "\n");
    var w1 := Do(src, w, Truncate(other + "\n"));
    assert w1.fs.Text(1) == other + "\n" && |other + "\n"| == |line| + 1;
    OneLine(src, other);
    hide ReadEvents, Tail;
    TruncationNoticedIffShorter(src, w1.fs, None, w1.tailer);
    var end := Do(src, w1, PollNow);
    TruncationNoticedIffShorter(src, end.fs, None, end.tailer);
  }
}
