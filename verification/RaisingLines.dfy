/** A line that makes the parser raise: what its poll does, and that the polls after it never get past it. */
module RaisingLines {
  import opened Options
  import opened Events
  import opened PyText
  import opened LogTailer

  ghost predicate SomeRaises(raises: string -> bool,
      lines: seq<string>) { exists i :: 0 <= i < |lines| && raises(lines[i]) }

  /** One of the lines that a poll hands to the parser makes it raise. */
  ghost predicate PollRaises(raises: string -> bool, fs: FileSystem, disk: Option<Position>, t: Tailer) {
    fs.current.Some? &&
    var started := if t.handle.None? then OpenInitial(fs, disk, t) else t;
    var h, text := started.handle.value, fs.Text(fs.current.value);
    if h.inode != fs.current.value then
      SomeRaises(raises, Terminated(started.partial + fs.Rest(h.inode, h.offset)))
          || SomeRaises(raises, Terminated(text))
    else if |text| < h.offset then SomeRaises(raises, Terminated(text))
    else SomeRaises(raises, Terminated(started.partial + fs.Rest(h.inode, h.offset)))
  }

  /** The exception ends the poll: none of its events is dispatched, and the file is closed. */
  ghost function GuardedPoll(src: Source, raises: string -> bool, fs: FileSystem, disk: Option<Position>,
      t: Tailer): PollResult {
    if PollRaises(raises, fs, disk, t) then PollResult(true, [], t.(handle := None)) else Poll(src, fs, disk, t)
  }

  /** The file at the path has been written to. */
  function Grown(fs: FileSystem, chunk: string): FileSystem
    requires fs.current.Some?
  {
    fs.(files := fs.files[fs.current.value := fs.Text(fs.current.value) + chunk])
  }

  /** The events of a poll after each of the writes, the persisted position unchanged throughout. */
  ghost function PollEach(src: Source, raises: string -> bool, fs: FileSystem, disk: Option<Position>, t: Tailer,
      chunks: seq<string>): seq<ParsedEvent>
    requires fs.current.Some?
    decreases |chunks|
  {
    if chunks == [] then []
    else
      var fs' := Grown(fs, chunks[0]);
      var r := GuardedPoll(src, raises, fs', disk, t);
      r.events + PollEach(src, raises, fs', disk, r.next, chunks[1..])
  }

  /** Between the persisted position and the end of the file a finished line raises. */
  ghost predicate Blocked(raises: string -> bool, fs: FileSystem, p: Position) {
    && fs.current == Some(p.inode) && p.offset <= |fs.Text(p.inode)|
    && SomeRaises(raises, Terminated(p.partial + fs.Text(p.inode)[p.offset..]))
  }

  lemma GrownIsBlocked(raises: string -> bool, fs: FileSystem, p: Position, chunk: string)
    requires Blocked(raises, fs, p)
    ensures Blocked(raises, Grown(fs, chunk), p)
  {
    hide Terminated, Tail;
    var text := fs.Text(p.inode);
    var read := p.partial + text[p.offset..];
    assert Grown(fs, chunk).Text(p.inode) == text + chunk && (text + chunk)[p.offset..] == text[p.offset..] + chunk;
    assert p.partial + (text[p.offset..] + chunk) == read + chunk;
    TerminatedConcat(read, chunk);
    var i :| 0 <= i < |Terminated(read)| && raises(Terminated(read)[i]);
    assert Terminated(read + chunk)[i] == Terminated(read)[i];
  }

  /** A poll that reopens the file at the persisted position meets the line. */
  lemma BlockedPollRaises(raises: string -> bool, fs: FileSystem, p: Position, t: Tailer)
    requires Blocked(raises, fs, p) && t.handle.None?
    ensures PollRaises(raises, fs, Some(p), t)
  {
    hide Terminated;
  }

  /**
   * Once a raising line lies behind the persisted position and the file has
   * been closed, no number of polls, whatever is written in between,
   * dispatches anything.
   */
  lemma {:induction false} BlockedForGood(src: Source, raises: string -> bool, fs: FileSystem, p: Position, t: Tailer,
      chunks: seq<string>)
    requires Blocked(raises, fs, p) && t.handle.None?
    ensures PollEach(src, raises, fs, Some(p), t, chunks) == []
    decreases |chunks|
  {
    hide Blocked, PollRaises, Poll;
    if chunks != [] {
      assert fs.current.Some? by { AtPath(raises, fs, p); }
      var fs' := Grown(fs, chunks[0]);
      GrownIsBlocked(raises, fs, p, chunks[0]);
      BlockedPollRaises(raises, fs', p, t);
      BlockedForGood(src, raises, fs', p, t.(handle := None), chunks[1..]);
    }
  }

  lemma AtPath(raises: string -> bool, fs: FileSystem, p: Position)
    requires Blocked(raises, fs, p)
    ensures fs.current.Some?
  {}

  /** The poll that first meets the line dispatches nothing either, not even the lines before it. */
  lemma FirstPollIsLost(src: Source, raises: string -> bool, fs: FileSystem, p: Position, t: Tailer,
      chunks: seq<string>)
    requires t.handle == Some(Handle(p.inode, p.offset)) && t.partial == p.partial && Blocked(raises, fs, p)
    ensures var r := GuardedPoll(src, raises, fs, Some(p), t);
            && r.events == [] && r.missing && fs.current.Some?
            && PollEach(src, raises, fs, Some(p), r.next, chunks) == []
  {
    assert PollRaises(raises, fs, Some(p), t) by { hide Terminated; }
    hide PollRaises, Poll, PollEach;
    AtPath(raises, fs, p);
    BlockedForGood(src, raises, fs, p, t.(handle := None), chunks);
  }
}
