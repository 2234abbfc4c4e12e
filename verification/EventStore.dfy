/** The bounded in-memory buffer between the log tailers and the aggregator. */
module EventStore {
  import opened Events

  /** What a RingBuffer object holds, as a value. */
  datatype Ring = Ring(capacity: nat, buffer: seq<StoredEvent>, latest: nat) {

    /** Ids are handed out consecutively and only the oldest entries are ever missing. */
    ghost predicate Valid() {
      && |buffer| == (if latest <= capacity then latest else capacity)
      && forall i :: 0 <= i < |buffer| ==> buffer[i].id == latest - |buffer| + 1 + i
    }

    /** deque(maxlen).append: the oldest entry makes room. */
    function Append(event: ParsedEvent): Ring {
      var grown := buffer + [StoredEvent(latest + 1, event)];
      this.(buffer := if |grown| > capacity then grown[1..] else grown, latest := latest + 1)
    }

    function AppendAll(events: seq<ParsedEvent>): (r: Ring)
      ensures r.capacity == capacity && r.latest == latest + |events|
      decreases |events|
    {
      if events == [] then this else Append(events[0]).AppendAll(events[1..])
    }

    predicate Holds(id: nat) {
      exists i :: 0 <= i < |buffer| && buffer[i].id == id
    }
  }

  /** The events of stored entries. */
  function Payload(stored: seq<StoredEvent>): (events: seq<ParsedEvent>)
    ensures |events| == |stored| && forall i :: 0 <= i < |events| ==> events[i] == stored[i].event
  {
    seq(|stored|, i requires 0 <= i < |stored| => stored[i].event)
  }

  function EmptyRing(capacity: nat): Ring { Ring(capacity, [], 0) }

  /** The reference meaning of events_since: keep the entries above the mark, in buffer order. */
  function Above(buffer: seq<StoredEvent>, mark: nat): seq<StoredEvent> {
    if buffer == [] then []
    else (if buffer[0].id > mark then [buffer[0]] else []) + Above(buffer[1..], mark)
  }

  function Backlog(latest: nat, flushed: nat): nat {
    if latest <= flushed then 0 else latest - flushed
  }

  predicate LikelyLost(r: Ring, flushed: nat) { Backlog(r.latest, flushed) > |r.buffer| }

  lemma AppendKeepsValid(r: Ring, event: ParsedEvent)
    requires r.Valid()
    ensures r.Append(event).Valid()
  {
    var grown := r.buffer + [StoredEvent(r.latest + 1, event)];
    assert forall i :: 0 <= i < |r.buffer| ==> grown[i] == r.buffer[i];
  }

  lemma {:induction false} AboveNothing(buffer: seq<StoredEvent>, mark: nat)
    requires forall i :: 0 <= i < |buffer| ==> buffer[i].id > mark
    ensures Above(buffer, mark) == buffer
  {
    if buffer != [] { AboveNothing(buffer[1..], mark); }
  }

  /** In a valid buffer the entries above a mark are a suffix whose position is known. */
  lemma {:induction false} AboveIsSuffix(buffer: seq<StoredEvent>, first: int, mark: nat)
    requires forall i :: 0 <= i < |buffer| ==> buffer[i].id == first + i
    ensures Above(buffer, mark) == buffer[Cut(|buffer|, first, mark)..]
  {
    if buffer != [] && buffer[0].id <= mark {
      AboveIsSuffix(buffer[1..], first + 1, mark);
      assert buffer[1..][Cut(|buffer| - 1, first + 1, mark)..] == buffer[Cut(|buffer|, first, mark)..];
    } else {
      AboveNothing(buffer, mark);
    }
  }

  /** How many of `size` consecutive ids starting at `first` lie at or below `mark`. */
  function Cut(size: nat, first: int, mark: nat): (k: nat)
    ensures k <= size
  {
    if mark < first then 0 else if mark - first + 1 <= size then mark - first + 1 else size
  }

  /** Above yields exactly the retained ids over the mark, in ascending order. */
  lemma SinceIsExact(r: Ring, mark: nat)
    requires r.Valid()
    ensures var out := Above(r.buffer, mark);
            && (forall i, j :: 0 <= i < j < |out| ==> out[i].id < out[j].id)
            && (forall s :: s in out <==> s in r.buffer && s.id > mark)
            && (out != [] ==> out[|out| - 1].id == r.latest)
  {
    hide Above, Cut;
    var first := r.latest - |r.buffer| + 1;
    AboveIsSuffix(r.buffer, first, mark);
    SuffixIsExact(r.buffer, first, mark);
  }

  lemma SuffixIsExact(buffer: seq<StoredEvent>, first: int, mark: nat)
    requires forall i :: 0 <= i < |buffer| ==> buffer[i].id == first + i
    ensures var out := buffer[Cut(|buffer|, first, mark)..];
            && (forall i, j :: 0 <= i < j < |out| ==> out[i].id < out[j].id)
            && (forall s :: s in out <==> s in buffer && s.id > mark)
            && (out != [] ==> out[|out| - 1].id == first + |buffer| - 1)
  {
    var k := Cut(|buffer|, first, mark);
    var out := buffer[k..];
    assert forall i :: 0 <= i < |out| ==> out[i] == buffer[k + i];
    forall s | s in buffer && s.id > mark ensures s in out {
      var i :| 0 <= i < |buffer| && buffer[i] == s;
      assert out[i - k] == s;
    }
  }

  /** events_likely_lost answers exactly "has an unflushed id been evicted?". */
  lemma LikelyLostIffEvicted(r: Ring, flushed: nat)
    requires r.Valid() && flushed <= r.latest
    ensures LikelyLost(r, flushed) <==> exists id: nat :: flushed < id <= r.latest && !r.Holds(id)
  {
    var oldest := r.latest - |r.buffer| + 1;
    if LikelyLost(r, flushed) {
      assert !r.Holds(flushed + 1);
    } else {
      forall id: nat | flushed < id <= r.latest ensures r.Holds(id) {
        assert r.buffer[id - oldest].id == id;
      }
    }
  }

  class RingBuffer {
    const maxEvents: nat
    var buffer: seq<StoredEvent>
    var nextId: nat
    var latestId: nat

    ghost predicate Valid() reads this {
      nextId == latestId + 1 && Value().Valid()
    }

    function Value(): Ring reads this { Ring(maxEvents, buffer, latestId) }

    constructor (maxEvents: nat)
      ensures Valid() && Value() == EmptyRing(maxEvents)
    {
      this.maxEvents := maxEvents;
      buffer, nextId, latestId := [], 1, 0;
    }

    method Append(event: ParsedEvent) returns (stored: StoredEvent)
      requires Valid()
      modifies this
      ensures Valid() && Value() == old(Value()).Append(event)
      ensures stored == StoredEvent(old(latestId) + 1, event)
    {
      AppendKeepsValid(Value(), event);
      stored := StoredEvent(nextId, event);
      nextId := nextId + 1;
      buffer := buffer + [stored];
      if |buffer| > maxEvents { buffer := buffer[1..]; }
      latestId := stored.id;
    }

    /** Walks back from the newest entry until the mark, then reverses. */
    method EventsSince(mark: nat) returns (newer: seq<StoredEvent>)
      requires Valid()
      ensures newer == Above(buffer, mark)
    {
      hide Above;
      ghost var first := latestId - |buffer| + 1;
      assert forall k :: 0 <= k < |buffer| ==> buffer[k].id == first + k;
      AboveIsSuffix(buffer, first, mark);
      newer := [];
      var i := |buffer|;
      while i > 0 && buffer[i - 1].id > mark
        invariant Cut(|buffer|, first, mark) <= i <= |buffer|
        invariant |newer| == |buffer| - i
        invariant forall k :: 0 <= k < |newer| ==> newer[k] == buffer[|buffer| - 1 - k]
      {
        newer := newer + [buffer[i - 1]];
        i := i - 1;
      }
      newer := Reverse(newer);
      assert newer == buffer[Cut(|buffer|, first, mark)..];
    }
  }

  function Reverse<T>(xs: seq<T>): (r: seq<T>)
    ensures |r| == |xs| && forall k :: 0 <= k < |xs| ==> r[k] == xs[|xs| - 1 - k]
  {
    if xs == [] then [] else Reverse(xs[1..]) + [xs[0]]
  }
}
