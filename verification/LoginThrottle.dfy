/** The per-account brute-force throttle: a sliding window of failure times per email. */
module LoginThrottle {
  import opened Options

  datatype Config = Config(threshold: nat, window: real, interval: real, sweepEvery: nat) {
    ghost predicate Valid() { threshold >= 1 && window > 0.0 && interval >= 0.0 }
  }

  /** Recent failure times, and when the last failure was recorded. */
  datatype Entry = Entry(failures: seq<real>, last: real)

  datatype Throttle = Throttle(entries: map<string, Entry>, checks: nat)

  const EMPTY := Throttle(map[], 0)

  /** The times still inside the window at `now`. */
  function Within(times: seq<real>, now: real, window: real): seq<real> {
    if times == [] then []
    else (if now - times[0] < window then [times[0]] else []) + Within(times[1..], now, window)
  }

  function RecentFailures(c: Config, t: Throttle, email: string, now: real): seq<real> {
    if email in t.entries then Within(t.entries[email].failures, now, c.window) else []
  }

  predicate IsStale(c: Config, e: Entry, now: real) {
    Within(e.failures, now, c.window) == [] && now - e.last >= c.window
  }

  /** The `i`-th failure of the entry lies in the window that ends at `now`. */
  predicate RecentAt(c: Config, e: Entry, now: real, i: int) {
    0 <= i < |e.failures| && now - e.failures[i] < c.window
  }

  lemma {:induction false} NoneWithin(times: seq<real>, now: real, window: real)
    ensures Within(times, now, window) == [] <==> forall i :: 0 <= i < |times| ==> now - times[i] >= window
  {
    if times != [] {
      NoneWithin(times[1..], now, window);
      assert forall i :: 1 <= i < |times| ==> times[i] == times[1..][i - 1];
    }
  }

  lemma StaleIff(c: Config, e: Entry, now: real)
    ensures IsStale(c, e, now) <==> (forall i :: !RecentAt(c, e, now, i)) && now - e.last >= c.window
  {
    NoneWithin(e.failures, now, c.window);
    if Within(e.failures, now, c.window) != [] {
      var i :| 0 <= i < |e.failures| && now - e.failures[i] < c.window;
      assert RecentAt(c, e, now, i);
    }
    forall i | 0 <= i < |e.failures| && now - e.failures[i] < c.window ensures RecentAt(c, e, now, i) {}
  }

  function Swept(c: Config, entries: map<string, Entry>, now: real): map<string, Entry> {
    map email | email in entries && !IsStale(c, entries[email], now) :: entries[email]
  }

  /** The bookkeeping of a check: every so often stale entries are dropped. */
  function Counted(c: Config, t: Throttle, now: real): Throttle {
    if t.checks + 1 >= c.sweepEvery then Throttle(Swept(c, t.entries, now), 0) else t.(checks := t.checks + 1)
  }

  function Allows(c: Config, t: Throttle, email: string, now: real): bool
    requires c.threshold >= 1
  {
    |RecentFailures(c, t, email, now)| < c.threshold
    || (email in t.entries && now - t.entries[email].last >= c.interval)
  }

  function Failed(c: Config, t: Throttle, email: string, now: real): Throttle {
    t.(entries := t.entries[email := Entry(RecentFailures(c, t, email, now) + [now], now)])
  }

  function Forgotten(t: Throttle, email: string): Throttle { t.(entries := t.entries - {email}) }

  // ---- The object -----------------------------------------------------------

  class LoginThrottle {
    const config: Config
    var entries: map<string, Entry>
    var checksSinceSweep: nat

    function Value(): Throttle reads this { Throttle(entries, checksSinceSweep) }

    constructor (config: Config)
      requires config.Valid()
      ensures this.config == config && Value() == EMPTY
    {
      this.config := config;
      entries, checksSinceSweep := map[], 0;
    }

    /** `sweepTime` and `now` are the two clock readings the call takes. */
    method AllowAttempt(email: string, sweepTime: real, now: real) returns (allowed: bool)
      requires config.Valid()
      modifies this
      ensures Value() == Counted(config, old(Value()), sweepTime)
      ensures var checks := old(checksSinceSweep) + 1;
              checksSinceSweep == if checks >= config.sweepEvery then 0 else checks
      ensures checksSinceSweep > 0 ==> entries == old(entries)
      ensures allowed == Allows(config, Value(), email, now)
    {
      checksSinceSweep := checksSinceSweep + 1;
      if checksSinceSweep >= config.sweepEvery { Sweep(sweepTime); }
      var failures := RecentFailures(config, Value(), email, now);
      if |failures| < config.threshold { return true; }
      allowed := now - entries[email].last >= config.interval;
    }

    method RecordFailure(email: string, now: real)
      modifies this
      ensures Value() == Failed(config, old(Value()), email, now)
    {
      var failures := RecentFailures(config, Value(), email, now);
      failures := failures + [now];
      entries := entries[email := Entry(failures, now)];
    }

    method RecordSuccess(email: string)
      modifies this
      ensures Value() == Forgotten(old(Value()), email)
    {
      entries := entries - {email};
    }

    /** Collects the stale emails, then deletes them one by one. */
    method Sweep(now: real)
      modifies this
      ensures entries == Swept(config, old(entries), now) && checksSinceSweep == 0
      ensures forall email :: email in entries <==>
                email in old(entries) &&
                ((exists i :: RecentAt(config, old(entries)[email], now, i))
                 || now - old(entries)[email].last < config.window)
    {
      ghost var stored := entries;
      forall email | email in stored { StaleIff(config, stored[email], now); }
      checksSinceSweep := 0;
      var stale := set email | email in entries && IsStale(config, entries[email], now);
      ghost var before := entries;
      while stale != {}
        invariant entries == map email | email in before
            && (email in stale || !IsStale(config, before[email], now)) :: before[email]
        invariant stale <= entries.Keys
        invariant forall email :: email in stale ==> IsStale(config, before[email], now)
        invariant checksSinceSweep == 0
        decreases |stale|
      {
        var email :| email in stale;
        stale := stale - {email};
        entries := entries - {email};
      }
    }
  }

  // ---- Runs -----------------------------------------------------------------

  datatype Op =
    | Ask(email: string, sweepTime: real, now: real)
    | Fail(email: string, now: real)
    | Forget(email: string)

  function Do(c: Config, t: Throttle, op: Op): Throttle {
    match op
    case Ask(_, sweepTime, _) => Counted(c, t, sweepTime)
    case Fail(email, now) => Failed(c, t, email, now)
    case Forget(email) => Forgotten(t, email)
  }

  /** The clock after an operation that starts at `clock`; it never goes back. */
  function Clock(op: Op, clock: real): real {
    match op
    case Ask(_, _, now) => now
    case Fail(_, now) => now
    case Forget(_) => clock
  }

  predicate Timely(op: Op, clock: real) {
    match op
    case Ask(_, sweepTime, now) => clock <= sweepTime <= now
    case Fail(_, now) => clock <= now
    case Forget(_) => true
  }

  /** Nothing at `clock` or later sees times that have left the window by then. */
  lemma {:induction false} WithinLater(times: seq<real>, clock: real, now: real, window: real)
    requires clock <= now
    ensures Within(Within(times, clock, window), now, window) == Within(times, now, window)
  {
    if times != [] {
      WithinLater(times[1..], clock, now, window);
      if clock - times[0] < window {
        assert ([times[0]] + Within(times[1..], clock, window))[1..] == Within(times[1..], clock, window);
      } else {
        assert [] + Within(times[1..], clock, window) == Within(times[1..], clock, window);
      }
    }
  }

  lemma WithinCons(time: real, rest: seq<real>, now: real, window: real)
    ensures Within([time] + rest, now, window)
            == (if now - time < window then [time] else []) + Within(rest, now, window)
  {
    assert ([time] + rest)[1..] == rest;
  }

  lemma {:induction false} WithinConcat(a: seq<real>, b: seq<real>, now: real, window: real)
    ensures Within(a + b, now, window) == Within(a, now, window) + Within(b, now, window)
  {
    if a == [] {
      assert a + b == b;
    } else {
      hide Within;
      WithinConcat(a[1..], b, now, window);
      WithinCons(a[0], a[1..] + b, now, window);
      WithinCons(a[0], a[1..], now, window);
      assert a + b == [a[0]] + (a[1..] + b);
      assert a == [a[0]] + a[1..];
    }
  }

  /**
   * What recording a failure changes: from then on this email, and no other,
   * has one more recent failure for as long as the window lasts.
   */
  lemma FailureIsRemembered(c: Config, t: Throttle, email: string, now: real, other: string, later: real)
    requires now <= later
    ensures RecentFailures(c, Failed(c, t, email, now), other, later) ==
            RecentFailures(c, t, other, later) + (if other == email && later - now < c.window then [now] else [])
  {
    if other == email {
      var recent := RecentFailures(c, t, email, now);
      WithinConcat(recent, [now], later, c.window);
      if email in t.entries { WithinLater(t.entries[email].failures, now, later, c.window); }
      assert Within([now], later, c.window) == if later - now < c.window then [now] else [];
    }
  }

  /**
   * What a success or an admin's clear changes: from then on this email has no
   * recent failure and its attempts are allowed, whenever asked; nothing changes
   * for any other email.
   */
  lemma SuccessForgets(c: Config, t: Throttle, email: string, other: string, later: real)
    requires c.Valid()
    ensures var t' := Forgotten(t, email);
            && RecentFailures(c, t', other, later)
                == (if other == email then [] else RecentFailures(c, t, other, later))
            && Allows(c, t', other, later) == (other == email || Allows(c, t, other, later))
  {}

  // ---- Sweeping changes no answer -------------------------------------------

  /** The part of the record of an email that can still matter at `clock`. */
  function Live(c: Config, t: Throttle, email: string, clock: real): Option<Entry> {
    var recent := RecentFailures(c, t, email, clock);
    if recent == [] || email !in t.entries then None else Some(Entry(recent, t.entries[email].last))
  }

  ghost predicate Alike(c: Config, t: Throttle, u: Throttle, clock: real) {
    forall email :: Live(c, t, email, clock) == Live(c, u, email, clock)
  }

  lemma AlikeLater(c: Config, t: Throttle, u: Throttle, clock: real, now: real)
    requires Alike(c, t, u, clock) && clock <= now
    ensures Alike(c, t, u, now)
    ensures forall email :: RecentFailures(c, t, email, now) == RecentFailures(c, u, email, now)
  {
    forall email
      ensures RecentFailures(c, t, email, now) == RecentFailures(c, u, email, now)
      ensures Live(c, t, email, now) == Live(c, u, email, now)
    {
      assert Live(c, t, email, clock) == Live(c, u, email, clock);
      if email in t.entries { WithinLater(t.entries[email].failures, clock, now, c.window); }
      if email in u.entries { WithinLater(u.entries[email].failures, clock, now, c.window); }
    }
  }

  lemma SweepIsInvisible(c: Config, t: Throttle, now: real)
    ensures Alike(c, t, Counted(c, t, now), now)
  {}

  lemma AlikeTransitive(c: Config, t: Throttle, u: Throttle, v: Throttle, clock: real)
    requires Alike(c, t, u, clock) && Alike(c, u, v, clock)
    ensures Alike(c, t, v, clock)
  {
    forall email ensures Live(c, t, email, clock) == Live(c, v, email, clock) {
      assert Live(c, t, email, clock) == Live(c, u, email, clock);
    }
  }

  lemma AlikeStep(c: Config, d: Config, t: Throttle, u: Throttle, op: Op, clock: real)
    requires c.Valid() && d == c.(sweepEvery := d.sweepEvery) && Alike(c, t, u, clock) && Timely(op, clock)
    ensures Alike(c, Do(c, t, op), Do(d, u, op), Clock(op, clock))
    ensures op.Ask? ==> Allows(c, Do(c, t, op), op.email, op.now) == Allows(d, Do(d, u, op), op.email, op.now)
  {
    match op
    case Ask(email, sweepTime, now) =>
      var t', u' := Counted(c, t, sweepTime), Counted(d, u, sweepTime);
      AlikeLater(c, t, u, clock, sweepTime);
      SweepIsInvisible(c, t, sweepTime);
      SweepIsInvisible(d, u, sweepTime);
      assert Alike(c, u, u', sweepTime) && Alike(c, t', t, sweepTime);
      AlikeTransitive(c, t', t, u, sweepTime);
      AlikeTransitive(c, t', u, u', sweepTime);
      AlikeLater(c, t', u', sweepTime, now);
      assert Live(c, t', email, now) == Live(c, u', email, now);
      assert RecentFailures(d, u', email, now) == RecentFailures(c, u', email, now);
    case Fail(email, now) =>
      AlikeLater(c, t, u, clock, now);
      assert RecentFailures(d, u, email, now) == RecentFailures(c, u, email, now);
      AlikeElsewhere(c, t, u, Failed(c, t, email, now), Failed(c, u, email, now), email, now);
    case Forget(email) =>
      AlikeElsewhere(c, t, u, Forgotten(t, email), Forgotten(u, email), email, clock);
  }

  lemma AlikeElsewhere(c: Config, t: Throttle, u: Throttle, t': Throttle, u': Throttle, email: string, clock: real)
    requires Alike(c, t, u, clock)
    requires (email in t'.entries) == (email in u'.entries)
    requires email in t'.entries ==> t'.entries[email] == u'.entries[email]
    requires t'.entries - {email} == t.entries - {email} && u'.entries - {email} == u.entries - {email}
    ensures Alike(c, t', u', clock)
  {
    forall e ensures Live(c, t', e, clock) == Live(c, u', e, clock) {
      if e != email {
        assert Live(c, t, e, clock) == Live(c, u, e, clock);
        SameEntry(t.entries, t'.entries, email, e);
        SameEntry(u.entries, u'.entries, email, e);
      }
    }
  }

  lemma SameEntry(a: map<string, Entry>, b: map<string, Entry>, email: string, e: string)
    requires a - {email} == b - {email} && e != email
    ensures (e in a <==> e in b) && (e in a ==> a[e] == b[e])
  {
    assert e in a <==> e in a - {email};
    assert e in b <==> e in b - {email};
  }

  predicate TimelyRun(ops: seq<Op>, clock: real) {
    ops == [] || (Timely(ops[0], clock) && TimelyRun(ops[1..], Clock(ops[0], clock)))
  }

  /** The answers a run of operations gets, in order. */
  function Answers(c: Config, t: Throttle, ops: seq<Op>): seq<bool>
    requires c.threshold >= 1
    decreases |ops|
  {
    if ops == [] then []
    else
      var t' := Do(c, t, ops[0]);
      (if ops[0].Ask? then [Allows(c, t', ops[0].email, ops[0].now)] else []) + Answers(c, t', ops[1..])
  }

  /** However often stale entries are swept -- or never -- every run gets the same answers. */
  lemma {:induction false} SweepNeverChangesAnAnswer(c: Config, d: Config, t: Throttle, u: Throttle, ops: seq<Op>,
      clock: real)
    requires c.Valid() && d == c.(sweepEvery := d.sweepEvery) && Alike(c, t, u, clock) && TimelyRun(ops, clock)
    ensures Answers(c, t, ops) == Answers(d, u, ops)
    decreases |ops|
  {
    if ops != [] {
      AlikeStep(c, d, t, u, ops[0], clock);
      SweepNeverChangesAnAnswer(c, d, Do(c, t, ops[0]), Do(d, u, ops[0]), ops[1..], Clock(ops[0], clock));
    }
  }

  // ---- How many failures a window can hold ----------------------------------

  /**
   * One email watched over a run: `granted` is when an attempt was last
   * allowed since its latest failure, and `fails` lists its failures since the
   * last success or clear.
   */
  datatype Watch = Watch(t: Throttle, clock: real, granted: Option<real>, fails: seq<real>)

  /** Each failure of the email follows a grant given since its previous failure. */
  predicate Legal(w: Watch, email: string, op: Op) {
    && Timely(op, w.clock)
    && match op
       case Ask(_, _, _) => true
       case Fail(e, _) => e == email ==> w.granted.Some?
       case Forget(_) => true
  }

  function Step(c: Config, w: Watch, email: string, op: Op): Watch
    requires c.threshold >= 1
  {
    var t' := Do(c, w.t, op);
    var w' := w.(t := t', clock := Clock(op, w.clock));
    match op
    case Ask(e, _, now) => if e == email && Allows(c, t', e, now) then w'.(granted := Some(now)) else w'
    case Fail(e, now) => if e == email then w'.(granted := None, fails := w.fails + [now]) else w'
    case Forget(e) => if e == email then w'.(fails := []) else w'
  }

  ghost predicate Rising(times: seq<real>) { forall i, j :: 0 <= i < j < |times| ==> times[i] <= times[j] }

  function Kept(t: Throttle, email: string): seq<real> {
    if email in t.entries then t.entries[email].failures else []
  }

  /** The stored times are the last ones, and those no longer stored have left the window. */
  ghost predicate Remembers(fails: seq<real>, kept: seq<real>, clock: real, window: real) {
    && Rising(fails) && (forall i :: 0 <= i < |fails| ==> fails[i] <= clock)
    && |kept| <= |fails| && kept == fails[|fails| - |kept|..]
    && (forall i :: 0 <= i < |fails| - |kept| ==> clock - fails[i] >= window)
  }

  ghost predicate Tracks(c: Config, w: Watch, email: string) {
    && Remembers(w.fails, Kept(w.t, email), w.clock, c.window)
    && (email in w.t.entries ==> w.fails != [] && w.t.entries[email].last == w.fails[|w.fails| - 1])
  }

  ghost predicate Granted(c: Config, w: Watch) {
    w.granted.Some? ==>
      var at := w.granted.value;
      && at <= w.clock && (forall i :: 0 <= i < |w.fails| ==> w.fails[i] <= at)
      && (|Within(w.fails, at, c.window)| < c.threshold
          || (w.fails != [] && at - w.fails[|w.fails| - 1] >= c.interval))
  }

  /** Once `threshold` failures lie in the window, the next one keeps its distance. */
  ghost predicate Spaced(c: Config, fails: seq<real>)
    requires c.threshold >= 1
  {
    forall i :: c.threshold <= i < |fails| ==> Apart(c, fails, i)
  }

  ghost predicate Apart(c: Config, fails: seq<real>, i: nat)
    requires 1 <= c.threshold <= i < |fails|
  {
    fails[i] - fails[i - c.threshold] < c.window ==> fails[i] - fails[i - 1] >= c.interval
  }

  lemma {:induction false} WithinNone(times: seq<real>, now: real, window: real)
    requires forall i :: 0 <= i < |times| ==> now - times[i] >= window
    ensures Within(times, now, window) == []
  {
    if times != [] { WithinNone(times[1..], now, window); }
  }

  lemma {:induction false} WithinAll(times: seq<real>, now: real, window: real)
    requires forall i :: 0 <= i < |times| ==> now - times[i] < window
    ensures Within(times, now, window) == times
  {
    if times != [] { WithinAll(times[1..], now, window); }
  }

  /** In rising order the times inside the window are the last ones. */
  lemma {:induction false} WithinIsSuffix(times: seq<real>, now: real, window: real)
    requires Rising(times)
    ensures var k := |Within(times, now, window)|;
            && k <= |times| && Within(times, now, window) == times[|times| - k..]
            && forall i :: 0 <= i < |times| - k ==> now - times[i] >= window
  {
    if times != [] {
      if now - times[0] < window {
        WithinAll(times, now, window);
      } else {
        WithinIsSuffix(times[1..], now, window);
        var k := |Within(times[1..], now, window)|;
        assert times[1..][|times| - 1 - k..] == times[|times| - k..];
        forall i | 0 <= i < |times| - k ensures now - times[i] >= window {
          if i > 0 { assert times[i] == times[1..][i - 1]; }
        }
      }
    }
  }

  /** What the throttle sees as recent is what is recent in the whole history. */
  lemma TracksRecent(c: Config, w: Watch, email: string, now: real)
    requires Tracks(c, w, email) && w.clock <= now
    ensures RecentFailures(c, w.t, email, now) == Within(w.fails, now, c.window)
  {
    var k := |w.fails| - |Kept(w.t, email)|;
    assert w.fails == w.fails[..k] + w.fails[k..];
    WithinConcat(w.fails[..k], w.fails[k..], now, c.window);
    WithinNone(w.fails[..k], now, c.window);
  }

  lemma SweepTracks(c: Config, w: Watch, email: string, now: real)
    requires c.Valid() && Tracks(c, w, email) && w.clock <= now
    ensures Tracks(c, w.(t := Counted(c, w.t, now), clock := now), email)
  {
    var w' := w.(t := Counted(c, w.t, now), clock := now);
    if email in w.t.entries && email !in w'.t.entries {
      WithinIsSuffix(w.fails, now, c.window);
      TracksRecent(c, w, email, now);
    }
  }

  lemma TracksLater(c: Config, w: Watch, email: string, now: real)
    requires Tracks(c, w, email) && w.clock <= now
    ensures Tracks(c, w.(clock := now), email)
    ensures forall i :: 0 <= i < |w.fails| ==> w.fails[i] <= now
  {}

  lemma AskKeeps(c: Config, w: Watch, email: string, op: Op)
    requires c.Valid() && Tracks(c, w, email) && Granted(c, w) && Legal(w, email, op) && op.Ask?
    ensures Tracks(c, Step(c, w, email, op), email) && Granted(c, Step(c, w, email, op))
  {
    hide Within, Remembers, Counted, RecentFailures, Rising, Swept;
    SweepTracks(c, w, email, op.sweepTime);
    var swept := w.(t := Counted(c, w.t, op.sweepTime), clock := op.sweepTime);
    TracksRecent(c, swept, email, op.now);
    TracksLater(c, swept, email, op.now);
  }

  /** Storing what is still recent plus the new failure forgets only what has left the window. */
  lemma RemembersNext(fails: seq<real>, now: real, window: real)
    requires Rising(fails) && forall i :: 0 <= i < |fails| ==> fails[i] <= now
    ensures Remembers(fails + [now], Within(fails, now, window) + [now], now, window)
  {
    WithinIsSuffix(fails, now, window);
    hide Within;
    var k := |Within(fails, now, window)|;
    assert (fails + [now])[|fails| - k..] == fails[|fails| - k..] + [now];
  }

  lemma FailTracks(c: Config, w: Watch, email: string, now: real)
    requires c.Valid() && Tracks(c, w, email) && w.granted.Some? && w.clock <= now
    ensures Tracks(c, Step(c, w, email, Fail(email, now)), email)
  {
    TracksRecent(c, w, email, now);
    RemembersNext(w.fails, now, c.window);
    hide Within, Remembers, RecentFailures, Rising, Counted, Allows;
  }

  lemma FailSpaced(c: Config, w: Watch, now: real)
    requires c.Valid() && Rising(w.fails) && Granted(c, w) && Spaced(c, w.fails)
    requires w.granted.Some? && w.clock <= now
    ensures Spaced(c, w.fails + [now])
  {
    hide Within;
    NextIsApart(c, w, now);
    forall i | c.threshold <= i < |w.fails| + 1 ensures Apart(c, w.fails + [now], i) {
      if i < |w.fails| { assert Apart(c, w.fails, i); }
    }
  }

  /** The grant a new failure used was refused or late enough if the window was full. */
  lemma NextIsApart(c: Config, w: Watch, now: real)
    requires c.Valid() && Rising(w.fails) && Granted(c, w) && w.granted.Some? && w.clock <= now
    ensures |w.fails| >= c.threshold ==> Apart(c, w.fails + [now], |w.fails|)
  {
    var n, at := |w.fails|, w.granted.value;
    if n >= c.threshold && now - w.fails[n - c.threshold] < c.window {
      var tail := w.fails[n - c.threshold..];
      assert w.fails == w.fails[..n - c.threshold] + tail;
      WithinConcat(w.fails[..n - c.threshold], tail, at, c.window);
      WithinAll(tail, at, c.window);
    }
  }

  ghost predicate Inv(c: Config, w: Watch, email: string)
    requires c.threshold >= 1
  {
    Tracks(c, w, email) && Granted(c, w) && Spaced(c, w.fails)
  }

  lemma StepKeeps(c: Config, w: Watch, email: string, op: Op)
    requires c.Valid() && Inv(c, w, email) && Legal(w, email, op)
    ensures Inv(c, Step(c, w, email, op), email)
  {
    hide Within;
    match op
    case Ask(_, _, _) => AskKeeps(c, w, email, op);
    case Fail(e, now) => if e == email { FailTracks(c, w, email, now); FailSpaced(c, w, now); }
    case Forget(e) => if e == email { ForgetKeeps(c, w, email); }
  }

  lemma ForgetKeeps(c: Config, w: Watch, email: string)
    requires c.Valid() && Inv(c, w, email)
    ensures Inv(c, Step(c, w, email, Forget(email)), email)
  {}

  ghost predicate LegalRun(c: Config, w: Watch, email: string, ops: seq<Op>)
    requires c.threshold >= 1
    decreases |ops|
  {
    ops == [] || (Legal(w, email, ops[0]) && LegalRun(c, Step(c, w, email, ops[0]), email, ops[1..]))
  }

  function After(c: Config, w: Watch, email: string, ops: seq<Op>): Watch
    requires c.threshold >= 1
    decreases |ops|
  {
    if ops == [] then w else After(c, Step(c, w, email, ops[0]), email, ops[1..])
  }

  lemma {:induction false} RunKeeps(c: Config, w: Watch, email: string, ops: seq<Op>)
    requires c.Valid() && Inv(c, w, email) && LegalRun(c, w, email, ops)
    ensures Inv(c, After(c, w, email, ops), email)
    decreases |ops|
  {
    if ops != [] {
      StepKeeps(c, w, email, ops[0]);
      RunKeeps(c, Step(c, w, email, ops[0]), email, ops[1..]);
    }
  }

  /** From the threshold on, failures inside one window are at least an interval apart. */
  lemma {:induction false} SpreadOut(c: Config, fails: seq<real>, j: nat, n: nat)
    requires c.Valid() && Spaced(c, fails) && Rising(fails) && c.threshold <= n && j + n <= |fails|
    requires fails[j + n - 1] - fails[j] < c.window
    ensures fails[j + n - 1] - fails[j + c.threshold - 1] >= (n - c.threshold) as real * c.interval
    decreases n
  {
    if n > c.threshold {
      SpreadOut(c, fails, j, n - 1);
      assert Apart(c, fails, j + n - 1);
      assert (n - c.threshold) as real * c.interval == (n - 1 - c.threshold) as real * c.interval + c.interval;
    }
  }

  /**
   * The throttle's bound: whatever else happens, any half-open window of the
   * configured length holds so few failures of one email since its last success
   * or clear that those beyond the threshold, an interval apart each, do not fill it.
   */
  lemma WindowBound(c: Config, email: string, start: real, ops: seq<Op>, from: real, j: nat, n: nat)
    requires c.Valid() && LegalRun(c, Watch(EMPTY, start, None, []), email, ops)
    requires j + n <= |After(c, Watch(EMPTY, start, None, []), email, ops).fails|
    requires var fails := After(c, Watch(EMPTY, start, None, []), email, ops).fails;
             forall i :: j <= i < j + n ==> from <= fails[i] < from + c.window
    ensures (n - c.threshold) as real * c.interval < c.window
  {
    RunKeeps(c, Watch(EMPTY, start, None, []), email, ops);
    hide After, LegalRun;
    FewFit(c, After(c, Watch(EMPTY, start, None, []), email, ops).fails, from, j, n);
  }

  lemma FewFit(c: Config, fails: seq<real>, from: real, j: nat, n: nat)
    requires c.Valid() && Spaced(c, fails) && Rising(fails) && j + n <= |fails|
    requires forall i :: j <= i < j + n ==> from <= fails[i] < from + c.window
    ensures (n - c.threshold) as real * c.interval < c.window
  {
    if n >= c.threshold {
      SpreadOut(c, fails, j, n);
      assert from <= fails[j + c.threshold - 1] && fails[j + n - 1] < from + c.window;
    } else {
      NegativeProduct((n - c.threshold) as real, c.interval);
    }
  }

  /** Whether an attempt asked at `now` would be allowed, over a whole history of failures. */
  predicate AllowedOver(c: Config, fails: seq<real>, now: real) {
    || |Within(fails, now, c.window)| < c.threshold
    || (fails != [] && now - fails[|fails| - 1] >= c.interval)
  }

  /** One more failure keeps the spacing exactly if an attempt asked at that very moment would be allowed. */
  lemma SpacedIffAllowed(c: Config, fails: seq<real>, now: real)
    requires c.Valid() && Rising(fails) && Spaced(c, fails) && forall i :: 0 <= i < |fails| ==> fails[i] <= now
    ensures Spaced(c, fails + [now]) <==> AllowedOver(c, fails, now)
  {
    hide Within;
    var n := |fails|;
    WithinIsSuffix(fails, now, c.window);
    var k := |Within(fails, now, c.window)|;
    if n >= c.threshold { InWindowIff(c, fails, now); }
    forall i | c.threshold <= i < n ensures Apart(c, fails + [now], i) { assert Apart(c, fails, i); }
    if Spaced(c, fails + [now]) && n >= c.threshold { assert Apart(c, fails + [now], n); }
  }

  /** `threshold` failures lie in the window exactly if the one that many places back does. */
  lemma InWindowIff(c: Config, fails: seq<real>, now: real)
    requires c.Valid() && Rising(fails) && |fails| >= c.threshold
    ensures |Within(fails, now, c.window)| >= c.threshold <==> now - fails[|fails| - c.threshold] < c.window
  {
    hide Within;
    WithinIsSuffix(fails, now, c.window);
    var n, k := |fails|, |Within(fails, now, c.window)|;
    if now - fails[n - c.threshold] < c.window {
      assert n - c.threshold >= n - k;
    }
    if k >= c.threshold {
      WithinRecent(fails, now, c.window);
      assert Within(fails, now, c.window)[k - c.threshold] == fails[n - c.threshold];
    }
  }

  lemma {:induction false} WithinRecent(times: seq<real>, now: real, window: real)
    ensures forall i :: 0 <= i < |Within(times, now, window)| ==> now - Within(times, now, window)[i] < window
  {
    if times != [] { WithinRecent(times[1..], now, window); }
  }

  /**
   * The exact condition, whatever way the attempts were granted: a history
   * keeps the spacing if and only if each failure would have been allowed
   * at the moment it was recorded.
   */
  lemma {:induction false} SpacedIffEachAllowed(c: Config, fails: seq<real>)
    requires c.Valid() && Rising(fails)
    ensures Spaced(c, fails) <==> forall i :: 0 <= i < |fails| ==> AllowedOver(c, fails[..i], fails[i])
  {
    hide Within, AllowedOver;
    if fails != [] {
      var n := |fails| - 1;
      var front, last := fails[..n], fails[n];
      SpacedIffEachAllowed(c, front);
      assert fails == front + [last];
      assert forall i :: 0 <= i < n ==> front[..i] == fails[..i] && front[i] == fails[i];
      SpacedFront(c, front, last);
      if Spaced(c, front) { SpacedIffAllowed(c, front, last); }
    }
  }

  lemma SpacedFront(c: Config, front: seq<real>, last: real)
    requires c.Valid()
    ensures Spaced(c, front + [last]) ==> Spaced(c, front)
  {
    if Spaced(c, front + [last]) {
      forall i | c.threshold <= i < |front| ensures Apart(c, front, i) { assert Apart(c, front + [last], i); }
    }
  }

  /**
   * Hence the bound for every history, however its attempts overlapped, whose
   * failures would each have been allowed.
   */
  lemma AllowedHistoriesAreBounded(c: Config, fails: seq<real>, from: real, j: nat, n: nat)
    requires c.Valid() && Rising(fails) && forall i :: 0 <= i < |fails| ==> AllowedOver(c, fails[..i], fails[i])
    requires j + n <= |fails| && forall i :: j <= i < j + n ==> from <= fails[i] < from + c.window
    ensures (n - c.threshold) as real * c.interval < c.window
  {
    hide AllowedOver;
    SpacedIffEachAllowed(c, fails);
    FewFit(c, fails, from, j, n);
  }

  lemma NegativeProduct(a: real, b: real)
    requires a <= 0.0 && b >= 0.0
    ensures a * b <= 0.0
  {}

  /**
   * No lock-out and no free pass: at any point of any such run an attempt is
   * allowed exactly if fewer than the threshold of the email's failures since
   * its last success or clear lie in the window, or the last of them is at
   * least an interval ago.
   */
  lemma AllowedIff(c: Config, email: string, start: real, ops: seq<Op>, ask: Op)
    requires c.Valid() && LegalRun(c, Watch(EMPTY, start, None, []), email, ops)
    requires ask.Ask? && ask.email == email && Timely(ask, After(c, Watch(EMPTY, start, None, []), email, ops).clock)
    ensures var w := After(c, Watch(EMPTY, start, None, []), email, ops);
            Allows(c, Do(c, w.t, ask), email, ask.now) <==> AllowedOver(c, w.fails, ask.now)
  {
    hide After, LegalRun, Within, Remembers, Rising, Swept, Counted;
    RunKeeps(c, Watch(EMPTY, start, None, []), email, ops);
    var w := After(c, Watch(EMPTY, start, None, []), email, ops);
    SweepTracks(c, w, email, ask.sweepTime);
    var swept := w.(t := Counted(c, w.t, ask.sweepTime), clock := ask.sweepTime);
    TracksRecent(c, swept, email, ask.now);
  }

  /** Attempts that overlap escape the bound: both are granted before either is recorded as a failure. */
  lemma OverlappingAttemptsOverfill()
    ensures var c, ask, fail := Config(1, 10.0, 10.0, 200), Ask("a", 0.0, 0.0), Fail("a", 0.0);
            var once := Do(c, EMPTY, ask);
            var twice := Do(c, once, ask);
            && Allows(c, once, "a", 0.0) && Allows(c, twice, "a", 0.0)
            && Kept(Do(c, Do(c, twice, fail), fail), "a") == [0.0, 0.0]
            && (2 - c.threshold) as real * c.interval >= c.window
  {
    var c, fail := Config(1, 10.0, 10.0, 200), Fail("a", 0.0);
    var twice := Throttle(map[], 2);
    assert Within([0.0], 0.0, 10.0) == [0.0];
    assert Do(c, twice, fail).entries["a"] == Entry([0.0], 0.0);
  }
}
