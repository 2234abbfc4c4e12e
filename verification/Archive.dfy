/** Weekly archives and the raw-event purge behind them. */
module Archive {
  import opened Options

  /** A raw_events row; times are microseconds. */
  datatype Row = Row(id: nat, timestamp: int, branch: string)

  /**
   * One archive of a branch: the window exported, every row committed by the
   * time of the export, those of them already purged again, and the rows saved.
   */
  datatype File = File(since: int, until: int, known: set<Row>, gone: set<Row>, saved: set<Row>)

  /** squid-events-{branch}-{since.date()}_{now.date()}: days since the epoch, not times. */
  datatype Name = Name(branch: string, sinceDay: int, untilDay: int)

  /**
   * `watermarks` is the archive_runs table, and `disk` holds the rows of each
   * archive file by its name.  `purged` remembers what retention has deleted,
   * and `files` every archive ever written, by branch.
   */
  datatype Data = Data(
    rows: set<Row>, purged: set<Row>, disk: map<Name, set<Row>>, files: map<string, seq<File>>,
    watermarks: map<string, int>)

  const DAY := 86_400_000_000
  const WEEK := 7 * DAY
  const DELETE_BATCH_SIZE := 5000

  function Min(a: int, b: int): int { if a < b then a else b }

  function NameOf(branch: string, since: int, until: int): Name { Name(branch, since / DAY, until / DAY) }

  function FilesOf(files: map<string, seq<File>>, branch: string): seq<File> {
    if branch in files then files[branch] else []
  }

  /** A week back, or back to where the branch's last archive ended if that is longer ago. */
  function Since(watermarks: map<string, int>, branch: string, now: int): (since: int)
    ensures since <= now - 604_800_000_000 && (branch in watermarks ==> since <= watermarks[branch])
    ensures since == now - 604_800_000_000 || (branch in watermarks && since == watermarks[branch])
  {
    if branch in watermarks then Min(now - WEEK, watermarks[branch]) else now - WEEK
  }

  function Matching(rows: set<Row>, branch: string, since: int, until: int): set<Row> {
    set r | r in rows && r.branch == branch && since <= r.timestamp <= until
  }

  function ArchiveOne(d: Data, branch: string, now: int): Data {
    var since := Since(d.watermarks, branch, now);
    var file := File(since, now, d.rows + d.purged, d.purged, Matching(d.rows, branch, since, now));
    d.(disk := d.disk[NameOf(branch, since, now) := file.saved],
       files := d.files[branch := FilesOf(d.files, branch) + [file]], watermarks := d.watermarks[branch := now])
  }

  function ArchiveAll(d: Data, branches: seq<string>, now: int): Data {
    if branches == [] then d
    else ArchiveOne(ArchiveAll(d, branches[..|branches| - 1], now), branches[|branches| - 1], now)
  }

  function Delete(d: Data, victims: set<Row>): Data { d.(rows := d.rows - victims, purged := d.purged + victims) }

  function Older(rows: set<Row>, cutoff: int): set<Row> { set r | r in rows && r.timestamp < cutoff }

  predicate Unarchived(watermarks: map<string, int>, branch: string, cutoff: int) {
    branch !in watermarks || watermarks[branch] < cutoff
  }

  /** Some branch was archived recently enough. */
  predicate Fresh(watermarks: map<string, int>, since: int) { exists b :: b in watermarks && watermarks[b] >= since }

  predicate TooFarBehind(watermarks: map<string, int>, now: int, lagDays: Option<nat>) {
    lagDays.Some? && !Fresh(watermarks, now - lagDays.value * DAY)
  }

  // ---- The jobs -------------------------------------------------------------

  class Database {
    var rows: set<Row>
    ghost var purged: set<Row>
    ghost var files: map<string, seq<File>>
    var disk: map<Name, set<Row>>
    var watermarks: map<string, int>

    ghost function Value(): Data reads this { Data(rows, purged, disk, files, watermarks) }

    /**
     * The rows one archive call writes, branch by branch; each branch's file replaces
     * one of the same name, then its watermark is committed.
     */
    method Archive(branches: seq<string>, now: int) returns (written: seq<set<Row>>)
      modifies this
      ensures Value() == ArchiveAll(old(Value()), branches, now)
      ensures |written| == |branches|
      ensures forall i :: 0 <= i < |branches| ==>
                var d := ArchiveAll(old(Value()), branches[..i], now);
                written[i] == Matching(d.rows, branches[i], Since(d.watermarks, branches[i], now), now)
    {
      ghost var before := Value();
      hide ArchiveOne, Matching, Since;
      written := [];
      for i := 0 to |branches|
        invariant Value() == ArchiveAll(before, branches[..i], now)
        invariant |written| == i
        invariant forall k :: 0 <= k < i ==>
                    var d := ArchiveAll(before, branches[..k], now);
                    written[k] == Matching(d.rows, branches[k], Since(d.watermarks, branches[k], now), now)
      {
        var saved := ArchiveBranch(branches[i], now);
        written := written + [saved];
        assert branches[..i + 1][..i] == branches[..i];
      }
      assert branches[..|branches|] == branches;
    }

    method ArchiveBranch(branch: string, now: int) returns (saved: set<Row>)
      modifies this
      ensures Value() == ArchiveOne(old(Value()), branch, now)
      ensures var since := Since(old(watermarks), branch, now);
              && saved == Matching(old(rows), branch, since, now)
              && (forall r :: r in saved <==> r in old(rows) && r.branch == branch && since <= r.timestamp <= now)
              && rows == old(rows) && watermarks == old(watermarks)[branch := now]
              && disk == old(disk)[NameOf(branch, since, now) := saved]
    {
      var defaultSince := now - WEEK;
      var since := if branch in watermarks then Min(defaultSince, watermarks[branch]) else defaultSince;
      saved := Matching(rows, branch, since, now);
      disk := disk[NameOf(branch, since, now) := saved];
      files := files[branch := FilesOf(files, branch) + [File(since, now, rows + purged, purged, saved)]];
      watermarks := watermarks[branch := now];
    }

    method FindUnarchivedBranches(branches: seq<string>, cutoff: int) returns (unarchived: seq<string>)
      ensures forall b :: b in unarchived <==> b in branches && (b !in watermarks || watermarks[b] < cutoff)
    {
      unarchived := [];
      for i := 0 to |branches|
        invariant forall b :: b in unarchived <==> b in branches[..i] && Unarchived(watermarks, b, cutoff)
      {
        if branches[i] !in watermarks || watermarks[branches[i]] < cutoff {
          unarchived := unarchived + [branches[i]];
        }
        assert branches[..i + 1] == branches[..i] + [branches[i]];
      }
      assert branches[..|branches|] == branches;
    }

    /** select max(archived_until) */
    method NewestWatermark() returns (newest: Option<int>)
      ensures newest.None? <==> watermarks == map[]
      ensures newest.Some? ==> (exists b :: b in watermarks && watermarks[b] == newest.value)
                               && forall b :: b in watermarks ==> watermarks[b] <= newest.value
    {
      newest := None;
      var left := watermarks.Keys;
      while left != {}
        invariant left <= watermarks.Keys
        invariant newest.None? ==> left == watermarks.Keys
        invariant newest.Some? ==> exists b :: b in watermarks && watermarks[b] == newest.value
        invariant newest.Some? ==> forall b :: b in watermarks && b !in left ==> watermarks[b] <= newest.value
        decreases |left|
      {
        var b :| b in left;
        left := left - {b};
        newest := if newest.None? || newest.value < watermarks[b] then Some(watermarks[b]) else newest;
      }
      assert watermarks.Keys == {} <==> watermarks == map[];
    }

    method ArchivingTooFarBehind(now: int, lagDays: Option<nat>) returns (behind: bool)
      ensures behind <==> TooFarBehind(watermarks, now, lagDays)
      ensures behind <==>
                lagDays.Some? && forall b :: b in watermarks ==> watermarks[b] < now - lagDays.value * 86_400_000_000
    {
      if lagDays.None? { return false; }
      var newest := NewestWatermark();
      if newest.None? { return true; }
      return newest.value < now - lagDays.value * DAY;
    }

    /** Up to `limit` of the rows older than `cutoff`, in no particular order. */
    method SelectBatch(cutoff: int, limit: nat) returns (batch: set<Row>)
      ensures batch <= Older(rows, cutoff)
      ensures |batch| == Min(|Older(rows, cutoff)|, limit)
    {
      batch := {};
      var left := Older(rows, cutoff);
      while left != {} && |batch| < limit
        invariant batch <= Older(rows, cutoff) && left == Older(rows, cutoff) - batch && |batch| <= limit
        invariant |left| + |batch| == |Older(rows, cutoff)|
        decreases |left|
      {
        var row :| row in left;
        batch, left := batch + {row}, left - {row};
      }
    }

    /** One transaction: deletes one batch. */
    method DeleteBatch(cutoff: int) returns (deleted: nat, ghost batch: set<Row>)
      modifies `rows, `purged
      ensures batch <= Older(old(rows), cutoff) && Value() == Delete(old(Value()), batch)
      ensures deleted == |batch| <= DELETE_BATCH_SIZE && |Older(rows, cutoff)| == |Older(old(rows), cutoff)| - deleted
      ensures deleted < DELETE_BATCH_SIZE ==> Older(rows, cutoff) == {}
    {
      var ids := SelectBatch(cutoff, DELETE_BATCH_SIZE);
      OlderLeft(rows, ids, cutoff);
      rows := rows - ids;
      purged := purged + ids;
      batch := ids;
      deleted := |ids|;
    }

    /** Deletes in bounded batches until one comes back short. */
    method DeleteRawEventsBefore(cutoff: int) returns (totalDeleted: nat)
      modifies `rows, `purged
      ensures Value() == Delete(old(Value()), Older(old(rows), cutoff))
      ensures forall r :: r in rows <==> r in old(rows) && r.timestamp >= cutoff
      ensures totalDeleted == |old(rows)| - |rows| && old(rows) - rows == Older(old(rows), cutoff)
    {
      hide Older, Partway, Delete;
      totalDeleted := 0;
      ghost var before := Value();
      var deleted := DELETE_BATCH_SIZE;
      Untouched(before, cutoff);
      while deleted == DELETE_BATCH_SIZE
        invariant Partway(before, Value(), cutoff, totalDeleted) && deleted <= DELETE_BATCH_SIZE
        invariant deleted < DELETE_BATCH_SIZE ==> Older(rows, cutoff) == {}
        decreases |Older(rows, cutoff)|, deleted == DELETE_BATCH_SIZE
      {
        ghost var was := Value();
        ghost var batch;
        deleted, batch := DeleteBatch(cutoff);
        BatchGone(before, was, cutoff, totalDeleted, batch);
        totalDeleted := totalDeleted + deleted;
      }
      NoneLeft(before, Value(), cutoff, totalDeleted);
      RecentLeft(before, cutoff);
    }

    /**
     * The raw-event part of a retention run: warn about what is not archived, and
     * purge unless archiving lags too far.
     */
    method PurgeRawEvents(branches: seq<string>, now: int, keepDays: nat, lagDays: Option<nat>)
      returns (unarchived: seq<string>, halted: bool, deleted: nat)
      modifies `rows, `purged
      ensures forall b :: b in branches && b !in unarchived ==> b in watermarks && watermarks[b] >= now - keepDays * DAY
      ensures halted <==>
                lagDays.Some? && forall b :: b in watermarks ==> watermarks[b] < now - lagDays.value * 86_400_000_000
      ensures Value() == if halted then old(Value()) else Delete(old(Value()), old(rows) - rows)
      ensures !halted ==> forall r :: r in rows <==> r in old(rows) && r.timestamp >= now - keepDays * 86_400_000_000
      ensures deleted == |old(rows)| - |rows|
    {
      hide Older, Delete, TooFarBehind;
      var cutoff := now - keepDays * DAY;
      unarchived := FindUnarchivedBranches(branches, cutoff);
      halted := ArchivingTooFarBehind(now, lagDays);
      deleted := 0;
      if !halted {
        deleted := DeleteRawEventsBefore(cutoff);
      }
    }
  }

  /** Some of the rows older than `cutoff` have been deleted so far, `total` of them. */
  ghost predicate Partway(before: Data, d: Data, cutoff: int, total: nat) {
    exists gone :: gone <= Older(before.rows, cutoff) && d == Delete(before, gone) && total == |gone|
  }

  lemma Untouched(d: Data, cutoff: int)
    ensures Partway(d, d, cutoff, 0)
  {
    assert d == Delete(d, {});
  }

  lemma BatchGone(before: Data, d: Data, cutoff: int, total: nat, batch: set<Row>)
    requires Partway(before, d, cutoff, total) && batch <= Older(d.rows, cutoff)
    ensures Partway(before, Delete(d, batch), cutoff, total + |batch|)
  {
    var gone :| gone <= Older(before.rows, cutoff) && d == Delete(before, gone) && total == |gone|;
    DeleteTwice(before, gone, batch);
    Apart(before.rows, gone, batch, cutoff);
    hide Older, Delete;
  }

  lemma DeleteTwice(d: Data, a: set<Row>, b: set<Row>)
    ensures Delete(Delete(d, a), b) == Delete(d, a + b)
  {
    assert d.rows - a - b == d.rows - (a + b) && d.purged + a + b == d.purged + (a + b);
  }

  lemma Apart(rows: set<Row>, gone: set<Row>, batch: set<Row>, cutoff: int)
    requires gone <= Older(rows, cutoff) && batch <= Older(rows - gone, cutoff)
    ensures gone + batch <= Older(rows, cutoff) && |gone + batch| == |gone| + |batch|
  {
    assert gone !! batch;
  }

  lemma NoneLeft(before: Data, d: Data, cutoff: int, total: nat)
    requires Partway(before, d, cutoff, total) && Older(d.rows, cutoff) == {}
    ensures d == Delete(before, Older(before.rows, cutoff)) && total == |Older(before.rows, cutoff)|
  {
    var gone :| gone <= Older(before.rows, cutoff) && d == Delete(before, gone) && total == |gone|;
    forall r | r in Older(before.rows, cutoff) ensures r in gone { assert r !in Older(d.rows, cutoff); }
    assert gone == Older(before.rows, cutoff);
  }

  lemma RecentLeft(before: Data, cutoff: int)
    ensures var d := Delete(before, Older(before.rows, cutoff));
            && (forall r :: r in d.rows <==> r in before.rows && r.timestamp >= cutoff)
            && |Older(before.rows, cutoff)| == |before.rows| - |d.rows|
            && before.rows - d.rows == Older(before.rows, cutoff)
  {
    var older := Older(before.rows, cutoff);
    OlderLeft(before.rows, older, cutoff);
    assert before.rows - (before.rows - older) == older;
  }

  lemma OlderLeft(rows: set<Row>, batch: set<Row>, cutoff: int)
    requires batch <= Older(rows, cutoff)
    ensures Older(rows - batch, cutoff) == Older(rows, cutoff) - batch
    ensures |Older(rows - batch, cutoff)| == |Older(rows, cutoff)| - |batch| && Older(rows, cutoff) <= rows
  {
    assert Older(rows - batch, cutoff) == Older(rows, cutoff) - batch;
  }

  // ---- Runs -----------------------------------------------------------------

  /** A purge between its checks and its last delete batch. */
  datatype Purge = Purge(now: int, cutoff: int, lagDays: Option<nat>)

  /** `warned` collects the branches any purge so far has listed as unarchived. */
  datatype State = State(data: Data, clock: int, pending: Option<Purge>, warned: set<string>)

  datatype Step =
    | Tick(now: int)
    | Ingest(row: Row)
    | ArchiveStep(branch: string, now: int)
    | BeginPurge(now: int, keepDays: nat, lagDays: Option<nat>)
    | DeleteSome(victims: set<Row>)
    | EndPurge

  /** Archive calls do not overlap, nor do purges; rows arrive with any timestamp, at any time. */
  predicate Allowed(s: State, step: Step) {
    match step
    case Tick(now) => s.clock <= now
    case Ingest(row) => row !in s.data.rows && row !in s.data.purged
    case ArchiveStep(branch, now) => now <= s.clock
        && (branch in s.data.watermarks ==> s.data.watermarks[branch] <= now)
    case BeginPurge(now, _, _) => now <= s.clock && s.pending.None?
    case DeleteSome(victims) => s.pending.Some? && victims <= Older(s.data.rows, s.pending.value.cutoff)
    case EndPurge => s.pending.Some?
  }

  function Do(branches: set<string>, s: State, step: Step): State {
    match step
    case Tick(now) => s.(clock := now)
    case Ingest(row) => s.(data := s.data.(rows := s.data.rows + {row}))
    case ArchiveStep(branch, now) => s.(data := ArchiveOne(s.data, branch, now))
    case BeginPurge(now, keepDays, lagDays) =>
      var cutoff := now - keepDays * DAY;
      s.(warned := s.warned + (set b | b in branches && Unarchived(s.data.watermarks, b, cutoff)),
         pending := if TooFarBehind(s.data.watermarks, now, lagDays) then None else Some(Purge(now, cutoff, lagDays)))
    case DeleteSome(victims) => s.(data := Delete(s.data, victims))
    case EndPurge => s.(pending := None)
  }

  const INITIAL := State(Data({}, {}, map[], map[], map[]), 0, None, {})

  predicate AllowedRun(branches: set<string>, s: State, steps: seq<Step>)
    decreases |steps|
  {
    steps == [] || (Allowed(s, steps[0]) && AllowedRun(branches, Do(branches, s, steps[0]), steps[1..]))
  }

  function Run(branches: set<string>, s: State, steps: seq<Step>): State
    decreases |steps|
  {
    if steps == [] then s else Run(branches, Do(branches, s, steps[0]), steps[1..])
  }

  /** Each file of a branch starts no later than the previous one ended, and ends no earlier. */
  predicate GapFree(files: seq<File>) {
    && (forall i :: 0 <= i < |files| ==> files[i].since <= files[i].until)
    && (forall i :: 0 < i < |files| ==> files[i].since <= files[i - 1].until <= files[i].until)
  }

  /** The files of a branch form one gap-free interval that ends at its watermark. */
  predicate Contiguous(d: Data) {
    d.files.Keys == d.watermarks.Keys && forall b :: b in d.files ==> EndsAt(d.files[b], d.watermarks[b])
  }

  predicate EndsAt(files: seq<File>, watermark: int) {
    && files != [] && GapFree(files) && files[|files| - 1].until == watermark
    && files[0].since == files[0].until - WEEK && Rising(files)
  }

  /** Later archives start and end no earlier, none is shorter than a week, and what is known or gone stays so. */
  predicate Rising(files: seq<File>) {
    && (forall i :: 0 <= i < |files| ==> files[i].since <= files[i].until - WEEK)
    && forall i, j :: 0 <= i < j < |files| ==>
         && files[i].since <= files[j].since && files[i].until <= files[j].until
         && files[i].known <= files[j].known && files[i].gone <= files[j].gone
  }

  /** An archive saved exactly the rows of its branch and window that were there. */
  ghost predicate Exact(files: seq<File>, b: string) {
    forall i :: 0 <= i < |files| ==>
      forall r :: r in files[i].saved <==>
        && r in files[i].known && r !in files[i].gone && r.branch == b
            && files[i].since <= r.timestamp <= files[i].until
  }

  predicate SameDates(f: File, g: File) { NameOf("", f.since, f.until) == NameOf("", g.since, g.until) }

  /** `day` counts UTC days since the epoch. */
  predicate OnDay(time: int, day: int) { 86_400_000_000 * day <= time < 86_400_000_000 * (day + 1) }

  ghost predicate SameDay(a: int, b: int) { exists day :: OnDay(a, day) && OnDay(b, day) }

  lemma SameDayIff(a: int, b: int)
    ensures SameDay(a, b) <==> a / DAY == b / DAY
  {
    assert OnDay(a, a / DAY) && OnDay(b, b / DAY);
    if day :| OnDay(a, day) && OnDay(b, day) { assert a / DAY == day && b / DAY == day; }
  }

  /** Two archives share a name exactly if they are of one branch, start on one day and end on one day. */
  lemma SameNameIff(b: string, f: File, c: string, g: File)
    ensures NameOf(b, f.since, f.until) == NameOf(c, g.since, g.until)
            <==> b == c && SameDay(f.since, g.since) && SameDay(f.until, g.until)
    ensures SameDates(f, g) <==> SameDay(f.since, g.since) && SameDay(f.until, g.until)
  {
    SameDayIff(f.since, g.since);
    SameDayIff(f.until, g.until);
  }

  /** No later archive has taken the k-th one's name. */
  ghost predicate Newest(files: seq<File>, k: nat) {
    k < |files| && forall j :: k < j < |files| ==> !SameDates(files[j], files[k])
  }

  /** The files on disk are the newest archives of their names. */
  ghost predicate OnDisk(disk: map<Name, set<Row>>, files: seq<File>, b: string) {
    && (forall k :: 0 <= k < |files| && Newest(files, k) ==>
          var n := NameOf(b, files[k].since, files[k].until); n in disk && disk[n] == files[k].saved)
    && forall n :: n in disk && n.branch == b ==>
         exists k: nat :: Newest(files, k) && n == NameOf(b, files[k].since, files[k].until)
  }

  ghost predicate Filed(d: Data) {
    && d.rows !! d.purged
    && forall b :: Exact(FilesOf(d.files, b), b) && OnDisk(d.disk, FilesOf(d.files, b), b)
        && UpToDate(d, FilesOf(d.files, b))
  }

  predicate UpToDate(d: Data, files: seq<File>) {
    files != [] ==> files[|files| - 1].known <= d.rows + d.purged && files[|files| - 1].gone <= d.purged
  }

  /**
   * The `i`-th file of `b` saved only rows of its window known by then, and
   * every one of them save those an earlier window reached past.
   */
  predicate SavedIn(files: seq<File>, b: string, i: nat)
    requires i < |files|
  {
    && (forall r :: r in files[i].saved ==> r in files[i].known && files[i].since <= r.timestamp <= files[i].until)
    && forall r :: r in files[i].known && r.branch == b && files[i].since <= r.timestamp <= files[i].until ==>
         r in files[i].saved || (i > 0 && r.timestamp < files[i - 1].until)
  }

  predicate Covered(d: Data, b: string) {
    && (forall i :: 0 <= i < |FilesOf(d.files, b)| ==> SavedIn(FilesOf(d.files, b), b, i))
    && (forall r :: r in d.purged && r.branch == b ==> b in d.watermarks && r.timestamp < d.watermarks[b])
  }

  /** Nothing pending goes beyond what is archived, nor ignores the lag limit. */
  predicate PendingSafe(branches: set<string>, s: State) {
    s.pending.Some? ==>
      var p := s.pending.value;
      && (forall b :: b in branches && b !in s.warned ==> b in s.data.watermarks && p.cutoff <= s.data.watermarks[b])
      && (p.lagDays.Some? ==> Fresh(s.data.watermarks, p.now - p.lagDays.value * DAY))
  }

  ghost predicate Inv(branches: set<string>, s: State) {
    && Contiguous(s.data) && Filed(s.data) && PendingSafe(branches, s)
    && forall b :: b in branches && b !in s.warned ==> Covered(s.data, b)
  }

  /** The archive that the next call for a branch writes. */
  function NextFile(d: Data, branch: string, now: int): File {
    var since := Since(d.watermarks, branch, now);
    File(since, now, d.rows + d.purged, d.purged, Matching(d.rows, branch, since, now))
  }

  lemma GapFreeNext(files: seq<File>, file: File)
    requires file.since <= file.until - WEEK && (files != [] ==> EndsAt(files, files[|files| - 1].until))
    requires if files == [] then file.since == file.until - WEEK
             else && file.since == Min(file.until - WEEK, files[|files| - 1].until)
                  && files[|files| - 1].until <= file.until
    requires files != [] ==> files[|files| - 1].known <= file.known && files[|files| - 1].gone <= file.gone
    ensures EndsAt(files + [file], file.until)
  {
    if files != [] { RisingNext(files, file); }
  }

  lemma RisingNext(files: seq<File>, file: File)
    requires files != [] && Rising(files) && file.since <= file.until - WEEK
    requires var last := files[|files| - 1];
             && last.since <= file.since && last.until <= file.until && last.known <= file.known
                 && last.gone <= file.gone
    ensures Rising(files + [file])
  {
    var files', n := files + [file], |files|;
    forall i, j | 0 <= i < j <= n
      ensures files'[i].since <= files'[j].since && files'[i].until <= files'[j].until
      ensures files'[i].known <= files'[j].known && files'[i].gone <= files'[j].gone
    {
      if j == n && i < n - 1 { assert files[i].known <= files[n - 1].known && files[i].gone <= files[n - 1].gone; }
    }
  }

  lemma ArchiveContiguous(d: Data, branch: string, now: int)
    requires Contiguous(d) && Filed(d) && (branch in d.watermarks ==> d.watermarks[branch] <= now)
    ensures Contiguous(ArchiveOne(d, branch, now))
  {
    hide Matching, GapFree, EndsAt, Rising, Filed;
    if branch in d.files { assert EndsAt(d.files[branch], d.watermarks[branch]); }
    FilesUpToDate(d, branch);
    NextFollows(d, branch, now);
    GapFreeNext(FilesOf(d.files, branch), NextFile(d, branch, now));
  }

  lemma FilesUpToDate(d: Data, b: string)
    requires Filed(d)
    ensures UpToDate(d, FilesOf(d.files, b))
  {}

  lemma NextFollows(d: Data, branch: string, now: int)
    requires d.files.Keys == d.watermarks.Keys && (branch in d.watermarks ==> d.watermarks[branch] <= now)
    requires branch in d.files ==> EndsAt(d.files[branch], d.watermarks[branch])
    ensures var files, file := FilesOf(d.files, branch), NextFile(d, branch, now);
            && file.since <= file.until - WEEK && (files != [] ==> EndsAt(files, files[|files| - 1].until))
            && if files == [] then file.since == file.until - WEEK
               else && file.since == Min(file.until - WEEK, files[|files| - 1].until)
                    && files[|files| - 1].until <= file.until
  {
    hide Matching, GapFree, Rising;
  }

  lemma ExactNext(d: Data, b: string, now: int)
    requires d.rows !! d.purged && Exact(FilesOf(d.files, b), b)
    ensures Exact(FilesOf(d.files, b) + [NextFile(d, b, now)], b)
  {
    hide Since;
  }

  lemma OnDiskNext(disk: map<Name, set<Row>>, files: seq<File>, b: string, file: File)
    requires OnDisk(disk, files, b)
    ensures OnDisk(disk[NameOf(b, file.since, file.until) := file.saved], files + [file], b)
  {
    var n, files' := |files|, files + [file];
    var taken := NameOf(b, file.since, file.until);
    forall k | 0 <= k < n ensures Newest(files', k) <==> Newest(files, k) && !SameDates(file, files[k]) {
      if Newest(files', k) {
        assert files'[n] == file;
        forall j | k < j < n ensures !SameDates(files[j], files[k]) { assert files'[j] == files[j]; }
      }
    }
    assert Newest(files', n);
    hide Newest;
    var disk' := disk[taken := file.saved];
    forall name | name in disk' && name.branch == b
      ensures exists k: nat :: Newest(files', k) && name == NameOf(b, files'[k].since, files'[k].until)
    {
      if name == taken {
        assert Newest(files', n) && name == NameOf(b, files'[n].since, files'[n].until);
      } else {
        var k: nat :| Newest(files, k) && name == NameOf(b, files[k].since, files[k].until);
        NewestInside(files, k);
        assert Newest(files', k) && files'[k] == files[k];
      }
    }
  }

  lemma NewestInside(files: seq<File>, k: nat)
    requires Newest(files, k)
    ensures k < |files|
  {}

  lemma ArchiveFiled(d: Data, branch: string, now: int)
    requires Filed(d)
    ensures Filed(ArchiveOne(d, branch, now))
  {
    var d' := ArchiveOne(d, branch, now);
    var file := NextFile(d, branch, now);
    ExactNext(d, branch, now);
    OnDiskNext(d.disk, FilesOf(d.files, branch), branch, file);
    forall b
      ensures Exact(FilesOf(d'.files, b), b) && OnDisk(d'.disk, FilesOf(d'.files, b), b)
      ensures UpToDate(d', FilesOf(d'.files, b))
    {
      assert Exact(FilesOf(d.files, b), b) && OnDisk(d.disk, FilesOf(d.files, b), b)
          && UpToDate(d, FilesOf(d.files, b));
      hide Exact, Matching, Since, Newest;
      if b != branch {
        assert FilesOf(d'.files, b) == FilesOf(d.files, b);
      } else {
        hide OnDisk;
      }
    }
  }

  lemma ArchiveCovered(d: Data, branch: string, now: int, b: string)
    requires Contiguous(d) && Covered(d, b) && (branch in d.watermarks ==> d.watermarks[branch] <= now)
    ensures Covered(ArchiveOne(d, branch, now), b)
  {
    hide Contiguous, Matching, Since, SavedIn;
    var files, files' := FilesOf(d.files, b), FilesOf(ArchiveOne(d, branch, now).files, b);
    if b == branch { NewFileSaves(d, b, now); }
    forall i | 0 <= i < |files'| ensures SavedIn(files', b, i) {
      if i < |files| && b == branch { SavedInStays(files, NextFile(d, b, now), b, i); }
    }
    WatermarksGrow(d, branch, now);
  }

  lemma SavedInStays(files: seq<File>, file: File, b: string, i: nat)
    requires i < |files| && SavedIn(files, b, i)
    ensures SavedIn(files + [file], b, i)
  {}

  lemma NewFileSaves(d: Data, b: string, now: int)
    requires Contiguous(d) && Covered(d, b) && (b in d.watermarks ==> d.watermarks[b] <= now)
    ensures SavedIn(FilesOf(ArchiveOne(d, b, now).files, b), b, |FilesOf(d.files, b)|)
  {
    if b in d.files { assert EndsAt(d.files[b], d.watermarks[b]); }
    hide GapFree, Contiguous, Rising;
  }

  lemma ArchiveKeeps(branches: set<string>, s: State, branch: string, now: int)
    requires Inv(branches, s) && Allowed(s, ArchiveStep(branch, now))
    ensures Inv(branches, Do(branches, s, ArchiveStep(branch, now)))
  {
    hide Contiguous, Filed, Covered, PendingSafe, ArchiveOne;
    ArchiveContiguous(s.data, branch, now);
    ArchiveFiled(s.data, branch, now);
    forall b | b in branches && b !in s.warned ensures Covered(ArchiveOne(s.data, branch, now), b) {
      ArchiveCovered(s.data, branch, now, b);
    }
    ArchivePendingSafe(branches, s, branch, now);
  }

  lemma ArchivePendingSafe(branches: set<string>, s: State, branch: string, now: int)
    requires PendingSafe(branches, s) && Allowed(s, ArchiveStep(branch, now))
    ensures PendingSafe(branches, s.(data := ArchiveOne(s.data, branch, now)))
  {
    WatermarksGrow(s.data, branch, now);
    hide ArchiveOne;
    if s.pending.Some? && s.pending.value.lagDays.Some? {
      FreshStays(s.data.watermarks, ArchiveOne(s.data, branch, now).watermarks,
                 s.pending.value.now - s.pending.value.lagDays.value * DAY);
    }
    hide Fresh;
  }

  lemma FreshStays(w: map<string, int>, w': map<string, int>, since: int)
    requires Fresh(w, since) && forall b :: b in w ==> b in w' && w[b] <= w'[b]
    ensures Fresh(w', since)
  {
    var b :| b in w && w[b] >= since;
    assert b in w' && w'[b] >= since;
  }

  lemma WatermarksGrow(d: Data, branch: string, now: int)
    requires branch in d.watermarks ==> d.watermarks[branch] <= now
    ensures forall b :: b in d.watermarks ==> b in ArchiveOne(d, branch, now).watermarks
                                              && d.watermarks[b] <= ArchiveOne(d, branch, now).watermarks[b]
  {}

  /** Nothing but the rows changes, and none is forgotten. */
  lemma FiledStays(d: Data, d': Data)
    requires Filed(d) && (d'.files, d'.disk) == (d.files, d.disk)
    requires d'.rows !! d'.purged && d.rows + d.purged <= d'.rows + d'.purged && d.purged <= d'.purged
    ensures Filed(d')
  {
    forall b ensures UpToDate(d', FilesOf(d'.files, b)) { assert UpToDate(d, FilesOf(d.files, b)); }
  }

  lemma StepKeeps(branches: set<string>, s: State, step: Step)
    requires Inv(branches, s) && Allowed(s, step)
    ensures Inv(branches, Do(branches, s, step))
  {
    hide GapFree, SavedIn, Filed, Rising;
    match step
    case ArchiveStep(branch, now) => ArchiveKeeps(branches, s, branch, now);
    case DeleteSome(victims) => RowsApart(s.data); FiledStays(s.data, Delete(s.data, victims));
    case BeginPurge(now, keepDays, lagDays) => hide Contiguous, Covered;
    case Tick(_) =>
    case Ingest(row) => RowsApart(s.data); FiledStays(s.data, s.data.(rows := s.data.rows + {row}));
    case EndPurge =>
  }

  lemma RowsApart(d: Data)
    requires Filed(d)
    ensures d.rows !! d.purged
  {}

  lemma {:induction false} RunKeeps(branches: set<string>, s: State, steps: seq<Step>)
    requires Inv(branches, s) && AllowedRun(branches, s, steps)
    ensures Inv(branches, Run(branches, s, steps))
    decreases |steps|
  {
    hide Inv, Allowed, Do;
    if steps != [] {
      StepKeeps(branches, s, steps[0]);
      RunKeeps(branches, Do(branches, s, steps[0]), steps[1..]);
    }
  }

  lemma Reachable(branches: set<string>, steps: seq<Step>)
    requires AllowedRun(branches, INITIAL, steps)
    ensures Inv(branches, Run(branches, INITIAL, steps))
  {
    RunKeeps(branches, INITIAL, steps);
  }

  /**
   * Archives that end on different days, or start on different days, never
   * replace each other: one that no later archive of its branch matches in both
   * is on disk with what it saved.
   */
  lemma OtherDaysKeepIt(branches: set<string>, steps: seq<Step>, b: string, k: nat)
    requires AllowedRun(branches, INITIAL, steps)
    requires k < |FilesOf(Run(branches, INITIAL, steps).data.files, b)|
    requires var files := FilesOf(Run(branches, INITIAL, steps).data.files, b);
             forall j :: k < j < |files| ==>
               !SameDay(files[j].since, files[k].since) || !SameDay(files[j].until, files[k].until)
    ensures var d := Run(branches, INITIAL, steps).data;
            exists n :: n in d.disk && n.branch == b && d.disk[n] == FilesOf(d.files, b)[k].saved
  {
    Reachable(branches, steps);
    hide Run, AllowedRun, SameDay, Contiguous;
    var d := Run(branches, INITIAL, steps).data;
    var files := FilesOf(d.files, b);
    forall j | k < j < |files| ensures !SameDates(files[j], files[k]) { SameNameIff(b, files[j], b, files[k]); }
    hide SameDates;
    assert Newest(files, k) && OnDisk(d.disk, files, b);
    assert NameOf(b, files[k].since, files[k].until) in d.disk;
  }

  /** The first archive of a branch at or after `time`. */
  predicate FirstAtOrAfter(files: seq<File>, time: int, i: nat) {
    i < |files| && files[i].until >= time && forall j :: 0 <= j < i ==> files[j].until < time
  }

  /**
   * If no purge ever warned about a configured branch, each of its purged rows
   * was saved by the first archive at or after the row's own time exactly if
   * it is not older than the first window and was committed by then.
   */
  lemma PurgedWereArchived(branches: set<string>, steps: seq<Step>, r: Row) returns (i: nat)
    requires AllowedRun(branches, INITIAL, steps) && r.branch in branches
    requires var s := Run(branches, INITIAL, steps); r.branch !in s.warned && r in s.data.purged
    ensures var files := FilesOf(Run(branches, INITIAL, steps).data.files, r.branch);
            && FirstAtOrAfter(files, r.timestamp, i)
            && (r in files[i].saved <==> r.timestamp >= files[0].since && r in files[i].known)
  {
    Reachable(branches, steps);
    hide Run, AllowedRun;
    var d := Run(branches, INITIAL, steps).data;
    var files := FilesOf(d.files, r.branch);
    assert EndsAt(files, d.watermarks[r.branch]);
    i := FindFirst(files, r.timestamp);
    assert SavedIn(files, r.branch, i);
    assert i > 0 ==> files[i - 1].until < r.timestamp;
  }

  lemma FindFirst(files: seq<File>, time: int) returns (i: nat)
    requires files != [] && files[|files| - 1].until >= time
    ensures FirstAtOrAfter(files, time, i)
  {
    i := 0;
    while files[i].until < time
      invariant i < |files| && forall j :: 0 <= j < i ==> files[j].until < time
      decreases |files| - i
    {
      i := i + 1;
    }
  }

  /** A branch's windows leave no instant out between its first archive's start and its watermark. */
  lemma WindowsCover(branches: set<string>, steps: seq<Step>, b: string, time: int) returns (i: nat)
    requires AllowedRun(branches, INITIAL, steps)
    requires var d := Run(branches, INITIAL, steps).data;
             b in d.watermarks && FilesOf(d.files, b) != [] && FilesOf(d.files, b)[0].since <= time <= d.watermarks[b]
    ensures var files := FilesOf(Run(branches, INITIAL, steps).data.files, b);
            i < |files| && files[i].since <= time <= files[i].until
  {
    Reachable(branches, steps);
    hide Run, AllowedRun;
    var d := Run(branches, INITIAL, steps).data;
    assert EndsAt(FilesOf(d.files, b), d.watermarks[b]);
    i := FindFirst(FilesOf(d.files, b), time);
    assert i > 0 ==> FilesOf(d.files, b)[i - 1].until < time;
  }

  // ---- What is still on disk ------------------------------------------------

  lemma SameDatesBetween(files: seq<File>, i: nat, j: nat, k: nat)
    requires Rising(files) && i <= j <= k < |files| && SameDates(files[k], files[i])
    ensures SameDates(files[j], files[i]) && SameDates(files[k], files[j])
  {}

  /** The archive that has taken the name of the `i`-th. */
  lemma NewestOf(files: seq<File>, i: nat) returns (k: nat)
    requires i < |files|
    ensures i <= k < |files| && SameDates(files[k], files[i]) && Newest(files, k)
  {
    k := i;
    var j := i + 1;
    while j < |files|
      invariant i <= k < j <= |files| && SameDates(files[k], files[i])
      invariant forall l :: k < l < j ==> !SameDates(files[l], files[k])
    {
      if SameDates(files[j], files[k]) { k := j; }
      j := j + 1;
    }
  }

  /**
   * Something that a stretch of archives starting at the `i`-th has is in one
   * still on disk exactly if every later archive of the `i`-th one's name has it.
   */
  lemma SurvivesIff(files: seq<File>, has: seq<bool>, i: nat)
    requires Rising(files) && |has| == |files| && i <= |files| && forall j :: 0 <= j < i ==> !has[j]
    requires forall j, k :: i <= j <= k < |files| && has[k] ==> has[j]
    ensures (exists k: nat :: Newest(files, k) && has[k])
            <==> i < |files| && forall j :: i <= j < |files| && SameDates(files[j], files[i]) ==> has[j]
  {
    if i < |files| {
      if k: nat :| Newest(files, k) && has[k] {
        forall j | i <= j < |files| && SameDates(files[j], files[i]) ensures has[j] {
          if !has[j] {
            SameDatesBetween(files, i, k, j);
            assert false;
          }
        }
      } else {
        var k := NewestOf(files, i);
      }
    }
  }

  /** The first archive at or after `time` that could know of the row. */
  predicate FirstKnowing(files: seq<File>, r: Row, i: nat) {
    && i <= |files| && (i < |files| ==> files[i].until >= r.timestamp && r in files[i].known)
    && forall j :: 0 <= j < i ==> files[j].until < r.timestamp || r !in files[j].known
  }

  lemma FindKnowing(files: seq<File>, r: Row) returns (i: nat)
    ensures FirstKnowing(files, r, i)
  {
    i := 0;
    while i < |files| && (files[i].until < r.timestamp || r !in files[i].known)
      invariant i <= |files| && forall j :: 0 <= j < i ==> files[j].until < r.timestamp || r !in files[j].known
    {
      i := i + 1;
    }
  }

  /** Some file on disk holds the row. */
  ghost predicate Kept(d: Data, r: Row) { exists n :: n in d.disk && r in d.disk[n] }

  /**
   * For every row in every state: it is in a file on disk if and only if, of
   * the first archive at or after the row's time that found it committed and
   * of every later one that took the same name, each starts no later than
   * the row and ran before the row was purged.
   */
  lemma KeptIff(branches: set<string>, steps: seq<Step>, r: Row) returns (i: nat)
    requires AllowedRun(branches, INITIAL, steps)
    ensures var d := Run(branches, INITIAL, steps).data;
            var files := FilesOf(d.files, r.branch);
            && FirstKnowing(files, r, i)
            && (Kept(d, r) <==>
                i < |files| && forall j :: i <= j < |files| && SameDates(files[j], files[i]) ==>
                  files[j].since <= r.timestamp && r !in files[j].gone)
  {
    hide Run, AllowedRun, Kept, Contiguous, Filed, SameDates, FirstKnowing;
    Reachable(branches, steps);
    var d := Run(branches, INITIAL, steps).data;
    var files := FilesOf(d.files, r.branch);
    i := FindKnowing(files, r);
    RisingFiles(d, r.branch);
    KeptInNewest(d, r);
    SavedFrom(d, r, i);
    SavedSurvivesIff(files, r, i);
  }

  lemma SavedSurvivesIff(files: seq<File>, r: Row, i: nat)
    requires Rising(files) && i <= |files| && forall j :: 0 <= j < i ==> r !in files[j].saved
    requires forall j :: i <= j < |files| ==>
               (r in files[j].saved <==> files[j].since <= r.timestamp && r !in files[j].gone)
    ensures (exists k: nat :: Newest(files, k) && r in files[k].saved)
            <==> i < |files| && forall j :: i <= j < |files| && SameDates(files[j], files[i]) ==>
                                  files[j].since <= r.timestamp && r !in files[j].gone
  {
    forall k: nat | Newest(files, k) ensures k < |files| {}
    hide Newest, SameDates;
    var has := seq(|files|, j requires 0 <= j < |files| => r in files[j].saved);
    SurvivesIff(files, has, i);
    forall k: nat | Newest(files, k) ensures has[k] <==> r in files[k].saved {}
  }

  lemma RisingFiles(d: Data, b: string)
    requires Contiguous(d)
    ensures Rising(FilesOf(d.files, b))
  {
    if b in d.files { assert EndsAt(d.files[b], d.watermarks[b]); }
  }

  lemma KeptInNewest(d: Data, r: Row)
    requires Filed(d)
    ensures var files := FilesOf(d.files, r.branch);
            Kept(d, r) <==> exists k: nat :: Newest(files, k) && r in files[k].saved
  {
    forall files, k: nat | Newest(files, k) ensures k < |files| {}
    hide Newest;
    var files := FilesOf(d.files, r.branch);
    assert OnDisk(d.disk, files, r.branch);
    if k: nat :| Newest(files, k) && r in files[k].saved {
      assert NameOf(r.branch, files[k].since, files[k].until) in d.disk;
    }
    if n :| n in d.disk && r in d.disk[n] {
      var own := FilesOf(d.files, n.branch);
      assert OnDisk(d.disk, own, n.branch) && Exact(own, n.branch);
      var k: nat :| Newest(own, k) && n == NameOf(n.branch, own[k].since, own[k].until);
      assert r in own[k].saved;
    }
  }

  /**
   * The archives that saved a row are those from the first that knew it, as long as
   * they start in time and before its purge.
   */
  lemma SavedFrom(d: Data, r: Row, i: nat)
    requires Filed(d) && Rising(FilesOf(d.files, r.branch)) && FirstKnowing(FilesOf(d.files, r.branch), r, i)
    ensures var files := FilesOf(d.files, r.branch);
            && (forall j :: 0 <= j < i ==> r !in files[j].saved)
            && forall j :: i <= j < |files| ==>
                 (r in files[j].saved <==> files[j].since <= r.timestamp && r !in files[j].gone)
  {
    var files := FilesOf(d.files, r.branch);
    hide OnDisk;
    assert Exact(files, r.branch);
    forall j | i <= j < |files|
      ensures r in files[j].saved <==> files[j].since <= r.timestamp && r !in files[j].gone
    {
      assert files[i].known <= files[j].known && files[i].until <= files[j].until;
    }
  }

  /**
   * Of the instants the windows cover, a file on disk covers exactly those
   * that every later archive of the first covering one's name covers too.
   */
  lemma CoveredOnDiskIff(branches: set<string>, steps: seq<Step>, b: string, time: int) returns (i: nat)
    requires AllowedRun(branches, INITIAL, steps)
    requires var d := Run(branches, INITIAL, steps).data;
             b in d.watermarks && FilesOf(d.files, b) != [] && FilesOf(d.files, b)[0].since <= time <= d.watermarks[b]
    ensures var files := FilesOf(Run(branches, INITIAL, steps).data.files, b);
            && FirstAtOrAfter(files, time, i)
            && ((exists k: nat :: Newest(files, k) && files[k].since <= time <= files[k].until)
                <==> forall j :: i <= j < |files| && SameDates(files[j], files[i]) ==> files[j].since <= time)
  {
    hide Run, AllowedRun, Filed, Newest, SameDates;
    Reachable(branches, steps);
    var d := Run(branches, INITIAL, steps).data;
    var files := FilesOf(d.files, b);
    assert EndsAt(files, d.watermarks[b]);
    hide Contiguous, GapFree;
    i := FindFirst(files, time);
    CoverSurvivesIff(files, time, i);
  }

  lemma CoverSurvivesIff(files: seq<File>, time: int, i: nat)
    requires Rising(files) && FirstAtOrAfter(files, time, i)
    ensures (exists k: nat :: Newest(files, k) && files[k].since <= time <= files[k].until)
            <==> forall j :: i <= j < |files| && SameDates(files[j], files[i]) ==> files[j].since <= time
  {
    forall k: nat | Newest(files, k) ensures k < |files| {}
    hide Newest, SameDates;
    var has := seq(|files|, j requires 0 <= j < |files| => files[j].since <= time <= files[j].until);
    assert forall j :: i <= j < |files| ==> files[i].until <= files[j].until && (has[j] <==> files[j].since <= time);
    assert forall j, k :: i <= j <= k < |files| && has[k] ==> has[j];
    hide Rising, FirstAtOrAfter;
    SurvivesIff(files, has, i);
    forall k: nat | Newest(files, k) ensures has[k] <==> files[k].since <= time <= files[k].until {}
  }

  /** With a lag limit set, raw events are only ever deleted by a purge that found a fresh enough archive. */
  lemma NoDeleteWhileBehind(branches: set<string>, steps: seq<Step>, victims: set<Row>)
    requires AllowedRun(branches, INITIAL, steps)
    requires Allowed(Run(branches, INITIAL, steps), DeleteSome(victims))
    ensures var s := Run(branches, INITIAL, steps);
            var p := s.pending.value;
            p.lagDays.Some? ==>
              exists b :: b in s.data.watermarks && s.data.watermarks[b] >= p.now - p.lagDays.value * DAY
  {
    Reachable(branches, steps);
  }

  // ---- Rows that vanish -----------------------------------------------------

  /** The row is gone, in no file on disk, and nobody was warned about anything. */
  ghost predicate Vanished(s: State, r: Row) {
    s.warned == {} && r in s.data.purged && r !in s.data.rows && !Kept(s.data, r)
  }

  /** A row whose own time an archive covers, committed only after it, and purged before the next one. */
  lemma LateRowCanVanish(now: int)
    requires now >= 0
    ensures var r := Row(1, now - DAY, "b");
            var steps := [Tick(now), ArchiveStep("b", now), Ingest(r), Tick(now + WEEK),
                          BeginPurge(now + WEEK, 7, None), DeleteSome({r})];
            AllowedRun({"b"}, INITIAL, steps) && Vanished(Run({"b"}, INITIAL, steps), r)
  {
    var r, bs := Row(1, now - DAY, "b"), {"b"};
    var archived := Do(bs, Do(bs, INITIAL, Tick(now)), ArchiveStep("b", now));
    var purging := Do(bs, Do(bs, Do(bs, archived, Ingest(r)), Tick(now + WEEK)), BeginPurge(now + WEEK, 7, None));
    assert purging.warned == {} && r in Older(purging.data.rows, now);
    RunOfSix(bs, Tick(now), ArchiveStep("b", now), Ingest(r), Tick(now + WEEK),
             BeginPurge(now + WEEK, 7, None), DeleteSome({r}));
  }

  /** A row committed in time, but older than the branch's first window. */
  lemma OldRowCanVanish(now: int)
    requires now >= 0
    ensures var r := Row(1, now - 10 * DAY, "b");
            var steps := [Tick(now), Ingest(r), ArchiveStep("b", now), BeginPurge(now, 7, None), DeleteSome({r}),
                EndPurge];
            AllowedRun({"b"}, INITIAL, steps) && Vanished(Run({"b"}, INITIAL, steps), r)
  {
    var r, bs := Row(1, now - 10 * DAY, "b"), {"b"};
    var archived := Do(bs, Do(bs, Do(bs, INITIAL, Tick(now)), Ingest(r)), ArchiveStep("b", now));
    var purging := Do(bs, archived, BeginPurge(now, 7, None));
    assert purging.warned == {} && r in Older(purging.data.rows, now - WEEK);
    RunOfSix(bs, Tick(now), Ingest(r), ArchiveStep("b", now), BeginPurge(now, 7, None), DeleteSome({r}), EndPurge);
  }

  /** A row of a branch that is not configured: never archived, never warned about, purged all the same. */
  lemma UnconfiguredBranchCanVanish(now: int)
    requires now >= 0
    ensures var r := Row(1, now - 2 * DAY, "c");
            var steps := [Tick(now), Ingest(r), ArchiveStep("b", now), BeginPurge(now, 1, None), DeleteSome({r}),
                EndPurge];
            AllowedRun({"b"}, INITIAL, steps) && Vanished(Run({"b"}, INITIAL, steps), r)
  {
    var r, bs := Row(1, now - 2 * DAY, "c"), {"b"};
    var archived := Do(bs, Do(bs, Do(bs, INITIAL, Tick(now)), Ingest(r)), ArchiveStep("b", now));
    var purging := Do(bs, archived, BeginPurge(now, 1, None));
    assert purging.warned == {} && r in Older(purging.data.rows, now - DAY);
    RunOfSix(bs, Tick(now), Ingest(r), ArchiveStep("b", now), BeginPurge(now, 1, None), DeleteSome({r}), EndPurge);
  }

  /**
   * A second archive under the same two dates replaces the first: a row saved
   * an hour after the first window's start is in no file any more.
   */
  lemma OverwrittenRowCanVanish(now: int)
    requires now >= 0 && now % DAY == 0
    ensures var later := now + DAY / 3;
            var r := Row(1, now - WEEK + DAY / 24, "b");
            var steps := [Tick(later), Ingest(r), ArchiveStep("b", now), ArchiveStep("b", later),
                          BeginPurge(later, 7, None), DeleteSome({r})];
            var end := Run({"b"}, INITIAL, steps);
            && AllowedRun({"b"}, INITIAL, steps) && Vanished(end, r)
            && |FilesOf(end.data.files, "b")| == 2 && r in FilesOf(end.data.files, "b")[0].saved
  {
    var bs, later, r := {"b"}, now + DAY / 3, Row(1, now - WEEK + DAY / 24, "b");
    var known := Do(bs, Do(bs, INITIAL, Tick(later)), Ingest(r));
    var first := Do(bs, known, ArchiveStep("b", now));
    var second := Do(bs, first, ArchiveStep("b", later));
    OneDay(now);
    assert NameOf("b", now - WEEK, now) == NameOf("b", later - WEEK, later);
    assert second.data.disk.Keys == {NameOf("b", now - WEEK, now)};
    var purging := Do(bs, second, BeginPurge(later, 7, None));
    assert purging.warned == {} && r in Older(purging.data.rows, later - WEEK);
    RunOfSix(bs, Tick(later), Ingest(r), ArchiveStep("b", now), ArchiveStep("b", later),
             BeginPurge(later, 7, None), DeleteSome({r}));
  }

  lemma OneDay(now: int)
    requires now % DAY == 0
    ensures (now + DAY / 3) / DAY == now / DAY && (now - WEEK + DAY / 3) / DAY == (now - WEEK) / DAY
  {}

  lemma RunOfSix(branches: set<string>, a: Step, b: Step, c: Step, d: Step, e: Step, f: Step)
    ensures var steps := [a, b, c, d, e, f];
            var s1 := Do(branches, INITIAL, a);
            var s2 := Do(branches, s1, b);
            var s3 := Do(branches, s2, c);
            var s4 := Do(branches, s3, d);
            var s5 := Do(branches, s4, e);
            && Run(branches, INITIAL, steps) == Do(branches, s5, f)
            && (AllowedRun(branches, INITIAL, steps) <==>
                  Allowed(INITIAL, a) && Allowed(s1, b) && Allowed(s2, c) && Allowed(s3, d) && Allowed(s4, e)
                      && Allowed(s5, f))
  {
    hide Do, Allowed, Run, AllowedRun;
    var s1 := Do(branches, INITIAL, a);
    var s2 := Do(branches, s1, b);
    var s3 := Do(branches, s2, c);
    var s4 := Do(branches, s3, d);
    var s5 := Do(branches, s4, e);
    RunStep(branches, INITIAL, a, [b, c, d, e, f]);
    RunStep(branches, s1, b, [c, d, e, f]);
    RunStep(branches, s2, c, [d, e, f]);
    RunStep(branches, s3, d, [e, f]);
    RunStep(branches, s4, e, [f]);
    RunStep(branches, s5, f, []);
    RunOfNone(branches, Do(branches, s5, f));
    assert [a] + [b, c, d, e, f] == [a, b, c, d, e, f] && [b] + [c, d, e, f] == [b, c, d, e, f];
    assert [c] + [d, e, f] == [c, d, e, f] && [d] + [e, f] == [d, e, f] && [e] + [f] == [e, f] && [f] + [] == [f];
  }

  lemma RunOfNone(branches: set<string>, s: State)
    ensures Run(branches, s, []) == s && AllowedRun(branches, s, [])
  {}

  lemma RunStep(branches: set<string>, s: State, step: Step, rest: seq<Step>)
    ensures Run(branches, s, [step] + rest) == Run(branches, Do(branches, s, step), rest)
    ensures AllowedRun(branches, s, [step] + rest)
        <==> Allowed(s, step) && AllowedRun(branches, Do(branches, s, step), rest)
  {
    assert ([step] + rest)[1..] == rest;
  }
}
