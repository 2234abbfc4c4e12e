/** The audit log as a hash chain: who writes onto what, and what a verification proves. */
module AuditChain {
  import opened Options
  import PyText

  const SEPARATOR := '\U{1E}'
  const NULL_SENTINEL := "\0"

  /**
   * What the chain takes from its libraries: the hash, and how an id (a
   * version-4 UUID, ordered as its text is) and a time (microseconds) are written.
   */
  datatype Texts = Texts(hash: string -> string, id: nat -> string, time: int -> string)

  /** What an entry records. */
  datatype Facts = Facts(
    action: string,
    branch: Option<string>,
    actorId: string,
    actorEmail: string,
    targetId: Option<string>,
    targetEmail: Option<string>,
    detail: Option<string>)

  datatype Entry = Entry(id: nat, createdAt: int, facts: Facts, prevHash: Option<string>, entryHash: Option<string>)

  function Canonical(value: Option<string>): string {
    match value case None => NULL_SENTINEL case Some(text) => text
  }

  function Fields(m: Texts, prevHash: Option<string>, id: nat, createdAt: int, f: Facts): seq<string> {
    [Canonical(prevHash), m.id(id), m.time(createdAt), f.action, Canonical(f.branch), f.actorId, f.actorEmail,
     Canonical(f.targetId), Canonical(f.targetEmail), Canonical(f.detail)]
  }

  function ComputeEntryHash(m: Texts, prevHash: Option<string>, id: nat, createdAt: int, f: Facts): string {
    m.hash(PyText.Join(Fields(m, prevHash, id, createdAt, f), SEPARATOR))
  }

  function HashOf(m: Texts, e: Entry): string { ComputeEntryHash(m, e.prevHash, e.id, e.createdAt, e.facts) }

  /** ORDER BY created_at, id. */
  predicate Before(a: Entry, b: Entry) { a.createdAt < b.createdAt || (a.createdAt == b.createdAt && a.id < b.id) }

  function Insert(rows: seq<Entry>, e: Entry): seq<Entry> {
    if rows == [] || Before(rows[|rows| - 1], e) then rows + [e]
    else Insert(rows[..|rows| - 1], e) + [rows[|rows| - 1]]
  }

  function InOrder(rows: seq<Entry>): seq<Entry> {
    if rows == [] then [] else Insert(InOrder(rows[..|rows| - 1]), rows[|rows| - 1])
  }

  /** The newest of those rows a transaction can see, given as positions. */
  function Latest(rows: seq<Entry>, seen: set<nat>): Option<Entry> {
    if rows == [] then None
    else
      var n := |rows| - 1;
      var rest := Latest(rows[..n], seen);
      if n in seen && (rest.None? || Before(rest.value, rows[n])) then Some(rows[n]) else rest
  }

  function LatestEntryHash(rows: seq<Entry>, seen: set<nat>): Option<string> {
    var latest := Latest(rows, seen);
    if latest.None? then None else latest.value.entryHash
  }

  /** One audited action: its fresh id, its clock reading, and the rows its transaction can see. */
  datatype Write = Write(id: nat, createdAt: int, facts: Facts, seen: set<nat>)

  function NewEntry(m: Texts, rows: seq<Entry>, w: Write): Entry {
    var prev := LatestEntryHash(rows, w.seen);
    Entry(w.id, w.createdAt, w.facts, prev, Some(ComputeEntryHash(m, prev, w.id, w.createdAt, w.facts)))
  }

  // ---- The chain ------------------------------------------------------------

  /** The hash the entry at `i` must name as its predecessor's. */
  function Expected(rows: seq<Entry>, i: nat): Option<string>
    requires i <= |rows|
  {
    if i == 0 then None else rows[i - 1].entryHash
  }

  predicate Linked(m: Texts, rows: seq<Entry>, i: nat)
    requires i < |rows|
  {
    rows[i].prevHash == Expected(rows, i) && rows[i].entryHash == Some(HashOf(m, rows[i]))
  }

  predicate Chained(m: Texts, rows: seq<Entry>) { forall i :: 0 <= i < |rows| ==> Linked(m, rows, i) }

  datatype Reason = PredecessorDiffers | FieldsAltered

  datatype Broken = Broken(id: nat, position: nat, createdAt: int, reason: Reason)

  datatype Verification = Verification(ok: bool, entriesChecked: nat, brokenAt: Option<Broken>)

  /** A verification is right about `rows`: it names the first entry that fails, and why. */
  ghost predicate Judges(m: Texts, rows: seq<Entry>, v: Verification) {
    && (v.ok <==> Chained(m, rows))
    && (v.ok ==> v == Verification(true, |rows|, None))
    && (!v.ok ==>
          var i := v.entriesChecked;
          && i < |rows| && Chained(m, rows[..i]) && !Linked(m, rows, i)
          && v.brokenAt == Some(Broken(rows[i].id, i, rows[i].createdAt,
                                if rows[i].prevHash != Expected(rows, i) then PredecessorDiffers else FieldsAltered)))
  }

  class AuditLog {
    const texts: Texts
    var rows: seq<Entry>

    constructor (texts: Texts)
      ensures this.texts == texts && rows == []
    {
      this.texts := texts;
      rows := [];
    }

    /** A write later than the newest row, and in sight of it, keeps a verifying log verifying. */
    method Record(w: Write)
      modifies this
      ensures rows == old(rows) + [NewEntry(texts, old(rows), w)]
      ensures Chained(texts, old(rows)) && Ascending(old(rows)) && Continues(old(rows), w)
          ==> Chained(texts, rows) && Ascending(rows)
    {
      if Chained(texts, rows) && Ascending(rows) && Continues(rows, w) { AppendVerifies(texts, rows, w); }
      var prevHash := LatestEntryHash(rows, w.seen);
      var entryHash := ComputeEntryHash(texts, prevHash, w.id, w.createdAt, w.facts);
      rows := rows + [Entry(w.id, w.createdAt, w.facts, prevHash, Some(entryHash))];
    }

    method VerifyChain() returns (v: Verification)
      ensures Judges(texts, InOrder(rows), v)
    {
      var ordered := InOrder(rows);
      var expectedPrev: Option<string> := None;
      for index := 0 to |ordered|
        invariant expectedPrev == Expected(ordered, index)
        invariant forall i :: 0 <= i < index ==> Linked(texts, ordered, i)
      {
        var row := ordered[index];
        assert Chained(texts, ordered[..index]) by {
          forall i | 0 <= i < index ensures Linked(texts, ordered[..index], i) { assert Linked(texts, ordered, i); }
        }
        if row.prevHash != expectedPrev {
          assert !Linked(texts, ordered, index);
          return Verification(false, index, Some(Broken(row.id, index, row.createdAt, PredecessorDiffers)));
        }
        var recomputed := HashOf(texts, row);
        if Some(recomputed) != row.entryHash {
          assert !Linked(texts, ordered, index);
          return Verification(false, index, Some(Broken(row.id, index, row.createdAt, FieldsAltered)));
        }
        expectedPrev := row.entryHash;
      }
      return Verification(true, |ordered|, None);
    }
  }

  // ---- What a hash commits to -----------------------------------------------

  predicate SeparatorFree(s: string) { SEPARATOR !in s }

  /** Neither containing the separator nor mistaken for a missing value. */
  predicate Clean(value: Option<string>) {
    value.Some? ==> SeparatorFree(value.value) && value.value != NULL_SENTINEL
  }

  predicate CleanFacts(f: Facts) {
    && SeparatorFree(f.action) && SeparatorFree(f.actorId) && SeparatorFree(f.actorEmail)
    && Clean(f.branch) && Clean(f.targetId) && Clean(f.targetEmail) && Clean(f.detail)
  }

  /** The hash has no collisions and is written in hex digits; ids and times are written apart. */
  ghost predicate Sound(m: Texts) {
    && (forall a, b :: m.hash(a) == m.hash(b) ==> a == b)
    && (forall a :: Clean(Some(m.hash(a))))
    && (forall i, j :: m.id(i) == m.id(j) ==> i == j) && (forall i :: SeparatorFree(m.id(i)))
    && (forall t, u :: m.time(t) == m.time(u) ==> t == u) && (forall t :: SeparatorFree(m.time(t)))
  }

  /** No text of the entry contains the separator; a value may still be the sentinel. */
  predicate Separable(e: Entry) {
    && SeparatorFree(Canonical(e.prevHash)) && SeparatorFree(e.facts.action) && SeparatorFree(Canonical(e.facts.branch))
    && SeparatorFree(e.facts.actorId) && SeparatorFree(e.facts.actorEmail) && SeparatorFree(Canonical(e.facts.targetId))
    && SeparatorFree(Canonical(e.facts.targetEmail)) && SeparatorFree(Canonical(e.facts.detail))
  }

  /** Equal, or one missing and the other the sentinel. */
  predicate Alike(a: Option<string>, b: Option<string>) {
    a == b || (a == None && b == Some(NULL_SENTINEL)) || (a == Some(NULL_SENTINEL) && b == None)
  }

  predicate AlikeEntries(a: Entry, b: Entry) {
    && a.id == b.id && a.createdAt == b.createdAt && Alike(a.prevHash, b.prevHash)
    && a.facts.action == b.facts.action && Alike(a.facts.branch, b.facts.branch)
    && a.facts.actorId == b.facts.actorId && a.facts.actorEmail == b.facts.actorEmail
    && Alike(a.facts.targetId, b.facts.targetId) && Alike(a.facts.targetEmail, b.facts.targetEmail)
    && Alike(a.facts.detail, b.facts.detail)
  }

  lemma AlikeIff(a: Option<string>, b: Option<string>)
    ensures Canonical(a) == Canonical(b) <==> Alike(a, b)
  {}

  /**
   * What is hashed: the ten fields in this order, apart by U+001E, U+0000 for a
   * missing one; cut at the separators it gives them back.
   */
  lemma HashedFields(m: Texts, e: Entry)
    requires Sound(m) && Separable(e)
    ensures var f := e.facts;
            var fields := [Canonical(e.prevHash), m.id(e.id), m.time(e.createdAt), f.action, Canonical(f.branch),
                           f.actorId, f.actorEmail, Canonical(f.targetId), Canonical(f.targetEmail),
                           Canonical(f.detail)];
            exists payload :: HashOf(m, e) == m.hash(payload) && PyText.Split(payload, '\U{1E}') == fields
    ensures Canonical(None) == "\0" && forall text :: Canonical(Some(text)) == text
  {
    var fields := Fields(m, e.prevHash, e.id, e.createdAt, e.facts);
    FieldsSeparatorFree(m, e);
    PyText.JoinThenSplit(fields, SEPARATOR);
    assert HashOf(m, e) == m.hash(PyText.Join(fields, SEPARATOR));
    hide PyText.Split, PyText.Join;
  }

  /** Between entries without separators, equal hashes mean equal fields, but for a sentinel read as no value. */
  lemma SameHashIff(m: Texts, a: Entry, b: Entry)
    requires Sound(m) && Separable(a) && Separable(b)
    ensures HashOf(m, a) == HashOf(m, b) <==> AlikeEntries(a, b)
  {
    var xs := Fields(m, a.prevHash, a.id, a.createdAt, a.facts);
    var ys := Fields(m, b.prevHash, b.id, b.createdAt, b.facts);
    FieldsAlikeIff(m, a, b);
    if HashOf(m, a) == HashOf(m, b) {
      FieldsSeparatorFree(m, a);
      FieldsSeparatorFree(m, b);
      PyText.JoinThenSplit(xs, SEPARATOR);
      PyText.JoinThenSplit(ys, SEPARATOR);
      assert xs == ys;
    }
    hide PyText.Split, PyText.Join, Alike;
  }

  lemma FieldsSeparatorFree(m: Texts, e: Entry)
    requires Sound(m) && Separable(e)
    ensures forall i :: 0 <= i < 10 ==> SEPARATOR !in Fields(m, e.prevHash, e.id, e.createdAt, e.facts)[i]
  {
    assert SeparatorFree(m.id(e.id)) && SeparatorFree(m.time(e.createdAt));
  }

  lemma FieldsAlikeIff(m: Texts, a: Entry, b: Entry)
    requires Sound(m)
    ensures Fields(m, a.prevHash, a.id, a.createdAt, a.facts) == Fields(m, b.prevHash, b.id, b.createdAt, b.facts)
            <==> AlikeEntries(a, b)
  {
    hide Alike, Canonical;
    var xs := Fields(m, a.prevHash, a.id, a.createdAt, a.facts);
    var ys := Fields(m, b.prevHash, b.id, b.createdAt, b.facts);
    AlikeIff(a.prevHash, b.prevHash);
    AlikeIff(a.facts.branch, b.facts.branch);
    AlikeIff(a.facts.targetId, b.facts.targetId);
    AlikeIff(a.facts.targetEmail, b.facts.targetEmail);
    AlikeIff(a.facts.detail, b.facts.detail);
    if xs == ys {
      assert xs[0] == ys[0] && xs[1] == ys[1] && xs[2] == ys[2] && xs[3] == ys[3] && xs[4] == ys[4];
      assert xs[5] == ys[5] && xs[6] == ys[6] && xs[7] == ys[7] && xs[8] == ys[8] && xs[9] == ys[9];
    }
  }

  /** Equal hashes of clean entries mean equal entries, predecessor's hash included. */
  lemma HashPinsEntry(m: Texts, a: Entry, b: Entry)
    requires Sound(m) && CleanFacts(a.facts) && CleanFacts(b.facts) && Clean(a.prevHash) && Clean(b.prevHash)
    requires HashOf(m, a) == HashOf(m, b)
    ensures a.id == b.id && a.createdAt == b.createdAt && a.facts == b.facts && a.prevHash == b.prevHash
  {
    SameHashIff(m, a, b);
    hide HashOf;
  }

  /** The newest hash of a verifying chain fixes the chain: its length and every field of every entry. */
  lemma {:induction false} HeadPinsHistory(m: Texts, xs: seq<Entry>, ys: seq<Entry>)
    requires Sound(m) && Chained(m, xs) && Chained(m, ys)
    requires forall e :: e in xs || e in ys ==> CleanFacts(e.facts)
    requires Expected(xs, |xs|) == Expected(ys, |ys|)
    ensures xs == ys
    decreases |xs|
  {
    if xs == [] || ys == [] {
      HeadExists(m, xs);
      HeadExists(m, ys);
    } else {
      var i, j := |xs| - 1, |ys| - 1;
      assert Linked(m, xs, i) && Linked(m, ys, j);
      PrefixVerifies(m, xs, i);
      PrefixVerifies(m, ys, j);
      ExpectedClean(m, xs, i);
      ExpectedClean(m, ys, j);
      HashPinsEntry(m, xs[i], ys[j]);
      hide HashOf;
      HeadPinsHistory(m, xs[..i], ys[..j]);
      assert xs == xs[..i] + [xs[i]] && ys == ys[..j] + [ys[j]];
    }
  }

  lemma HeadExists(m: Texts, rows: seq<Entry>)
    requires Chained(m, rows)
    ensures rows != [] ==> Expected(rows, |rows|).Some?
  {
    if rows != [] { assert Linked(m, rows, |rows| - 1); }
  }

  lemma ExpectedClean(m: Texts, rows: seq<Entry>, i: nat)
    requires Sound(m) && Chained(m, rows) && i <= |rows|
    ensures Clean(Expected(rows, i))
  {
    if i > 0 { assert Linked(m, rows, i - 1); }
  }

  lemma PrefixVerifies(m: Texts, rows: seq<Entry>, n: nat)
    requires Chained(m, rows) && n <= |rows|
    ensures Chained(m, rows[..n]) && Expected(rows[..n], n) == Expected(rows, n)
  {
    forall i | 0 <= i < n ensures Linked(m, rows[..n], i) { assert Linked(m, rows, i); }
  }

  /** No entry can be re-used: a hash occurs at one position only, and there after one history only. */
  lemma HashOccursOnce(m: Texts, xs: seq<Entry>, ys: seq<Entry>, i: nat, j: nat)
    requires Sound(m) && Chained(m, xs) && Chained(m, ys) && i < |xs| && j < |ys|
    requires forall e :: e in xs || e in ys ==> CleanFacts(e.facts)
    requires xs[i].entryHash == ys[j].entryHash
    ensures i == j && xs[..i + 1] == ys[..j + 1]
  {
    PrefixVerifies(m, xs, i + 1);
    PrefixVerifies(m, ys, j + 1);
    assert forall e :: e in xs[..i + 1] ==> e in xs;
    assert forall e :: e in ys[..j + 1] ==> e in ys;
    HeadPinsHistory(m, xs[..i + 1], ys[..j + 1]);
  }

  lemma {:induction false} JoinAbsorbs(front: seq<string>, p: string, q: string, back: seq<string>)
    ensures PyText.Join(front + [p + [SEPARATOR] + q] + back, SEPARATOR)
        == PyText.Join(front + [p, q] + back, SEPARATOR)
  {
    var xs, ys := front + [p + [SEPARATOR] + q] + back, front + [p, q] + back;
    if front == [] {
      assert xs[1..] == back && ys[1..] == [q] + back && ([q] + back)[1..] == back;
    } else {
      JoinAbsorbs(front[1..], p, q, back);
      assert xs[1..] == front[1..] + [p + [SEPARATOR] + q] + back && ys[1..] == front[1..] + [p, q] + back;
    }
  }

  /** Why no field may contain the separator: it would move text between fields. */
  lemma SeparatorMovesText(m: Texts, id: nat, at: int, action: string, x: string, y: string, z: string, email: string)
    ensures var f := Facts(action, Some(x + [SEPARATOR] + y), z, email, None, None, None);
            var g := Facts(action, Some(x), y, z + [SEPARATOR] + email, None, None, None);
            f != g && ComputeEntryHash(m, None, id, at, f) == ComputeEntryHash(m, None, id, at, g)
  {
    var f := Facts(action, Some(x + [SEPARATOR] + y), z, email, None, None, None);
    var g := Facts(action, Some(x), y, z + [SEPARATOR] + email, None, None, None);
    assert f.branch != g.branch by { assert |x + [SEPARATOR] + y| != |x|; }
    var n := NULL_SENTINEL;
    var front := [n, m.id(id), m.time(at), action];
    hide PyText.Join;
    assert Fields(m, None, id, at, f) == front + [x + [SEPARATOR] + y] + [z, email, n, n, n];
    JoinAbsorbs(front, x, y, [z, email, n, n, n]);
    assert front + [x, y] + [z, email, n, n, n] == (front + [x, y]) + [z, email] + [n, n, n];
    JoinAbsorbs(front + [x, y], z, email, [n, n, n]);
    assert Fields(m, None, id, at, g) == ((front + [x, y]) + [z + [SEPARATOR] + email]) + [n, n, n];
  }

  // ---- Writing --------------------------------------------------------------

  /** The table after writes that commit in this order, from empty. */
  function Written(m: Texts, ws: seq<Write>): seq<Entry> {
    if ws == [] then []
    else
      var rows := Written(m, ws[..|ws| - 1]);
      rows + [NewEntry(m, rows, ws[|ws| - 1])]
  }

  ghost predicate DistinctIds(ws: seq<Write>) { forall i, j :: 0 <= i < j < |ws| ==> ws[i].id != ws[j].id }

  /** Every write comes later in time than the one before it, and sees it. */
  ghost predicate Serial(ws: seq<Write>) { forall k :: 0 < k < |ws| ==> Follows(ws, k) }

  predicate Follows(ws: seq<Write>, k: int)
    requires 0 < k < |ws|
  {
    var p, w := ws[k - 1], ws[k];
    && k - 1 in w.seen
    && (p.createdAt < w.createdAt || (p.createdAt == w.createdAt && p.id < w.id))
  }

  ghost predicate Ascending(rows: seq<Entry>) { forall i, j :: 0 <= i < j < |rows| ==> Before(rows[i], rows[j]) }

  lemma {:induction false} WrittenAt(m: Texts, ws: seq<Write>, k: nat)
    requires k < |ws|
    ensures |Written(m, ws)| == |ws| && Written(m, ws)[..k] == Written(m, ws[..k])
    ensures Written(m, ws)[k] == NewEntry(m, Written(m, ws)[..k], ws[k])
    decreases |ws|
  {
    var n := |ws| - 1;
    WrittenLength(m, ws[..n]);
    if k < n {
      WrittenAt(m, ws[..n], k);
      assert ws[..n][..k] == ws[..k];
      assert Written(m, ws)[..k] == Written(m, ws[..n])[..k];
    } else {
      assert Written(m, ws)[..k] == Written(m, ws[..n]);
    }
  }

  lemma {:induction false} WrittenLength(m: Texts, ws: seq<Write>)
    ensures |Written(m, ws)| == |ws|
  {
    if ws != [] { WrittenLength(m, ws[..|ws| - 1]); }
  }

  lemma {:induction false} LatestAmong(rows: seq<Entry>, seen: set<nat>)
    ensures Latest(rows, seen).Some? ==> exists j: nat | j < |rows| :: j in seen && rows[j] == Latest(rows, seen).value
  {
    if rows != [] {
      var n := |rows| - 1;
      LatestAmong(rows[..n], seen);
      if Latest(rows[..n], seen).Some? {
        var j: nat :| j < n && j in seen && rows[..n][j] == Latest(rows[..n], seen).value;
        assert rows[j] == rows[..n][j];
      }
    }
  }

  lemma LatestIsLast(rows: seq<Entry>, seen: set<nat>)
    requires Ascending(rows) && rows != [] && |rows| - 1 in seen
    ensures Latest(rows, seen) == Some(rows[|rows| - 1])
  {
    LatestAmong(rows[..|rows| - 1], seen);
  }

  /** The write is later in (created_at, id) than the last row, which its transaction can see. */
  predicate Continues(rows: seq<Entry>, w: Write) {
    rows == [] ||
    var last := rows[|rows| - 1];
    |rows| - 1 in w.seen && (last.createdAt < w.createdAt || (last.createdAt == w.createdAt && last.id < w.id))
  }

  /** A row chained onto the end of an ascending verifying table keeps it so. */
  lemma AppendVerifies(m: Texts, rows: seq<Entry>, w: Write)
    requires Chained(m, rows) && Ascending(rows)
    requires Continues(rows, w)
    ensures Chained(m, rows + [NewEntry(m, rows, w)]) && Ascending(rows + [NewEntry(m, rows, w)])
  {
    if rows != [] { LatestIsLast(rows, w.seen); }
    var e := NewEntry(m, rows, w);
    assert e.prevHash == Expected(rows, |rows|);
    hide Latest, LatestEntryHash, ComputeEntryHash;
    forall i | 0 <= i < |rows| + 1 ensures Linked(m, rows + [e], i) {
      if i < |rows| { assert Linked(m, rows, i); }
    }
  }

  lemma SerialPrefix(ws: seq<Write>, n: nat)
    requires Serial(ws) && n <= |ws|
    ensures Serial(ws[..n])
  {
    forall k | 0 < k < n ensures Follows(ws[..n], k) { assert Follows(ws, k); }
  }

  lemma WriteFollows(m: Texts, ws: seq<Write>)
    requires Serial(ws) && |ws| > 1
    ensures var n := |ws| - 1;
            var rows := Written(m, ws[..n]);
            |rows| == n && n - 1 in ws[n].seen && Before(rows[n - 1], NewEntry(m, rows, ws[n]))
  {
    var n := |ws| - 1;
    WrittenAt(m, ws[..n], n - 1);
    assert Follows(ws, n);
  }

  /** Serial writes verify: the log never convicts writers that take turns. */
  lemma {:induction false} SerialVerifies(m: Texts, ws: seq<Write>)
    requires Serial(ws)
    ensures Chained(m, Written(m, ws)) && InOrder(Written(m, ws)) == Written(m, ws) && Ascending(Written(m, ws))
  {
    if ws != [] {
      var n := |ws| - 1;
      var rows := Written(m, ws[..n]);
      SerialPrefix(ws, n);
      SerialVerifies(m, ws[..n]);
      if n > 0 { WriteFollows(m, ws); }
      AppendVerifies(m, rows, ws[n]);
      hide Chained, Ascending, NewEntry, Serial, Before;
      assert (rows + [NewEntry(m, rows, ws[n])])[..n] == rows;
    }
  }

  // ---- A verifying log was written serially ---------------------------------

  /** Whatever the other fields hold, a hash tells the id. */
  lemma HashTellsId(m: Texts, a: Entry, b: Entry)
    requires Sound(m) && Clean(a.prevHash) && Clean(b.prevHash) && HashOf(m, a) == HashOf(m, b)
    ensures a.id == b.id
  {
    PayloadTellsId(m, a);
    PayloadTellsId(m, b);
  }

  lemma PayloadTellsId(m: Texts, e: Entry)
    requires Sound(m) && Clean(e.prevHash)
    ensures var parts := PyText.Split(PyText.Join(Fields(m, e.prevHash, e.id, e.createdAt, e.facts), SEPARATOR),
        SEPARATOR);
            |parts| > 1 && parts[1] == m.id(e.id)
  {
    var fs := Fields(m, e.prevHash, e.id, e.createdAt, e.facts);
    PyText.SplitFirst(fs[0], PyText.Join(fs[1..], SEPARATOR), SEPARATOR);
    PyText.SplitFirst(fs[1], PyText.Join(fs[1..][1..], SEPARATOR), SEPARATOR);
    assert PyText.Join(fs, SEPARATOR) == fs[0] + [SEPARATOR] + PyText.Join(fs[1..], SEPARATOR);
    assert PyText.Join(fs[1..], SEPARATOR) == fs[1] + [SEPARATOR] + PyText.Join(fs[1..][1..], SEPARATOR);
  }

  ghost predicate UniqueIds(rows: seq<Entry>) { forall i, j :: 0 <= i < j < |rows| ==> rows[i].id != rows[j].id }

  lemma AscendingNext(rows: seq<Entry>, e: Entry)
    requires Ascending(rows) && forall x :: x in rows ==> Before(x, e)
    ensures Ascending(rows + [e])
  {}

  lemma {:induction false} InsertKeeps(rows: seq<Entry>, e: Entry)
    requires Ascending(rows) && forall i :: 0 <= i < |rows| ==> rows[i].id != e.id
    ensures Ascending(Insert(rows, e)) && multiset(Insert(rows, e)) == multiset(rows) + multiset{e}
  {
    if rows == [] || Before(rows[|rows| - 1], e) {
    } else {
      var n := |rows| - 1;
      InsertKeeps(rows[..n], e);
      var more := Insert(rows[..n], e);
      forall x | x in more ensures Before(x, rows[n]) {
        assert x in multiset(rows[..n]) + multiset{e};
        if x != e { assert x in rows[..n]; }
      }
      AscendingNext(more, rows[n]);
      assert rows == rows[..n] + [rows[n]];
      hide Insert, Ascending, Before;
      assert Insert(rows, e) == more + [rows[n]];
    }
  }

  lemma {:induction false} InOrderSorts(rows: seq<Entry>)
    requires UniqueIds(rows)
    ensures Ascending(InOrder(rows)) && multiset(InOrder(rows)) == multiset(rows)
  {
    if rows != [] {
      var n := |rows| - 1;
      InOrderSorts(rows[..n]);
      assert rows == rows[..n] + [rows[n]];
      forall i | 0 <= i < |InOrder(rows[..n])| ensures InOrder(rows[..n])[i].id != rows[n].id {
        assert InOrder(rows[..n])[i] in multiset(InOrder(rows[..n]));
      }
      InsertKeeps(InOrder(rows[..n]), rows[n]);
    }
  }

  lemma WrittenRow(m: Texts, ws: seq<Write>, k: nat)
    requires Sound(m) && k < |ws|
    ensures |Written(m, ws)| == |ws|
    ensures var e := Written(m, ws)[k];
            && e.id == ws[k].id && e.createdAt == ws[k].createdAt && e.entryHash == Some(HashOf(m, e))
                && Clean(e.prevHash)
            && e.prevHash == LatestEntryHash(Written(m, ws)[..k], ws[k].seen)
    decreases k
  {
    WrittenAt(m, ws, k);
    LatestAmong(Written(m, ws)[..k], ws[k].seen);
    hide Latest;
    if Latest(Written(m, ws)[..k], ws[k].seen).Some? {
      var j: nat :| j < k && Written(m, ws)[..k][j] == Latest(Written(m, ws)[..k], ws[k].seen).value;
      WrittenRow(m, ws, j);
      hide Written, ComputeEntryHash;
    }
  }

  lemma UniqueRows(m: Texts, ws: seq<Write>)
    requires Sound(m) && DistinctIds(ws)
    ensures |Written(m, ws)| == |ws| && UniqueIds(Written(m, ws))
  {
    WrittenLength(m, ws);
    forall i, j | 0 <= i < j < |ws| ensures Written(m, ws)[i].id != Written(m, ws)[j].id {
      WrittenRow(m, ws, i);
      WrittenRow(m, ws, j);
    }
  }

  /**
   * If the sorted table starts with the first `k` rows written and verifies, write
   * `k` came next and saw the one before.
   */
  lemma VerifiesStep(m: Texts, ws: seq<Write>, sorted: seq<Entry>, k: nat)
    requires Sound(m) && k < |ws| && |Written(m, ws)| == |ws| == |sorted| && UniqueIds(Written(m, ws))
    requires Chained(m, sorted) && Ascending(sorted) && multiset(sorted) == multiset(Written(m, ws))
    requires sorted[..k] == Written(m, ws)[..k]
    ensures sorted[k] == Written(m, ws)[k]
    ensures k > 0 ==> Follows(ws, k)
  {
    var rows := Written(m, ws);
    hide Written, HashOf, Follows;
    assert rows[k] in multiset(sorted);
    var i :| 0 <= i < |sorted| && sorted[i] == rows[k];
    assert forall q :: 0 <= q < k ==> rows[q] == rows[..k][q] == sorted[..k][q] == sorted[q];
    if i > 0 {
      Predecessor(m, ws, sorted, k, i);
      ComesAfter(m, ws, k);
    }
  }

  lemma ComesAfter(m: Texts, ws: seq<Write>, k: nat)
    requires Sound(m) && 0 < k < |ws| && |Written(m, ws)| == |ws| && k - 1 in ws[k].seen
    requires Before(Written(m, ws)[k - 1], Written(m, ws)[k])
    ensures Follows(ws, k)
  {
    WrittenRow(m, ws, k - 1);
    WrittenRow(m, ws, k);
  }

  lemma Predecessor(m: Texts, ws: seq<Write>, sorted: seq<Entry>, k: nat, i: nat)
    requires Sound(m) && k < |ws| && |Written(m, ws)| == |ws| == |sorted| && UniqueIds(Written(m, ws))
    requires Chained(m, sorted) && Ascending(sorted) && multiset(sorted) == multiset(Written(m, ws))
    requires sorted[..k] == Written(m, ws)[..k] && 0 < i < |sorted| && k <= i && sorted[i] == Written(m, ws)[k]
    ensures i == k && k - 1 in ws[k].seen
  {
    var rows := Written(m, ws);
    assert Linked(m, sorted, i) && Linked(m, sorted, i - 1);
    hide HashOf, Chained, ComputeEntryHash, Before, Written, Sound, Ascending, UniqueIds;
    WrittenRow(m, ws, k);
    LatestAmong(rows[..k], ws[k].seen);
    hide Latest;
    var j: nat :| j < k && j in ws[k].seen && rows[..k][j] == Latest(rows[..k], ws[k].seen).value;
    assert rows[j] == sorted[..k][j] == sorted[j];
    assert sorted[i - 1] in multiset(rows);
    var p: nat :| p < |rows| && rows[p] == sorted[i - 1];
    SameHashSameRow(m, ws, j, p);
    assert i - 1 == j;
  }

  lemma SameHashSameRow(m: Texts, ws: seq<Write>, j: nat, p: nat)
    requires Sound(m) && |Written(m, ws)| == |ws| && UniqueIds(Written(m, ws)) && j < |ws| && p < |ws|
    requires Written(m, ws)[j].entryHash == Written(m, ws)[p].entryHash
    ensures j == p
  {
    WrittenRow(m, ws, j);
    WrittenRow(m, ws, p);
    hide Written, HashOf;
    HashTellsId(m, Written(m, ws)[j], Written(m, ws)[p]);
  }

  lemma {:induction false} VerifiesPrefix(m: Texts, ws: seq<Write>, sorted: seq<Entry>, k: nat)
    requires Sound(m) && k <= |ws| && |Written(m, ws)| == |ws| == |sorted| && UniqueIds(Written(m, ws))
    requires Chained(m, sorted) && Ascending(sorted) && multiset(sorted) == multiset(Written(m, ws))
    ensures sorted[..k] == Written(m, ws)[..k] && forall i :: 0 < i < k ==> Follows(ws, i)
  {
    if k > 0 {
      VerifiesPrefix(m, ws, sorted, k - 1);
      VerifiesStep(m, ws, sorted, k - 1);
      hide Written, Chained, Ascending, Follows;
      assert sorted[..k] == sorted[..k - 1] + [sorted[k - 1]];
      assert Written(m, ws)[..k] == Written(m, ws)[..k - 1] + [Written(m, ws)[k - 1]];
    }
  }

  /**
   * The log verifies exactly when its writers took turns: each entry later in
   * (created_at, id) than the one committed before it, and written in sight of it.
   */
  lemma VerifiesIffSerial(m: Texts, ws: seq<Write>)
    requires Sound(m) && DistinctIds(ws)
    ensures Chained(m, InOrder(Written(m, ws))) <==> Serial(ws)
  {
    var rows := Written(m, ws);
    UniqueRows(m, ws);
    InOrderSorts(rows);
    if Serial(ws) {
      SerialVerifies(m, ws);
    }
    if Chained(m, InOrder(rows)) {
      assert |InOrder(rows)| == |multiset(InOrder(rows))| == |multiset(rows)| == |rows|;
      VerifiesPrefix(m, ws, InOrder(rows), |ws|);
    }
  }
}
