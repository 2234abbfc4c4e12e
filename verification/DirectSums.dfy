/** Every column of every table, as a plain sum over the committed events and their own fields. */
module DirectSums {
  import opened Options
  import opened Events
  import opened Sequences
  import opened Tables
  import opened Aggregates
  import LogParser
  import PyText

  // ---- What an event is worth -----------------------------------------------

  function Each(e: ParsedEvent): int { 1 }

  function Refused(e: ParsedEvent): int { if e.blocked then 1 else 0 }

  function Passed(e: ParsedEvent): int { if e.blocked then 0 else 1 }

  function Bytes(e: ParsedEvent): int { e.reply }

  function Upload(e: ParsedEvent): int { match e.received case Some(n) => n case None => 0 }

  function PassedBytes(e: ParsedEvent): int { if e.blocked then 0 else e.reply }

  function PassedUpload(e: ParsedEvent): int { if e.blocked then 0 else Upload(e) }

  function RefusedBytes(e: ParsedEvent): int { if e.blocked then e.reply else 0 }

  function RefusedUpload(e: ParsedEvent): int { if e.blocked then Upload(e) else 0 }

  function Challenged(e: ParsedEvent): int { if e.statusCode == 407 then 1 else 0 }

  function Denied(e: ParsedEvent): int { if e.statusCode == 407 then 0 else 1 }

  function Duration(e: ParsedEvent): int { if e.durationMs < 0 then 0 else e.durationMs }

  /** Requests that took at least `from` and less than `to` milliseconds. */
  function Took(from: nat, to: nat): ParsedEvent -> int {
    (e: ParsedEvent) => if from <= e.durationMs < to then 1 else 0
  }

  function TookLong(e: ParsedEvent): int { if e.durationMs >= 10000 then 1 else 0 }

  /** The tag spells `word`, which is in capitals, in any mix of cases. */
  ghost predicate Says(tag: string, word: string) { exists i :: SaysAt(tag, word, i) }

  predicate SaysAt(tag: string, word: string, i: int) {
    0 <= i <= |tag| - |word| && forall j :: 0 <= j < |word| ==> Matches(tag[i + j], word[j])
  }

  /** The capital, or its small letter. */
  predicate Matches(c: char, capital: char) {
    c == capital || ('A' <= capital <= 'Z' && c as int == capital as int + 32)
  }

  ghost predicate SaysHit(tag: string) { Says(tag, "HIT") || Says(tag, "REFRESH_UNMODIFIED") }

  ghost predicate SaysMiss(tag: string) { Says(tag, "MISS") || Says(tag, "REFRESH_MODIFIED") }

  ghost function Hit(e: ParsedEvent): int { if SaysHit(e.action) then 1 else 0 }

  ghost function Miss(e: ParsedEvent): int { if !SaysHit(e.action) && SaysMiss(e.action) then 1 else 0 }

  // ---- Which row an event is counted in -------------------------------------

  function Text(value: Option<string>): string { match value case Some(text) => text case None => "" }

  function Named(text: string): string { if text == "" then "NONE" else text }

  predicate HasName(e: ParsedEvent) { Text(e.domain) != "" }

  function AtMinute(k: MinuteKey): ParsedEvent -> bool {
    (e: ParsedEvent) => k == MinuteKey(MinuteOf(e.timestamp), e.branch)
  }

  function AtDomain(k: DomainKey): ParsedEvent -> bool {
    (e: ParsedEvent) => HasName(e) && k == DomainKey(MinuteOf(e.timestamp), Text(e.domain), e.branch)
  }

  function AtClient(k: ClientKey): ParsedEvent -> bool {
    (e: ParsedEvent) => k == ClientKey(MinuteOf(e.timestamp), e.clientIp, e.branch, e.user)
  }

  predicate InCategory(category: string -> string, k: CategoryKey, e: ParsedEvent) {
    HasName(e) && k == CategoryKey(MinuteOf(e.timestamp), e.clientIp, e.branch, category(Text(e.domain)))
  }

  function AtOneCategory(category: string -> string, k: CategoryKey): ParsedEvent -> bool {
    (e: ParsedEvent) => InCategory(category, k, e)
  }

  function AtCategory(category: string -> string): CategoryKey -> ParsedEvent -> bool {
    (k: CategoryKey) => AtOneCategory(category, k)
  }

  function AtCode(k: CodeKey): ParsedEvent -> bool {
    (e: ParsedEvent) => k == CodeKey(MinuteOf(e.timestamp), e.branch, Named(e.action))
  }

  function AtHttp(k: HttpKey): ParsedEvent -> bool {
    (e: ParsedEvent) => k == HttpKey(MinuteOf(e.timestamp), e.branch, Named(e.verb), e.statusCode)
  }

  function AtHierarchy(k: HierarchyKey): ParsedEvent -> bool {
    (e: ParsedEvent) => k == HierarchyKey(MinuteOf(e.timestamp), e.branch, HierarchyCode(e.hierarchy))
  }

  predicate InUserCategory(category: string -> string, k: UserCategoryKey, e: ParsedEvent) {
    HasName(e) && k == UserCategoryKey(MinuteOf(e.timestamp), e.branch, Text(e.user), category(Text(e.domain)))
  }

  function AtOneUserCategory(category: string -> string, k: UserCategoryKey): ParsedEvent -> bool {
    (e: ParsedEvent) => InUserCategory(category, k, e)
  }

  function AtUserCategory(category: string -> string): UserCategoryKey -> ParsedEvent -> bool {
    (k: UserCategoryKey) => AtOneUserCategory(category, k)
  }

  function AtBlockedDomain(k: BlockedDomainKey): ParsedEvent -> bool {
    (e: ParsedEvent) =>
      HasName(e) && e.blocked && k == BlockedDomainKey(HourOf(e.timestamp), e.branch, Text(e.proxy), Text(e.domain))
  }

  function AtBlockedClient(k: BlockedClientKey): ParsedEvent -> bool {
    (e: ParsedEvent) =>
      HasName(e) && e.blocked && k == BlockedClientKey(
        HourOf(e.timestamp), e.branch, Text(e.proxy), Text(e.domain), e.clientIp, Text(e.user))
  }

  // ---- Sums -----------------------------------------------------------------

  /** What the events that satisfy `p` are worth together. */
  ghost function SumWhere(events: seq<ParsedEvent>, p: ParsedEvent -> bool, worth: ParsedEvent -> int): int {
    if events == [] then 0
    else
      var last := events[|events| - 1];
      SumWhere(events[..|events| - 1], p, worth) + if p(last) then worth(last) else 0
  }

  lemma SumWhereNext(events: seq<ParsedEvent>, e: ParsedEvent, p: ParsedEvent -> bool, worth: ParsedEvent -> int)
    ensures SumWhere(events + [e], p, worth) == SumWhere(events, p, worth) + if p(e) then worth(e) else 0
  {
    assert (events + [e])[..|events|] == events;
  }

  /** `row` says what the row under `k` holds after these events. */
  ghost predicate Accumulates<K, V(!new)>(key: ParsedEvent -> Option<K>, val: ParsedEvent -> V, plus: (V, V) -> V, k: K,
      row: seq<ParsedEvent> -> V)
  {
    && (forall v :: plus(row([]), v) == v)
    && forall events, e :: row(events + [e]) == if key(e) == Some(k) then plus(row(events), val(e)) else row(events)
  }

  lemma {:induction false} RowIs<K, V(!new)>(events: seq<ParsedEvent>, key: ParsedEvent -> Option<K>,
      val: ParsedEvent -> V, plus: (V, V) -> V, k: K, row: seq<ParsedEvent> -> V)
    requires Accumulates(key, val, plus, k, row)
    ensures var t := GroupBy(events, key, val, plus); row(events) == if k in t then t[k] else row([])
  {
    if events != [] {
      var front, last := events[..|events| - 1], events[|events| - 1];
      RowIs(front, key, val, plus, k, row);
      assert events == front + [last];
    }
  }

  // ---- The rows -------------------------------------------------------------

  ghost function DurationsAt(p: ParsedEvent -> bool, events: seq<ParsedEvent>): Histogram {
    Histogram(SumWhere(events, p, Duration), SumWhere(events, p, Took(0, 100)), SumWhere(events, p, Took(100, 300)),
              SumWhere(events, p, Took(300, 1000)), SumWhere(events, p, Took(1000, 3000)),
              SumWhere(events, p, Took(3000, 10000)), SumWhere(events, p, TookLong))
  }

  ghost function MinuteRow(p: ParsedEvent -> bool): seq<ParsedEvent> -> MinuteTotals {
    (events: seq<ParsedEvent>) =>
      MinuteTotals(SumWhere(events, p, Each), SumWhere(events, p, Refused), SumWhere(events, p, Passed),
                   SumWhere(events, p, Bytes), SumWhere(events, p, Upload), SumWhere(events, p, PassedBytes),
                   SumWhere(events, p, PassedUpload), SumWhere(events, p, Hit), SumWhere(events, p, Miss),
                   DurationsAt(p, events))
  }

  ghost function DomainRow(p: ParsedEvent -> bool): seq<ParsedEvent> -> DomainTotals {
    (events: seq<ParsedEvent>) =>
      DomainTotals(SumWhere(events, p, Each), SumWhere(events, p, Refused), SumWhere(events, p, PassedBytes),
                   SumWhere(events, p, PassedUpload))
  }

  ghost function ClientRowSums(p: ParsedEvent -> bool): seq<ParsedEvent> -> ClientSums {
    (events: seq<ParsedEvent>) =>
      ClientSums(SumWhere(events, p, Each), SumWhere(events, p, Refused), SumWhere(events, p, PassedBytes),
                 SumWhere(events, p, PassedUpload), SumWhere(events, p, RefusedBytes),
                     SumWhere(events, p, RefusedUpload))
  }

  ghost function AllBytesRow(p: ParsedEvent -> bool): seq<ParsedEvent> -> CountBytes {
    (events: seq<ParsedEvent>) => CountBytes(SumWhere(events, p, Each), SumWhere(events, p, Bytes))
  }

  ghost function PassedBytesRow(p: ParsedEvent -> bool): seq<ParsedEvent> -> CountBytes {
    (events: seq<ParsedEvent>) => CountBytes(SumWhere(events, p, Each), SumWhere(events, p, PassedBytes))
  }

  ghost function BlockRow(p: ParsedEvent -> bool): seq<ParsedEvent> -> BlockCounts {
    (events: seq<ParsedEvent>) => BlockCounts(SumWhere(events, p, Denied), SumWhere(events, p, Challenged))
  }

  /** The table has a row exactly where some event falls, and each row holds what its events are worth. */
  ghost predicate Holds<K(!new), V>(t: map<K, V>, events: seq<ParsedEvent>, at: K -> ParsedEvent -> bool,
      row: (ParsedEvent -> bool) -> seq<ParsedEvent> -> V)
  {
    && (forall k :: k in t <==> exists e :: e in events && at(k)(e))
    && forall k :: k in t ==> t[k] == row(at(k))(events)
  }

  lemma GroupsHold<K(!new), V(!new)>(events: seq<ParsedEvent>, key: ParsedEvent -> Option<K>, val: ParsedEvent -> V,
      plus: (V, V) -> V, at: K -> ParsedEvent -> bool, row: (ParsedEvent -> bool) -> seq<ParsedEvent> -> V)
    requires forall k, e :: at(k)(e) <==> key(e) == Some(k)
    requires forall k :: Accumulates(key, val, plus, k, row(at(k)))
    ensures Holds(GroupBy(events, key, val, plus), events, at, row)
  {
    var t := GroupBy(events, key, val, plus);
    forall k
      ensures k in t <==> exists e :: e in events && at(k)(e)
      ensures k in t ==> t[k] == row(at(k))(events)
    {
      GroupKeys(events, key, val, plus, k);
      if k in t {
        var e :| e in events && key(e) == Some(k);
        assert at(k)(e);
        RowIs(events, key, val, plus, k, row(at(k)));
      }
    }
  }

  lemma EachNext()
    ensures forall events, e, p, worth ::
              SumWhere(events + [e], p, worth) == SumWhere(events, p, worth) + if p(e) then worth(e) else 0
  {
    forall events, e, p, worth
      ensures SumWhere(events + [e], p, worth) == SumWhere(events, p, worth) + if p(e) then worth(e) else 0
    {
      SumWhereNext(events, e, p, worth);
    }
  }

  // ---- Tags -----------------------------------------------------------------

  ghost predicate Capitals(word: string) { forall j :: 0 <= j < |word| ==> 'A' <= word[j] <= 'Z' || word[j] == '_' }

  lemma SpellsIff(tag: string, word: string)
    requires Capitals(word)
    ensures PyText.Contains(Upper(tag), word) <==> Says(tag, word)
  {
    forall i ensures PyText.OccursAt(Upper(tag), word, i) <==> SaysAt(tag, word, i) {
      if 0 <= i <= |tag| - |word| {
        var piece := Upper(tag)[i..i + |word|];
        assert forall j :: 0 <= j < |word| ==> piece[j] == PyText.UpperChar(tag[i + j]);
        if SaysAt(tag, word, i) { assert piece == word; }
      }
    }
  }

  lemma TagsRead(action: string)
    ensures IsCacheHit(action) <==> SaysHit(action)
    ensures IsCacheMiss(action) <==> SaysMiss(action)
  {
    hide PyText.Contains, Says, Upper;
    SpellsIff(action, "HIT");
    SpellsIff(action, "REFRESH_UNMODIFIED");
    SpellsIff(action, "MISS");
    SpellsIff(action, "REFRESH_MODIFIED");
  }

  lemma SaysEnd(front: string, word: string)
    ensures Says(front + word, word)
  {
    assert SaysAt(front + word, word, |front|);
  }

  /** Wherever the word would start, its first or its second letter is not there. */
  lemma LacksStart(tag: string, word: string)
    requires |word| >= 2
    requires forall i :: 0 <= i <= |tag| - |word| ==> !Matches(tag[i], word[0]) || !Matches(tag[i + 1], word[1])
    ensures !Says(tag, word)
  {
    forall i | 0 <= i <= |tag| - |word| ensures !SaysAt(tag, word, i) {
      assert !Matches(tag[i + 0], word[0]) || !Matches(tag[i + 1], word[1]);
    }
  }

  /** Squid's own tags, spelled in capitals: the hits ... */
  lemma HitTags()
    ensures SaysHit("TCP_HIT") && SaysHit("TCP_MEM_HIT") && SaysHit("TCP_REFRESH_UNMODIFIED")
  {
    hide Says;
    assert "TCP_HIT" == "TCP_" + "HIT" && "TCP_MEM_HIT" == "TCP_MEM_" + "HIT";
    assert "TCP_REFRESH_UNMODIFIED" == "TCP_" + "REFRESH_UNMODIFIED";
    SaysEnd("TCP_", "HIT");
    SaysEnd("TCP_MEM_", "HIT");
    SaysEnd("TCP_", "REFRESH_UNMODIFIED");
  }

  /** ... the misses ... */
  lemma MissTags(tag: string)
    requires tag == "TCP_MISS" || tag == "TCP_REFRESH_MODIFIED"
    ensures SaysMiss(tag) && !SaysHit(tag)
  {
    hide Says;
    assert "TCP_MISS" == "TCP_" + "MISS" && "TCP_REFRESH_MODIFIED" == "TCP_" + "REFRESH_MODIFIED";
    SaysEnd("TCP_", "MISS");
    SaysEnd("TCP_", "REFRESH_MODIFIED");
    LacksStart(tag, "HIT");
    LacksStart(tag, "REFRESH_UNMODIFIED");
  }

  /** ... and those that are neither. */
  lemma OtherTags(tag: string)
    requires tag == "TCP_DENIED" || tag == "TCP_TUNNEL"
    ensures !SaysHit(tag) && !SaysMiss(tag)
  {
    hide Says;
    LacksStart(tag, "HIT");
    LacksStart(tag, "MISS");
    LacksStart(tag, "REFRESH_UNMODIFIED");
    LacksStart(tag, "REFRESH_MODIFIED");
  }

  // ---- Hierarchy codes ------------------------------------------------------

  lemma {:induction false} StrippedOf(left: string, word: string, right: string)
    requires PyText.IsBlank(left) && PyText.IsBlank(right)
    requires word != "" ==> !PyText.IsSpace(word[0]) && !PyText.IsSpace(word[|word| - 1])
    ensures PyText.Strip(left + word + right) == word
    decreases |left| + |right|
  {
    hide PyText.IsSpace;
    var s := left + word + right;
    if left != "" {
      assert s[0] == left[0] && s[1..] == left[1..] + word + right;
      StrippedOf(left[1..], word, right);
    } else if right != "" && word != "" {
      var n := |right| - 1;
      StrippedOf("", word, right[..n]);
      assert PyText.StripLeft(s) == s && s[|s| - 1] == right[n];
      assert "" + word + right[..n] == s[..|s| - 1];
      assert PyText.StripLeft(s[..|s| - 1]) == s[..|s| - 1];
    } else if right != "" {
      assert s[0] == right[0] && s[1..] == "" + word + right[1..];
      StrippedOf("", word, right[1..]);
    } else {
      assert s == word;
    }
  }

  /**
   * The code of a hierarchy field is what precedes its first slash, without the
   * blanks around it; "NONE" where nothing is left, for a lone dash and for no field.
   */
  lemma HierarchyCodes(left: string, word: string, right: string, rest: string)
    requires PyText.IsBlank(left) && PyText.IsBlank(right) && '/' !in left + word + right
    requires word != "" ==> !PyText.IsSpace(word[0]) && !PyText.IsSpace(word[|word| - 1])
    ensures HierarchyCode(Some(left + word + right + "/" + rest)) == if word == "" then "NONE" else word
    ensures left + word + right != "-" ==>
              HierarchyCode(Some(left + word + right)) == if word == "" then "NONE" else word
    ensures HierarchyCode(Some("-")) == HierarchyCode(None) == "NONE"
  {
    hide PyText.Strip, PyText.IsSpace, PyText.IsBlank, PyText.Split;
    var field := left + word + right;
    StrippedOf(left, word, right);
    PyText.SplitFirst(field, rest, '/');
    LogParser.SplitNothing(field, '/');
    assert field + ['/'] + rest == field + "/" + rest && (field + "/" + rest)[|field|] == '/';
  }

  // ---- The tables -----------------------------------------------------------

  lemma MinuteAccumulates(k: MinuteKey)
    ensures Accumulates(MinuteKeyOf, MinuteShare, MinutePlus, k, MinuteRow(AtMinute(k)))
  {
    hide SumWhere, MinuteOf, IsCacheHit, IsCacheMiss, SaysHit, SaysMiss;
    EachNext();
    forall e: ParsedEvent ensures IsCacheHit(e.action) <==> SaysHit(e.action) { TagsRead(e.action); }
    forall e: ParsedEvent ensures IsCacheMiss(e.action) <==> SaysMiss(e.action) { TagsRead(e.action); }
    SumOfNothing();
  }

  lemma SumOfNothing()
    ensures forall p, worth :: SumWhere([], p, worth) == 0
  {}

  lemma DomainAccumulates(k: DomainKey)
    ensures Accumulates(DomainKeyOf, DomainShare, DomainPlus, k, DomainRow(AtDomain(k)))
  {
    hide SumWhere, MinuteOf;
    EachNext();
    SumOfNothing();
  }

  lemma ClientAccumulates(k: ClientKey)
    ensures Accumulates(ClientKeyOf, ClientShare, ClientSumsPlus, k, ClientRowSums(AtClient(k)))
  {
    hide SumWhere, MinuteOf;
    EachNext();
    SumOfNothing();
  }

  lemma CategoryMeans(category: string -> string, k: CategoryKey, e: ParsedEvent)
    ensures InCategory(category, k, e) <==> CategoryKeys(category)(e) == Some(k)
  {
    if HasDomain(e) {
      assert Text(e.domain) == e.domain.value;
      assert CategoryKeys(category)(e)
             == Some(CategoryKey(MinuteOf(e.timestamp), e.clientIp, e.branch, category(e.domain.value)));
    }
  }

  lemma UserCategoryMeans(category: string -> string, k: UserCategoryKey, e: ParsedEvent)
    ensures InUserCategory(category, k, e) <==> UserCategoryKeys(category)(e) == Some(k)
  {
    if HasDomain(e) {
      assert Text(e.domain) == e.domain.value;
      assert UserCategoryKeys(category)(e)
             == Some(UserCategoryKey(MinuteOf(e.timestamp), e.branch, OrEmpty(e.user), category(e.domain.value)));
    }
  }

  lemma CategoryAccumulates(category: string -> string, k: CategoryKey)
    ensures Accumulates(CategoryKeys(category), AllowedShare, CountBytesPlus, k,
                        PassedBytesRow(AtCategory(category)(k)))
  {
    hide SumWhere, MinuteOf, InCategory, CategoryKeys;
    forall e ensures InCategory(category, k, e) <==> CategoryKeys(category)(e) == Some(k) {
      CategoryMeans(category, k, e);
    }
    EachNext();
    SumOfNothing();
  }

  lemma UserCategoryAccumulates(category: string -> string, k: UserCategoryKey)
    ensures Accumulates(UserCategoryKeys(category), AllowedShare, CountBytesPlus, k,
                        PassedBytesRow(AtUserCategory(category)(k)))
  {
    hide SumWhere, MinuteOf, InUserCategory, UserCategoryKeys;
    forall e ensures InUserCategory(category, k, e) <==> UserCategoryKeys(category)(e) == Some(k) {
      UserCategoryMeans(category, k, e);
    }
    EachNext();
    SumOfNothing();
  }

  lemma CodeAccumulates(k: CodeKey)
    ensures Accumulates(CodeKeyOf, FullShare, CountBytesPlus, k, AllBytesRow(AtCode(k)))
  {
    hide SumWhere, MinuteOf;
    EachNext();
    SumOfNothing();
  }

  lemma HttpAccumulates(k: HttpKey)
    ensures Accumulates(HttpKeyOf, FullShare, CountBytesPlus, k, AllBytesRow(AtHttp(k)))
  {
    hide SumWhere, MinuteOf;
    EachNext();
    SumOfNothing();
  }

  lemma HierarchyAccumulates(k: HierarchyKey)
    ensures Accumulates(HierarchyKeyOf, FullShare, CountBytesPlus, k, AllBytesRow(AtHierarchy(k)))
  {
    hide SumWhere, MinuteOf, HierarchyCode;
    EachNext();
    SumOfNothing();
  }

  lemma BlockedDomainAccumulates(k: BlockedDomainKey)
    ensures Accumulates(BlockedDomainKeyOf, BlockShare, BlockPlus, k, BlockRow(AtBlockedDomain(k)))
  {
    hide SumWhere, MinuteOf, HourOf;
    EachNext();
    SumOfNothing();
    HoursOfMinutes();
  }

  lemma BlockedClientAccumulates(k: BlockedClientKey)
    ensures Accumulates(BlockedClientKeyOf, BlockShare, BlockPlus, k, BlockRow(AtBlockedClient(k)))
  {
    hide SumWhere, MinuteOf, HourOf;
    EachNext();
    SumOfNothing();
    HoursOfMinutes();
  }

  lemma HoursOfMinutes()
    ensures forall t :: HourOf(MinuteOf(t)) == HourOf(t)
  {
    hide MinuteOf, HourOf;
    forall t ensures HourOf(MinuteOf(t)) == HourOf(t) { HourOfMinute(t, MinuteOf(t), HourOf(t), HourOf(MinuteOf(t))); }
  }

  lemma HourOfMinute(t: int, m: int, h: int, g: int)
    requires m % 60_000_000 == 0 && m <= t < m + 60_000_000
    requires h % 3_600_000_000 == 0 && h <= t < h + 3_600_000_000
    requires g % 3_600_000_000 == 0 && g <= m < g + 3_600_000_000
    ensures g == h
  {
    var a, b, c := m / 60_000_000, h / 3_600_000_000, g / 3_600_000_000;
    assert m == 60_000_000 * a && h == 3_600_000_000 * b && g == 3_600_000_000 * c;
    assert 60 * b <= a;
  }

  /**
   * Every table, row by row: which rows there are, and what each column of a
   * row is, as plain sums over the committed events and their own fields.
   */
  lemma TablesHold(category: string -> string, s: Store, events: seq<ParsedEvent>)
    requires IsBatch(category, s, events)
    ensures Holds(s.minute, events, AtMinute, MinuteRow) && Holds(s.domain, events, AtDomain, DomainRow)
    ensures Holds(Project(s.client, SumsOf), events, AtClient, ClientRowSums)
    ensures Holds(s.category, events, AtCategory(category), PassedBytesRow)
    ensures Holds(s.code, events, AtCode, AllBytesRow) && Holds(s.http, events, AtHttp, AllBytesRow)
    ensures Holds(s.hierarchy, events, AtHierarchy, AllBytesRow)
    ensures Holds(s.userCategory, events, AtUserCategory(category), PassedBytesRow)
    ensures Holds(s.blockedDomain, events, AtBlockedDomain, BlockRow)
    ensures Holds(s.blockedClient, events, AtBlockedClient, BlockRow)
  {
    KeysMean(category);
    hide GroupBy, Holds, Accumulates, Project;
    hide MinuteKeyOf, DomainKeyOf, ClientKeyOf, CategoryKeys, CodeKeyOf, HttpKeyOf, HierarchyKeyOf, UserCategoryKeys,
         BlockedDomainKeyOf, BlockedClientKeyOf;
    hide AtMinute, AtDomain, AtClient, AtCategory, AtCode, AtHttp, AtHierarchy, AtUserCategory, AtBlockedDomain,
         AtBlockedClient;
    forall k { MinuteAccumulates(k); }
    forall k { DomainAccumulates(k); }
    forall k { ClientAccumulates(k); }
    forall k { CategoryAccumulates(category, k); }
    forall k { CodeAccumulates(k); }
    forall k { HttpAccumulates(k); }
    forall k { HierarchyAccumulates(k); }
    forall k { UserCategoryAccumulates(category, k); }
    forall k { BlockedDomainAccumulates(k); }
    forall k { BlockedClientAccumulates(k); }
    GroupsHold(events, MinuteKeyOf, MinuteShare, MinutePlus, AtMinute, MinuteRow);
    GroupsHold(events, DomainKeyOf, DomainShare, DomainPlus, AtDomain, DomainRow);
    GroupsHold(events, ClientKeyOf, ClientShare, ClientSumsPlus, AtClient, ClientRowSums);
    GroupsHold(events, CategoryKeys(category), AllowedShare, CountBytesPlus, AtCategory(category), PassedBytesRow);
    GroupsHold(events, CodeKeyOf, FullShare, CountBytesPlus, AtCode, AllBytesRow);
    GroupsHold(events, HttpKeyOf, FullShare, CountBytesPlus, AtHttp, AllBytesRow);
    GroupsHold(events, HierarchyKeyOf, FullShare, CountBytesPlus, AtHierarchy, AllBytesRow);
    GroupsHold(events, UserCategoryKeys(category), AllowedShare, CountBytesPlus, AtUserCategory(category),
               PassedBytesRow);
    GroupsHold(events, BlockedDomainKeyOf, BlockShare, BlockPlus, AtBlockedDomain, BlockRow);
    GroupsHold(events, BlockedClientKeyOf, BlockShare, BlockPlus, AtBlockedClient, BlockRow);
  }

  lemma KeysMean(category: string -> string)
    ensures forall k, e :: AtMinute(k)(e) <==> MinuteKeyOf(e) == Some(k)
    ensures forall k, e :: AtDomain(k)(e) <==> DomainKeyOf(e) == Some(k)
    ensures forall k, e :: AtClient(k)(e) <==> ClientKeyOf(e) == Some(k)
    ensures forall k, e :: AtCategory(category)(k)(e) <==> CategoryKeys(category)(e) == Some(k)
    ensures forall k, e :: AtCode(k)(e) <==> CodeKeyOf(e) == Some(k)
    ensures forall k, e :: AtHttp(k)(e) <==> HttpKeyOf(e) == Some(k)
    ensures forall k, e :: AtHierarchy(k)(e) <==> HierarchyKeyOf(e) == Some(k)
    ensures forall k, e :: AtUserCategory(category)(k)(e) <==> UserCategoryKeys(category)(e) == Some(k)
    ensures forall k, e :: AtBlockedDomain(k)(e) <==> BlockedDomainKeyOf(e) == Some(k)
    ensures forall k, e :: AtBlockedClient(k)(e) <==> BlockedClientKeyOf(e) == Some(k)
  {
    hide MinuteOf, HourOf, HierarchyCode, InCategory, CategoryKeys, InUserCategory, UserCategoryKeys;
    HoursOfMinutes();
    forall k, e ensures AtCategory(category)(k)(e) <==> CategoryKeys(category)(e) == Some(k) {
      CategoryMeans(category, k, e);
    }
    forall k, e ensures AtUserCategory(category)(k)(e) <==> UserCategoryKeys(category)(e) == Some(k) {
      UserCategoryMeans(category, k, e);
    }
  }

  // ---- Any selection of rows ------------------------------------------------

  lemma {:induction false} TallyIsSum<K, V>(events: seq<ParsedEvent>, key: ParsedEvent -> Option<K>,
      val: ParsedEvent -> V, p: K -> bool, w: V -> int, at: ParsedEvent -> bool, worth: ParsedEvent -> int)
    requires forall e :: Share(e, key, val, p, w) == if at(e) then worth(e) else 0
    ensures Tally(events, key, val, p, w) == SumWhere(events, at, worth)
  {
    hide Share;
    if events != [] { TallyIsSum(events[..|events| - 1], key, val, p, w, at, worth); }
  }

  function ChosenClient(p: ClientKey -> bool): ParsedEvent -> bool {
    (e: ParsedEvent) => p(ClientKey(MinuteOf(e.timestamp), e.clientIp, e.branch, e.user))
  }

  function ChosenMinute(p: MinuteKey -> bool): ParsedEvent -> bool {
    (e: ParsedEvent) => p(MinuteKey(MinuteOf(e.timestamp), e.branch))
  }

  lemma ClientColumn(events: seq<ParsedEvent>, p: ClientKey -> bool, w: ClientSums -> int, worth: ParsedEvent -> int)
    requires Additive(w, ClientSumsPlus) && forall e :: w(ClientShare(e)) == worth(e)
    ensures Total(GroupBy(events, ClientKeyOf, ClientShare, ClientSumsPlus), p, w)
            == SumWhere(events, ChosenClient(p), worth)
  {
    hide Total, GroupBy, Tally, SumWhere, ClientShare, MinuteOf;
    TotalOfGroups(events, ClientKeyOf, ClientShare, ClientSumsPlus, p, w);
    TallyIsSum(events, ClientKeyOf, ClientShare, p, w, ChosenClient(p), worth);
  }

  lemma MinuteColumn(events: seq<ParsedEvent>, p: MinuteKey -> bool, w: MinuteTotals -> int,
      worth: ParsedEvent -> int)
    requires Additive(w, MinutePlus) && forall e :: w(MinuteShare(e)) == worth(e)
    ensures Total(GroupBy(events, MinuteKeyOf, MinuteShare, MinutePlus), p, w)
            == SumWhere(events, ChosenMinute(p), worth)
  {
    hide Total, GroupBy, Tally, SumWhere, MinuteShare, MinuteOf;
    TotalOfGroups(events, MinuteKeyOf, MinuteShare, MinutePlus, p, w);
    TallyIsSum(events, MinuteKeyOf, MinuteShare, p, w, ChosenMinute(p), worth);
  }

  /** Whatever client rows are selected: passed and refused bytes are in separate columns, each in full. */
  lemma SelectedClients(category: string -> string, s: Store, events: seq<ParsedEvent>, p: ClientKey -> bool)
    requires IsBatch(category, s, events)
    ensures var rows, at := Project(s.client, SumsOf), ChosenClient(p);
            && Total(rows, p, (r: ClientSums) => r.count) == SumWhere(events, at, Each)
            && Total(rows, p, (r: ClientSums) => r.blocked) == SumWhere(events, at, Refused)
            && Total(rows, p, (r: ClientSums) => r.reply) == SumWhere(events, at, PassedBytes)
            && Total(rows, p, (r: ClientSums) => r.received) == SumWhere(events, at, PassedUpload)
            && Total(rows, p, (r: ClientSums) => r.blockedReply) == SumWhere(events, at, RefusedBytes)
            && Total(rows, p, (r: ClientSums) => r.blockedReceived) == SumWhere(events, at, RefusedUpload)
  {
    hide Total, GroupBy, SumWhere, Project, MinuteOf;
    ClientColumn(events, p, (r: ClientSums) => r.count, Each);
    ClientColumn(events, p, (r: ClientSums) => r.blocked, Refused);
    ClientColumn(events, p, (r: ClientSums) => r.reply, PassedBytes);
    ClientColumn(events, p, (r: ClientSums) => r.received, PassedUpload);
    ClientColumn(events, p, (r: ClientSums) => r.blockedReply, RefusedBytes);
    ClientColumn(events, p, (r: ClientSums) => r.blockedReceived, RefusedUpload);
  }

  /** Whatever minutes are selected: all bytes, passed bytes, hits and misses. */
  lemma SelectedMinutes(category: string -> string, s: Store, events: seq<ParsedEvent>, p: MinuteKey -> bool)
    requires IsBatch(category, s, events)
    ensures var at := ChosenMinute(p);
            && Total(s.minute, p, (r: MinuteTotals) => r.allowed) == SumWhere(events, at, Passed)
            && Total(s.minute, p, (r: MinuteTotals) => r.reply) == SumWhere(events, at, Bytes)
            && Total(s.minute, p, (r: MinuteTotals) => r.allowedReply) == SumWhere(events, at, PassedBytes)
            && Total(s.minute, p, (r: MinuteTotals) => r.allowedReceived) == SumWhere(events, at, PassedUpload)
            && Total(s.minute, p, (r: MinuteTotals) => r.hit) == SumWhere(events, at, Hit)
            && Total(s.minute, p, (r: MinuteTotals) => r.miss) == SumWhere(events, at, Miss)
  {
    hide Total, GroupBy, SumWhere, MinuteOf, SaysHit, SaysMiss, IsCacheHit, IsCacheMiss;
    forall e: ParsedEvent ensures IsCacheHit(e.action) <==> SaysHit(e.action) { TagsRead(e.action); }
    forall e: ParsedEvent ensures IsCacheMiss(e.action) <==> SaysMiss(e.action) { TagsRead(e.action); }
    MinuteColumn(events, p, (r: MinuteTotals) => r.allowed, Passed);
    MinuteColumn(events, p, (r: MinuteTotals) => r.reply, Bytes);
    MinuteColumn(events, p, (r: MinuteTotals) => r.allowedReply, PassedBytes);
    MinuteColumn(events, p, (r: MinuteTotals) => r.allowedReceived, PassedUpload);
    MinuteColumn(events, p, (r: MinuteTotals) => r.hit, Hit);
    MinuteColumn(events, p, (r: MinuteTotals) => r.miss, Miss);
  }
}
