/** The three log formats as renderings of one record, and that parsing undoes each of them. */
module Renderings {
  import opened CivilTime
  import opened Events
  import opened LogParser
  import opened Numerals
  import opened Options
  import PyText

  /** What Squid logs for one request, each field as text; the content type as its words. */
  datatype Record = Record(
    duration: string, client: string, action: string, status: string, size: string, verb: string, url: string,
    user: string, hierarchy: string, peer: string, contentType: seq<string>)

  /** Non-empty fields without blanks, tags without slashes, and a method that is not a number. */
  predicate Regular(r: Record) {
    && PyText.AreWords([r.duration, r.client, r.action, r.status, r.size, r.verb, r.url, r.user, r.hierarchy, r.peer])
    && '/' !in r.action && '/' !in r.hierarchy && !AllDigits(r.verb)
    && PyText.AreWords(r.contentType) && r.contentType != []
  }

  function ActionStatus(r: Record): string { r.action + "/" + r.status }

  function HierarchyPeer(r: Record): string { r.hierarchy + "/" + r.peer }

  /** %ts.%03tu %6tr %>a %Ss/%03>Hs %<st %rm %ru %[un %Sh/%<A %mt */
  function NativeWords(ms: int, r: Record): seq<string> {
    [MsText(ms), r.duration, r.client, ActionStatus(r), r.size, r.verb, r.url, r.user, HierarchyPeer(r)] + r.contentType
  }

  function NativeLine(ms: int, r: Record): string { PyText.Join(NativeWords(ms, r), ' ') }

  /** The same with %>st, the bytes received, before %<st. */
  function TwoSizeWords(ms: int, r: Record, received: string): seq<string> {
    [MsText(ms), r.duration, r.client, ActionStatus(r), received, r.size, r.verb, r.url, r.user, HierarchyPeer(r)]
        + r.contentType
  }

  function TwoSizeLine(ms: int, r: Record, received: string): string { PyText.Join(TwoSizeWords(ms, r, received), ' ') }

  /** The fields as the parser reads them off a native line. */
  function Tokens(ms: int, r: Record): seq<string> {
    [MsText(ms), r.duration, r.client, ActionStatus(r), r.size, r.verb, r.url, r.user, HierarchyPeer(r),
        PyText.Join(r.contentType, ' ')]
  }

  /** The event a record stands for. */
  function RecordEvent(lib: Library, ms: int, r: Record, received: Option<int>, branch: string,
      proxy: Option<string>): Option<ParsedEvent> {
    if !IsInstant(ms) || !lib.isIp(r.client) then None
    else
      Some(ParsedEvent(
             ms * 1000, ParseInt(r.duration), r.client, Truncate(r.action, 64), ParseInt(r.status), ParseInt(r.size),
             Truncate(r.verb, 16), r.url, TruncateOpt(ExtractDomain(lib, r.url, r.verb), 255),
             TruncateOpt(Absent(r.user), 255), TruncateOpt(Absent(r.hierarchy), 64), TruncateOpt(Absent(r.peer), 64),
             TruncateOpt(Absent(PyText.Join(r.contentType, ' ')), 128), IsRefusal(r.action, ParseInt(r.status)),
             branch, received, proxy))
  }

  // ---- Single fields --------------------------------------------------------

  lemma {:induction false} PartitionJoined(a: string, b: string, c: char)
    requires c !in a
    ensures Partition(a + [c] + b, c) == (a, Some(b))
  {
    var s := a + [c] + b;
    if a == "" {
      assert s[1..] == b;
    } else {
      PartitionJoined(a[1..], b, c);
      assert s[1..] == a[1..] + [c] + b && a == [a[0]] + a[1..];
    }
  }

  lemma ThreeDigits(n: nat)
    requires n < 1000
    ensures AllDigits(Padded(n, 3)) && Value(Padded(n, 3)) == n
  {
    assert Pow10(3) == 1000;
    ValueOfPadded(n, 3);
  }

  /** Milliseconds survive being written as seconds with three decimals. */
  lemma PlainMsOfText(ms: int)
    ensures PlainMs(MsText(ms)) == Some(ms)
  {
    hide Decimal, Padded, Value;
    var size: nat := if ms < 0 then -ms else ms;
    var whole, part := Decimal(size / 1000), Padded(size % 1000, 3);
    ValueOfDecimal(size / 1000);
    ThreeDigits(size % 1000);
    assert IsDigit(whole[0]);
    var body := whole + "." + part;
    assert body[..|whole|] == whole && body[|whole| + 1..] == part && body[|whole|] == '.';
    if ms < 0 { assert MsText(ms)[1..] == body; } else { assert MsText(ms) == body; }
  }

  /** The text of a time: at least five characters, none of them blank or a slash. */
  lemma MsTextPlain(ms: int)
    ensures PyText.IsWord(MsText(ms)) && '/' !in MsText(ms) && |MsText(ms)| >= 5
  {
    var size: nat := if ms < 0 then -ms else ms;
    DecimalDigits(size / 1000);
    hide Decimal, Padded;
    assert forall c :: c in MsText(ms) ==>
             c in Decimal(size / 1000) || c in Padded(size % 1000, 3) || c == '.' || c == '-';
    assert forall c :: c in Decimal(size / 1000) ==> IsDigit(c);
    assert forall c :: c in Padded(size % 1000, 3) ==> IsDigit(c);
  }

  lemma TokensRead(lib: Library, ms: int, r: Record, received: Option<int>, branch: string, proxy: Option<string>)
    requires Regular(r)
    ensures EventOf(lib, Tokens(ms, r), received, branch, proxy) == RecordEvent(lib, ms, r, received, branch, proxy)
  {
    PlainMsOfText(ms);
    PartitionJoined(r.action, r.status, '/');
    PartitionJoined(r.hierarchy, r.peer, '/');
    hide PlainMs, MsText, Partition, ParseInt, Truncate, TruncateOpt, Absent, ExtractDomain, IsInstant, IsRefusal,
        PyText.Join;
  }

  // ---- Lines of words -------------------------------------------------------

  lemma {:induction false} JoinedEnds(words: seq<string>)
    requires PyText.AreWords(words) && words != []
    ensures var s := PyText.Join(words, ' '); s != "" && !PyText.IsSpace(s[|s| - 1])
  {
    if |words| == 1 {
      assert PyText.IsWord(words[0]);
    } else {
      assert PyText.AreWords(words[1..]);
      JoinedEnds(words[1..]);
    }
  }

  lemma StripJoined(words: seq<string>)
    requires PyText.AreWords(words) && words != []
    ensures PyText.Strip(PyText.Join(words, ' ')) == PyText.Join(words, ' ') != ""
  {
    PyText.SpacedStarts(words);
    JoinedEnds(words);
  }

  lemma TagsAreWords(r: Record)
    requires Regular(r)
    ensures PyText.IsWord(ActionStatus(r)) && PyText.IsWord(HierarchyPeer(r))
    ensures '/' in ActionStatus(r) && '/' in HierarchyPeer(r)
  {
    var fields := [r.duration, r.client, r.action, r.status, r.size, r.verb, r.url, r.user, r.hierarchy, r.peer];
    assert PyText.IsWord(fields[2]) && PyText.IsWord(fields[3]) && PyText.IsWord(fields[8]) && PyText.IsWord(fields[9]);
    assert ActionStatus(r)[|r.action|] == '/' && HierarchyPeer(r)[|r.hierarchy|] == '/';
  }

  lemma PlainWords(r: Record)
    requires Regular(r)
    ensures PyText.IsWord(r.duration) && PyText.IsWord(r.client) && PyText.IsWord(r.size) && PyText.IsWord(r.verb)
    ensures PyText.IsWord(r.url) && PyText.IsWord(r.user)
  {
    var fields := [r.duration, r.client, r.action, r.status, r.size, r.verb, r.url, r.user, r.hierarchy, r.peer];
    assert PyText.IsWord(fields[0]) && PyText.IsWord(fields[1]) && PyText.IsWord(fields[4]);
    assert PyText.IsWord(fields[5]) && PyText.IsWord(fields[6]) && PyText.IsWord(fields[7]);
  }

  lemma NativeAreWords(ms: int, r: Record)
    requires Regular(r)
    ensures PyText.AreWords(NativeWords(ms, r))
  {
    MsTextPlain(ms);
    TagsAreWords(r);
    PlainWords(r);
    hide PyText.IsWord, ActionStatus, HierarchyPeer, MsText;
  }

  /** A line that starts with such a text has no day before a slash. */
  lemma NoClock(first: string, rest: string)
    requires |first| >= 3 && '/' !in first
    ensures MatchClock(first + rest).None?
  {
    var s := first + rest;
    assert s[1] == first[1] && s[2] == first[2];
    assert !Fits(s[1], '/') && !Fits(s[2], '/');
    assert "d/"[1] == '/' && "dd/"[2] == '/';
    assert DayDigits(s) == 0;
    hide DayDigits;
  }

  lemma NativeIsNormal(ms: int, r: Record)
    ensures NormalizeAlt(NativeLine(ms, r)) == Some(NativeLine(ms, r))
  {
    MsTextPlain(ms);
    var rest := NativeLine(ms, r)[|MsText(ms)|..];
    JoinStartsWith(NativeWords(ms, r));
    assert NativeLine(ms, r) == MsText(ms) + rest;
    NoClock(MsText(ms), rest);
  }

  lemma JoinStartsWith(words: seq<string>)
    requires words != []
    ensures words[0] <= PyText.Join(words, ' ')
  {}

  lemma JoinOneWord(words: seq<string>)
    requires words != []
    ensures |words| == 1 ==> PyText.Join(words, ' ') == words[0]
  {}

  /** The tokens of a native line, whether or not its content type has blanks. */
  lemma NativeTokens(lib: Library, ms: int, r: Record, received: Option<int>, branch: string, proxy: Option<string>)
    requires Regular(r)
    ensures ParseTokens(lib, NativeLine(ms, r), NativeWords(ms, r), received, branch, proxy)
            == EventOf(lib, Tokens(ms, r), received, branch, proxy)
  {
    hide EventOf, MsText, PyText.SplitMax, PyText.Join, ActionStatus, HierarchyPeer;
    var words := NativeWords(ms, r);
    TagsAreWords(r);
    ContentTypeGiven(r);
    JoinOneWord(r.contentType);
    hide Regular;
    if |r.contentType| == 1 {
      assert words == Tokens(ms, r);
    } else {
      NativeAreWords(ms, r);
      PyText.SplitMaxOfSpaced(words, 9);
      assert words[9..] == r.contentType;
      assert words[..9] + [PyText.Join(words[9..], ' ')] == Tokens(ms, r);
    }
  }

  /** How a line of words that is not in the alternate format is parsed. */
  lemma ParseJoined(lib: Library, words: seq<string>, branch: string, proxy: Option<string>)
    requires PyText.AreWords(words) && words != []
    requires NormalizeAlt(PyText.Join(words, ' ')) == Some(PyText.Join(words, ' '))
    ensures ParseLine(lib, PyText.Join(words, ' '), branch, proxy) == Returned(
              if HasTwoSizes(words) then
                ParseTokens(lib, PyText.Join(DropColumn(words), ' '), DropColumn(words), Some(ParseInt(words[4])),
                    branch, proxy)
              else ParseTokens(lib, PyText.Join(words, ' '), words, None, branch, proxy))
  {
    hide ParseTokens, NormalizeAlt, PyText.Words, PyText.Join, PyText.Strip, ParseInt, HasTwoSizes, DropColumn;
    StripJoined(words);
    PyText.WordsOfSpaced(words);
  }

  lemma NativeReads(lib: Library, ms: int, r: Record, branch: string, proxy: Option<string>)
    requires Regular(r)
    ensures ParseLine(lib, NativeLine(ms, r), branch, proxy) == Returned(RecordEvent(lib, ms, r, None, branch, proxy))
  {
    hide ParseTokens, ParseLine, EventOf, RecordEvent, NormalizeAlt, PyText.Join, MsText, DropColumn;
    var words := NativeWords(ms, r);
    NativeAreWords(ms, r);
    NativeIsNormal(ms, r);
    ParseJoined(lib, words, branch, proxy);
    NativeTokens(lib, ms, r, None, branch, proxy);
    TokensRead(lib, ms, r, None, branch, proxy);
    assert words[5] == r.verb;
    assert !HasTwoSizes(words);
  }

  lemma TwoSizeAreWords(ms: int, r: Record, received: string)
    requires Regular(r) && AllDigits(received)
    ensures PyText.AreWords(TwoSizeWords(ms, r, received))
  {
    MsTextPlain(ms);
    TagsAreWords(r);
    PlainWords(r);
    assert PyText.IsWord(received);
    hide PyText.IsWord, ActionStatus, HierarchyPeer, MsText;
  }

  lemma TwoSizeIsNormal(ms: int, r: Record, received: string)
    ensures NormalizeAlt(TwoSizeLine(ms, r, received)) == Some(TwoSizeLine(ms, r, received))
  {
    MsTextPlain(ms);
    var rest := TwoSizeLine(ms, r, received)[|MsText(ms)|..];
    JoinStartsWith(TwoSizeWords(ms, r, received));
    assert TwoSizeLine(ms, r, received) == MsText(ms) + rest;
    NoClock(MsText(ms), rest);
  }

  lemma TwoSizeReads(lib: Library, ms: int, r: Record, received: string, branch: string, proxy: Option<string>)
    requires Regular(r) && AllDigits(received) && AllDigits(r.size)
    ensures ParseLine(lib, TwoSizeLine(ms, r, received), branch, proxy)
            == Returned(RecordEvent(lib, ms, r, Some(ParseInt(received)), branch, proxy))
  {
    hide ParseTokens, ParseLine, EventOf, RecordEvent, NormalizeAlt, PyText.Join, MsText, ParseInt;
    var words := TwoSizeWords(ms, r, received);
    TwoSizeAreWords(ms, r, received);
    TwoSizeIsNormal(ms, r, received);
    ParseJoined(lib, words, branch, proxy);
    NativeTokens(lib, ms, r, Some(ParseInt(received)), branch, proxy);
    TokensRead(lib, ms, r, Some(ParseInt(received)), branch, proxy);
    TagsAreWords(r);
    assert words[3] == ActionStatus(r) && words[4] == received && words[5] == r.size;
    assert DropColumn(words) == NativeWords(ms, r);
    assert HasTwoSizes(words);
  }

  // ---- The alternate clock --------------------------------------------------

  /** %tl.%03tu %6tr %>a %Ss/%03>Hs %<st %rm %ru %Sh/%<A %[un %mt, after the clock. */
  function AltWords(r: Record): seq<string> {
    [r.duration, r.client, ActionStatus(r), r.size, r.verb, r.url, HierarchyPeer(r), r.user] + r.contentType
  }

  /** A date and time laid out at fixed places, and what follows. */
  function Laid(day: string, month: string, year: string, hour: string, minute: string, second: string,
      rest: string): string {
    day + ("/" + (month + ("/" + (year + (":" + (hour + (":" + (minute + (":" + (second + rest))))))))))
  }

  function ZoneText(offset: int): string
    requires IsOffset(offset)
  {
    var size: nat := if offset < 0 then -offset else offset;
    (if offset < 0 then "-" else "+") + Padded(size / 60, 2) + Padded(size % 60, 2)
  }

  /** DD/Mon/YYYY:HH:MM:SS, a blank, the zone, and `rest`. */
  function ClockText(t: Reading, offset: int, rest: string): string
    requires IsReading(t) && IsOffset(offset)
  {
    Laid(Padded(t.date.day, 2), MONTHS[t.date.month - 1], Padded(t.date.year, 4),
         Padded(t.hour, 2), Padded(t.minute, 2), Padded(t.second, 2), " " + (ZoneText(offset) + rest))
  }

  /** The line a box in that zone logs at that instant. */
  function AltLine(ms: int, offset: int, r: Record): string
    requires IsOffset(offset) && HasReading(ms / 1000, offset)
  {
    ReadingRoundTrip(ms / 1000, offset);
    ClockText(ReadingAt(ms / 1000, offset), offset, "." + Padded(ms % 1000, 3) + " " + PyText.Join(AltWords(r), ' '))
  }

  lemma TwoDigits(n: nat)
    requires n < 100
    ensures AllDigits(Padded(n, 2)) && Value(Padded(n, 2)) == n
  {
    assert Pow10(2) == 100;
    ValueOfPadded(n, 2);
  }

  lemma FourDigits(n: nat)
    requires n < 10000
    ensures AllDigits(Padded(n, 4)) && Value(Padded(n, 4)) == n
  {
    assert Pow10(4) == 10000;
    ValueOfPadded(n, 4);
  }

  /** The table's names are three letters each, as written, and each names its own month. */
  lemma MonthNames(month: int)
    requires 1 <= month <= 12
    ensures |MONTHS| == 12 && Shaped(MONTHS[month - 1], "aaa") && |MONTHS[month - 1]| == 3
    ensures MonthNumber(MONTHS[month - 1]) == month
  {
    hide IndexIn;
    MonthSpelling(month - 1);
    IndexOfMonth(month - 1);
  }

  /** ... in whatever case it is spelled. */
  lemma MonthInAnyCase(month: int, name: string)
    requires 1 <= month <= 12 && |name| == 3 && PyText.SameButCase(name, MONTHS[month - 1])
    ensures MonthNumber(name) == month
  {
    hide IndexIn;
    MonthSpelling(month - 1);
    IndexOfMonth(month - 1);
    TitleCase(name, MONTHS[month - 1]);
  }

  lemma TitleCase(name: string, known: string)
    requires |name| == 3 && PyText.SameButCase(name, known)
    requires known == [PyText.UpperChar(known[0]), PyText.LowerChar(known[1]), PyText.LowerChar(known[2])]
    ensures [PyText.UpperChar(name[0]), PyText.LowerChar(name[1]), PyText.LowerChar(name[2])] == known
  {
    assert PyText.SameLetter(name[0], known[0]) && PyText.SameLetter(name[1], known[1]);
    assert PyText.SameLetter(name[2], known[2]);
  }

  lemma MonthSpelling(i: nat)
    requires i < 12
    ensures Shaped(MONTHS[i], "aaa") && |MONTHS[i]| == 3
    ensures MONTHS[i]
        == [PyText.UpperChar(MONTHS[i][0]), PyText.LowerChar(MONTHS[i][1]), PyText.LowerChar(MONTHS[i][2])]
  {}

  lemma IndexOfMonth(i: nat)
    requires i < 12
    ensures IndexIn(MONTHS, MONTHS[i]) == i
  {
    IndexOf(MONTHS, i);
  }

  lemma {:induction false} IndexOf(names: seq<string>, i: nat)
    requires i < |names| && forall j :: 0 <= j < i ==> names[j] != names[i]
    ensures IndexIn(names, names[i]) == i
  {
    if i > 0 { IndexOf(names[1..], i - 1); }
  }

  /** Past `piece`, the text goes on with `more`. */
  lemma Past(t: string, p: nat, piece: string, more: string)
    requires p <= |t| && t[p..] == piece + more
    ensures |t| == p + |piece| + |more| && t[p..p + |piece|] == piece && t[p + |piece|..] == more
    ensures |piece| == 1 ==> t[p] == piece[0]
  {
    assert t[p..p + |piece|] == t[p..][..|piece|] && t[p + |piece|..] == t[p..][|piece|..];
    if |piece| == 1 { assert t[p] == t[p..][0]; }
  }

  lemma LaidParts(day: string, month: string, year: string, hour: string, minute: string, second: string, rest: string)
    requires |month| == 3 && |year| == 4 && |hour| == 2 && |minute| == 2 && |second| == 2
    ensures var s := Laid(day, month, year, hour, minute, second, rest);
            && |s| == |day| + 18 + |rest| && s[..|day|] == day && s[|day|] == '/'
            && var t := s[|day|..];
               && |t| == 18 + |rest| && t[0] == '/' && t[1..4] == month && t[4] == '/' && t[5..9] == year && t[9] == ':'
               && t[10..12] == hour && t[12] == ':' && t[13..15] == minute && t[15] == ':' && t[16..18] == second
               && t[18..] == rest
  {
    var s5 := ":" + (second + rest);
    var s4 := ":" + (minute + s5);
    var s3 := ":" + (hour + s4);
    var s2 := "/" + (year + s3);
    var t := "/" + (month + s2);
    var s := day + t;
    assert s[|day|..] == t && s[..|day|] == day && s[|day|] == t[0];
    assert t[0..] == t;
    Past(t, 0, "/", month + s2);
    Past(t, 1, month, s2);
    Past(t, 4, "/", year + s3);
    Past(t, 5, year, s3);
    Past(t, 9, ":", hour + s4);
    Past(t, 10, hour, s4);
    Past(t, 12, ":", minute + s5);
    Past(t, 13, minute, s5);
    Past(t, 15, ":", second + rest);
    Past(t, 16, second, rest);
  }

  lemma FitsParts(t: string, month: string, year: string, hour: string, minute: string, second: string)
    requires |t| >= 18 && t[0] == '/' && t[1..4] == month && t[4] == '/' && t[5..9] == year && t[9] == ':'
    requires t[10..12] == hour && t[12] == ':' && t[13..15] == minute && t[15] == ':' && t[16..18] == second
    requires Shaped(month, "aaa") && AllDigits(year) && AllDigits(hour) && AllDigits(minute) && AllDigits(second)
    ensures Shaped(t, CLOCK_SHAPE)
  {
    assert t[1] == month[0] && t[2] == month[1] && t[3] == month[2];
    assert "aaa"[0] == "aaa"[1] == "aaa"[2] == 'a';
    assert Fits(month[0], 'a') && Fits(month[1], 'a') && Fits(month[2], 'a');
    assert t[5] == year[0] && t[6] == year[1] && t[7] == year[2] && t[8] == year[3];
    assert t[10] == hour[0] && t[11] == hour[1] && t[13] == minute[0] && t[14] == minute[1] && t[16] == second[0]
        && t[17] == second[1];
    forall i | 0 <= i < 18 ensures Fits(t[i], CLOCK_SHAPE[i]) {}
  }

  lemma DayBeforeSlash(s: string, day: string)
    requires AllDigits(day) && 1 <= |day| <= 2 && |s| > |day| && s[..|day|] == day && s[|day|] == '/'
    ensures DayDigits(s) == |day|
  {
    assert "dd/"[0] == "dd/"[1] == 'd' && "dd/"[2] == '/' && "d/"[0] == 'd' && "d/"[1] == '/';
    assert s[0] == day[0] && Fits(s[0], 'd');
    assert Fits(s[|day|], '/');
    if |day| == 2 {
      assert s[1] == day[1] && Fits(s[1], 'd');
      assert !Fits(s[1], '/');
    }
  }

  lemma ZoneParts(c: Clock, rest: string)
    requires |c.zoneHours| == |c.zoneMinutes| == 2 && AllDigits(c.zoneHours) && AllDigits(c.zoneMinutes)
    ensures var z := ZoneOf(c) + rest;
            && |z| == 5 + |rest| && (Shaped(z, "+dddd") || Shaped(z, "-dddd")) && (z[0] == '-' <==> c.negative)
            && !PyText.IsSpace(z[0]) && z[1..3] == c.zoneHours && z[3..5] == c.zoneMinutes && z[5..] == rest
  {
    var z := ZoneOf(c) + rest;
    var a, b := c.zoneHours, c.zoneMinutes;
    assert z[1] == a[0] && z[2] == a[1] && z[3] == b[0] && z[4] == b[1];
    assert IsDigit(a[0]) && IsDigit(a[1]) && IsDigit(b[0]) && IsDigit(b[1]);
  }

  lemma {:induction false} RunOfDigits(digits: string, rest: string)
    requires (forall i :: 0 <= i < |digits| ==> IsDigit(digits[i])) && (rest == "" || !IsDigit(rest[0]))
    ensures DigitRun(digits + rest) == |digits|
  {
    if digits == "" {
      assert digits + rest == rest;
    } else {
      RunOfDigits(digits[1..], rest);
      assert (digits + rest)[1..] == digits[1..] + rest;
    }
  }

  /** One blank or several. */
  predicate Blanks(gap: string) { gap != "" && forall i :: 0 <= i < |gap| ==> PyText.IsSpace(gap[i]) }

  lemma {:induction false} StripBlanks(gap: string, rest: string)
    requires (forall i :: 0 <= i < |gap| ==> PyText.IsSpace(gap[i])) && rest != "" && !PyText.IsSpace(rest[0])
    ensures PyText.StripLeft(gap + rest) == rest
  {
    hide PyText.IsSpace;
    if gap == "" {
      assert gap + rest == rest;
    } else {
      StripBlanks(gap[1..], rest);
      assert (gap + rest)[1..] == gap[1..] + rest;
    }
  }

  /** Fractions are optional. */
  function FractionText(digits: string): string { if digits == "" then "" else "." + digits }

  lemma FractionPart(digits: string, gap: string, rest: string)
    requires (digits == "" || AllDigits(digits)) && Blanks(gap)
    ensures var after := FractionText(digits) + (gap + rest);
            && ("." <= after <==> digits != "")
            && (digits == "" ==> after == gap + rest)
            && (digits != "" ==> DigitRun(after[1..]) == |digits| > 0 && after[1..|digits| + 1] == digits
                                 && after[|digits| + 1..] == gap + rest)
  {
    var after := FractionText(digits) + (gap + rest);
    assert PyText.IsSpace(gap[0]) && !IsDigit(gap[0]) && gap[0] != '.';
    if digits != "" {
      assert after[1..] == digits + (gap + rest);
      RunOfDigits(digits, gap + rest);
    } else {
      assert after[0] == gap[0];
    }
  }

  /** A clock as the expression accepts it, whether or not its date and time exist. */
  predicate Accepted(c: Clock) {
    && WellShaped(c) && 1 <= |c.day| <= 2 && Shaped(c.month, "aaa") && |c.year| == 4
    && |c.hour| == |c.minute| == |c.second| == |c.zoneHours| == |c.zoneMinutes| == 2
  }

  function ZoneOf(c: Clock): string { (if c.negative then "-" else "+") + c.zoneHours + c.zoneMinutes }

  /** A line that starts with the clock, with blanks before its zone and after it. */
  function ClockLine(c: Clock, gap: string, more: string, rest: string): string {
    Laid(c.day, c.month, c.year, c.hour, c.minute, c.second,
         gap + (ZoneOf(c) + (FractionText(c.fraction) + (more + rest))))
  }

  /** Every clock that the expression accepts is read off its line exactly as it was written. */
  lemma ClockRead(c: Clock, gap: string, more: string, rest: string)
    requires Accepted(c) && Blanks(gap) && Blanks(more) && rest != "" && !PyText.IsSpace(rest[0])
    ensures MatchClock(ClockLine(c, gap, more, rest)) == Some((c, rest))
  {
    hide Laid, ZoneOf, FractionText, PyText.StripLeft, PyText.IsSpace, DigitRun, DayDigits, Shaped, Fits, AllDigits;
    var after := FractionText(c.fraction) + (more + rest);
    var zone := ZoneOf(c) + after;
    var line := ClockLine(c, gap, more, rest);
    LaidParts(c.day, c.month, c.year, c.hour, c.minute, c.second, gap + zone);
    DayBeforeSlash(line, c.day);
    FitsParts(line[|c.day|..], c.month, c.year, c.hour, c.minute, c.second);
    ZoneParts(c, after);
    StripBlanks(gap, zone);
    FractionPart(c.fraction, more, rest);
    StripBlanks(more, rest);
    assert |gap + zone| != |zone| && |more + rest| != |rest|;
  }

  /** The clock a box writes for a reading. */
  function ClockOf(t: Reading, offset: int, digits: string): Clock
    requires IsReading(t) && IsOffset(offset)
  {
    var size: nat := if offset < 0 then -offset else offset;
    Clock(Padded(t.date.day, 2), MONTHS[t.date.month - 1], Padded(t.date.year, 4),
          Padded(t.hour, 2), Padded(t.minute, 2), Padded(t.second, 2), offset < 0,
          Padded(size / 60, 2), Padded(size % 60, 2), digits)
  }

  lemma ReadingDigits(t: Reading)
    requires IsReading(t)
    ensures 0 <= t.date.day < 100 && 0 <= t.date.year < 10000 && 1 <= t.date.month <= 12 && 0 <= t.hour < 100
    ensures 0 <= t.minute < 100 && 0 <= t.second < 100
  {}

  lemma ClockTextRead(t: Reading, offset: int, digits: string, rest: string)
    requires IsReading(t) && IsOffset(offset) && (digits == "" || AllDigits(digits)) && rest != ""
        && !PyText.IsSpace(rest[0])
    ensures MatchClock(ClockText(t, offset, FractionText(digits) + " " + rest))
        == Some((ClockOf(t, offset, digits), rest))
  {
    hide MatchClock, IsReading, PyText.IsSpace, ClockOf, ClockText, ClockLine, Accepted, FractionText, AllDigits,
        Blanks;
    OneBlank();
    ClockOfAccepted(t, offset, digits);
    ClockTextIsLine(t, offset, digits, rest);
    ClockRead(ClockOf(t, offset, digits), " ", " ", rest);
  }

  lemma ClockOfAccepted(t: Reading, offset: int, digits: string)
    requires IsReading(t) && IsOffset(offset) && (digits == "" || AllDigits(digits))
    ensures Accepted(ClockOf(t, offset, digits))
  {
    hide Padded, IsReading, Shaped, WellShaped, AllDigits;
    ReadingDigits(t);
    MonthNames(t.date.month);
    ClockOfValue(t, offset, digits);
  }

  lemma ClockTextIsLine(t: Reading, offset: int, digits: string, rest: string)
    requires IsReading(t) && IsOffset(offset)
    ensures ClockText(t, offset, FractionText(digits) + " " + rest)
        == ClockLine(ClockOf(t, offset, digits), " ", " ", rest)
  {
    hide Padded, IsReading, Laid, FractionText;
    assert FractionText(digits) + (" " + rest) == FractionText(digits) + " " + rest;
    assert ZoneOf(ClockOf(t, offset, digits)) == ZoneText(offset);
  }

  lemma OneBlank()
    ensures Blanks(" ")
  {}

  /** The clock written for a reading and a zone is worth the instant they name, and its fraction. */
  lemma ClockOfValue(t: Reading, offset: int, digits: string)
    requires IsReading(t) && IsOffset(offset) && (digits == "" || AllDigits(digits))
    ensures WellShaped(ClockOf(t, offset, digits))
    ensures ClockMs(ClockOf(t, offset, digits)) == Some(FractionMs(EpochSeconds(t, offset), digits))
  {
    hide Padded, EpochSeconds, MonthNumber, Value, IsReading, AllDigits, FractionMs;
    var size: nat := if offset < 0 then -offset else offset;
    ReadingDigits(t);
    MonthNames(t.date.month);
    TwoDigits(t.date.day);
    FourDigits(t.date.year);
    TwoDigits(t.hour);
    TwoDigits(t.minute);
    TwoDigits(t.second);
    TwoDigits(size / 60);
    TwoDigits(size % 60);
    assert Reading(Date(t.date.year, t.date.month, t.date.day), t.hour, t.minute, t.second) == t;
  }

  /** With milliseconds, exactly the instant they name. */
  lemma ClockOfMs(t: Reading, offset: int, part: nat)
    requires IsReading(t) && IsOffset(offset) && part < 1000
    ensures WellShaped(ClockOf(t, offset, Padded(part, 3)))
    ensures ClockMs(ClockOf(t, offset, Padded(part, 3))) == Some(EpochSeconds(t, offset) * 1000 + part)
  {
    hide Padded, EpochSeconds, IsReading, AllDigits, FractionMs, ClockOf, WellShaped, ClockMs;
    WholeMs(EpochSeconds(t, offset), part);
    ClockOfValue(t, offset, Padded(part, 3));
  }

  lemma WholeMs(seconds: int, part: nat)
    requires part < 1000
    ensures AllDigits(Padded(part, 3)) && FractionMs(seconds, Padded(part, 3)) == seconds * 1000 + part
  {
    ThreeDigits(part);
    hide Padded, Value;
    assert Pow10(3) == 1000;
  }

  /** A fraction of any length is rounded to the nearest millisecond, and to the even one of two. */
  lemma FractionIsNearest(seconds: int, digits: string)
    requires AllDigits(digits)
    ensures var unit := Pow10(|digits|);
            var exact := (seconds * unit + Value(digits)) * 1000;
            var rounded := FractionMs(seconds, digits) * unit;
            && 2 * (exact - rounded) <= unit && 2 * (rounded - exact) <= unit
            && (2 * (exact - rounded) == unit || 2 * (rounded - exact) == unit ==> FractionMs(seconds, digits) % 2 == 0)
  {
    hide Value, Pow10;
    var unit, v := Pow10(|digits|), Value(digits);
    WholeAndRest(seconds, unit, v);
    RoundedIsNear(seconds * 1000 + 1000 * v / unit, 1000 * v % unit, unit, FractionMs(seconds, digits));
  }

  lemma RoundedIsNear(q: int, r: int, unit: int, f: int)
    requires 0 <= r < unit && f == if 2 * r > unit || (2 * r == unit && q % 2 != 0) then q + 1 else q
    ensures var exact := q * unit + r;
            && 2 * (exact - f * unit) <= unit && 2 * (f * unit - exact) <= unit
            && (2 * (exact - f * unit) == unit || 2 * (f * unit - exact) == unit ==> f % 2 == 0)
  {
    OneMore(q, unit);
  }

  lemma WholeAndRest(seconds: int, unit: nat, v: nat)
    requires unit > 0
    ensures (seconds * unit + v) * 1000 == (seconds * 1000 + 1000 * v / unit) * unit + 1000 * v % unit
    ensures 0 <= 1000 * v % unit < unit
  {
    var a := 1000 * v / unit;
    assert 1000 * v == unit * a + 1000 * v % unit;
    assert (seconds * 1000 + a) * unit == seconds * 1000 * unit + a * unit;
    assert seconds * 1000 * unit == (seconds * unit) * 1000;
  }

  lemma OneMore(q: int, unit: int)
    ensures (q + 1) * unit == q * unit + unit
  {}

  lemma AltAreWords(r: Record)
    requires Regular(r)
    ensures PyText.AreWords(AltWords(r)) && AltWords(r) != []
  {
    TagsAreWords(r);
    PlainWords(r);
    hide PyText.IsWord, ActionStatus, HierarchyPeer;
  }

  /** Swapping two fields back gives the native order, the content type still in one piece. */
  lemma SwapsBack(ms: int, r: Record)
    requires Regular(r)
    ensures var fields := PyText.SplitMax(PyText.Join(AltWords(r), ' '), REST_FIELD_COUNT - 1);
            && |fields| == REST_FIELD_COUNT
            && MsText(ms) + " "
                + PyText.Join(fields[HIERARCHY_INDEX := fields[USER_INDEX]][USER_INDEX := fields[HIERARCHY_INDEX]], ' ')
               == NativeLine(ms, r)
  {
    hide PyText.SplitMax, MsText, ActionStatus, HierarchyPeer, Regular;
    AltAreWords(r);
    ContentTypeGiven(r);
    var words, ct := AltWords(r), PyText.Join(r.contentType, ' ');
    PyText.SplitMaxOfSpaced(words, 8);
    assert words[8..] == r.contentType;
    var fields := words[..8] + [ct];
    var swapped := fields[HIERARCHY_INDEX := fields[USER_INDEX]][USER_INDEX := fields[HIERARCHY_INDEX]];
    var front := [r.duration, r.client, ActionStatus(r), r.size, r.verb, r.url, r.user, HierarchyPeer(r)];
    assert swapped == front + [ct];
    JoinLast(front, r.contentType);
    var rest := front + r.contentType;
    assert NativeWords(ms, r) == [MsText(ms)] + rest;
    JoinFirst(MsText(ms), rest);
    hide PyText.Join;
  }

  lemma ContentTypeGiven(r: Record)
    requires Regular(r)
    ensures r.contentType != []
  {}

  lemma JoinFirst(word: string, rest: seq<string>)
    requires rest != []
    ensures PyText.Join([word] + rest, ' ') == word + " " + PyText.Join(rest, ' ')
  {
    assert ([word] + rest)[1..] == rest;
  }

  /** Joining the last words first makes no difference. */
  lemma {:induction false} JoinLast(front: seq<string>, back: seq<string>)
    requires back != []
    ensures PyText.Join(front + [PyText.Join(back, ' ')], ' ') == PyText.Join(front + back, ' ')
  {
    if front == [] {
      assert front + back == back && front + [PyText.Join(back, ' ')] == [PyText.Join(back, ' ')];
    } else {
      JoinLast(front[1..], back);
      assert (front + back)[1..] == front[1..] + back;
      assert (front + [PyText.Join(back, ' ')])[1..] == front[1..] + [PyText.Join(back, ' ')];
    }
  }

  /** Normalising the alternate line yields the native line, byte for byte. */
  lemma AltIsNative(ms: int, offset: int, r: Record)
    requires Regular(r) && IsOffset(offset) && HasReading(ms / 1000, offset)
    ensures NormalizeAlt(AltLine(ms, offset, r)) == Some(NativeLine(ms, r))
  {
    hide MatchClock, ClockText, ClockMs, PyText.Join, PyText.SplitMax, MsText, NativeLine, ReadingAt, EpochSeconds,
        HasReading, Padded;
    ReadingRoundTrip(ms / 1000, offset);
    var t := ReadingAt(ms / 1000, offset);
    AltAreWords(r);
    PyText.SpacedStarts(AltWords(r));
    ThreeDigits(ms % 1000);
    ClockTextRead(t, offset, Padded(ms % 1000, 3), PyText.Join(AltWords(r), ' '));
    ClockOfMs(t, offset, ms % 1000);
    SwapsBack(ms, r);
  }

  lemma AltStripped(ms: int, offset: int, r: Record)
    requires Regular(r) && IsOffset(offset) && HasReading(ms / 1000, offset)
    ensures PyText.Strip(AltLine(ms, offset, r)) == AltLine(ms, offset, r) != ""
  {
    hide ReadingAt, HasReading, PyText.Join, AltWords, IsReading, ZoneText, Padded, ClockText;
    ReadingRoundTrip(ms / 1000, offset);
    AltAreWords(r);
    JoinedEnds(AltWords(r));
    var t := ReadingAt(ms / 1000, offset);
    var tail := PyText.Join(AltWords(r), ' ');
    StartsWithDay(t, offset, "." + Padded(ms % 1000, 3) + " " + tail);
    EndsWithTail(t, offset, "." + Padded(ms % 1000, 3) + " ", tail);
  }

  lemma StartsWithDay(t: Reading, offset: int, rest: string)
    requires IsReading(t) && IsOffset(offset)
    ensures var line := ClockText(t, offset, rest); line != "" && !PyText.IsSpace(line[0])
  {
    hide Padded, ZoneText;
    var day := Padded(t.date.day, 2);
    assert IsDigit(day[0]);
    assert ClockText(t, offset, rest)[0] == day[0];
  }

  lemma EndsWithTail(t: Reading, offset: int, middle: string, tail: string)
    requires IsReading(t) && IsOffset(offset) && tail != ""
    ensures var line := ClockText(t, offset, middle + tail); line[|line| - 1] == tail[|tail| - 1]
  {
    hide Padded, ZoneText;
    var x := ZoneText(offset) + (middle + tail);
    assert x[|x| - 1] == tail[|tail| - 1];
    LaidEnds(Padded(t.date.day, 2), MONTHS[t.date.month - 1], Padded(t.date.year, 4), Padded(t.hour, 2),
             Padded(t.minute, 2), Padded(t.second, 2), " " + x);
  }

  lemma LaidEnds(day: string, month: string, year: string, hour: string, minute: string, second: string, rest: string)
    requires rest != ""
    ensures var s := Laid(day, month, year, hour, minute, second, rest); s != "" && s[|s| - 1] == rest[|rest| - 1]
  {}

  lemma AltReads(lib: Library, ms: int, offset: int, r: Record, branch: string, proxy: Option<string>)
    requires Regular(r) && IsOffset(offset) && HasReading(ms / 1000, offset)
    ensures ParseLine(lib, AltLine(ms, offset, r), branch, proxy)
        == Returned(RecordEvent(lib, ms, r, None, branch, proxy))
  {
    NativeReads(lib, ms, r, branch, proxy);
    AltStripped(ms, offset, r);
    AltIsNative(ms, offset, r);
    NativeIsNormal(ms, r);
    NativeAreWords(ms, r);
    StripJoined(NativeWords(ms, r));
    hide NormalizeAlt, AltLine, ParseTokens, RecordEvent, PyText.Strip, PyText.Words, NativeWords, HasTwoSizes,
        DropColumn, ParseInt, PyText.Join;
  }

  /**
   * Three renderings, one event: native, with both sizes, or under the
   * alternate clock of any zone, a record reads back as itself.
   */
  lemma ThreeRenderings(lib: Library, ms: int, offset: int, r: Record, received: string, branch: string,
      proxy: Option<string>)
    requires Regular(r)
    ensures ParseLine(lib, NativeLine(ms, r), branch, proxy) == Returned(RecordEvent(lib, ms, r, None, branch, proxy))
    ensures AllDigits(r.size) && AllDigits(received) ==>
              ParseLine(lib, TwoSizeLine(ms, r, received), branch, proxy)
              == Returned(RecordEvent(lib, ms, r, Some(ParseInt(received)), branch, proxy))
    ensures IsOffset(offset) && HasReading(ms / 1000, offset) ==>
              ParseLine(lib, AltLine(ms, offset, r), branch, proxy)
                  == Returned(RecordEvent(lib, ms, r, None, branch, proxy))
  {
    hide ParseLine, NativeLine, TwoSizeLine, AltLine, RecordEvent;
    NativeReads(lib, ms, r, branch, proxy);
    if AllDigits(r.size) && AllDigits(received) { TwoSizeReads(lib, ms, r, received, branch, proxy); }
    if IsOffset(offset) && HasReading(ms / 1000, offset) { AltReads(lib, ms, offset, r, branch, proxy); }
  }

  /** The documented clock, five hours east: 10:22:46.112 UTC. */
  lemma DocumentedClock(ms: int, rest: string)
    requires ms == 1788430966112
    requires rest != "" && !PyText.IsSpace(rest[0])
    ensures var found := MatchClock("03/Sep/2026:15:22:46 +0500.112 " + rest);
            && found.Some? && found.value.1 == rest && WellShaped(found.value.0)
            && ClockMs(found.value.0) == Some(ms) && MsText(ms) == "1788430966.112"
  {
    var line := "03/Sep/2026:15:22:46 +0500.112 " + rest;
    var c := Clock("03", "Sep", "2026", "15", "22", "46", false, "05", "00", "112");
    DocumentedFields(c);
    DocumentedLine(c, rest);
    DocumentedText(ms);
    hide ClockMs, WellShaped, MsText, MatchClock, Accepted, ClockLine, PyText.IsSpace;
    ClockRead(c, " ", " ", rest);
  }

  lemma DocumentedLine(c: Clock, rest: string)
    requires c == Clock("03", "Sep", "2026", "15", "22", "46", false, "05", "00", "112")
    ensures ClockLine(c, " ", " ", rest) == "03/Sep/2026:15:22:46 +0500.112 " + rest
    ensures Blanks(" ")
  {
    var tail := " " + (ZoneOf(c) + (FractionText(c.fraction) + (" " + rest)));
    assert tail == " +0500.112 " + rest;
    DocumentedDate(tail);
    assert "03/Sep/2026:15:22:46" + (" +0500.112 " + rest) == "03/Sep/2026:15:22:46 +0500.112 " + rest;
    hide Laid;
  }

  lemma DocumentedDate(tail: string)
    ensures Laid("03", "Sep", "2026", "15", "22", "46", tail) == "03/Sep/2026:15:22:46" + tail
  {}

  lemma DocumentedFields(c: Clock)
    requires c == Clock("03", "Sep", "2026", "15", "22", "46", false, "05", "00", "112")
    ensures Accepted(c) && ClockMs(c) == Some(1788430966112)
  {
    hide Accepted, ClockMs, WellShaped, IsReading, EpochSeconds, Padded, ClockOf;
    var t := Reading(Date(2026, 9, 3), 15, 22, 46);
    DocumentedReading(t);
    DocumentedPieces(t);
    ClockOfAccepted(t, 300, "112");
    ClockOfMs(t, 300, 112);
  }

  lemma DocumentedReading(t: Reading)
    requires t == Reading(Date(2026, 9, 3), 15, 22, 46)
    ensures IsReading(t) && EpochSeconds(t, 300) == 1788430966
  {
    assert DaysBeforeMonth(2026, 9) == 243 by {
      assert DaysBeforeMonth(2026, 3) == 59;
      assert DaysBeforeMonth(2026, 5) == 120;
      assert DaysBeforeMonth(2026, 7) == 181;
    }
  }

  lemma PaddedStep(n: nat, width: nat)
    ensures Padded(n, width + 1) == Padded(n / 10, width) + [Digit(n % 10)]
  {}

  lemma PaddedTwo(n: nat)
    requires n < 100
    ensures Padded(n, 2) == [Digit(n / 10), Digit(n % 10)]
  {
    hide Padded;
    PaddedStep(n, 1);
    PaddedStep(n / 10, 0);
    assert Padded(n / 10 / 10, 0) == "";
  }

  lemma DecimalStep(n: nat)
    ensures Decimal(n) == if n < 10 then [Digit(n)] else Decimal(n / 10) + [Digit(n % 10)]
  {}

  lemma DocumentedPieces(t: Reading)
    requires t == Reading(Date(2026, 9, 3), 15, 22, 46) && IsReading(t)
    ensures AllDigits("112") && Padded(112, 3) == "112"
    ensures ClockOf(t, 300, "112") == Clock("03", "Sep", "2026", "15", "22", "46", false, "05", "00", "112")
  {
    hide IsReading, Padded;
    PaddedTwo(t.date.day);
    PaddedTwo(t.hour);
    PaddedTwo(t.minute);
    PaddedTwo(t.second);
    PaddedTwo(5);
    PaddedTwo(0);
    PaddedTwo(11);
    PaddedTwo(20);
    PaddedStep(112, 2);
    PaddedStep(202, 2);
    PaddedStep(t.date.year, 3);
  }

  lemma DocumentedText(ms: int)
    requires ms == 1788430966112
    ensures MsText(ms) == "1788430966.112"
  {
    hide Padded, Decimal;
    PaddedTwo(11);
    PaddedStep(ms % 1000, 2);
    WholeText(ms / 1000);
  }

  lemma WholeText(n: nat)
    requires n == 1788430966
    ensures Decimal(n) == "1788430966"
  {
    hide Decimal;
    LeadingText(n / 10000);
    DecimalStep(n / 1000);
    DecimalStep(n / 100);
    DecimalStep(n / 10);
    DecimalStep(n);
  }

  lemma LeadingText(n: nat)
    requires n == 178843
    ensures Decimal(n) == "178843"
  {
    hide Decimal;
    DecimalStep(1);
    DecimalStep(17);
    DecimalStep(178);
    DecimalStep(1788);
    DecimalStep(17884);
    DecimalStep(n);
  }

  // ---- Every field ----------------------------------------------------------

  /** `cut` is what a column of `width` characters keeps of `text`. */
  predicate Keeps(cut: string, text: string, width: nat) {
    cut <= text && |cut| == if |text| < width then |text| else width
  }

  /** The same for a field in which a lone dash stands for no value. */
  predicate KeepsUnlessDash(cut: Option<string>, text: string, width: nat) {
    match cut
    case None => text == "-"
    case Some(kept) => text != "-" && Keeps(kept, text, width)
  }

  predicate KeepsHost(cut: Option<string>, host: string) {
    match cut
    case None => !LooksLikeHost(host)
    case Some(kept) => LooksLikeHost(host) && Keeps(kept, host, 255)
  }

  predicate KeepsHostRead(cut: Option<string>, read: Option<string>) {
    match read
    case None => cut == None
    case Some(host) => KeepsHost(cut, host)
  }

  /** Field by field, what the event of a record holds. */
  predicate Reports(e: ParsedEvent, ms: int, r: Record) {
    && e.timestamp == ms * 1000 && e.clientIp == r.client && e.url == r.url
    && e.durationMs == ParseInt(r.duration) && e.statusCode == ParseInt(r.status) && e.reply == ParseInt(r.size)
    && Keeps(e.action, r.action, 64) && Keeps(e.verb, r.verb, 16)
    && KeepsUnlessDash(e.user, r.user, 255) && KeepsUnlessDash(e.hierarchy, r.hierarchy, 64)
    && KeepsUnlessDash(e.peer, r.peer, 64) && KeepsUnlessDash(e.contentType, PyText.Join(r.contentType, ' '), 128)
    && (e.blocked <==> "TCP_DENIED" <= r.action || e.statusCode == 403 || e.statusCode == 407)
  }

  /** The times the parser takes are those a UTC clock of years 1 to 9999 shows. */
  lemma InstantIff(ms: int)
    ensures IsInstant(ms) <==> HasReading(ms / 1000, 0)
  {}

  lemma TruncateCuts(s: string, n: nat)
    ensures Keeps(Truncate(s, n), s, n)
  {}

  lemma AbsentCuts(s: string, n: nat)
    ensures KeepsUnlessDash(TruncateOpt(Absent(s), n), s, n)
  {
    TruncateCuts(s, n);
  }

  lemma EventReports(lib: Library, ms: int, r: Record, received: Option<int>, branch: string, proxy: Option<string>)
    requires IsInstant(ms) && lib.isIp(r.client)
    ensures var e := RecordEvent(lib, ms, r, received, branch, proxy);
            && e.Some? && Reports(e.value, ms, r)
            && e.value.received == received && e.value.branch == branch && e.value.proxy == proxy
  {
    TruncateCuts(r.action, 64);
    TruncateCuts(r.verb, 16);
    AbsentCuts(r.user, 255);
    AbsentCuts(r.hierarchy, 64);
    AbsentCuts(r.peer, 64);
    AbsentCuts(PyText.Join(r.contentType, ' '), 128);
    hide Truncate, TruncateOpt, Absent, ExtractDomain, ParseInt, PyText.Join, Keeps, KeepsUnlessDash;
  }

  /** In each of the three formats a regular record of a real time and address reads back with every field it states. */
  lemma FieldsRead(lib: Library, ms: int, offset: int, r: Record, received: string, branch: string,
      proxy: Option<string>)
    requires Regular(r) && IsInstant(ms) && lib.isIp(r.client)
    requires IsOffset(offset) && HasReading(ms / 1000, offset) && AllDigits(r.size) && AllDigits(received)
    ensures exists e: ParsedEvent ::
              && Reports(e, ms, r) && e.branch == branch && e.proxy == proxy
              && ParseLine(lib, NativeLine(ms, r), branch, proxy) == Returned(Some(e.(received := None)))
              && ParseLine(lib, AltLine(ms, offset, r), branch, proxy) == Returned(Some(e.(received := None)))
              && ParseLine(lib, TwoSizeLine(ms, r, received), branch, proxy)
                 == Returned(Some(e.(received := Some(ParseInt(received)))))
  {
    hide ParseLine, NativeLine, TwoSizeLine, AltLine, Reports;
    ThreeRenderings(lib, ms, offset, r, received, branch, proxy);
    EventReports(lib, ms, r, None, branch, proxy);
    var e := RecordEvent(lib, ms, r, None, branch, proxy).value;
    assert e.(received := None) == e;
  }

  /** A record of no real time, or of no real address, is not. */
  lemma NativeRejected(lib: Library, ms: int, r: Record, branch: string, proxy: Option<string>)
    requires Regular(r) && (!HasReading(ms / 1000, 0) || !lib.isIp(r.client))
    ensures ParseLine(lib, NativeLine(ms, r), branch, proxy) == Returned(None)
  {
    hide ParseLine, NativeLine;
    NativeReads(lib, ms, r, branch, proxy);
    InstantIff(ms);
  }

  /**
   * A native line of other than ten words and without a second size.  With fewer there is no event; with
   * more, the words from the tenth on are one field if the fourth has a slash
   * and the ninth has one or is a lone dash, and there is no event otherwise.
   */
  lemma OddLines(lib: Library, ms: int, rest: seq<string>, branch: string, proxy: Option<string>)
    requires PyText.AreWords(rest) && |rest| != 9
    requires |rest| >= 10 ==> '/' !in rest[2] || !AllDigits(rest[3]) || !AllDigits(rest[4])
    ensures var words := [MsText(ms)] + rest;
            ParseLine(lib, PyText.Join(words, ' '), branch, proxy) == Returned(
              if |words| > 10 && '/' in words[3] && ('/' in words[8] || words[8] == "-") then
                EventOf(lib, words[..9] + [PyText.Join(words[9..], ' ')], None, branch, proxy)
              else None)
  {
    hide EventOf, MsText, ParseLine, NormalizeAlt, AllDigits, PyText.SplitMax, PyText.Join, PyText.IsWord;
    var words := [MsText(ms)] + rest;
    MsTextPlain(ms);
    assert PyText.AreWords(words);
    assert |rest| >= 10 ==> words[3] == rest[2] && words[4] == rest[3] && words[5] == rest[4];
    assert !HasTwoSizes(words);
    WordsAreNormal(ms, rest);
    ParseJoined(lib, words, branch, proxy);
    if |words| > 10 {
      PyText.SplitMaxOfSpaced(words, 9);
    } else {
      FewWords(words, 9);
    }
  }

  lemma WordsAreNormal(ms: int, rest: seq<string>)
    ensures var line := PyText.Join([MsText(ms)] + rest, ' '); NormalizeAlt(line) == Some(line)
  {
    MsTextPlain(ms);
    var words := [MsText(ms)] + rest;
    JoinStartsWith(words);
    var line := PyText.Join(words, ' ');
    NoClock(MsText(ms), line[|MsText(ms)|..]);
    assert line == MsText(ms) + line[|MsText(ms)|..];
  }

  /** Cutting a text of no more words than that gives them back. */
  lemma {:induction false} FewWords(words: seq<string>, n: nat)
    requires PyText.AreWords(words) && |words| <= n
    ensures PyText.SplitMax(PyText.Join(words, ' '), n) == words
    ensures words != [] ==> PyText.SplitMax(" " + PyText.Join(words, ' '), n) == words
    decreases n
  {
    if words != [] {
      hide PyText.Join, PyText.SplitMax;
      PyText.SplitMaxStep(PyText.Join(words, ' '), words, n);
      PyText.SplitMaxStep(" " + PyText.Join(words, ' '), words, n);
      PyText.SpacedStarts(words);
      assert PyText.AreWords(words[1..]);
      FewWords(words[1..], n - 1);
      NoWords(n - 1);
      assert words == [words[0]] + words[1..];
    } else {
      NoWords(n);
    }
  }

  lemma NoWords(n: nat)
    ensures PyText.SplitMax("", n) == [] && PyText.Join([], ' ') == ""
  {}

  /** Behind a clock, fewer than nine words make no event. */
  lemma ShortClockLine(lib: Library, c: Clock, gap: string, more: string, words: seq<string>, branch: string,
      proxy: Option<string>)
    requires Accepted(c) && Blanks(gap) && Blanks(more) && ClockMs(c).Some? && |c.fraction| <= MAX_INT_DIGITS
    requires PyText.AreWords(words) && 0 < |words| < 9
    ensures ParseLine(lib, ClockLine(c, gap, more, PyText.Join(words, ' ')), branch, proxy) == Returned(None)
  {
    hide ClockLine, MatchClock, ClockMs, PyText.Strip, PyText.SplitMax, PyText.Join, MsText, AllDigits, ParseStripped,
        PyText.IsSpace, PyText.IsWord;
    var rest := PyText.Join(words, ' ');
    PyText.SpacedStarts(words);
    JoinedEnds(words);
    ClockLineStripped(c, gap, more, rest);
    ClockRead(c, gap, more, rest);
    FewWords(words, 8);
    FewFields(lib, ClockMs(c).value, words, branch, proxy);
  }

  lemma FewFields(lib: Library, ms: int, words: seq<string>, branch: string, proxy: Option<string>)
    requires PyText.AreWords(words) && 0 < |words| < 9
    ensures ParseStripped(lib, MsText(ms) + " " + PyText.Join(words, ' '), branch, proxy) == None
  {
    hide PyText.Words, PyText.SplitMax, PyText.Join, MsText, EventOf, PyText.IsWord;
    MsTextPlain(ms);
    var all := [MsText(ms)] + words;
    assert PyText.AreWords(all);
    JoinFirst(MsText(ms), words);
    PyText.WordsOfSpaced(all);
    FewWords(all, 9);
  }

  /** A record of a real time and address is always read. */
  lemma NativeReports(lib: Library, ms: int, r: Record, branch: string, proxy: Option<string>)
    requires Regular(r) && IsInstant(ms) && lib.isIp(r.client)
    ensures var o := ParseLine(lib, NativeLine(ms, r), branch, proxy);
            && o.Returned? && o.event.Some? && Reports(o.event.value, ms, r)
            && o.event.value.domain == TruncateOpt(ExtractDomain(lib, r.url, r.verb), 255)
  {
    hide ParseLine, NativeLine, Reports, TruncateOpt, ExtractDomain;
    NativeReads(lib, ms, r, branch, proxy);
    EventReports(lib, ms, r, None, branch, proxy);
  }

  /**
   * The domain column, by the form of the logged URL.  With a scheme: the host
   * the library reads off it.  As "host:port", for a tunnel or without a scheme:
   * the host.  Without a colon: all of it.  In each case cut to the column, and
   * nothing where it does not look like a host.
   */
  lemma DomainRead(lib: Library, ms: int, r: Record, left: string, right: string, branch: string,
      proxy: Option<string>)
    requires Regular(r) && IsInstant(ms) && lib.isIp(r.client)
    ensures var o := ParseLine(lib, NativeLine(ms, r), branch, proxy);
            && o.Returned? && o.event.Some?
            && var domain := o.event.value.domain;
               && (r.url == left + "://" + right && r.verb != "CONNECT" ==>
                     KeepsHostRead(domain, lib.hostname(r.url)))
               && (r.url == left + ":" + right && ':' !in right && (r.verb == "CONNECT" || NoScheme(r.url)) ==>
                     KeepsHost(domain, left))
               && (':' !in r.url ==> KeepsHost(domain, r.url))
  {
    hide ParseLine, NativeLine, Reports, ExtractDomain, LooksLikeHost, Truncate, Keeps;
    NativeReports(lib, ms, r, branch, proxy);
    var found := ExtractDomain(lib, r.url, r.verb);
    if found.Some? { TruncateCuts(found.value, 255); }
    if r.url == left + "://" + right && r.verb != "CONNECT" { UrlYieldsHost(lib, left, right, r.verb); }
    if r.url == left + ":" + right && ':' !in right {
      if r.verb == "CONNECT" {
        ConnectYieldsHost(lib, left, right);
      } else if NoScheme(r.url) {
        BareYieldsHost(lib, left, right, r.verb);
      }
    }
    if ':' !in r.url { ColonlessYieldsItself(lib, r.url, r.verb); }
  }

  // ---- What the parser lets through -----------------------------------------

  lemma ClockLineStripped(c: Clock, gap: string, more: string, rest: string)
    requires Accepted(c) && rest != "" && !PyText.IsSpace(rest[|rest| - 1])
    ensures PyText.Strip(ClockLine(c, gap, more, rest)) == ClockLine(c, gap, more, rest) != ""
  {
    var line := ClockLine(c, gap, more, rest);
    assert IsDigit(c.day[0]);
    var x := gap + (ZoneOf(c) + (FractionText(c.fraction) + (more + rest)));
    assert x[|x| - 1] == rest[|rest| - 1];
    LaidEnds(c.day, c.month, c.year, c.hour, c.minute, c.second, x);
    assert line[0] == c.day[0];
    hide Laid, ZoneOf, FractionText, Shaped;
  }

  /**
   * A line that starts with a clock, however spelled and spaced, makes the
   * parser raise exactly if its date, time and zone exist and its fraction is
   * over 4300 digits long.
   */
  lemma RaisesIffLongFraction(lib: Library, c: Clock, gap: string, more: string, rest: string, branch: string,
      proxy: Option<string>)
    requires Accepted(c) && Blanks(gap) && Blanks(more)
    requires rest != "" && !PyText.IsSpace(rest[0]) && !PyText.IsSpace(rest[|rest| - 1])
    ensures ParseLine(lib, ClockLine(c, gap, more, rest), branch, proxy).Raised?
            <==> ClockMs(c).Some? && |c.fraction| > MAX_INT_DIGITS
  {
    hide ClockLine, MatchClock, ClockMs, ParseStripped, PyText.Strip, PyText.SplitMax, PyText.Join, MsText, AllDigits,
        PyText.IsSpace;
    ClockLineStripped(c, gap, more, rest);
    ClockRead(c, gap, more, rest);
  }

  /**
   * The event of a regular record fits the columns exactly if its status is
   * read as a 32-bit number and its address has at most 45 characters.
   */
  lemma RecordFitsIff(lib: Library, ms: int, r: Record, branch: string, proxy: Option<string>)
    requires Regular(r) && IsInstant(ms) && lib.isIp(r.client)
    requires |branch| <= MAX_TAG_LEN && FitsOpt(proxy, MAX_TAG_LEN)
    ensures var o := ParseLine(lib, NativeLine(ms, r), branch, proxy);
            && o.Returned? && o.event.Some?
            && (FitsColumns(o.event.value) <==> ParseInt(r.status) <= MAX_INTEGER && |r.client| <= MAX_ADDRESS_LEN)
  {
    hide ParseLine, NativeLine, FitsColumns, Regular, ParseInt, ExtractDomain, TruncateOpt, PyText.Join;
    NativeReads(lib, ms, r, branch, proxy);
    ParsedFitsIff(lib, NativeLine(ms, r), branch, proxy);
  }

  /** An ordinary line but for its status and size. */
  function Ordinary(status: string, size: string): Record {
    Record("1", "10.0.0.1", "TCP_MISS", status, size, "GET", "http://a/", "-", "HIER_NONE", "-", ["-"])
  }

  lemma PlainFields()
    ensures PyText.AreWords(["1", "10.0.0.1", "TCP_MISS", "GET", "http://a/", "-", "HIER_NONE"])
    ensures '/' !in "TCP_MISS" && '/' !in "HIER_NONE"
  {}

  lemma OrdinaryIsRegular(status: string, size: string)
    requires AllDigits(status) && AllDigits(size)
    ensures Regular(Ordinary(status, size))
  {
    assert PyText.IsWord(status) && PyText.IsWord(size);
    PlainFields();
    hide PyText.IsWord;
    assert !IsDigit("GET"[0]);
  }

  /** No column takes a status of 2^31 or more, and the parser passes it on. */
  lemma LargeStatusDoesNotFit(lib: Library, ms: int, status: nat)
    requires IsInstant(ms) && lib.isIp("10.0.0.1") && |Decimal(status)| <= MAX_INT_DIGITS
    ensures var o := ParseLine(lib, NativeLine(ms, Ordinary(Decimal(status), Decimal(1))), "main", None);
            && o.Returned? && o.event.Some?
            && (FitsColumns(o.event.value) <==> status <= MAX_INTEGER)
  {
    hide ParseLine, NativeLine, FitsColumns, Regular, ParseInt, Decimal;
    DecimalDigits(status);
    DecimalDigits(1);
    OrdinaryIsRegular(Decimal(status), Decimal(1));
    WrittenNumbersReadBack(status);
    RecordFitsIff(lib, ms, Ordinary(Decimal(status), Decimal(1)), "main", None);
  }

  function SizeRecord(size: nat): Record { Ordinary(Decimal(200), Decimal(size)) }

  /** An ordinary line reads back with its size, as long as that is a 64-bit number. */
  lemma SizeReads(lib: Library, ms: int, size: nat)
    requires IsInstant(ms) && lib.isIp("10.0.0.1") && size <= MAX_BIGINT
    ensures var o := ParseLine(lib, NativeLine(ms, SizeRecord(size)), "main", None);
            && o.Returned? && o.event.Some? && FitsColumns(o.event.value) && o.event.value.reply == size
            && o.event.value.timestamp == ms * 1000 && o.event.value.branch == "main"
  {
    hide ParseLine, NativeLine, FitsColumns, Regular, ParseInt, Decimal, ExtractDomain, TruncateOpt, PyText.Join;
    DecimalDigits(200);
    DecimalDigits(size);
    OrdinaryIsRegular(Decimal(200), Decimal(size));
    SmallEnough(200);
    SmallEnough(size);
    WrittenNumbersReadBack(200);
    WrittenNumbersReadBack(size);
    NativeReads(lib, ms, SizeRecord(size), "main", None);
    RecordFitsIff(lib, ms, SizeRecord(size), "main", None);
  }

  lemma SmallEnough(n: nat)
    requires n <= MAX_BIGINT
    ensures |Decimal(n)| <= MAX_INT_DIGITS
  {
    assert Pow10(10) == 10_000_000_000;
    Pow10Sum(10, 10);
    DecimalLength(n, 20);
  }
}
