/** One access-log line to one event: the native format, the two-size variant and the alternate clock. */
module LogParser {
  import opened CivilTime
  import opened Events
  import opened Numerals
  import opened Options
  import opened Sequences
  import PyText

  const EXPECTED_FIELD_COUNT := 10
  const EMPTY := "-"

  /**
   * What the parser takes from its libraries: which texts are IP addresses,
   * the host name of a URL (None also where urlsplit raises), and the
   * microsecond timestamps of texts other than plain seconds with milliseconds.
   */
  datatype Library = Library(isIp: string -> bool, hostname: string -> Option<string>, clock: string -> Option<int>)

  // ---- Single fields --------------------------------------------------------

  function Truncate(s: string, n: nat): string { if |s| <= n then s else s[..n] }

  function TruncateOpt(s: Option<string>, n: nat): Option<string> {
    match s case None => None case Some(text) => Some(Truncate(text, n))
  }

  const MAX_BIGINT := 0x7FFF_FFFF_FFFF_FFFF
  const MAX_INT_DIGITS := 4300

  lemma {:induction false} FlattenDigits(parts: seq<string>)
    requires forall i :: 0 <= i < |parts| ==> AllDigits(parts[i])
    ensures forall i :: 0 <= i < |Flatten(parts)| ==> IsDigit(Flatten(parts)[i])
  {
    if parts != [] {
      FlattenDigits(parts[..|parts| - 1]);
      assert AllDigits(parts[|parts| - 1]);
    }
  }

  /** The number that groups of digits joined by single underscores stand for. */
  function Unsigned(body: string): Option<nat> {
    var groups := PyText.Split(body, '_');
    if (forall i :: 0 <= i < |groups| ==> AllDigits(groups[i])) && |Flatten(groups)| <= MAX_INT_DIGITS then
      FlattenDigits(groups);
      Some(Value(Flatten(groups)))
    else None
  }

  /** int(raw), None where it raises: such groups, perhaps signed. */
  function PyInt(raw: string): Option<int> {
    var signed := raw != "" && (raw[0] == '+' || raw[0] == '-');
    match Unsigned(if signed then raw[1..] else raw)
    case None => None
    case Some(size) =>
      var n: int := size;
      Some(if signed && raw[0] == '-' then -n else n)
  }

  /** Whatever the token, a value the integer columns can hold. */
  function ParseInt(raw: string): (n: int)
    ensures 0 <= n <= MAX_BIGINT
  {
    match PyInt(raw)
    case None => 0
    case Some(n) => if n < 0 then 0 else if n > MAX_BIGINT then MAX_BIGINT else n
  }

  predicate IsAlnum(c: char) { IsDigit(c) || 'A' <= c <= 'Z' || 'a' <= c <= 'z' }

  predicate LooksLikeHost(s: string) {
    && s != "" && IsAlnum(s[0]) && (|s| > 1 ==> IsAlnum(s[|s| - 1]) || s[|s| - 1] == ']')
    && forall i :: 0 < i < |s| - 1 ==>
         IsAlnum(s[i]) || s[i] == '.' || s[i] == '-' || s[i] == ':' || s[i] == '_' || s[i] == '[' || s[i] == ']'
  }

  /** The text before the last `c`, or all of it. */
  function BeforeLast(s: string, c: char): (front: string)
    ensures front <= s
    decreases |s|
  {
    if c !in s then s
    else if s[|s| - 1] == c then s[..|s| - 1]
    else BeforeLast(s[..|s| - 1], c)
  }

  /** No colon is followed by two slashes. */
  predicate NoScheme(url: string) { forall i :: 0 <= i < |url| && url[i] == ':' ==> !("//" <= url[i + 1..]) }

  lemma SchemeIff(url: string)
    ensures PyText.Contains(url, "://") <==> !NoScheme(url)
  {
    forall i | 0 <= i <= |url|
      ensures PyText.OccursAt(url, "://", i) <==> i < |url| && url[i] == ':' && "//" <= url[i + 1..]
    {
      if i < |url| { assert url[i..] == [url[i]] + url[i + 1..] && "://" == [':'] + "//"; }
      if i + 3 <= |url| { assert url[i..i + 3] == url[i..][..3] == [url[i]] + url[i + 1..][..2]; }
    }
  }

  /** Reported only if it looks like a host: what the library reads off a URL with a scheme, else how the URL starts. */
  function ExtractDomain(lib: Library, url: string, verb: string): (domain: Option<string>)
    ensures domain.Some? ==> LooksLikeHost(domain.value)
    ensures domain.Some? && verb != "CONNECT" && !NoScheme(url) ==> domain == lib.hostname(url)
    ensures domain.Some? && (verb == "CONNECT" || NoScheme(url)) ==> domain.value <= url
  {
    SchemeIff(url);
    if url == "" || url == EMPTY then None
    else
      var host :=
        if verb == "CONNECT" || !PyText.Contains(url, "://") then Some(BeforeLast(url, ':')) else lib.hostname(url);
      if host.Some? && LooksLikeHost(host.value) then host else None
  }

  /** The text before the first `c`, and after it; None if there is none. */
  function Partition(s: string, c: char): (string, Option<string>) {
    if s == "" then ("", None)
    else if s[0] == c then ("", Some(s[1..]))
    else
      var (head, tail) := Partition(s[1..], c);
      ([s[0]] + head, tail)
  }

  function Absent(s: string): Option<string> { if s == EMPTY then None else Some(s) }

  // ---- Timestamps -----------------------------------------------------------

  /** f"{ms / 1000:.3f}" */
  function MsText(ms: int): string {
    var size: nat := if ms < 0 then -ms else ms;
    (if ms < 0 then "-" else "") + Decimal(size / 1000) + "." + Padded(size % 1000, 3)
  }

  /** Plain seconds with three decimals, in milliseconds. */
  function PlainMs(raw: string): Option<int> {
    var negative := "-" <= raw;
    var body := if negative then raw[1..] else raw;
    var n := |body| - 4;
    if n > 0 && body[n] == '.' && AllDigits(body[..n]) && AllDigits(body[n + 1..]) then
      var ms := 1000 * Value(body[..n]) + Value(body[n + 1..]);
      Some(if negative then -ms else ms)
    else None
  }

  const MS_PER_DAY := 86_400_000

  /** Years 1 to 9999. */
  predicate IsInstant(ms: int) {
    (1 - EPOCH_ORDINAL) * MS_PER_DAY <= ms < (LAST_ORDINAL + 1 - EPOCH_ORDINAL) * MS_PER_DAY
  }

  /** datetime.fromtimestamp(float(raw), tz=UTC) in microseconds. */
  function Timestamp(lib: Library, raw: string): Option<int> {
    match PlainMs(raw)
    case None => lib.clock(raw)
    case Some(ms) => if IsInstant(ms) then Some(ms * 1000) else None
  }

  // ---- Fields to event ------------------------------------------------------

  predicate IsRefusal(action: string, status: int) { "TCP_DENIED" <= action || status == 403 || status == 407 }

  function EventOf(lib: Library, tokens: seq<string>, received: Option<int>, branch: string,
      proxy: Option<string>): Option<ParsedEvent>
    requires |tokens| == EXPECTED_FIELD_COUNT
  {
    var timestamp := Timestamp(lib, tokens[0]);
    if timestamp.None? || !lib.isIp(tokens[2]) then None
    else
      var (action, rawStatus) := Partition(tokens[3], '/');
      var status := ParseInt(if rawStatus.Some? then rawStatus.value else "0");
      var (hierarchy, rawPeer) := Partition(tokens[8], '/');
      var peer := if rawPeer.Some? then Absent(rawPeer.value) else None;
      Some(ParsedEvent(
             timestamp.value, ParseInt(tokens[1]), tokens[2], Truncate(action, 64), status, ParseInt(tokens[4]),
             Truncate(tokens[5], 16), tokens[6], TruncateOpt(ExtractDomain(lib, tokens[6], tokens[5]), 255),
             TruncateOpt(Absent(tokens[7]), 255), TruncateOpt(Absent(hierarchy), 64), TruncateOpt(peer, 64),
             TruncateOpt(Absent(tokens[9]), 128), IsRefusal(action, status), branch, received, proxy))
  }

  // ---- The alternate clock --------------------------------------------------

  datatype Clock = Clock(
    day: string, month: string, year: string, hour: string, minute: string, second: string,
    negative: bool, zoneHours: string, zoneMinutes: string, fraction: string)

  /** Does `s` start with this shape: `d` a digit, `a` a letter, anything else itself? */
  predicate Shaped(s: string, shape: string) {
    |s| >= |shape| && forall i :: 0 <= i < |shape| ==> Fits(s[i], shape[i])
  }

  predicate Fits(c: char, shape: char) {
    if shape == 'd' then IsDigit(c) else if shape == 'a' then 'A' <= c <= 'Z' || 'a' <= c <= 'z' else c == shape
  }

  /** How many digits precede the first slash: one, two, or not a day. */
  function DayDigits(s: string): nat { if Shaped(s, "d/") then 1 else if Shaped(s, "dd/") then 2 else 0 }

  function DigitRun(s: string): (n: nat)
    ensures n <= |s| && forall i :: 0 <= i < n ==> IsDigit(s[i])
  {
    if s != "" && IsDigit(s[0]) then 1 + DigitRun(s[1..]) else 0
  }

  const CLOCK_SHAPE := "/aaa/dddd:dd:dd:dd"

  /** The clock a line starts with, and what follows the blanks after it. */
  function MatchClock(s: string): Option<(Clock, string)> {
    var k := DayDigits(s);
    if k == 0 || !Shaped(s[k..], CLOCK_SHAPE) then None
    else
      var t := s[k..];
      var zone := PyText.StripLeft(t[18..]);
      if zone == t[18..] || !(Shaped(zone, "+dddd") || Shaped(zone, "-dddd")) then None
      else
        var after := zone[5..];
        var n := if "." <= after then DigitRun(after[1..]) else 0;
        var tail := if n > 0 then after[n + 1..] else after;
        var rest := PyText.StripLeft(tail);
        if rest == tail then None
        else
          Some((Clock(s[..k], t[1..4], t[5..9], t[10..12], t[13..15], t[16..18],
                      zone[0] == '-', zone[1..3], zone[3..5], if n > 0 then after[1..n + 1] else ""), rest))
  }

  const MONTHS := ["Jan", "Feb", "Mar", "Apr", "May", "Jun", "Jul", "Aug", "Sep", "Oct", "Nov", "Dec"]

  function IndexIn(names: seq<string>, name: string): (i: nat)
    ensures i <= |names| && (i < |names| ==> names[i] == name)
  {
    if names == [] || names[0] == name then 0 else 1 + IndexIn(names[1..], name)
  }

  /** The month a three-letter abbreviation names in any mix of cases; 13 for none. */
  function MonthNumber(name: string): nat
    requires |name| == 3
  {
    IndexIn(MONTHS, [PyText.UpperChar(name[0]), PyText.LowerChar(name[1]), PyText.LowerChar(name[2])]) + 1
  }

  predicate WellShaped(c: Clock) {
    && AllDigits(c.day) && |c.month| == 3 && AllDigits(c.year) && AllDigits(c.hour) && AllDigits(c.minute)
    && AllDigits(c.second) && AllDigits(c.zoneHours) && AllDigits(c.zoneMinutes)
        && (c.fraction == "" || AllDigits(c.fraction))
  }

  /** int() refuses a number of that many digits, and here nothing catches its refusal. */
  predicate FractionTooLong(c: Clock) { |c.fraction| > MAX_INT_DIGITS }

  /** `fraction` of a second to the nearest millisecond, ties to even. */
  function FractionMs(seconds: int, fraction: string): int
    requires fraction == "" || AllDigits(fraction)
  {
    var ms, unit := 1000 * Value(fraction), Pow10(|fraction|);
    var q, rest := seconds * 1000 + ms / unit, ms % unit;
    if 2 * rest > unit || (2 * rest == unit && q % 2 != 0) then q + 1 else q
  }

  /** The epoch milliseconds of a clock; None for a month, date, time or zone that does not exist. */
  function ClockMs(c: Clock): Option<int>
    requires WellShaped(c)
  {
    var reading := Reading(Date(Value(c.year), MonthNumber(c.month), Value(c.day)),
                           Value(c.hour), Value(c.minute), Value(c.second));
    var size := Value(c.zoneHours) * 60 + Value(c.zoneMinutes);
    var offset := if c.negative then -size else size;
    if !IsReading(reading) || !IsOffset(offset) then None
    else Some(FractionMs(EpochSeconds(reading, offset), c.fraction))
  }

  lemma ShapedDigits(s: string, shape: string, from: nat, to: nat)
    requires Shaped(s, shape) && from < to <= |shape| && forall i :: from <= i < to ==> shape[i] == 'd'
    ensures AllDigits(s[from..to])
  {
    forall i | from <= i < to ensures IsDigit(s[i]) { assert Fits(s[i], shape[i]); }
  }

  lemma ClockShapeDigits(t: string)
    requires Shaped(t, CLOCK_SHAPE)
    ensures AllDigits(t[5..9]) && AllDigits(t[10..12]) && AllDigits(t[13..15]) && AllDigits(t[16..18])
  {
    hide Shaped;
    ShapedDigits(t, CLOCK_SHAPE, 5, 9);
    ShapedDigits(t, CLOCK_SHAPE, 10, 12);
    ShapedDigits(t, CLOCK_SHAPE, 13, 15);
    ShapedDigits(t, CLOCK_SHAPE, 16, 18);
  }

  lemma ZoneDigits(zone: string)
    requires Shaped(zone, "+dddd") || Shaped(zone, "-dddd")
    ensures AllDigits(zone[1..3]) && AllDigits(zone[3..5])
  {
    hide Shaped;
    var shape := if Shaped(zone, "+dddd") then "+dddd" else "-dddd";
    ShapedDigits(zone, shape, 1, 3);
    ShapedDigits(zone, shape, 3, 5);
  }

  lemma DayDigitsAre(s: string)
    ensures DayDigits(s) <= |s| && (DayDigits(s) > 0 ==> AllDigits(s[..DayDigits(s)]))
  {
    if Shaped(s, "d/") { ShapedDigits(s, "d/", 0, 1); }
    if Shaped(s, "dd/") { ShapedDigits(s, "dd/", 0, 2); }
  }

  lemma FractionDigits(after: string, n: nat)
    requires n > 0 && after != "" && n == DigitRun(after[1..])
    ensures AllDigits(after[1..n + 1])
  {
    assert forall i :: 0 <= i < n ==> IsDigit(after[1..][i]);
  }

  lemma MatchIsWellShaped(s: string)
    ensures MatchClock(s).Some? ==> WellShaped(MatchClock(s).value.0)
  {
    DayDigitsAre(s);
    if MatchClock(s).Some? {
      var t := s[DayDigits(s)..];
      var zone := PyText.StripLeft(t[18..]);
      ClockShapeDigits(t);
      ZoneDigits(zone);
      var after := zone[5..];
      var n := if "." <= after then DigitRun(after[1..]) else 0;
      if n > 0 { FractionDigits(after, n); }
      hide DayDigits, Fits, DigitRun, PyText.StripLeft, AllDigits;
    }
  }

  const REST_FIELD_COUNT := EXPECTED_FIELD_COUNT - 1
  const HIERARCHY_INDEX := 6
  const USER_INDEX := 7

  /**
   * A line that starts with the alternate clock, rewritten to the native
   * layout; any other line unchanged.  None where it raises.
   */
  function NormalizeAlt(stripped: string): Option<string> {
    MatchIsWellShaped(stripped);
    var found := MatchClock(stripped);
    if found.None? then Some(stripped)
    else
      var ms := ClockMs(found.value.0);
      if ms.None? then Some(stripped)
      else if FractionTooLong(found.value.0) then None
      else
        var rest := found.value.1;
        var fields := PyText.SplitMax(rest, REST_FIELD_COUNT - 1);
        if |fields| < REST_FIELD_COUNT then Some(MsText(ms.value) + " " + rest)
        else
          var swapped := fields[HIERARCHY_INDEX := fields[USER_INDEX]][USER_INDEX := fields[HIERARCHY_INDEX]];
          Some(MsText(ms.value) + " " + PyText.Join(swapped, ' '))
  }

  // ---- Lines ----------------------------------------------------------------

  /** The two fields Squid always logs as TAG/value still look like it. */
  predicate LooksLikeValidPrefix(tokens: seq<string>)
    requires |tokens| == EXPECTED_FIELD_COUNT
  {
    '/' in tokens[3] && ('/' in tokens[8] || tokens[8] == EMPTY)
  }

  /** Both byte counts are logged: a number stands where the method would. */
  predicate HasTwoSizes(tokens: seq<string>) {
    |tokens| >= EXPECTED_FIELD_COUNT + 1 && '/' in tokens[3] && AllDigits(tokens[4]) && AllDigits(tokens[5])
  }

  function DropColumn(tokens: seq<string>): seq<string>
    requires |tokens| > 4
  {
    tokens[..4] + tokens[5..]
  }

  function ParseTokens(lib: Library, stripped: string, tokens: seq<string>, received: Option<int>, branch: string,
      proxy: Option<string>): Option<ParsedEvent> {
    if |tokens| == EXPECTED_FIELD_COUNT then EventOf(lib, tokens, received, branch, proxy)
    else
      var lenient := PyText.SplitMax(stripped, EXPECTED_FIELD_COUNT - 1);
      if |lenient| == EXPECTED_FIELD_COUNT && LooksLikeValidPrefix(lenient) then
        EventOf(lib, lenient, received, branch, proxy)
      else None
  }

  /** How a call ends: with an event or None, or with an exception. */
  datatype Outcome = Returned(event: Option<ParsedEvent>) | Raised

  function ParseStripped(lib: Library, stripped: string, branch: string, proxy: Option<string>): Option<ParsedEvent> {
    var tokens := PyText.Words(stripped);
    if HasTwoSizes(tokens) then
      var fewer := DropColumn(tokens);
      ParseTokens(lib, PyText.Join(fewer, ' '), fewer, Some(ParseInt(tokens[4])), branch, proxy)
    else ParseTokens(lib, stripped, tokens, None, branch, proxy)
  }

  function ParseLine(lib: Library, line: string, branch: string, proxy: Option<string>): Outcome {
    var bare := PyText.Strip(line);
    if bare == "" then Returned(None)
    else
      match NormalizeAlt(bare)
      case None => Raised
      case Some(stripped) => Returned(ParseStripped(lib, stripped, branch, proxy))
  }

  // ---- Numbers and hosts as Squid writes them ------------------------------

  lemma {:induction false} SplitNothing(s: string, c: char)
    requires c !in s
    ensures PyText.Split(s, c) == [s]
  {
    PyText.JoinThenSplit([s], c);
  }

  lemma UnsignedOfDigits(s: string)
    requires AllDigits(s)
    ensures Unsigned(s) == if |s| <= MAX_INT_DIGITS then Some(Value(s)) else None
  {
    hide Value, PyText.Split, Flatten;
    assert '_' !in s;
    SplitNothing(s, '_');
    FlattenOne(s);
  }

  /**
   * A number reads back as itself, one too large for the column as the largest
   * that fits, one of over 4300 digits and a negative one as zero.
   */
  lemma WrittenNumbersReadBack(n: nat)
    ensures ParseInt(Decimal(n)) ==
            if |Decimal(n)| > MAX_INT_DIGITS then 0 else if n <= MAX_BIGINT then n else MAX_BIGINT
    ensures ParseInt("-" + Decimal(n)) == 0
  {
    hide Decimal, Value, Unsigned;
    var s := Decimal(n);
    ValueOfDecimal(n);
    UnsignedOfDigits(s);
    assert IsDigit(s[0]);
    assert ("-" + s)[1..] == s;
  }

  /**
   * Groups of digits joined by single underscores read as one number, a plus
   * sign in front or not; with a minus sign they read as zero.
   */
  lemma GroupedNumbersReadBack(groups: seq<string>)
    requires groups != [] && forall i :: 0 <= i < |groups| ==> AllDigits(groups[i])
    ensures forall i :: 0 <= i < |Flatten(groups)| ==> IsDigit(Flatten(groups)[i])
    ensures var text := PyText.Join(groups, '_');
            var n := if |Flatten(groups)| > MAX_INT_DIGITS then 0 else Value(Flatten(groups));
            && ParseInt(text) == (if n <= MAX_BIGINT then n else MAX_BIGINT)
            && ParseInt("+" + text) == ParseInt(text) && ParseInt("-" + text) == 0
  {
    hide Value, Flatten, PyText.Split;
    var text := PyText.Join(groups, '_');
    FlattenDigits(groups);
    forall i | 0 <= i < |groups| ensures '_' !in groups[i] { assert AllDigits(groups[i]); }
    PyText.JoinThenSplit(groups, '_');
    assert IsDigit(groups[0][0]) && text[0] == groups[0][0];
    assert ("+" + text)[1..] == text && ("-" + text)[1..] == text;
  }

  /** A text with anything but digits and underscores behind its sign reads as zero. */
  lemma OtherTextIsZero(s: string, i: nat)
    requires i < |s| && !IsDigit(s[i]) && s[i] != '_' && (i == 0 ==> s[0] != '+' && s[0] != '-')
    ensures ParseInt(s) == 0
  {
    hide Value, Flatten, PyText.Split, AllDigits;
    NotANumber(s, i);
    if i > 0 {
      assert s[1..][i - 1] == s[i];
      NotANumber(s[1..], i - 1);
    }
  }

  lemma NotANumber(body: string, i: nat)
    requires i < |body| && !IsDigit(body[i]) && body[i] != '_'
    ensures Unsigned(body) == None
  {
    PyText.SplitThenJoin(body, '_');
    JoinedChar(PyText.Split(body, '_'), '_', i);
    hide Value, Flatten, PyText.Split, PyText.Join;
  }

  /** Every character of a joined text is the separator or one of a piece. */
  lemma {:induction false} JoinedChar(parts: seq<string>, sep: char, i: nat)
    requires parts != [] && i < |PyText.Join(parts, sep)|
    ensures PyText.Join(parts, sep)[i] == sep || exists k :: 0 <= k < |parts| && PyText.Join(parts, sep)[i] in parts[k]
  {
    if |parts| > 1 && i > |parts[0]| {
      var n := i - |parts[0]| - 1;
      JoinedChar(parts[1..], sep, n);
      var rest := PyText.Join(parts[1..], sep);
      assert PyText.Join(parts, sep)[i] == rest[n];
      if rest[n] != sep {
        var k :| 0 <= k < |parts| - 1 && rest[n] in parts[1..][k];
        assert rest[n] in parts[k + 1];
      }
    } else if |parts| == 1 || i < |parts[0]| {
      assert PyText.Join(parts, sep)[i] == parts[0][i];
      assert PyText.Join(parts, sep)[i] in parts[0];
    }
  }

  lemma {:induction false} BeforeLastOf(host: string, port: string, c: char)
    requires c !in port
    ensures BeforeLast(host + [c] + port, c) == host
    decreases |port|
  {
    var s := host + [c] + port;
    assert s[|host|] == c;
    if port == "" {
      assert s[..|s| - 1] == host;
    } else {
      var n := |port| - 1;
      BeforeLastOf(host, port[..n], c);
      assert s[|s| - 1] == port[n];
      assert s[..|s| - 1] == host + [c] + port[..n];
    }
  }

  /**
   * A tunnel's "host:port" yields the text before the port, exactly if that
   * looks like a host -- which an IPv6 literal in brackets does not.
   */
  lemma ConnectYieldsHost(lib: Library, host: string, port: string)
    requires ':' !in port
    ensures ExtractDomain(lib, host + ":" + port, "CONNECT") == if LooksLikeHost(host) then Some(host) else None
  {
    hide PyText.Contains, LooksLikeHost;
    BeforeLastOf(host, port, ':');
    assert (host + ":" + port)[|host|] == ':';
    assert host + ":" + port != EMPTY;
  }

  /** A URL with a scheme, under any other verb: the host the library reads off it, exactly if that looks like one. */
  lemma UrlYieldsHost(lib: Library, scheme: string, rest: string, verb: string)
    requires verb != "CONNECT"
    ensures var url := scheme + "://" + rest;
            ExtractDomain(lib, url, verb) ==
            match lib.hostname(url)
            case None => None
            case Some(host) => if LooksLikeHost(host) then Some(host) else None
  {
    hide LooksLikeHost;
    var url := scheme + "://" + rest;
    assert url[|scheme|..|scheme| + 3] == "://";
    assert PyText.OccursAt(url, "://", |scheme|);
    assert url != EMPTY;
  }

  /** Without a scheme, under any verb: the text before the port, exactly if that looks like a host ... */
  lemma BareYieldsHost(lib: Library, host: string, port: string, verb: string)
    requires ':' !in port
    requires NoScheme(host + ":" + port)
    ensures ExtractDomain(lib, host + ":" + port, verb) == if LooksLikeHost(host) then Some(host) else None
  {
    hide LooksLikeHost;
    var url := host + ":" + port;
    BeforeLastOf(host, port, ':');
    assert url[|host|] == ':' && url != EMPTY;
    SchemeIff(url);
    hide PyText.Contains;
  }

  /** ... and without a port, all of it. */
  lemma ColonlessYieldsItself(lib: Library, url: string, verb: string)
    requires ':' !in url
    ensures ExtractDomain(lib, url, verb) == if LooksLikeHost(url) then Some(url) else None
  {
    SchemeIff(url);
    hide PyText.Contains;
  }

  /**
   * What looks like a host: a letter or digit does, and so do two hosts set
   * side by side or joined by a dot, hyphen, underscore, colon or bracket;
   * nothing does that starts with one of these, ends with one other than the
   * closing bracket, or contains anything else.
   */
  lemma HostsJoin(a: string, sep: string, b: string, c: char)
    requires LooksLikeHost(a) && LooksLikeHost(b) && sep in {"", ".", "-", "_", ":", "[", "]"}
    ensures LooksLikeHost(a + sep + b)
    ensures IsAlnum(c) ==> LooksLikeHost([c])
    ensures !LooksLikeHost("")
    ensures sep != "" ==> !LooksLikeHost(sep + b) && (LooksLikeHost(a + sep) <==> sep == "]")
    ensures !IsAlnum(c) && c !in ".-_:[]" ==> !LooksLikeHost(a + [c] + b)
  {
    var s := a + sep + b;
    assert s[0] == a[0] && s[|s| - 1] == b[|b| - 1];
    assert (a + [c] + b)[|a|] == c;
    if sep != "" {
      assert (sep + b)[0] == sep[0];
      assert (a + sep)[|a|] == sep[0];
    }
  }

  /** Tunnels to an IPv6 literal have no domain. */
  lemma BracketedHostHasNoDomain(lib: Library, address: string, port: string)
    requires ':' !in port
    ensures ExtractDomain(lib, "[" + address + "]:" + port, "CONNECT") == None
  {
    var host := "[" + address + "]";
    assert !LooksLikeHost(host) by { assert host[0] == '['; }
    ConnectYieldsHost(lib, host, port);
    assert host + ":" + port == "[" + address + "]:" + port;
    hide LooksLikeHost, ExtractDomain;
  }

  // ---- What every parsed event satisfies ------------------------------------

  const MAX_INTEGER := 0x7FFF_FFFF
  const MAX_ADDRESS_LEN := 45
  const MAX_TAG_LEN := 64

  predicate Fits64(n: int) { 0 <= n <= MAX_BIGINT }

  predicate FitsOpt(s: Option<string>, n: nat) { s.Some? ==> |s.value| <= n }

  /**
   * What the parser sees to: no number over 64 bits, the texts it truncates
   * within their columns, no empty user, and `blocked` as action and status say.
   */
  predicate Sanitized(e: ParsedEvent) {
    && Fits64(e.durationMs) && Fits64(e.reply) && Fits64(e.statusCode)
        && (e.received.Some? ==> Fits64(e.received.value))
    && |e.action| <= 64 && |e.verb| <= 16 && FitsOpt(e.domain, 255) && FitsOpt(e.user, 255)
    && FitsOpt(e.hierarchy, 64) && FitsOpt(e.peer, 64) && FitsOpt(e.contentType, 128)
    && e.user != Some("") && (e.domain.Some? ==> e.domain.value != "")
    && (e.blocked <==> IsRefusal(e.action, e.statusCode))
  }

  /** Every value fits its column, with the widths the tables declare. */
  predicate FitsColumns(e: ParsedEvent) {
    && Fits64(e.durationMs) && Fits64(e.reply) && (e.received.Some? ==> Fits64(e.received.value))
    && 0 <= e.statusCode <= MAX_INTEGER && |e.clientIp| <= MAX_ADDRESS_LEN
    && |e.action| <= 64 && |e.verb| <= 16 && FitsOpt(e.domain, 255) && FitsOpt(e.user, 255)
    && FitsOpt(e.hierarchy, 64) && FitsOpt(e.peer, 64) && FitsOpt(e.contentType, 128)
    && |e.branch| <= MAX_TAG_LEN && FitsOpt(e.proxy, MAX_TAG_LEN)
  }

  lemma EventIsSanitized(lib: Library, tokens: seq<string>, received: Option<int>, branch: string,
      proxy: Option<string>)
    requires |tokens| == EXPECTED_FIELD_COUNT && tokens[7] != "" && (received.Some? ==> Fits64(received.value))
    ensures var e := EventOf(lib, tokens, received, branch, proxy); e.Some? ==> Sanitized(e.value)
  {
    var action := Partition(tokens[3], '/').0;
    assert "TCP_DENIED" <= action <==> "TCP_DENIED" <= Truncate(action, 64);
    TruncateKeeps(Absent(tokens[7]), 255);
    TruncateKeeps(ExtractDomain(lib, tokens[6], tokens[5]), 255);
    TruncateKeeps(Absent(Partition(tokens[8], '/').0), 64);
    TruncateKeeps(Absent(tokens[9]), 128);
    var rawPeer := Partition(tokens[8], '/').1;
    TruncateKeeps(if rawPeer.Some? then Absent(rawPeer.value) else None, 64);
    hide TruncateOpt, FitsOpt, ExtractDomain, Timestamp, Partition, ParseInt;
  }

  lemma TruncateKeeps(s: Option<string>, n: nat)
    requires n > 0
    ensures FitsOpt(TruncateOpt(s, n), n) && (s != Some("") ==> TruncateOpt(s, n) != Some(""))
  {}

  lemma {:induction false} WordsAreWords(s: string)
    ensures PyText.AreWords(PyText.Words(s))
    decreases |s|
  {
    var t := PyText.StripLeft(s);
    PyText.StripLeftShortens(s);
    if t != "" {
      FirstWordIsWord(t);
      WordsAreWords(t[|PyText.FirstWord(t)|..]);
    }
  }

  lemma {:induction false} FirstWordIsWord(t: string)
    ensures forall i :: 0 <= i < |PyText.FirstWord(t)| ==> !PyText.IsSpace(PyText.FirstWord(t)[i])
    ensures t != "" && !PyText.IsSpace(t[0]) ==> PyText.FirstWord(t) != ""
  {
    if t != "" && !PyText.IsSpace(t[0]) { FirstWordIsWord(t[1..]); }
  }

  lemma {:induction false} SplitMaxNonEmpty(s: string, n: nat)
    ensures forall i :: 0 <= i < |PyText.SplitMax(s, n)| ==> PyText.SplitMax(s, n)[i] != ""
    decreases n
  {
    var t := PyText.StripLeft(s);
    PyText.StripLeftShortens(s);
    if t != "" && n > 0 {
      FirstWordIsWord(t);
      SplitMaxNonEmpty(t[|PyText.FirstWord(t)|..], n - 1);
    }
  }

  lemma TokensAreSanitized(lib: Library, stripped: string, tokens: seq<string>, received: Option<int>, branch: string,
      proxy: Option<string>)
    requires PyText.AreWords(tokens) && (received.Some? ==> Fits64(received.value))
    ensures var e := ParseTokens(lib, stripped, tokens, received, branch, proxy); e.Some? ==> Sanitized(e.value)
  {
    hide EventOf, Sanitized, PyText.SplitMax;
    if |tokens| == EXPECTED_FIELD_COUNT {
      assert PyText.IsWord(tokens[7]);
      EventIsSanitized(lib, tokens, received, branch, proxy);
    } else {
      var lenient := PyText.SplitMax(stripped, EXPECTED_FIELD_COUNT - 1);
      SplitMaxNonEmpty(stripped, EXPECTED_FIELD_COUNT - 1);
      if |lenient| == EXPECTED_FIELD_COUNT { EventIsSanitized(lib, lenient, received, branch, proxy); }
    }
  }

  lemma StrippedIsSanitized(lib: Library, stripped: string, branch: string, proxy: Option<string>)
    ensures var e := ParseStripped(lib, stripped, branch, proxy); e.Some? ==> Sanitized(e.value)
  {
    hide Sanitized, ParseTokens, PyText.Words, PyText.Join;
    var tokens := PyText.Words(stripped);
    WordsAreWords(stripped);
    TokensAreSanitized(lib, stripped, tokens, None, branch, proxy);
    if HasTwoSizes(tokens) {
      var fewer := DropColumn(tokens);
      TokensAreSanitized(lib, PyText.Join(fewer, ' '), fewer, Some(ParseInt(tokens[4])), branch, proxy);
    }
  }

  /** Whatever the line, the event that comes out of it is sanitised, and can be counted. */
  lemma ParsedIsSanitized(lib: Library, line: string, branch: string, proxy: Option<string>)
    ensures var o := ParseLine(lib, line, branch, proxy); o.Returned? && o.event.Some? ==> Sanitized(o.event.value)
  {
    hide Sanitized, ParseStripped, PyText.Strip, NormalizeAlt;
    forall stripped ensures var e := ParseStripped(lib, stripped, branch, proxy); e.Some? ==> Sanitized(e.value) {
      StrippedIsSanitized(lib, stripped, branch, proxy);
    }
  }

  lemma SourceIsKept(lib: Library, line: string, branch: string, proxy: Option<string>)
    ensures var o := ParseLine(lib, line, branch, proxy);
            o.Returned? && o.event.Some? ==> o.event.value.branch == branch && o.event.value.proxy == proxy
  {
    hide PyText.Strip, PyText.Words, PyText.SplitMax, PyText.Join, NormalizeAlt, HasTwoSizes, Timestamp, ParseInt,
        TruncateOpt, ExtractDomain, Partition;
  }

  /**
   * It can be stored exactly if its status is a 32-bit number and its address
   * has at most 45 characters -- the two values nothing cuts down -- and the
   * names of its source, which the configuration gives, fit.
   */
  lemma ParsedFitsIff(lib: Library, line: string, branch: string, proxy: Option<string>)
    ensures var o := ParseLine(lib, line, branch, proxy);
            o.Returned? && o.event.Some? ==>
              (FitsColumns(o.event.value) <==>
               && o.event.value.statusCode <= MAX_INTEGER && |o.event.value.clientIp| <= MAX_ADDRESS_LEN
               && |branch| <= MAX_TAG_LEN && FitsOpt(proxy, MAX_TAG_LEN))
  {
    hide ParseLine, IsRefusal;
    ParsedIsSanitized(lib, line, branch, proxy);
    SourceIsKept(lib, line, branch, proxy);
  }
}
