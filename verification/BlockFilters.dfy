/** The Blocked page's filters: networks as text prefixes, and terms as LIKE patterns. */
module BlockFilters {
  import opened Options
  import opened Numerals
  import PyText

  // ---- IPv4 networks --------------------------------------------------------

  function Pow2(n: nat): (p: nat)
    ensures p > 0
  {
    if n == 0 then 1 else 2 * Pow2(n - 1)
  }

  const ADDRESSES := 0x1_0000_0000

  type Address = a: int | 0 <= a < ADDRESSES

  function Times(a: nat, b: nat): nat { a * b }

  /** An IPv4Network: the leading bits its addresses share, as a number, and how many they are. */
  datatype Network = Network(bits: nat, prefixLen: nat) {
    predicate Valid() { prefixLen <= 32 && bits < Pow2(prefixLen) }
    function Size(): nat requires Valid() { Pow2(32 - prefixLen) }
    function Address(): nat requires Valid() { Times(bits, Size()) }
  }

  predicate InNetwork(network: Network, a: Address)
    requires network.Valid()
  {
    network.Address() <= a < network.Address() + network.Size()
  }

  function Octets(a: nat): seq<string> {
    [Decimal(a / 0x100_0000), Decimal(a / 0x1_0000 % 0x100), Decimal(a / 0x100 % 0x100), Decimal(a % 0x100)]
  }

  /** str(IPv4Address(a)) */
  function Dotted(a: nat): string { PyText.Join(Octets(a), '.') }

  function OctetPrefix(a: nat, octets: nat): string
    requires octets <= 4
  {
    PyText.Join(Octets(a)[..octets], '.') + "."
  }

  /** How many addresses share their first `octets` octets. */
  function Step(octets: nat): (n: nat)
    requires octets <= 4
    ensures n > 0
  {
    match octets case 0 => ADDRESSES case 1 => 0x100_0000 case 2 => 0x1_0000 case 3 => 0x100 case _ => 1
  }

  function OctetCount(prefixLen: nat): nat { prefixLen / 8 + if prefixLen % 8 != 0 then 1 else 0 }

  function Max(a: int, b: int): int { if a < b then b else a }

  /** The lengths that are expanded octet by octet. */
  predicate Expands(network: Network) { network.Valid() && 0 < network.prefixLen < 32 }

  function Count(network: Network): nat
    requires Expands(network)
  {
    Max(1, network.Size() / Step(OctetCount(network.prefixLen)))
  }

  function NthPrefix(network: Network, k: nat): string
    requires Expands(network)
  {
    OctetPrefix(network.Address() + k * Step(OctetCount(network.prefixLen)), OctetCount(network.prefixLen))
  }

  /** The prefixes a network is rounded out to. */
  function Expansion(network: Network): seq<string>
    requires network.Valid()
  {
    if network.prefixLen == 32 then []
    else if network.prefixLen == 0 then [""]
    else seq(Count(network), k requires 0 <= k < Count(network) => NthPrefix(network, k))
  }

  lemma {:induction false} PowAdd(m: nat, n: nat)
    ensures Pow2(m + n) == Pow2(m) * Pow2(n)
  {
    if m > 0 { PowAdd(m - 1, n); }
  }

  lemma StepIsPow(octets: nat)
    requires octets <= 4
    ensures Step(octets) == Pow2(32 - 8 * octets)
  {
    assert Pow2(8) == 256;
    PowAdd(8, 8);
    PowAdd(16, 8);
    PowAdd(24, 8);
  }

  /** A network is a whole number of blocks of its rounded-out length, at most 128 of them. */
  lemma NetworkIsBlocks(network: Network)
    requires Expands(network)
    ensures var step, n := Step(OctetCount(network.prefixLen)), Count(network);
            network.Size() == n * step && network.Address() == (network.bits * n) * step && 1 <= n <= 128
  {
    hide Pow2, Step;
    var octets := OctetCount(network.prefixLen);
    var spare := 8 * octets - network.prefixLen;
    StepIsPow(octets);
    PowAdd(spare, 32 - 8 * octets);
    PowSmall(spare);
    DivideExactly(network.Size(), Pow2(spare), Step(octets), 0);
    TimesAssociates(network.bits, Pow2(spare), Step(octets));
  }

  lemma TimesAssociates(a: nat, b: nat, c: nat)
    ensures a * (b * c) == (a * b) * c
  {}

  lemma PowSmall(n: nat)
    requires n <= 7
    ensures Pow2(n) <= 128
  {
    PowAdd(n, 7 - n);
    assert Pow2(7) == 128;
  }

  lemma TimesAtLeast(x: int, step: nat)
    requires x >= 1
    ensures x * step >= step
  {}

  lemma SameQuotient(q: int, n: int, step: nat, r: nat, rest: nat)
    requires q * step + r == n * step + rest && r < step && rest < step
    ensures q == n && r == rest
  {
    assert (n - q) * step == n * step - q * step && (q - n) * step == q * step - n * step;
    if n > q { TimesAtLeast(n - q, step); }
    if q > n { TimesAtLeast(q - n, step); }
  }

  lemma DivideExactly(a: nat, n: nat, step: nat, rest: nat)
    requires step > 0 && a == n * step + rest && rest < step
    ensures a / step == n && a % step == rest
  {
    SameQuotient(a / step, n, step, a % step, rest);
  }

  lemma Shifted(n: nat)
    ensures n / 0x1_0000 == n / 256 / 256 && n / 0x100_0000 == n / 256 / 256 / 256
  {}

  lemma OctetsOf(n: nat, a: nat, b: nat, c: nat, d: nat)
    requires n / 256 / 256 / 256 == a < 256 && n / 256 / 256 % 256 == b && n / 256 % 256 == c && n % 256 == d
    ensures Octets(n) == [Decimal(a), Decimal(b), Decimal(c), Decimal(d)]
  {
    hide Decimal;
    Shifted(n);
  }

  lemma JoinTwo(s: string, rest: seq<string>)
    requires rest != []
    ensures PyText.Join([s] + rest, '.') == s + "." + PyText.Join(rest, '.')
  {
    assert ([s] + rest)[1..] == rest;
  }

  lemma JoinFour(w: string, x: string, y: string, z: string)
    ensures PyText.Join([w, x, y, z], '.') == w + "." + x + "." + y + "." + z
  {
    hide PyText.Join;
    JoinTwo(w, [x, y, z]);
    JoinTwo(x, [y, z]);
    JoinTwo(y, [z]);
    JoinOne(z);
    assert [w] + [x, y, z] == [w, x, y, z] && [x] + [y, z] == [x, y, z] && [y] + [z] == [y, z];
    assert w + "." + (x + "." + (y + "." + z)) == w + "." + x + "." + y + "." + z;
  }

  /** An address is written octet by octet, the most significant first. */
  lemma DottedOctets(n: nat, a: nat, b: nat, c: nat, d: nat)
    requires n / 256 / 256 / 256 == a < 256 && n / 256 / 256 % 256 == b && n / 256 % 256 == c && n % 256 == d
    ensures n == a * 0x100_0000 + b * 0x1_0000 + c * 0x100 + d
    ensures Dotted(n) == Decimal(a) + "." + Decimal(b) + "." + Decimal(c) + "." + Decimal(d)
  {
    hide Decimal, PyText.Join;
    OctetsOf(n, a, b, c, d);
    JoinFour(Decimal(a), Decimal(b), Decimal(c), Decimal(d));
    Reassembled(n);
  }

  lemma Reassembled(n: nat)
    ensures n == n / 256 / 256 / 256 * 0x100_0000 + n / 256 / 256 % 256 * 0x1_0000 + n / 256 % 256 * 0x100 + n % 256
  {
    var r := n / 256;
    var q := r / 256;
    assert n == 256 * r + n % 256 && r == 256 * q + r % 256 && q == 256 * (q / 256) + q % 256;
  }

  // ---- A dotted prefix is a block of addresses ------------------------------

  predicate StartsWith(s: string, prefix: string) { prefix <= s }

  lemma OctetsPlain(a: nat)
    ensures |Octets(a)| == 4 && forall i :: 0 <= i < 4 ==> '.' !in Octets(a)[i]
  {
    DecimalDigits(a / 0x100_0000);
    DecimalDigits(a / 0x1_0000 % 0x100);
    DecimalDigits(a / 0x100 % 0x100);
    DecimalDigits(a % 0x100);
  }

  /** Cutting a text that continues `parts` after a separator gives the parts back, and then the rest. */
  lemma {:induction false} SplitParts(parts: seq<string>, rest: string)
    requires |parts| >= 1 && forall i :: 0 <= i < |parts| ==> '.' !in parts[i]
    ensures PyText.Split(PyText.Join(parts, '.') + "." + rest, '.') == parts + PyText.Split(rest, '.')
    decreases |parts|
  {
    if |parts| == 1 {
      PyText.SplitFirst(parts[0], rest, '.');
    } else {
      SplitParts(parts[1..], rest);
      var tail := PyText.Join(parts[1..], '.') + "." + rest;
      PyText.SplitFirst(parts[0], tail, '.');
      assert PyText.Join(parts, '.') + "." + rest == parts[0] + "." + tail;
      assert parts == [parts[0]] + parts[1..];
    }
  }

  lemma {:induction false} JoinStarts(parts: seq<string>, n: nat)
    requires 0 < n < |parts|
    ensures PyText.Join(parts[..n], '.') + "." <= PyText.Join(parts, '.')
    decreases n
  {
    if n > 1 {
      JoinStarts(parts[1..], n - 1);
      assert parts[..n][1..] == parts[1..][..n - 1];
    }
  }

  /**
   * A dotted address starts with the first octets of another one exactly when it has
   * the same ones; never with all four.
   */
  lemma StartsWithOctets(a: nat, b: nat, octets: nat)
    requires 1 <= octets <= 4
    ensures StartsWith(Dotted(a), OctetPrefix(b, octets)) <==> octets < 4 && Octets(a)[..octets] == Octets(b)[..octets]
  {
    OctetsPlain(a);
    OctetsPlain(b);
    hide Octets;
    if octets < 4 { JoinStarts(Octets(a), octets); }
    if StartsWith(Dotted(a), OctetPrefix(b, octets)) {
      var rest := Dotted(a)[|OctetPrefix(b, octets)|..];
      SplitParts(Octets(b)[..octets], rest);
      assert Dotted(a) == PyText.Join(Octets(b)[..octets], '.') + "." + rest;
      PyText.JoinThenSplit(Octets(a), '.');
      assert Octets(a) == Octets(b)[..octets] + PyText.Split(rest, '.');
    }
  }

  lemma SameOctets(a: nat, b: nat, octets: nat)
    requires 1 <= octets <= 3
    ensures Octets(a)[..octets] == Octets(b)[..octets] <==> a / Step(octets) == b / Step(octets)
  {
    hide Decimal;
    var xs, ys := Octets(a), Octets(b);
    SamePrefix(xs, ys, octets);
    OctetEqual(a / 0x100_0000, b / 0x100_0000);
    OctetEqual(a / 0x1_0000 % 0x100, b / 0x1_0000 % 0x100);
    OctetEqual(a / 0x100 % 0x100, b / 0x100 % 0x100);
    BlocksNest(a, b);
  }

  lemma SamePrefix(xs: seq<string>, ys: seq<string>, n: nat)
    requires 1 <= n <= 3 && |xs| == |ys| == 4
    ensures xs[..n] == ys[..n] <==> xs[0] == ys[0] && (n > 1 ==> xs[1] == ys[1]) && (n > 2 ==> xs[2] == ys[2])
  {
    if xs[..n] == ys[..n] {
      assert forall i :: 0 <= i < n ==> xs[i] == xs[..n][i] == ys[..n][i] == ys[i];
    }
  }

  lemma OctetEqual(m: nat, n: nat)
    ensures Decimal(m) == Decimal(n) <==> m == n
  {
    if Decimal(m) == Decimal(n) { DecimalInjective(m, n); }
  }

  lemma BlocksNest(a: nat, b: nat)
    ensures a / 0x1_0000 == b / 0x1_0000
            <==> a / 0x100_0000 == b / 0x100_0000 && a / 0x1_0000 % 0x100 == b / 0x1_0000 % 0x100
    ensures a / 0x100 == b / 0x100 <==> a / 0x1_0000 == b / 0x1_0000 && a / 0x100 % 0x100 == b / 0x100 % 0x100
  {
    assert a / 0x1_0000 / 0x100 == a / 0x100_0000 && b / 0x1_0000 / 0x100 == b / 0x100_0000;
    assert a / 0x100 / 0x100 == a / 0x1_0000 && b / 0x100 / 0x100 == b / 0x1_0000;
  }

  /** Which addresses the `k`-th prefix matches: its block's, and from the fourth octet on none. */
  lemma InBlock(network: Network, a: Address, k: nat)
    requires Expands(network)
    ensures StartsWith(Dotted(a), NthPrefix(network, k)) <==>
            network.prefixLen <= 24 && a / Step(OctetCount(network.prefixLen)) == network.bits * Count(network) + k
  {
    hide Dotted, OctetPrefix, Octets, StartsWith, Step, Count, Pow2;
    var octets := OctetCount(network.prefixLen);
    var step, q := Step(octets), network.bits * Count(network);
    var base := network.Address() + k * step;
    NetworkIsBlocks(network);
    TimesAdds(q, k, step);
    DivideExactly(base, q + k, step, 0);
    StartsWithOctets(a, base, octets);
    if octets <= 3 { SameOctets(a, base, octets); }
  }

  lemma TimesAdds(a: nat, b: nat, c: nat)
    ensures a * c + b * c == (a + b) * c
  {}

  predicate MatchesSome(prefixes: seq<string>, s: string) { exists k :: 0 <= k < |prefixes| && StartsWith(s,
      prefixes[k]) }

  /** Up to /24 the prefixes match exactly the network's addresses ... */
  lemma ExpansionExact(network: Network, a: Address)
    requires network.Valid() && network.prefixLen <= 24
    ensures MatchesSome(Expansion(network), Dotted(a)) <==> InNetwork(network, a)
  {
    hide Dotted, NthPrefix, Pow2, Step, Count;
    if network.prefixLen == 0 {
      assert StartsWith(Dotted(a), Expansion(network)[0]);
      AllAddresses(network);
    } else {
      NetworkIsBlocks(network);
      var step, n := Step(OctetCount(network.prefixLen)), Count(network);
      var k := a / step - network.bits * n;
      BlockOf(network.bits * n, n, step, a);
      if 0 <= k < n {
        InBlock(network, a, k);
        assert StartsWith(Dotted(a), Expansion(network)[k]);
      }
      if MatchesSome(Expansion(network), Dotted(a)) {
        var i :| 0 <= i < n && StartsWith(Dotted(a), Expansion(network)[i]);
        InBlock(network, a, i);
      }
    }
  }

  lemma AllAddresses(network: Network)
    requires network.Valid() && network.prefixLen == 0
    ensures network.Address() == 0 && network.Size() == ADDRESSES
  {
    StepIsPow(0);
  }

  lemma BlockOf(first: nat, n: nat, step: nat, a: nat)
    requires step > 0
    ensures first * step <= a < first * step + n * step <==> 0 <= a / step - first < n
  {
    var q, r := a / step, a % step;
    assert a == q * step + r;
    TimesAdds(first, n, step);
    if q >= first { assert (q - first) * step >= 0 && (q - first) * step == q * step - first * step; }
    if q < first { TimesAtLeast(first - q, step); assert (first - q) * step == first * step - q * step; }
    if q >= first + n { assert (q - first - n) * step >= 0 && (q - first - n) * step == q * step - (first + n) * step; }
    if q < first + n {
      TimesAtLeast(first + n - q, step);
      assert (first + n - q) * step == (first + n) * step - q * step;
    }
  }

  /** ... each address by one prefix only, and there are at most 128. */
  lemma ExpansionDisjoint(network: Network, a: Address, i: nat, j: nat)
    requires network.Valid()
    ensures var prefixes := Expansion(network);
            && |prefixes| <= 128
            && (i < |prefixes| && j < |prefixes| && StartsWith(Dotted(a), prefixes[i])
                && StartsWith(Dotted(a), prefixes[j])
                ==> i == j)
  {
    hide Dotted, NthPrefix, Pow2, Step, Count;
    if Expands(network) {
      NetworkIsBlocks(network);
      InBlock(network, a, i);
      InBlock(network, a, j);
    }
  }

  /** Longer than /24 the trailing dot of the fourth octet matches no address at all. */
  lemma ExpansionEmpty(network: Network, a: Address)
    requires network.Valid() && network.prefixLen > 24
    ensures !MatchesSome(Expansion(network), Dotted(a))
  {
    hide Dotted, NthPrefix, Pow2, Step, Count;
    if MatchesSome(Expansion(network), Dotted(a)) {
      var i :| 0 <= i < |Expansion(network)| && StartsWith(Dotted(a), Expansion(network)[i]);
      InBlock(network, a, i);
    }
  }

  /**
   * The network as text prefixes: at most 128, and up to /24 an address is in
   * the network exactly when its text starts with one of them.
   */
  method CidrPrefixes(network: Network) returns (prefixes: seq<string>)
    requires network.Valid()
    ensures prefixes == Expansion(network) && |prefixes| <= 128
    ensures forall a: Address :: MatchesSome(prefixes, Dotted(a)) <==> network.prefixLen <= 24 && InNetwork(network, a)
  {
    hide OctetPrefix, Pow2, Step, Dotted, MatchesSome, InNetwork;
    ExpansionMeaning(network);
    if network.prefixLen == 32 { return []; }
    var octets := OctetCount(network.prefixLen);
    if octets == 0 { return [""]; }
    var step := Step(octets);
    var count := Max(1, network.Size() / step);
    var start := network.Address();
    prefixes := [];
    for i := 0 to count
      invariant |prefixes| == i
      invariant forall k :: 0 <= k < i ==> prefixes[k] == NthPrefix(network, k)
    {
      prefixes := prefixes + [OctetPrefix(start + i * step, octets)];
    }
    assert prefixes == Expansion(network);
  }

  lemma ExpansionMeaning(network: Network)
    requires network.Valid()
    ensures |Expansion(network)| <= 128
    ensures forall a: Address ::
              MatchesSome(Expansion(network), Dotted(a)) <==> network.prefixLen <= 24 && InNetwork(network, a)
  {
    hide Expansion, Dotted, MatchesSome, InNetwork, Pow2;
    ExpansionDisjoint(network, 0, 0, 0);
    forall a: Address
      ensures MatchesSome(Expansion(network), Dotted(a)) <==> network.prefixLen <= 24 && InNetwork(network, a)
    {
      if network.prefixLen <= 24 { ExpansionExact(network, a); } else { ExpansionEmpty(network, a); }
    }
  }

  // ---- LIKE -----------------------------------------------------------------

  /** SQL's LIKE with `\\` as the escape character; a dangling escape matches nothing. */
  ghost predicate Like(s: string, pattern: string)
    decreases |pattern|, |s|
  {
    if pattern == "" then s == ""
    else match pattern[0]
      case '%' => exists i | 0 <= i <= |s| :: Like(s[i..], pattern[1..])
      case '_' => s != "" && Like(s[1..], pattern[1..])
      case '\\' => |pattern| > 1 && s != "" && s[0] == pattern[1] && Like(s[1..], pattern[2..])
      case c => s != "" && s[0] == c && Like(s[1..], pattern[1..])
  }

  /** s.replace(c, by) for a single character. */
  function Replace(s: string, c: char, sub: string): string {
    if s == "" then "" else (if s[0] == c then sub else [s[0]]) + Replace(s[1..], c, sub)
  }

  function EscapeLike(value: string): string {
    Replace(Replace(Replace(value, '\\', "\\\\"), '%', "\\%"), '_', "\\_")
  }

  function EscapeChar(c: char): string { if c == '\\' || c == '%' || c == '_' then ['\\', c] else [c] }

  lemma {:induction false} ReplaceConcat(a: string, b: string, c: char, sub: string)
    ensures Replace(a + b, c, sub) == Replace(a, c, sub) + Replace(b, c, sub)
  {
    hide Replace;
    ReplaceNothing(c, sub);
    if a == "" {
      assert a + b == b;
    } else {
      ReplaceConcat(a[1..], b, c, sub);
      var x, rest := if a[0] == c then sub else [a[0]], a[1..];
      assert Replace(a, c, sub) == x + Replace(rest, c, sub) by {
        assert a == [a[0]] + rest;
        ReplaceStep(a[0], rest, c, sub);
      }
      assert Replace(a + b, c, sub) == x + Replace(rest + b, c, sub) by {
        assert a + b == [a[0]] + (rest + b);
        ReplaceStep(a[0], rest + b, c, sub);
      }
    }
  }

  lemma ReplaceNothing(c: char, sub: string)
    ensures Replace("", c, sub) == ""
  {}

  lemma ReplaceStep(e: char, rest: string, c: char, sub: string)
    ensures Replace([e] + rest, c, sub) == (if e == c then sub else [e]) + Replace(rest, c, sub)
  {
    assert ([e] + rest)[1..] == rest;
  }

  lemma ReplaceOne(c: char, d: char, sub: string)
    ensures Replace([c], d, sub) == if c == d then sub else [c]
  {}

  lemma ReplaceTwo(c: char, e: char, d: char, sub: string)
    ensures Replace([c, e], d, sub) == (if c == d then sub else [c]) + (if e == d then sub else [e])
  {
    ReplaceConcat([c], [e], d, sub);
    assert [c] + [e] == [c, e];
    ReplaceOne(c, d, sub);
    ReplaceOne(e, d, sub);
  }

  /** The three replacements, one after the other, escape each character once. */
  lemma EscapeLikeStep(c: char, rest: string)
    ensures EscapeLike([c] + rest) == EscapeChar(c) + EscapeLike(rest)
    ensures EscapeLike("") == ""
  {
    var rest1 := Replace(rest, '\\', "\\\\");
    var rest2 := Replace(rest1, '%', "\\%");
    var first := if c == '\\' then "\\\\" else [c];
    var second := if c == '%' then "\\%" else first;
    ReplaceOne(c, '\\', "\\\\");
    ReplaceOne(c, '%', "\\%");
    ReplaceOne(c, '_', "\\_");
    ReplaceTwo('\\', '\\', '%', "\\%");
    ReplaceTwo('\\', '\\', '_', "\\_");
    ReplaceTwo('\\', '%', '_', "\\_");
    assert EscapeLike("") == "";
    hide Replace;
    ReplaceConcat([c], rest, '\\', "\\\\");
    ReplaceConcat(first, rest1, '%', "\\%");
    assert Replace(first, '%', "\\%") == second;
    ReplaceConcat(second, rest2, '_', "\\_");
    assert Replace(second, '_', "\\_") == EscapeChar(c);
  }

  /** An escaped text matches itself and nothing else, whatever pattern follows. */
  lemma {:induction false} LikeEscaped(s: string, literal: string, rest: string)
    ensures Like(s, EscapeLike(literal) + rest) <==> literal <= s && Like(s[|literal|..], rest)
    decreases |literal|
  {
    if literal == "" {
      EscapeLikeStep('a', "");
      assert EscapeLike(literal) + rest == rest && s[0..] == s;
    } else {
      var c, more := literal[0], literal[1..];
      assert literal == [c] + more;
      EscapeLikeStep(c, more);
      var tail := EscapeLike(more) + rest;
      assert EscapeLike(literal) + rest == EscapeChar(c) + tail;
      LikeChar(s, c, tail);
      hide Like, EscapeLike;
      if s != "" && s[0] == c {
        LikeEscaped(s[1..], more, rest);
        assert s == [c] + s[1..];
        assert literal <= s <==> more <= s[1..];
        if more <= s[1..] { assert s[1..][|more|..] == s[|literal|..]; }
      }
    }
  }

  lemma LikeChar(s: string, c: char, tail: string)
    ensures Like(s, EscapeChar(c) + tail) <==> s != "" && s[0] == c && Like(s[1..], tail)
  {
    var pattern := EscapeChar(c) + tail;
    if c == '\\' || c == '%' || c == '_' {
      assert pattern[0] == '\\' && pattern[1] == c && pattern[2..] == tail;
    } else {
      assert pattern[0] == c && pattern[1..] == tail;
    }
  }

  lemma LikeAnything(s: string)
    ensures Like(s, "%")
  {
    assert "%"[1..] == "" && s[|s|..] == "";
    assert Like(s[|s|..], "%"[1..]);
  }

  /** The condition a prefix becomes matches exactly the texts that start with it, metacharacters and all. */
  lemma PrefixCondition(s: string, prefix: string)
    ensures Like(s, EscapeLike(prefix) + "%") <==> StartsWith(s, prefix)
  {
    LikeEscaped(s, prefix, "%");
    if prefix <= s { LikeAnything(s[|prefix|..]); }
  }

  // ---- Terms ----------------------------------------------------------------

  function Lower(s: string): string { seq(|s|, i requires 0 <= i < |s| => PyText.LowerChar(s[i])) }

  /** ILIKE: LIKE with both sides in lower case. */
  ghost predicate ILike(s: string, pattern: string) { Like(Lower(s), Lower(pattern)) }

  function TermPattern(term: string): string {
    if "=" <= term then EscapeLike(Lower(term[1..]))
    else if '*' in term then Replace(EscapeLike(Lower(term)), '*', "%")
    else "%" + EscapeLike(Lower(term)) + "%"
  }

  /** A wildcard text in which only `*` is special, standing for any text. */
  ghost predicate Wild(s: string, term: string)
    decreases |term|
  {
    if term == "" then s == ""
    else if term[0] == '*' then exists i | 0 <= i <= |s| :: Wild(s[i..], term[1..])
    else s != "" && s[0] == term[0] && Wild(s[1..], term[1..])
  }

  /** `=x` is the whole text, `*` a wildcard, anything else is contained: the language the page documents. */
  ghost predicate TermMeans(s: string, term: string) {
    if "=" <= term then Lower(s) == Lower(term[1..])
    else if '*' in term then Wild(Lower(s), Lower(term))
    else PyText.Contains(Lower(s), Lower(term))
  }

  /** Lower case is one text for all the ways of writing it. */
  lemma LowerIff(s: string, t: string)
    ensures Lower(s) == Lower(t) <==> PyText.SameButCase(s, t)
  {
    if Lower(s) == Lower(t) {
      forall i | 0 <= i < |s| ensures PyText.SameLetter(s[i], t[i]) { assert Lower(s)[i] == Lower(t)[i]; }
    }
  }

  /** Case makes no difference to what a term means, on either side. */
  lemma CaseIsIgnored(s: string, t: string, term: string, other: string)
    requires PyText.SameButCase(s, t) && PyText.SameButCase(term, other)
    ensures TermMeans(s, term) <==> TermMeans(t, other)
  {
    LowerIff(s, t);
    LowerIff(term, other);
    hide Lower, Wild, PyText.Contains;
    assert "=" <= term <==> "=" <= other;
    if "=" <= term { LowerIff(term[1..], other[1..]); }
    if '*' in term {
      var i :| 0 <= i < |term| && term[i] == '*';
      assert other[i] == '*';
    }
    if '*' in other {
      var i :| 0 <= i < |other| && other[i] == '*';
      assert term[i] == '*';
    }
  }

  lemma LowerTwice(s: string)
    ensures Lower(Lower(s)) == Lower(s)
  {}

  lemma LowerConcat(a: string, b: string)
    ensures Lower(a + b) == Lower(a) + Lower(b)
  {}

  ghost predicate IsLower(s: string) { Lower(s) == s }

  lemma {:induction false} ReplaceIsLower(s: string, c: char, sub: string)
    requires IsLower(s) && IsLower(sub)
    ensures IsLower(Replace(s, c, sub))
  {
    if s != "" {
      assert s == [s[0]] + s[1..];
      LowerConcat([s[0]], s[1..]);
      assert Lower([s[0]])[0] == Lower(s)[0] && |Lower([s[0]])| == 1;
      assert IsLower(s[1..]);
      ReplaceIsLower(s[1..], c, sub);
      LowerConcat(if s[0] == c then sub else [s[0]], Replace(s[1..], c, sub));
    }
  }

  lemma EscapeIsLower(s: string)
    requires IsLower(s)
    ensures IsLower(EscapeLike(s))
  {
    ReplaceIsLower(s, '\\', "\\\\");
    ReplaceIsLower(Replace(s, '\\', "\\\\"), '%', "\\%");
    ReplaceIsLower(Replace(Replace(s, '\\', "\\\\"), '%', "\\%"), '_', "\\_");
  }

  lemma {:induction false} LikeWild(s: string, term: string)
    ensures Like(s, Replace(EscapeLike(term), '*', "%")) <==> Wild(s, term)
    decreases |term|
  {
    if term == "" {
      EscapeLikeStep('a', "");
    } else {
      var c, more := term[0], term[1..];
      assert term == [c] + more;
      EscapeLikeStep(c, more);
      var tail := Replace(EscapeLike(more), '*', "%");
      ReplaceConcat(EscapeChar(c), EscapeLike(more), '*', "%");
      if c == '*' {
        ReplaceOne(c, '*', "%");
        forall i | 0 <= i <= |s| ensures Like(s[i..], tail) <==> Wild(s[i..], more) { LikeWild(s[i..], more); }
        LikePercent(s, tail);
      } else {
        ReplaceOne(c, '*', "%");
        ReplaceTwo('\\', c, '*', "%");
        assert Replace(EscapeChar(c), '*', "%") == EscapeChar(c);
        LikeChar(s, c, tail);
        hide Like, EscapeLike;
        if s != "" { LikeWild(s[1..], more); }
      }
    }
  }

  lemma LikePercent(s: string, tail: string)
    ensures Like(s, "%" + tail) <==> exists i | 0 <= i <= |s| :: Like(s[i..], tail)
  {
    assert ("%" + tail)[1..] == tail;
  }

  lemma LikeContains(s: string, literal: string)
    ensures Like(s, "%" + (EscapeLike(literal) + "%")) <==> PyText.Contains(s, literal)
  {
    LikePercent(s, EscapeLike(literal) + "%");
    hide Like, EscapeLike;
    forall i | 0 <= i <= |s|
      ensures Like(s[i..], EscapeLike(literal) + "%") <==> PyText.OccursAt(s, literal, i)
    {
      PrefixCondition(s[i..], literal);
      if literal <= s[i..] { assert s[i..i + |literal|] == s[i..][..|literal|]; }
      if PyText.OccursAt(s, literal, i) { assert s[i..][..|literal|] == s[i..i + |literal|]; }
    }
  }

  /** Every term means what the page says, whatever LIKE metacharacters it contains. */
  lemma TermCondition(s: string, term: string)
    ensures ILike(s, TermPattern(term)) <==> TermMeans(s, term)
  {
    LowerTwice(term);
    hide Like, EscapeLike, Replace, Wild;
    if "=" <= term {
      LowerTwice(term[1..]);
      EscapeIsLower(Lower(term[1..]));
      LikeWhole(Lower(s), Lower(term[1..]));
    } else if '*' in term {
      EscapeIsLower(Lower(term));
      ReplaceIsLower(EscapeLike(Lower(term)), '*', "%");
      LikeWild(Lower(s), Lower(term));
    } else {
      EscapeIsLower(Lower(term));
      LowerConcat("%", EscapeLike(Lower(term)));
      LowerConcat("%" + EscapeLike(Lower(term)), "%");
      assert Lower("%") == "%";
      assert TermPattern(term) == "%" + (EscapeLike(Lower(term)) + "%");
      hide PyText.Contains;
      LikeContains(Lower(s), Lower(term));
    }
  }

  lemma LikeWhole(s: string, literal: string)
    ensures Like(s, EscapeLike(literal)) <==> s == literal
  {
    LikeEscaped(s, literal, "");
    assert EscapeLike(literal) + "" == EscapeLike(literal);
  }

  /** What comes of a list of terms. */
  datatype Parsed<F> = TooManyTerms | Malformed(term: string) | Unfiltered | Filtered(filter: F)

  const MAX_TERMS := 50

  // ---- The language of terms ------------------------------------------------

  lemma {:induction false} FrontStripped(front: string, body: string, c: char)
    requires (forall i :: 0 <= i < |front| ==> front[i] == c) && (body == "" || body[0] != c)
    ensures StripFront(front + body, c) == body
  {
    if front == "" {
      assert front + body == body;
    } else {
      FrontStripped(front[1..], body, c);
      assert (front + body)[1..] == front[1..] + body;
    }
  }

  /** Any number of exclamation marks in front exclude; the rest is what the term says. */
  lemma TermRead(bangs: string, body: string)
    requires (forall i :: 0 <= i < |bangs| ==> bangs[i] == '!') && (body == "" || body[0] != '!')
    ensures Body(bangs + body) == body && (Negated(bangs + body) <==> bangs != "")
  {
    FrontStripped(bangs, body, '!');
    assert bangs + body == "" || (bangs + body)[0] == if bangs != "" then '!' else body[0];
  }

  lemma {:induction false} OnlyStars(s: string)
    ensures StripFront(Replace(s, '*', ""), '=') == "" <==> forall i :: 0 <= i < |s| ==> s[i] == '*' || s[i] == '='
  {
    if s != "" {
      OnlyStars(s[1..]);
      var rest := Replace(s[1..], '*', "");
      assert Replace(s, '*', "") == if s[0] == '*' then "" + rest else [s[0]] + rest;
      assert "" + rest == rest && ([s[0]] + rest)[1..] == rest;
      assert forall i :: 1 <= i < |s| ==> s[i] == s[1..][i - 1];
    }
  }

  /** A term says nothing exactly if there is nothing but stars and equal signs behind its exclamation marks. */
  lemma SaysNothingIff(bangs: string, body: string)
    requires (forall i :: 0 <= i < |bangs| ==> bangs[i] == '!') && (body == "" || body[0] != '!')
    ensures SaysNothing(bangs + body) <==> forall i :: 0 <= i < |body| ==> body[i] == '*' || body[i] == '='
  {
    TermRead(bangs, body);
    OnlyStars(body);
    hide StripFront, Replace;
  }

  // ---- Domain filters -------------------------------------------------------

  datatype DomainFilter = DomainFilter(wanted: seq<string>, unwanted: seq<string>)

  ghost predicate DomainCondition(filter: DomainFilter, s: string) {
    && (filter.wanted != [] ==> exists i :: 0 <= i < |filter.wanted| && ILike(s, TermPattern(filter.wanted[i])))
    && (forall i :: 0 <= i < |filter.unwanted| ==> !ILike(s, TermPattern(filter.unwanted[i])))
  }

  function StripFront(s: string, c: char): string { if s != "" && s[0] == c then StripFront(s[1..], c) else s }

  predicate Negated(term: string) { "!" <= term }

  function Body(term: string): string { StripFront(term, '!') }

  /** A term of nothing but stars and equal signs says nothing. */
  predicate SaysNothing(term: string) { StripFront(Replace(Body(term), '*', ""), '=') == "" }

  /** What the first `n` terms ask for, term by term. */
  ghost predicate Wanted(terms: seq<string>, n: nat, s: string)
    requires n <= |terms|
  {
    exists i :: 0 <= i < n && !SaysNothing(terms[i]) && !Negated(terms[i]) && TermMeans(s, Body(terms[i]))
  }

  ghost predicate Unwanted(terms: seq<string>, n: nat, s: string)
    requires n <= |terms|
  {
    exists i :: 0 <= i < n && !SaysNothing(terms[i]) && Negated(terms[i]) && TermMeans(s, Body(terms[i]))
  }

  predicate Asks(terms: seq<string>, n: nat, negated: bool)
    requires n <= |terms|
  {
    exists i :: 0 <= i < n && !SaysNothing(terms[i]) && Negated(terms[i]) == negated
  }

  /** Included terms are OR-ed, excluded ones all apply, empty ones are ignored; no term is malformed. */
  method ParseDomains(terms: seq<string>) returns (parsed: Parsed<DomainFilter>)
    ensures parsed.TooManyTerms? <==> |terms| > MAX_TERMS
    ensures !parsed.Malformed?
    ensures parsed.Unfiltered? <==> |terms| <= MAX_TERMS && !Asks(terms, |terms|, false) && !Asks(terms, |terms|, true)
    ensures parsed.Filtered? ==> forall s :: DomainCondition(parsed.filter, s) <==>
              (Asks(terms, |terms|, false) ==> Wanted(terms, |terms|, s)) && !Unwanted(terms, |terms|, s)
  {
    if |terms| > MAX_TERMS { return TooManyTerms; }
    hide TermMeans, TermPattern, ILike, Body, SaysNothing;
    var wanted: seq<string>, unwanted: seq<string> := [], [];
    for i := 0 to |terms|
      invariant wanted != [] <==> Asks(terms, i, false)
      invariant unwanted != [] <==> Asks(terms, i, true)
      invariant forall s :: AnyMeans(wanted, s) <==> Wanted(terms, i, s)
      invariant forall s :: AnyMeans(unwanted, s) <==> Unwanted(terms, i, s)
    {
      var term := Body(terms[i]);
      if SaysNothing(terms[i]) { continue; }
      if Negated(terms[i]) {
        AnyMeansNext(unwanted, term);
        unwanted := unwanted + [term];
      } else {
        AnyMeansNext(wanted, term);
        wanted := wanted + [term];
      }
    }
    if wanted == [] && unwanted == [] { return Unfiltered; }
    var filter := DomainFilter(wanted, unwanted);
    DomainConditionMeans(filter);
    return Filtered(filter);
  }

  ghost predicate AnyMeans(terms: seq<string>, s: string) { exists i :: 0 <= i < |terms| && TermMeans(s, terms[i]) }

  lemma AnyMeansNext(terms: seq<string>, term: string)
    ensures forall s :: AnyMeans(terms + [term], s) <==> AnyMeans(terms, s) || TermMeans(s, term)
  {
    hide TermMeans;
    forall s ensures AnyMeans(terms + [term], s) <==> AnyMeans(terms, s) || TermMeans(s, term) {
      assert (terms + [term])[|terms|] == term;
      if AnyMeans(terms, s) {
        var i :| 0 <= i < |terms| && TermMeans(s, terms[i]);
        assert (terms + [term])[i] == terms[i];
      }
    }
  }

  lemma DomainConditionMeans(filter: DomainFilter)
    ensures forall s :: DomainCondition(filter, s) <==>
              (filter.wanted != [] ==> AnyMeans(filter.wanted, s)) && !AnyMeans(filter.unwanted, s)
  {
    hide TermMeans, TermPattern, ILike;
    forall s, term ensures ILike(s, TermPattern(term)) <==> TermMeans(s, term) { TermCondition(s, term); }
  }

  // ---- Client filters -------------------------------------------------------

  datatype ClientFilter = ClientFilter(exact: seq<string>, prefixes: seq<string>)

  ghost predicate ClientCondition(filter: ClientFilter, s: string) {
    s in filter.exact || exists k :: 0 <= k < |filter.prefixes| && Like(s, EscapeLike(filter.prefixes[k]) + "%")
  }

  datatype AnyNetwork = V4(network: Network) | V6

  /** The address library: ip_network(text, strict=False), and str(ip_address(text)); None where they raise. */
  datatype IpLibrary = IpLibrary(network: string -> Option<AnyNetwork>, address: string -> Option<string>) {
    ghost predicate Valid() {
      forall text :: network(text).Some? && network(text).value.V4? ==> network(text).value.network.Valid()
    }
  }

  predicate IsDigits(s: string) { 1 <= |s| <= 3 && forall i :: 0 <= i < |s| ==> '0' <= s[i] <= '9' }

  /** One to three groups of up to three digits, each closed by a dot. */
  predicate IsIpPrefix(s: string) {
    var parts := PyText.Split(s, '.');
    && 2 <= |parts| <= 4 && parts[|parts| - 1] == ""
    && forall i :: 0 <= i < |parts| - 1 ==> IsDigits(parts[i])
  }

  predicate EndsWith(s: string, tail: string) { |tail| <= |s| && s[|s| - |tail|..] == tail }

  predicate IsPrefixTerm(term: string) { EndsWith(term, ".*") || EndsWith(term, ".") }

  function PrefixOf(term: string): string { if EndsWith(term, "*") then term[..|term| - 1] else term }

  predicate WellFormed(lib: IpLibrary, term: string) {
    if '/' in term then lib.network(term).Some? && lib.network(term).value.V4?
    else if IsPrefixTerm(term) then IsIpPrefix(PrefixOf(term))
    else lib.address(term).Some?
  }

  /** The addresses a term selects. */
  ghost predicate Selects(lib: IpLibrary, term: string, a: Address)
    requires lib.Valid() && WellFormed(lib, term)
  {
    if '/' in term then
      var network := lib.network(term).value.network;
      (network.prefixLen <= 24 || network.prefixLen == 32) && InNetwork(network, a)
    else if IsPrefixTerm(term) then StartsWith(Dotted(a), PrefixOf(term))
    else lib.address(term).value == Dotted(a)
  }

  ghost predicate SomeSelects(lib: IpLibrary, terms: seq<string>, n: nat, a: Address)
    requires lib.Valid() && n <= |terms| && forall i :: 0 <= i < n ==> WellFormed(lib, terms[i])
  {
    exists i :: 0 <= i < n && Selects(lib, terms[i], a)
  }

  predicate Accepts(filter: ClientFilter, s: string) { s in filter.exact || MatchesSome(filter.prefixes, s) }

  /** Three characters at most, all of them digits. */
  predicate ShortNumber(s: string) { 1 <= |s| <= 3 && AllDigits(s) }

  /**
   * A prefix term: octets followed by a dot, or by a dot and a star, is well
   * formed exactly if there are one to three, each a number of up to three
   * digits; it selects the addresses whose text starts with them and the dot.
   */
  lemma PrefixTerms(lib: IpLibrary, octets: seq<string>, star: bool, a: Address)
    requires lib.Valid() && octets != [] && forall i :: 0 <= i < |octets| ==> '.' !in octets[i] && '/' !in octets[i]
    ensures var prefix := PyText.Join(octets, '.') + ".";
            var term := if star then prefix + "*" else prefix;
            && (WellFormed(lib, term) <==>
                  |octets| <= 3 && forall i :: 0 <= i < |octets| ==> ShortNumber(octets[i]))
            && (WellFormed(lib, term) ==> (Selects(lib, term, a) <==> prefix <= Dotted(a)))
  {
    hide Dotted, PyText.Join, IsIpPrefix, IsPrefixTerm, PrefixOf, ShortNumber;
    NoSlash(octets);
    IpPrefixIff(octets);
    PrefixTermText(PyText.Join(octets, '.'), star);
  }

  lemma PrefixTermText(text: string, star: bool)
    ensures var prefix := text + ".";
            var term := if star then prefix + "*" else prefix;
            IsPrefixTerm(term) && PrefixOf(term) == prefix
  {
    var prefix := text + ".";
    var term := if star then prefix + "*" else prefix;
    if star {
      assert term[|term| - 2..] == ".*" && term[|term| - 1..] == "*" && term[..|term| - 1] == prefix;
    } else {
      assert term[|term| - 1..] == "." && term[|term| - 1..] != "*";
    }
  }

  lemma IpPrefixIff(octets: seq<string>)
    requires octets != [] && forall i :: 0 <= i < |octets| ==> '.' !in octets[i]
    ensures IsIpPrefix(PyText.Join(octets, '.') + ".")
            <==> |octets| <= 3 && forall i :: 0 <= i < |octets| ==> ShortNumber(octets[i])
  {
    hide PyText.Join, PyText.Split;
    SplitParts(octets, "");
    var prefix := PyText.Join(octets, '.') + ".";
    assert prefix + "" == prefix;
    assert PyText.Split("", '.') == [""] by { PyText.JoinThenSplit([""], '.'); JoinOne(""); }
    var parts := PyText.Split(prefix, '.');
    assert parts == octets + [""];
    assert forall i :: 0 <= i < |octets| ==> parts[i] == octets[i];
    forall s: string ensures IsDigits(s) <==> ShortNumber(s) {}
    hide IsDigits, ShortNumber;
  }

  lemma JoinOne(s: string)
    ensures PyText.Join([s], '.') == s
  {}

  lemma {:induction false} NoSlash(octets: seq<string>)
    requires forall i :: 0 <= i < |octets| ==> '/' !in octets[i]
    ensures '/' !in PyText.Join(octets, '.')
  {
    if |octets| > 1 { NoSlash(octets[1..]); }
  }

  /** What one term adds to a filter; None if it is malformed. */
  method ParseClient(lib: IpLibrary, term: string) returns (added: Option<ClientFilter>)
    requires lib.Valid()
    ensures added.Some? <==> WellFormed(lib, term)
    ensures added.Some? ==> added.value != ClientFilter([], [])
    ensures added.Some? ==> forall a: Address :: Accepts(added.value, Dotted(a)) <==> Selects(lib, term, a)
  {
    hide Dotted, MatchesSome, IsIpPrefix, IsPrefixTerm, PrefixOf;
    NothingMatches();
    if '/' in term {
      var network := lib.network(term);
      if network.None? || network.value.V6? { return None; }
      if network.value.network.prefixLen == 32 {
        SingleAddress(network.value.network);
        return Some(ClientFilter([Dotted(network.value.network.Address())], []));
      } else {
        var prefixes := CidrPrefixes(network.value.network);
        ExpansionNonEmpty(network.value.network);
        return Some(ClientFilter([], prefixes));
      }
    } else if IsPrefixTerm(term) {
      var prefix := PrefixOf(term);
      if !IsIpPrefix(prefix) { return None; }
      OnePrefix(prefix);
      return Some(ClientFilter([], [prefix]));
    } else {
      var address := lib.address(term);
      if address.None? { return None; }
      return Some(ClientFilter([address.value], []));
    }
  }

  /** The first malformed term is reported; otherwise an address passes exactly when some term selects it. */
  method ParseClients(lib: IpLibrary, terms: seq<string>) returns (parsed: Parsed<ClientFilter>)
    requires lib.Valid()
    ensures parsed.TooManyTerms? <==> |terms| > MAX_TERMS
    ensures parsed.Malformed? ==> exists i :: 0 <= i < |terms| && parsed.term == terms[i] && !WellFormed(lib, terms[i])
                                              && forall j :: 0 <= j < i ==> WellFormed(lib, terms[j])
    ensures parsed.Unfiltered? <==> terms == []
    ensures parsed.Filtered? ==> forall i :: 0 <= i < |terms| ==> WellFormed(lib, terms[i])
    ensures parsed.Filtered? ==> forall a: Address ::
              ClientCondition(parsed.filter, Dotted(a)) <==> SomeSelects(lib, terms, |terms|, a)
  {
    if |terms| > MAX_TERMS { return TooManyTerms; }
    hide Dotted, Accepts, Selects, WellFormed, ClientCondition;
    var filter := ClientFilter([], []);
    NothingAccepted();
    for i := 0 to |terms|
      invariant forall j :: 0 <= j < i ==> WellFormed(lib, terms[j])
      invariant filter == ClientFilter([], []) <==> i == 0
      invariant forall a: Address :: Accepts(filter, Dotted(a)) <==> SomeSelects(lib, terms, i, a)
    {
      var added := ParseClient(lib, terms[i]);
      if added.None? { return Malformed(terms[i]); }
      AcceptsMore(filter, added.value);
      SelectsMore(lib, terms, i);
      filter := ClientFilter(filter.exact + added.value.exact, filter.prefixes + added.value.prefixes);
    }
    if filter.exact == [] && filter.prefixes == [] { return Unfiltered; }
    ClientConditionMeans(filter);
    return Filtered(filter);
  }

  lemma NothingAccepted()
    ensures forall s :: !Accepts(ClientFilter([], []), s)
  {}

  lemma NothingMatches()
    ensures forall s :: !MatchesSome([], s)
  {}

  lemma OnePrefix(prefix: string)
    ensures forall s :: MatchesSome([prefix], s) <==> StartsWith(s, prefix)
  {
    forall s ensures MatchesSome([prefix], s) <==> StartsWith(s, prefix) {
      assert [prefix][0] == prefix;
    }
  }

  lemma ExpansionNonEmpty(network: Network)
    requires network.Valid() && network.prefixLen < 32
    ensures Expansion(network) != []
  {
    hide Pow2, Step, NthPrefix;
    if Expands(network) { NetworkIsBlocks(network); }
  }

  lemma SingleAddress(network: Network)
    requires network.Valid() && network.prefixLen == 32
    ensures forall a: Address :: Dotted(a) == Dotted(network.Address()) <==> InNetwork(network, a)
  {
    hide Dotted;
    assert network.Size() == 1;
    forall a: Address ensures Dotted(a) == Dotted(network.Address()) <==> InNetwork(network, a) {
      if Dotted(a) == Dotted(network.Address()) { DottedInjective(a, network.Address()); }
    }
  }

  lemma DottedInjective(a: nat, b: nat)
    requires Dotted(a) == Dotted(b)
    ensures a == b
  {
    OctetsPlain(a);
    OctetsPlain(b);
    PyText.JoinThenSplit(Octets(a), '.');
    PyText.JoinThenSplit(Octets(b), '.');
    hide PyText.Split, PyText.Join, Decimal;
    var xs, ys := Octets(a), Octets(b);
    assert xs[0] == ys[0] && xs[1] == ys[1] && xs[2] == ys[2] && xs[3] == ys[3];
    OctetEqual(a / 0x100_0000, b / 0x100_0000);
    OctetEqual(a / 0x1_0000 % 0x100, b / 0x1_0000 % 0x100);
    OctetEqual(a / 0x100 % 0x100, b / 0x100 % 0x100);
    OctetEqual(a % 0x100, b % 0x100);
    BlocksNest(a, b);
  }

  lemma AcceptsMore(f: ClientFilter, g: ClientFilter)
    ensures forall s ::
              Accepts(ClientFilter(f.exact + g.exact, f.prefixes + g.prefixes), s) <==> Accepts(f, s) || Accepts(g, s)
  {
    hide StartsWith;
    forall s
      ensures MatchesSome(f.prefixes + g.prefixes, s) <==> MatchesSome(f.prefixes, s) || MatchesSome(g.prefixes, s)
    {
      if MatchesSome(f.prefixes, s) {
        var k :| 0 <= k < |f.prefixes| && StartsWith(s, f.prefixes[k]);
        assert StartsWith(s, (f.prefixes + g.prefixes)[k]);
      }
      if MatchesSome(g.prefixes, s) {
        var k :| 0 <= k < |g.prefixes| && StartsWith(s, g.prefixes[k]);
        assert StartsWith(s, (f.prefixes + g.prefixes)[|f.prefixes| + k]);
      }
    }
  }

  lemma SelectsMore(lib: IpLibrary, terms: seq<string>, i: nat)
    requires lib.Valid() && i < |terms| && forall j :: 0 <= j < i + 1 ==> WellFormed(lib, terms[j])
    ensures forall a: Address ::
              SomeSelects(lib, terms, i + 1, a) <==> SomeSelects(lib, terms, i, a) || Selects(lib, terms[i], a)
  {
    hide Selects, WellFormed;
  }

  lemma ClientConditionMeans(filter: ClientFilter)
    ensures forall s :: ClientCondition(filter, s) <==> Accepts(filter, s)
  {
    hide Like, EscapeLike, StartsWith;
    forall s, prefix ensures Like(s, EscapeLike(prefix) + "%") <==> StartsWith(s, prefix) {
      PrefixCondition(s, prefix);
    }
  }
}
