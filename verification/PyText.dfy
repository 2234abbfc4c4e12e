/** Python's string operations, as far as the modelled code relies on them. */
module PyText {

  /** Letters are ASCII. */
  function UpperChar(c: char): char { if 'a' <= c <= 'z' then (c as int - 32) as char else c }

  /** One ASCII letter in either case, or one and the same character. */
  predicate SameLetter(a: char, b: char) {
    || a == b
    || ('A' <= a <= 'Z' && b as int == a as int + 32)
    || ('A' <= b <= 'Z' && a as int == b as int + 32)
  }

  predicate SameButCase(s: string, t: string) {
    |s| == |t| && forall i :: 0 <= i < |s| ==> SameLetter(s[i], t[i])
  }

  function LowerChar(c: char): char { if 'A' <= c <= 'Z' then (c as int + 32) as char else c }

  /** s.split(sep) for a one-character separator. */
  function Split(s: string, sep: char): (parts: seq<string>)
    ensures |parts| >= 1
  {
    if s == "" then [""]
    else
      var rest := Split(s[1..], sep);
      if s[0] == sep then [""] + rest else [[s[0]] + rest[0]] + rest[1..]
  }

  /** sep.join(parts) for a one-character separator. */
  function Join(parts: seq<string>, sep: char): string
  {
    if |parts| == 0 then ""
    else if |parts| == 1 then parts[0]
    else parts[0] + [sep] + Join(parts[1..], sep)
  }

  /** Splitting loses nothing and leaves no separator behind ... */
  lemma {:induction false} SplitThenJoin(s: string, sep: char)
    ensures Join(Split(s, sep), sep) == s
    ensures forall i :: 0 <= i < |Split(s, sep)| ==> sep !in Split(s, sep)[i]
  {
    if s != "" {
      SplitThenJoin(s[1..], sep);
      var rest := Split(s[1..], sep);
      if s[0] == sep {
        assert ([""] + rest)[1..] == rest;
      } else {
        var parts := [[s[0]] + rest[0]] + rest[1..];
        assert parts[1..] == rest[1..];
        assert s == [s[0]] + s[1..];
      }
    }
  }

  /** ... and is the only way to cut a text into separator-free pieces. */
  lemma {:induction false} JoinThenSplit(parts: seq<string>, sep: char)
    requires |parts| >= 1
    requires forall i :: 0 <= i < |parts| ==> sep !in parts[i]
    ensures Split(Join(parts, sep), sep) == parts
    decreases |parts|, |parts[0]|
  {
    var s := Join(parts, sep);
    if parts[0] != "" {
      var shorter := [parts[0][1..]] + parts[1..];
      assert shorter[1..] == parts[1..];
      JoinThenSplit(shorter, sep);
      assert s == [parts[0][0]] + Join(shorter, sep);
      assert s[1..] == Join(shorter, sep);
      assert parts[0] == [parts[0][0]] + parts[0][1..];
      assert parts[0][0] in parts[0];
      assert parts == [parts[0]] + parts[1..];
    } else if |parts| > 1 {
      JoinThenSplit(parts[1..], sep);
      assert s == [sep] + Join(parts[1..], sep);
      assert s[1..] == Join(parts[1..], sep);
      assert parts == [""] + parts[1..];
    }
  }

  lemma {:induction false} SplitFirst(p: string, rest: string, sep: char)
    requires sep !in p
    ensures Split(p + [sep] + rest, sep) == [p] + Split(rest, sep)
  {
    var s := p + [sep] + rest;
    if p == "" {
      assert s[1..] == rest;
    } else {
      SplitFirst(p[1..], rest, sep);
      assert s[1..] == p[1..] + [sep] + rest;
      assert p == [p[0]] + p[1..];
    }
  }

  /** The newline-terminated lines of a text, and what follows the last newline. */
  function Terminated(s: string): seq<string> {
    Split(s, '\n')[..|Split(s, '\n')| - 1]
  }

  function Tail(s: string): string {
    Split(s, '\n')[|Split(s, '\n')| - 1]
  }

  /** Lines as they are written: each with a newline behind it. */
  function Written(lines: seq<string>): string { if lines == [] then "" else lines[0] + "\n" + Written(lines[1..]) }

  lemma {:induction false} JoinIsWritten(lines: seq<string>, tail: string)
    ensures Join(lines + [tail], '\n') == Written(lines) + tail
  {
    if lines == [] {
      assert lines + [tail] == [tail];
    } else {
      JoinIsWritten(lines[1..], tail);
      assert (lines + [tail])[1..] == lines[1..] + [tail];
    }
  }

  /** A text is its terminated lines, each with its newline, and a tail without one -- and is so in one way only. */
  lemma LinesAndTail(text: string, lines: seq<string>, tail: string)
    ensures text == Written(lines) + tail && '\n' !in tail && (forall i :: 0 <= i < |lines| ==> '\n' !in lines[i])
            <==> lines == Terminated(text) && tail == Tail(text)
  {
    hide Written, Terminated, Tail, Split;
    if lines == Terminated(text) && tail == Tail(text) { CutIntoLines(text); }
    if text == Written(lines) + tail && '\n' !in tail && forall i :: 0 <= i < |lines| ==> '\n' !in lines[i] {
      LinesCutOff(lines, tail);
    }
  }

  lemma CutIntoLines(text: string)
    ensures text == Written(Terminated(text)) + Tail(text) && '\n' !in Tail(text)
    ensures forall i :: 0 <= i < |Terminated(text)| ==> '\n' !in Terminated(text)[i]
  {
    hide Split, Written, Join;
    SplitThenJoin(text, '\n');
    assert Split(text, '\n') == Terminated(text) + [Tail(text)];
    JoinIsWritten(Terminated(text), Tail(text));
  }

  lemma LinesCutOff(lines: seq<string>, tail: string)
    requires '\n' !in tail && forall i :: 0 <= i < |lines| ==> '\n' !in lines[i]
    ensures Terminated(Written(lines) + tail) == lines && Tail(Written(lines) + tail) == tail
  {
    hide Split, Written, Join;
    JoinIsWritten(lines, tail);
    JoinThenSplit(lines + [tail], '\n');
  }

  lemma SplitStep(c: char, s: string, sep: char)
    ensures Split([c] + s, sep) ==
            if c == sep then [""] + Split(s, sep) else [[c] + Split(s, sep)[0]] + Split(s, sep)[1..]
  {
    assert ([c] + s)[1..] == s;
  }

  /** Split(a + b) agrees with Split(a) except that b is appended to the last part and split with it. */
  ghost predicate SplitsApart(a: string, b: string, sep: char) {
    var parts := Split(a, sep);
    Split(a + b, sep) == parts[..|parts| - 1] + Split(parts[|parts| - 1] + b, sep)
  }

  lemma SplitsApartStep(c: char, a: string, b: string, sep: char)
    requires SplitsApart(a, b, sep)
    ensures SplitsApart([c] + a, b, sep)
  {
    hide Split, IsSpace;
    var rest := Split(a, sep);
    var last := rest[|rest| - 1];
    assert ([c] + a) + b == [c] + (a + b);
    SplitStep(c, a, sep);
    SplitStep(c, a + b, sep);
    if c != sep && |rest| == 1 {
      SplitStep(c, last + b, sep);
      assert ([c] + last) + b == [c] + (last + b);
    }
  }

  lemma {:induction false} SplitConcat(a: string, b: string, sep: char)
    ensures SplitsApart(a, b, sep)
  {
    if a == "" {
      assert a + b == b && "" + b == b;
    } else {
      SplitConcat(a[1..], b, sep);
      SplitsApartStep(a[0], a[1..], b, sep);
      assert a == [a[0]] + a[1..];
    }
  }

  /** Reading a text in two pieces, carrying the unterminated tail, loses and repeats nothing. */
  lemma TerminatedConcat(a: string, b: string)
    ensures Terminated(a + b) == Terminated(a) + Terminated(Tail(a) + b)
    ensures Tail(a + b) == Tail(Tail(a) + b)
  {
    hide Split;
    SplitConcat(a, b, '\n');
  }

  lemma {:induction false} TailHasNoNewline(s: string)
    ensures '\n' !in Tail(s)
    ensures Terminated(Tail(s)) == [] && Tail(Tail(s)) == Tail(s)
  {
    SplitThenJoin(s, '\n');
    JoinThenSplit([Tail(s)], '\n');
  }

  /** str.isspace() for one character, which is also what `\s`, split() and strip() use. */
  predicate IsSpace(c: char) {
    var n := c as int;
    || 0x09 <= n <= 0x0d || 0x1c <= n <= 0x20 || n == 0x85 || n == 0xa0 || n == 0x1680
    || 0x2000 <= n <= 0x200a || n == 0x2028 || n == 0x2029 || n == 0x202f || n == 0x205f || n == 0x3000
  }

  /** `not s.strip()` */
  predicate IsBlank(s: string) { forall i :: 0 <= i < |s| ==> IsSpace(s[i]) }

  /** The blanks at either end of a text removed. */
  function Strip(s: string): string { StripRight(StripLeft(s)) }

  function StripLeft(s: string): string { if s != "" && IsSpace(s[0]) then StripLeft(s[1..]) else s }

  function StripRight(s: string): string {
    if s != "" && IsSpace(s[|s| - 1]) then StripRight(s[..|s| - 1]) else s
  }

  predicate OccursAt<T(==)>(hay: seq<T>, needle: seq<T>, i: int) {
    0 <= i <= |hay| - |needle| && hay[i..i + |needle|] == needle
  }

  lemma OccursShift<T>(front: seq<T>, rest: seq<T>, needle: seq<T>, q: int)
    requires 0 <= q
    ensures OccursAt(front + rest, needle, |front| + q) <==> OccursAt(rest, needle, q)
  {
    if q <= |rest| - |needle| {
      assert (front + rest)[|front| + q..|front| + q + |needle|] == rest[q..q + |needle|];
    }
  }

  lemma OccursTransitive<T>(xs: seq<T>, ys: seq<T>, zs: seq<T>, i: int, j: int)
    requires OccursAt(ys, xs, i) && OccursAt(zs, ys, j)
    ensures OccursAt(zs, xs, i + j)
  {
    assert zs == zs[..j] + zs[j..] && zs[j..] == ys + zs[j..][|ys|..];
    assert (ys + zs[j..][|ys|..])[i..i + |xs|] == ys[i..i + |xs|];
    OccursShift(zs[..j], zs[j..], xs, i);
  }

  /** `strpos(hay, needle) > 0` for a non-empty needle. */
  predicate Contains(hay: string, needle: string) {
    exists i | 0 <= i <= |hay| :: OccursAt(hay, needle, i)
  }

  /** The characters before the first blank. */
  function FirstWord(s: string): (w: string)
    ensures |w| <= |s|
  {
    if s == "" || IsSpace(s[0]) then "" else [s[0]] + FirstWord(s[1..])
  }

  /** s.split(maxsplit=n): words as long as cuts are left, then the rest from its first word on. */
  function SplitMax(s: string, n: nat): seq<string>
    decreases n
  {
    var t := StripLeft(s);
    if t == "" then []
    else if n == 0 then [t]
    else
      var w := FirstWord(t);
      [w] + SplitMax(t[|w|..], n - 1)
  }

  /** s.split() */
  function Words(s: string): (words: seq<string>)
    decreases |s|
  {
    var t := StripLeft(s);
    StripLeftShortens(s);
    if t == "" then []
    else
      var w := FirstWord(t);
      FirstWordAdvances(t);
      [w] + Words(t[|w|..])
  }

  lemma {:induction false} StripLeftShortens(s: string)
    ensures |StripLeft(s)| <= |s| && (StripLeft(s) != "" ==> !IsSpace(StripLeft(s)[0]))
  {
    if s != "" && IsSpace(s[0]) { StripLeftShortens(s[1..]); }
  }

  lemma FirstWordAdvances(t: string)
    requires t != "" && !IsSpace(t[0])
    ensures FirstWord(t) != ""
  {}

  /** A non-empty text without blanks. */
  predicate IsWord(s: string) { s != "" && forall i :: 0 <= i < |s| ==> !IsSpace(s[i]) }

  predicate AreWords(words: seq<string>) { forall i :: 0 <= i < |words| ==> IsWord(words[i]) }

  lemma {:induction false} FirstWordIs(w: string, rest: string)
    requires (forall i :: 0 <= i < |w| ==> !IsSpace(w[i])) && (rest == "" || IsSpace(rest[0]))
    ensures FirstWord(w + rest) == w
  {
    if w == "" {
      assert w + rest == rest;
    } else {
      FirstWordIs(w[1..], rest);
      assert (w + rest)[1..] == w[1..] + rest;
      assert w == [w[0]] + w[1..];
    }
  }

  lemma SpacedStarts(words: seq<string>)
    requires AreWords(words) && words != []
    ensures Join(words, ' ') != "" && !IsSpace(Join(words, ' ')[0]) && StripLeft(Join(words, ' ')) == Join(words, ' ')
    ensures FirstWord(Join(words, ' ')) == words[0]
    ensures Join(words, ' ')[|words[0]|..] == if |words| == 1 then "" else " " + Join(words[1..], ' ')
  {
    assert IsWord(words[0]);
    if |words| == 1 {
      FirstWordIs(words[0], "");
      assert words[0] + "" == words[0];
    } else {
      FirstWordIs(words[0], " " + Join(words[1..], ' '));
      assert words[0] + (" " + Join(words[1..], ' ')) == words[0] + " " + Join(words[1..], ' ');
    }
  }

  lemma StripSpace(s: string)
    ensures StripLeft(" " + s) == StripLeft(s)
  {
    assert (" " + s)[1..] == s;
  }

  /** Splitting words joined by single spaces gives the words back ... */
  lemma {:induction false} WordsOfSpaced(words: seq<string>)
    requires AreWords(words)
    ensures Words(Join(words, ' ')) == words
    ensures words != [] ==> Words(" " + Join(words, ' ')) == words
  {
    if words == [] {
    } else {
      SpacedStarts(words);
      StripSpace(Join(words, ' '));
      assert AreWords(words[1..]);
      WordsOfSpaced(words[1..]);
      assert words == [words[0]] + words[1..];
      hide StripLeft, FirstWord, Join;
    }
  }

  lemma SplitMaxStep(s: string, words: seq<string>, n: nat)
    requires AreWords(words) && words != [] && (s == Join(words, ' ') || s == " " + Join(words, ' '))
    ensures SplitMax(s, n) == if n == 0 then [Join(words, ' ')]
                              else [words[0]] + SplitMax(Join(words, ' ')[|words[0]|..], n - 1)
  {
    hide StripLeft, FirstWord, Join;
    SpacedStarts(words);
    StripSpace(Join(words, ' '));
  }

  /** ... and with a limit leaves the last words joined. */
  lemma {:induction false} SplitMaxOfSpaced(words: seq<string>, n: nat)
    requires AreWords(words) && |words| > n
    ensures SplitMax(Join(words, ' '), n) == words[..n] + [Join(words[n..], ' ')]
    ensures SplitMax(" " + Join(words, ' '), n) == words[..n] + [Join(words[n..], ' ')]
    decreases n
  {
    hide SplitMax, StripLeft, FirstWord;
    SpacedStarts(words);
    SplitMaxStep(Join(words, ' '), words, n);
    SplitMaxStep(" " + Join(words, ' '), words, n);
    if n == 0 {
      assert words[0..] == words;
    } else {
      assert AreWords(words[1..]);
      SplitMaxOfSpaced(words[1..], n - 1);
      assert words[1..][n - 1..] == words[n..];
      assert [words[0]] + words[1..][..n - 1] == words[..n];
    }
  }
}
