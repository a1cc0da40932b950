/** String operations of Rust's `str` that the installer relies on:
    whitespace trimming, prefix and substring tests, `lines()`, `join`,
    `split_whitespace()`, decimal formatting and `u64` parsing, and the
    lexicographic order used by `sort`. Strings are sequences of Unicode
    scalar values, as Rust `char`s are. */
module Text {
  import opened Wrappers

  /** Largest value of a Rust `u64` */
  const U64_MAX: nat := 0xFFFF_FFFF_FFFF_FFFF

  /** Rust's `char::is_whitespace`: the Unicode White_Space property */
  predicate IsWhitespace(c: char)
  {
    var n := c as int;
    (9 <= n <= 13) || n == 32 || n == 0x85 || n == 0xA0 || n == 0x1680
    || (0x2000 <= n <= 0x200A) || n == 0x2028 || n == 0x2029 || n == 0x202F
    || n == 0x205F || n == 0x3000
  }

  predicate IsAsciiDigit(c: char) { '0' <= c <= '9' }

  predicate IsAsciiHexDigit(c: char)
  {
    IsAsciiDigit(c) || 'a' <= c <= 'f' || 'A' <= c <= 'F'
  }

  /** The number of bytes UTF-8 spends on a character */
  function Utf8Width(c: char): (n: nat)
    ensures 1 <= n <= 4
    ensures n == 1 <==> c as int < 0x80
  {
    var v := c as int;
    if v < 0x80 then 1 else if v < 0x800 then 2 else if v < 0x10000 then 3 else 4
  }

  /** The length of a text in UTF-8 bytes, what Rust's `str::len` gives */
  function Utf8Length(s: string): (n: nat)
    ensures |s| <= n <= 4 * |s|
  {
    if s == [] then 0 else Utf8Width(s[0]) + Utf8Length(s[1..])
  }

  predicate IsAscii(s: string)
  {
    forall i :: 0 <= i < |s| ==> s[i] as int < 0x80
  }

  /** A text is as long in bytes as in characters exactly when it is
      ASCII. */
  lemma {:induction false} Utf8LengthOfAscii(s: string)
    ensures Utf8Length(s) == |s| <==> IsAscii(s)
  {
    if s != [] {
      Utf8LengthOfAscii(s[1..]);
      assert IsAscii(s) <==> s[0] as int < 0x80 && IsAscii(s[1..]) by {
        if s[0] as int < 0x80 && IsAscii(s[1..]) {
          forall i | 0 <= i < |s| ensures s[i] as int < 0x80 {
            if i > 0 { assert s[i] == s[1..][i - 1]; }
          }
        }
      }
    }
  }

  predicate StartsWith(s: string, prefix: string)
  {
    |prefix| <= |s| && s[..|prefix|] == prefix
  }

  predicate EndsWith(s: string, suffix: string)
  {
    |suffix| <= |s| && s[|s| - |suffix|..] == suffix
  }

  /** `s.contains(t)` */
  predicate Contains(s: string, t: string)
  {
    exists i :: 0 <= i <= |s| && OccursAt(s, t, i)
  }

  /** `t` occurs in `s` starting at index `i` */
  predicate OccursAt(s: string, t: string, i: nat)
  {
    i + |t| <= |s| && s[i..i + |t|] == t
  }

  lemma OccursAtTail(s: string, t: string, j: nat)
    requires s != []
    ensures OccursAt(s[1..], t, j) <==> OccursAt(s, t, j + 1)
  {
    if j + |t| <= |s[1..]| {
      assert s[1..][j..j + |t|] == s[j + 1..j + 1 + |t|];
    }
  }

  /** `s.find(t)`: the first index at which `t` occurs */
  function Find(s: string, t: string): (r: Option<nat>)
    ensures r.Some? ==> OccursAt(s, t, r.value)
    ensures r.Some? ==> forall j :: 0 <= j < r.value ==> !OccursAt(s, t, j)
    ensures r.None? ==> forall j :: 0 <= j <= |s| ==> !OccursAt(s, t, j)
  {
    if |t| > |s| then None
    else if s[..|t|] == t then Some(0)
    else
      var rest := Find(s[1..], t);
      assert forall j :: 1 <= j <= |s| ==> (OccursAt(s, t, j) <==> OccursAt(s[1..], t, j - 1)) by {
        forall j | 1 <= j <= |s| ensures OccursAt(s, t, j) <==> OccursAt(s[1..], t, j - 1) {
          OccursAtTail(s, t, j - 1);
        }
      }
      assert !OccursAt(s, t, 0) by { assert s[0..|t|] == s[..|t|]; }
      if rest.None? then None else Some(rest.value + 1)
  }

  /** `s.split_once(pat)`: the text before and after the first occurrence */
  function SplitOnce(s: string, pat: string): (r: Option<(string, string)>)
    ensures r.Some? ==> s == r.value.0 + pat + r.value.1
    ensures r.Some? ==> forall j :: 0 <= j < |r.value.0| ==> !OccursAt(s, pat, j)
    ensures r.None? <==> !Contains(s, pat)
  {
    match Find(s, pat)
    case None => None
    case Some(i) => Some((s[..i], s[i + |pat|..]))
  }

  /** `str::trim_start`: the suffix left after dropping leading whitespace */
  function TrimStart(s: string): (r: string)
    ensures |r| <= |s|
  {
    if s != [] && IsWhitespace(s[0]) then TrimStart(s[1..]) else s
  }

  /** What `TrimStart` drops is whitespace, and what it keeps is a suffix
      that does not start with whitespace. */
  lemma {:induction false} TrimStartDrops(s: string)
    ensures TrimStart(s) == [] || !IsWhitespace(TrimStart(s)[0])
    ensures forall i :: 0 <= i < |TrimStart(s)| ==> TrimStart(s)[i] == s[|s| - |TrimStart(s)| + i]
    ensures forall i :: 0 <= i < |s| - |TrimStart(s)| ==> IsWhitespace(s[i])
  {
    if s != [] && IsWhitespace(s[0]) {
      var t := s[1..];
      TrimStartDrops(t);
      var r := TrimStart(t);
      assert TrimStart(s) == r;
      forall i | 0 <= i < |r| ensures r[i] == s[|s| - |r| + i] {
        assert r[i] == t[|t| - |r| + i];
      }
      forall i | 0 < i < |s| - |r| ensures IsWhitespace(s[i]) {
        assert s[i] == t[i - 1];
      }
    }
  }

  /** `str::trim_end`: the prefix left after dropping trailing whitespace */
  function TrimEnd(s: string): (r: string)
    ensures |r| <= |s|
  {
    if s != [] && IsWhitespace(s[|s| - 1]) then TrimEnd(s[..|s| - 1]) else s
  }

  /** What `TrimEnd` drops is whitespace, and what it keeps is a prefix
      that does not end in whitespace. */
  lemma {:induction false} TrimEndDrops(s: string)
    ensures TrimEnd(s) == [] || !IsWhitespace(TrimEnd(s)[|TrimEnd(s)| - 1])
    ensures forall i :: 0 <= i < |TrimEnd(s)| ==> TrimEnd(s)[i] == s[i]
    ensures forall i :: |TrimEnd(s)| <= i < |s| ==> IsWhitespace(s[i])
  {
    if s != [] && IsWhitespace(s[|s| - 1]) {
      TrimEndDrops(s[..|s| - 1]);
    }
  }

  /** `str::trim` */
  function Trim(s: string): string
  {
    TrimEnd(TrimStart(s))
  }

  /** A string that starts with a prefix whose first and last characters are
      not whitespace still starts with it once trimmed. */
  lemma TrimKeepsPrefix(s: string, p: string)
    requires StartsWith(s, p) && p != []
    requires !IsWhitespace(p[0]) && !IsWhitespace(p[|p| - 1])
    ensures StartsWith(Trim(s), p)
  {
    assert s[0] == p[0];
    assert TrimStart(s) == s;
    TrimEndKeepsPrefix(s, p);
  }

  lemma TrimEndKeepsPrefix(s: string, p: string)
    requires StartsWith(s, p) && p != []
    requires !IsWhitespace(p[|p| - 1])
    ensures StartsWith(TrimEnd(s), p)
  {
    var r := TrimEnd(s);
    TrimEndDrops(s);
    assert s[|p| - 1] == p[|p| - 1];
    assert |p| <= |r|;
    forall i | 0 <= i < |p| ensures r[i] == p[i] {
      assert s[i] == s[..|p|][i];
    }
    assert r[..|p|] == p;
  }

  /** `str::split(sep)` for a single-character separator: always at least one piece */
  function SplitOn(s: string, sep: char): (r: seq<string>)
    ensures |r| >= 1
    ensures forall i :: 0 <= i < |r| ==> sep !in r[i]
  {
    if |s| == 0 then [""]
    else
      var rest := SplitOn(s[1..], sep);
      if s[0] == sep then [""] + rest else [[s[0]] + rest[0]] + rest[1..]
  }

  /** Splitting at a separator that occurs after a separator-free head */
  lemma {:induction false} SplitOnAppend(a: string, sep: char, b: string)
    requires sep !in a
    ensures SplitOn(a + [sep] + b, sep) == [a] + SplitOn(b, sep)
  {
    if a == [] {
      assert a + [sep] + b == [sep] + b;
      assert ([sep] + b)[1..] == b;
    } else {
      assert (a + [sep] + b)[1..] == a[1..] + [sep] + b;
      SplitOnAppend(a[1..], sep, b);
      assert [a[0]] + a[1..] == a;
    }
  }

  lemma {:induction false} SplitOnNoSep(a: string, sep: char)
    requires sep !in a
    ensures SplitOn(a, sep) == [a]
  {
    if a != [] {
      SplitOnNoSep(a[1..], sep);
      assert [a[0]] + a[1..] == a;
    }
  }

  /** A line as `lines()` yields it when a line feed followed it: one
      carriage return before the line feed is dropped. */
  function StripCr(line: string): string
  {
    if line != [] && line[|line| - 1] == '\r' then line[..|line| - 1] else line
  }

  /** `str::lines()`: split at "\n" (and "\r\n"); a final empty line after the
      last line feed is not produced, and the empty string has no lines. */
  function Lines(s: string): (r: seq<string>)
    ensures forall i :: 0 <= i < |r| ==> '\n' !in r[i]
  {
    if s == [] then []
    else
      var pieces := SplitOn(s, '\n');
      var n := |pieces| - 1;
      seq(n, i requires 0 <= i < n => StripCr(pieces[i]))
        + (if pieces[n] == [] then [] else [pieces[n]])
  }

  /** `[x0, x1, ...].join(sep)` */
  function Join(xs: seq<string>, sep: string): string
  {
    if xs == [] then []
    else if |xs| == 1 then xs[0]
    else xs[0] + sep + Join(xs[1..], sep)
  }

  /** Every element followed by a line feed: the text a sequence of lines
      occupies in a file that ends in a line feed. */
  function Terminated(xs: seq<string>): string
  {
    if xs == [] then [] else xs[0] + "\n" + Terminated(xs[1..])
  }

  lemma {:induction false} TerminatedAppend(a: seq<string>, b: seq<string>)
    ensures Terminated(a + b) == Terminated(a) + Terminated(b)
  {
    if a != [] {
      assert (a + b)[1..] == a[1..] + b;
      TerminatedAppend(a[1..], b);
    } else {
      assert a + b == b;
    }
  }

  lemma {:induction false} JoinThenNewline(xs: seq<string>)
    requires xs != []
    ensures Join(xs, "\n") + "\n" == Terminated(xs)
  {
    if |xs| > 1 {
      JoinThenNewline(xs[1..]);
    }
  }

  /** Joining lines that end in an empty line yields the other lines, terminated */
  lemma JoinTrailingEmpty(xs: seq<string>)
    requires |xs| >= 2 && xs[|xs| - 1] == []
    ensures Join(xs, "\n") == Terminated(xs[..|xs| - 1])
  {
    JoinSnoc(xs[..|xs| - 1], []);
    assert xs[..|xs| - 1] + [[]] == xs;
    JoinThenNewline(xs[..|xs| - 1]);
  }

  lemma {:induction false} JoinSnoc(xs: seq<string>, x: string)
    requires xs != []
    ensures Join(xs + [x], "\n") == Join(xs, "\n") + "\n" + x
  {
    if |xs| == 1 {
      assert (xs + [x])[1..] == [x];
    } else {
      assert (xs + [x])[1..] == xs[1..] + [x];
      JoinSnoc(xs[1..], x);
    }
  }

  /** A join of line-feed-free elements ends with its last element */
  lemma {:induction false} JoinEndsWithLast(xs: seq<string>)
    requires xs != []
    ensures EndsWith(Join(xs, "\n"), xs[|xs| - 1])
  {
    if |xs| > 1 {
      JoinEndsWithLast(xs[1..]);
    }
  }

  /** `lines()` recovers the lines of a line-feed-terminated text, provided no
      line holds a line feed or ends in a carriage return. */
  lemma {:induction false} LinesOfTerminated(xs: seq<string>)
    requires forall i :: 0 <= i < |xs| ==> '\n' !in xs[i]
    requires forall i :: 0 <= i < |xs| ==> xs[i] == [] || xs[i][|xs[i]| - 1] != '\r'
    ensures Lines(Terminated(xs)) == xs
  {
    SplitOnTerminated(xs);
    if xs != [] {
      var pieces := SplitOn(Terminated(xs), '\n');
      assert pieces == xs + [[]];
      var r := Lines(Terminated(xs));
      assert |r| == |xs|;
      forall i | 0 <= i < |xs| ensures r[i] == xs[i] {
        assert r[i] == StripCr(pieces[i]);
      }
    }
  }

  lemma {:induction false} SplitOnTerminated(xs: seq<string>)
    requires forall i :: 0 <= i < |xs| ==> '\n' !in xs[i]
    ensures SplitOn(Terminated(xs), '\n') == xs + [[]]
  {
    if xs != [] {
      SplitOnTerminated(xs[1..]);
      assert xs[0] + "\n" + Terminated(xs[1..]) == xs[0] + ['\n'] + Terminated(xs[1..]);
      SplitOnAppend(xs[0], '\n', Terminated(xs[1..]));
      assert [xs[0]] + (xs[1..] + [[]]) == xs + [[]];
    }
  }

  lemma OccursAtAppend(a: string, b: string, t: string, k: nat)
    ensures OccursAt(a, t, k) ==> OccursAt(a + b, t, k)
    ensures OccursAt(b, t, k) ==> OccursAt(a + b, t, |a| + k)
  {
    if OccursAt(a, t, k) {
      assert (a + b)[k..k + |t|] == a[k..k + |t|];
    }
    if OccursAt(b, t, k) {
      assert (a + b)[|a| + k..|a| + k + |t|] == b[k..k + |t|];
    }
  }

  lemma ContainsInSuffix(a: string, b: string, t: string)
    requires Contains(b, t)
    ensures Contains(a + b, t)
  {
    var k :| 0 <= k <= |b| && OccursAt(b, t, k);
    OccursAtAppend(a, b, t, k);
  }

  lemma ContainsInPrefix(a: string, b: string, t: string)
    requires Contains(a, t)
    ensures Contains(a + b, t)
  {
    var k :| 0 <= k <= |a| && OccursAt(a, t, k);
    OccursAtAppend(a, b, t, k);
  }

  lemma ContainsItself(t: string)
    ensures Contains(t, t)
  {
    assert OccursAt(t, t, 0);
  }

  lemma StartsWithConcat(a: string, b: string)
    ensures StartsWith(a + b, a)
  {
    assert (a + b)[..|a|] == a;
  }

  /** Every joined element occurs in the joined text. */
  lemma {:induction false} JoinContainsEach(xs: seq<string>, sep: string)
    ensures forall i :: 0 <= i < |xs| ==> Contains(Join(xs, sep), xs[i])
  {
    if |xs| == 1 {
      assert OccursAt(Join(xs, sep), xs[0], 0);
    } else if |xs| > 1 {
      JoinContainsEach(xs[1..], sep);
      var rest := Join(xs[1..], sep);
      assert Join(xs, sep) == xs[0] + (sep + rest);
      forall i | 0 <= i < |xs| ensures Contains(Join(xs, sep), xs[i]) {
        if i == 0 {
          OccursAtAppend(xs[0], sep + rest, xs[0], 0);
          assert OccursAt(xs[0], xs[0], 0);
        } else {
          assert xs[i] == xs[1..][i - 1];
          var k :| 0 <= k <= |rest| && OccursAt(rest, xs[i], k);
          OccursAtAppend(sep, rest, xs[i], k);
          OccursAtAppend(xs[0], sep + rest, xs[i], |sep| + k);
        }
      }
    }
  }

  /** Length of the run of non-whitespace characters at the start of `s` */
  function WordLength(s: string): (n: nat)
    ensures n <= |s|
    ensures forall i :: 0 <= i < n ==> !IsWhitespace(s[i])
    ensures n == |s| || IsWhitespace(s[n])
  {
    if s == [] || IsWhitespace(s[0]) then 0 else 1 + WordLength(s[1..])
  }

  /** `str::split_whitespace()` */
  function Words(s: string): (r: seq<string>)
    ensures forall i :: 0 <= i < |r| ==> r[i] != []
  {
    if s == [] then []
    else if IsWhitespace(s[0]) then Words(s[1..])
    else
      var n := WordLength(s);
      [s[..n]] + Words(s[n..])
  }

  /** No whitespace character */
  predicate NoWhitespace(s: string)
  {
    forall i :: 0 <= i < |s| ==> !IsWhitespace(s[i])
  }

  lemma NoWhitespaceConcat(a: string, b: string)
    requires NoWhitespace(a) && NoWhitespace(b)
    ensures NoWhitespace(a + b)
  {
    assert forall i :: 0 <= i < |a + b| ==> (a + b)[i] == if i < |a| then a[i] else b[i - |a|];
  }

  lemma CharNotInConcat(c: char, a: string, b: string)
    requires c !in a && c !in b
    ensures c !in a + b
  {
  }

  /** A word followed by whitespace (or nothing) is where the first word ends. */
  lemma WordLengthOfWord(a: string, rest: string)
    requires NoWhitespace(a)
    requires rest == [] || IsWhitespace(rest[0])
    ensures WordLength(a + rest) == |a|
  {
    var s := a + rest;
    assert forall i :: 0 <= i < |a| ==> s[i] == a[i];
    if rest != [] {
      assert s[|a|] == rest[0];
    }
  }

  /** `split_whitespace` recovers words joined by single spaces. */
  lemma {:induction false} WordsOfJoin(xs: seq<string>)
    requires forall i :: 0 <= i < |xs| ==> xs[i] != [] && NoWhitespace(xs[i])
    ensures Words(Join(xs, " ")) == xs
  {
    if |xs| == 1 {
      WordLengthOfWord(xs[0], []);
      assert xs[0] + [] == xs[0];
      assert xs[0][|xs[0]|..] == [];
    } else if |xs| > 1 {
      var w, rest := xs[0], Join(xs[1..], " ");
      var s := w + " " + rest;
      assert s == w + (" " + rest);
      WordLengthOfWord(w, " " + rest);
      assert s[..|w|] == w && s[|w|..] == " " + rest;
      assert (" " + rest)[1..] == rest;
      WordsOfJoin(xs[1..]);
    }
  }

  /** Words joined by single spaces hold no whitespace but those spaces. */
  lemma {:induction false} JoinSpacedChars(xs: seq<string>)
    requires forall i :: 0 <= i < |xs| ==> NoWhitespace(xs[i])
    ensures forall k :: 0 <= k < |Join(xs, " ")| ==> Join(xs, " ")[k] == ' ' || !IsWhitespace(Join(xs, " ")[k])
  {
    if |xs| > 1 {
      JoinSpacedChars(xs[1..]);
      var w, rest := xs[0], Join(xs[1..], " ");
      assert Join(xs, " ") == w + " " + rest;
      forall k | 0 <= k < |Join(xs, " ")|
        ensures Join(xs, " ")[k] == ' ' || !IsWhitespace(Join(xs, " ")[k])
      {
        if k > |w| {
          assert Join(xs, " ")[k] == rest[k - |w| - 1];
        }
      }
    }
  }

  /** A line-feed-terminated value that starts and ends in non-whitespace
      trims back to the value. */
  lemma TrimOfTerminated(v: string)
    requires v != [] && !IsWhitespace(v[0]) && !IsWhitespace(v[|v| - 1])
    ensures Trim(v + "\n") == v
  {
    var t := v + "\n";
    assert t[0] == v[0];
    assert TrimStart(t) == t;
    assert IsWhitespace(t[|t| - 1]) && t[..|t| - 1] == v;
    assert TrimEnd(t) == TrimEnd(v);
    assert TrimEnd(v) == v;
  }

  /** Leading whitespace before a value that starts with none is all that
      `TrimStart` removes. */
  lemma {:induction false} TrimStartOfPadded(pad: string, v: string)
    requires forall i :: 0 <= i < |pad| ==> IsWhitespace(pad[i])
    requires v == [] || !IsWhitespace(v[0])
    ensures TrimStart(pad + v) == v
  {
    if pad == [] {
      assert pad + v == v;
    } else {
      assert (pad + v)[1..] == pad[1..] + v;
      TrimStartOfPadded(pad[1..], v);
    }
  }

  function DigitChar(d: nat): char
    requires d < 10
  {
    "0123456789"[d]
  }

  function DigitValue(c: char): nat
    requires IsAsciiDigit(c)
  {
    (c as int - '0' as int) as nat
  }

  predicate AllDigits(s: string)
  {
    forall i :: 0 <= i < |s| ==> IsAsciiDigit(s[i])
  }

  /** Value of a string of decimal digits */
  function DigitsValue(s: string): nat
    requires AllDigits(s)
  {
    if s == [] then 0 else 10 * DigitsValue(s[..|s| - 1]) + DigitValue(s[|s| - 1])
  }

  /** Decimal formatting of a natural number, as `format!("{}", n)` */
  function NatToString(n: nat): (s: string)
    ensures s != [] && AllDigits(s)
  {
    if n < 10 then [DigitChar(n)] else NatToString(n / 10) + [DigitChar(n % 10)]
  }

  /** Decimal formatting is undone by reading the digits back */
  lemma {:induction false} NatToStringRoundTrip(n: nat)
    ensures DigitsValue(NatToString(n)) == n
  {
    var s := NatToString(n);
    if n >= 10 {
      NatToStringRoundTrip(n / 10);
      assert s[..|s| - 1] == NatToString(n / 10);
    }
  }

  /** `s.parse::<u64>()`: an optional '+', then one or more ASCII digits,
      with a value no larger than `U64_MAX` */
  function ParseU64(s: string): (r: Option<nat>)
    ensures r.Some? ==> r.value <= U64_MAX
  {
    var digits := if s != [] && s[0] == '+' then s[1..] else s;
    if digits == [] || !AllDigits(digits) then None
    else if DigitsValue(digits) <= U64_MAX then Some(DigitsValue(digits))
    else None
  }

  lemma ParseU64OfFormatted(n: nat)
    requires n <= U64_MAX
    ensures ParseU64(NatToString(n)) == Some(n)
  {
    NatToStringRoundTrip(n);
  }

  /** Rust's `Ord` on `str`: lexicographic by character, a proper prefix first */
  predicate LexLess(a: string, b: string)
  {
    if a == [] then b != []
    else if b == [] then false
    else if a[0] != b[0] then a[0] < b[0]
    else LexLess(a[1..], b[1..])
  }

  lemma {:induction false} LexLessIrreflexive(a: string)
    ensures !LexLess(a, a)
  {
    if a != [] {
      LexLessIrreflexive(a[1..]);
    }
  }

  lemma {:induction false} LexLessTransitive(a: string, b: string, c: string)
    requires LexLess(a, b) && LexLess(b, c)
    ensures LexLess(a, c)
  {
    if a != [] && b != [] && c != [] && a[0] == b[0] && b[0] == c[0] {
      LexLessTransitive(a[1..], b[1..], c[1..]);
    }
  }

  lemma {:induction false} LexLessTotal(a: string, b: string)
    requires a != b
    ensures LexLess(a, b) || LexLess(b, a)
  {
    if a != [] && b != [] && a[0] == b[0] {
      assert a == [a[0]] + a[1..] && b == [b[0]] + b[1..];
      LexLessTotal(a[1..], b[1..]);
    }
  }

  lemma LexLessAsymmetric(a: string, b: string)
    requires LexLess(a, b)
    ensures !LexLess(b, a)
  {
    if LexLess(b, a) {
      LexLessTransitive(a, b, a);
      LexLessIrreflexive(a);
    }
  }

  /** Non-decreasing by key */
  ghost predicate SortedBy<T>(s: seq<T>, key: T -> string)
  {
    forall i, j :: 0 <= i < j < |s| ==> !LexLess(key(s[j]), key(s[i]))
  }

  /** Inserts after every element whose key is not greater, which keeps
      elements with equal keys in input order (a stable sort). */
  function Insert<T>(x: T, s: seq<T>, key: T -> string): seq<T>
  {
    if s == [] then [x]
    else if !LexLess(key(x), key(s[0])) then [s[0]] + Insert(x, s[1..], key)
    else [x] + s
  }

  /** The library's stable `sort_by` (and `sort`) on a vector, by key */
  function SortBy<T>(s: seq<T>, key: T -> string): seq<T>
  {
    if s == [] then [] else Insert(s[|s| - 1], SortBy(s[..|s| - 1], key), key)
  }

  lemma {:induction false} InsertProps<T>(x: T, s: seq<T>, key: T -> string)
    requires SortedBy(s, key)
    ensures multiset(Insert(x, s, key)) == multiset(s) + multiset{x}
    ensures SortedBy(Insert(x, s, key), key)
  {
    if s == [] {
    } else if !LexLess(key(x), key(s[0])) {
      InsertProps(x, s[1..], key);
      InsertAfterHead(x, s, key);
    } else {
      InsertAtFront(x, s, key);
    }
  }

  /** Inserting past the head keeps the head first and the order sorted. */
  lemma InsertAfterHead<T>(x: T, s: seq<T>, key: T -> string)
    requires SortedBy(s, key) && s != [] && !LexLess(key(x), key(s[0]))
    requires multiset(Insert(x, s[1..], key)) == multiset(s[1..]) + multiset{x}
    requires SortedBy(Insert(x, s[1..], key), key)
    ensures multiset(Insert(x, s, key)) == multiset(s) + multiset{x}
    ensures SortedBy(Insert(x, s, key), key)
  {
    var rest := Insert(x, s[1..], key);
    assert s == [s[0]] + s[1..];
    assert Insert(x, s, key) == [s[0]] + rest;
    forall j | 0 <= j < |rest| ensures !LexLess(key(rest[j]), key(s[0])) {
      InsertMember(x, s[1..], key, rest[j]);
      if rest[j] != x {
        var k :| 0 <= k < |s[1..]| && s[1..][k] == rest[j];
        assert s[k + 1] == rest[j];
      }
    }
    ConsSorted(s[0], rest, key);
  }

  /** A head whose key no later key is below, before a sorted sequence */
  lemma ConsSorted<T>(h: T, rest: seq<T>, key: T -> string)
    requires SortedBy(rest, key)
    requires forall j :: 0 <= j < |rest| ==> !LexLess(key(rest[j]), key(h))
    ensures SortedBy([h] + rest, key)
  {
    var r := [h] + rest;
    forall i, j | 0 <= i < j < |r| ensures !LexLess(key(r[j]), key(r[i])) {
      assert r[j] == rest[j - 1];
      if i > 0 {
        assert r[i] == rest[i - 1];
      }
    }
  }

  /** Inserting an element with the smallest key puts it in front. */
  lemma InsertAtFront<T>(x: T, s: seq<T>, key: T -> string)
    requires SortedBy(s, key) && s != [] && LexLess(key(x), key(s[0]))
    ensures multiset(Insert(x, s, key)) == multiset(s) + multiset{x}
    ensures SortedBy(Insert(x, s, key), key)
  {
    assert Insert(x, s, key) == [x] + s;
    forall j | 0 <= j < |s| ensures !LexLess(key(s[j]), key(x)) {
      var a, b := key(s[0]), key(s[j]);
      if a != b {
        LexLessTotal(a, b);
        LexLessTransitive(key(x), a, b);
      }
      LexLessAsymmetric(key(x), b);
    }
    ConsSorted(x, s, key);
  }

  lemma {:induction false} SortByProps<T>(s: seq<T>, key: T -> string)
    ensures multiset(SortBy(s, key)) == multiset(s)
    ensures SortedBy(SortBy(s, key), key)
  {
    if s != [] {
      SortByProps(s[..|s| - 1], key);
      InsertProps(s[|s| - 1], SortBy(s[..|s| - 1], key), key);
      assert s == s[..|s| - 1] + [s[|s| - 1]];
    }
  }

  /** No two elements share a key */
  ghost predicate DistinctKeys<T>(s: seq<T>, key: T -> string)
  {
    forall i, j :: 0 <= i < j < |s| ==> key(s[i]) != key(s[j])
  }

  lemma {:induction false} InsertMember<T>(x: T, s: seq<T>, key: T -> string, y: T)
    ensures y in Insert(x, s, key) <==> y == x || y in s
  {
    if s != [] && !LexLess(key(x), key(s[0])) {
      InsertMember(x, s[1..], key, y);
      assert s == [s[0]] + s[1..];
    }
  }

  lemma {:induction false} InsertDistinct<T>(x: T, s: seq<T>, key: T -> string)
    requires DistinctKeys(s, key)
    requires forall i :: 0 <= i < |s| ==> key(s[i]) != key(x)
    ensures DistinctKeys(Insert(x, s, key), key)
  {
    if s != [] && !LexLess(key(x), key(s[0])) {
      InsertDistinct(x, s[1..], key);
      var rest := Insert(x, s[1..], key);
      var r := [s[0]] + rest;
      forall i, j | 0 <= i < j < |r| ensures key(r[i]) != key(r[j]) {
        if i == 0 {
          assert r[j] == rest[j - 1];
          InsertMember(x, s[1..], key, r[j]);
          if r[j] != x {
            var k :| 0 <= k < |s[1..]| && s[1..][k] == r[j];
            assert s[k + 1] == r[j];
          }
        } else {
          assert r[i] == rest[i - 1] && r[j] == rest[j - 1];
        }
      }
    }
  }

  lemma {:induction false} SortByMember<T>(s: seq<T>, key: T -> string, y: T)
    ensures y in SortBy(s, key) <==> y in s
  {
    if s != [] {
      var init, last := s[..|s| - 1], s[|s| - 1];
      assert s == init + [last];
      SortByMember(init, key, y);
      InsertMember(last, SortBy(init, key), key, y);
    }
  }

  lemma {:induction false} SortByDistinct<T>(s: seq<T>, key: T -> string)
    requires DistinctKeys(s, key)
    ensures DistinctKeys(SortBy(s, key), key)
  {
    if s != [] {
      var init, last := s[..|s| - 1], s[|s| - 1];
      assert s == init + [last];
      SortByDistinct(init, key);
      var sorted := SortBy(init, key);
      forall i | 0 <= i < |sorted| ensures key(sorted[i]) != key(last) {
        SortByMember(init, key, sorted[i]);
        var k :| 0 <= k < |init| && init[k] == sorted[i];
        assert s[k] == sorted[i];
      }
      InsertDistinct(last, sorted, key);
    }
  }

  /** Two sequences sorted by a key that no two elements share, with the
      same elements, are the same sequence: the sorted order is determined
      by the elements alone. */
  lemma {:induction false} SortedDistinctUnique<T>(a: seq<T>, b: seq<T>, key: T -> string)
    requires SortedBy(a, key) && DistinctKeys(a, key)
    requires SortedBy(b, key) && DistinctKeys(b, key)
    requires forall y :: y in a <==> y in b
    ensures a == b
  {
    if b != [] {
      assert b[0] in b;
    }
    if a != [] {
      assert a[0] in b;
      var k :| 0 <= k < |b| && b[k] == a[0];
      assert b[0] in a;
      var m :| 0 <= m < |a| && a[m] == b[0];
      if k > 0 {
        assert key(b[0]) != key(b[k]);
        if m > 0 {
          assert key(a[0]) != key(a[m]);
          LexLessTotal(key(a[0]), key(a[m]));
        }
        assert false;
      }
      forall y ensures y in a[1..] <==> y in b[1..] {
        if y in a[1..] {
          var i :| 0 <= i < |a[1..]| && a[1..][i] == y;
          assert key(a[0]) != key(a[i + 1]);
          assert y in a;
          assert y in b;
          var j :| 0 <= j < |b| && b[j] == y;
          assert j != 0;
          assert b[1..][j - 1] == y;
        }
        if y in b[1..] {
          var i :| 0 <= i < |b[1..]| && b[1..][i] == y;
          assert key(b[0]) != key(b[i + 1]);
          assert y in b;
          assert y in a;
          var j :| 0 <= j < |a| && a[j] == y;
          assert j != 0;
          assert a[1..][j - 1] == y;
        }
      }
      SortedDistinctUnique(a[1..], b[1..], key);
      assert a == [a[0]] + a[1..] && b == [b[0]] + b[1..];
    }
  }
}
