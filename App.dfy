/** The installer's screen: a four-state machine with a one-way exit flag,
    and a bounded log of the steps taken, shown top-left; errors are
    wrapped to the screen's width before they are logged. */
module Application {
  import opened Wrappers
  import opened Text

  // ---------------------------------------------------------------------
  // wrap_for_ui

  /** The characters of a line that a prefix leaves: what is left of the
      width, but never fewer than ten */
  function Avail(width: nat, prefixLen: nat): (r: nat)
    ensures r >= 10
  {
    var left := if width >= prefixLen then width - prefixLen else 0;
    if left >= 10 then left else 10
  }

  /** `rfind(char::is_whitespace)`: the index of the last whitespace
      character */
  function LastWhitespace(s: string): (r: Option<nat>)
    ensures r.Some? ==> r.value < |s| && IsWhitespace(s[r.value])
    ensures r.Some? ==> forall j :: r.value < j < |s| ==> !IsWhitespace(s[j])
    ensures r.None? ==> forall j :: 0 <= j < |s| ==> !IsWhitespace(s[j])
  {
    if s == [] then None
    else if IsWhitespace(s[|s| - 1]) then Some(|s| - 1)
    else LastWhitespace(s[..|s| - 1])
  }

  /** Where a text longer than `avail` is cut: at its last whitespace
      within the first `avail` characters, unless that is its first
      character or there is none, and then at `avail` */
  function SplitPoint(rem: string, avail: nat): (r: nat)
    requires 0 < avail < |rem|
    ensures 0 < r <= avail
  {
    match LastWhitespace(rem[..avail])
    case Some(idx) => if idx > 0 then idx else avail
    case None => avail
  }

  /** The bodies of the lines a text without leading whitespace is wrapped
      into, the first with `firstLen` characters of prefix and the others
      with `nextLen` */
  function Segments(rem: string, width: nat, firstLen: nat, nextLen: nat): seq<string>
    decreases |rem|
  {
    if rem == [] then []
    else
      var avail := Avail(width, firstLen);
      if |rem| <= avail then [rem]
      else
        var cut := SplitPoint(rem, avail);
        [TrimEnd(rem[..cut])] + Segments(TrimStart(rem[cut..]), width, nextLen, nextLen)
  }

  /** Each body after its prefix: `first` on the first line, `next` on the
      others */
  function Prefixed(bodies: seq<string>, first: string, next: string): (r: seq<string>)
  {
    seq(|bodies|, i requires 0 <= i < |bodies| => (if i == 0 then first else next) + bodies[i])
  }

  /** `wrap_for_ui` */
  function WrapForUi(text: string, width: nat, first: string, next: string): seq<string>
  {
    Prefixed(Segments(Trim(text), width, |first|, |next|), first, next)
  }

  /** The text without its whitespace */
  function NonWhite(s: string): string
  {
    if s == [] then [] else (if IsWhitespace(s[0]) then [] else [s[0]]) + NonWhite(s[1..])
  }

  /** The bodies run together */
  function Concat(xs: seq<string>): string
  {
    if xs == [] then [] else xs[0] + Concat(xs[1..])
  }

  lemma {:induction false} NonWhiteAppend(a: string, b: string)
    ensures NonWhite(a + b) == NonWhite(a) + NonWhite(b)
    decreases |a|
  {
    if a != [] {
      assert (a + b)[0] == a[0] && (a + b)[1..] == a[1..] + b;
      NonWhiteAppend(a[1..], b);
    } else {
      assert a + b == b;
    }
  }

  lemma {:induction false} NonWhiteOfWhitespace(s: string)
    requires forall i :: 0 <= i < |s| ==> IsWhitespace(s[i])
    ensures NonWhite(s) == []
    decreases |s|
  {
    if s != [] {
      NonWhiteOfWhitespace(s[1..]);
    }
  }

  /** Trimming removes only whitespace. */
  lemma TrimStartNonWhite(s: string)
    ensures NonWhite(TrimStart(s)) == NonWhite(s)
  {
    TrimStartDrops(s);
    var k := |s| - |TrimStart(s)|;
    assert s == s[..k] + TrimStart(s);
    NonWhiteAppend(s[..k], TrimStart(s));
    NonWhiteOfWhitespace(s[..k]);
  }

  lemma TrimEndNonWhite(s: string)
    ensures NonWhite(TrimEnd(s)) == NonWhite(s)
  {
    TrimEndDrops(s);
    var k := |TrimEnd(s)|;
    assert s == TrimEnd(s) + s[k..];
    NonWhiteAppend(TrimEnd(s), s[k..]);
    NonWhiteOfWhitespace(s[k..]);
  }

  /** A text that does not start with whitespace keeps a non-empty body
      once its end is trimmed. */
  lemma TrimEndKeepsHead(s: string)
    requires s != [] && !IsWhitespace(s[0])
    ensures TrimEnd(s) != [] && TrimEnd(s)[0] == s[0]
  {
    TrimEndDrops(s);
  }

  /** Every body is non-empty and fits what its prefix leaves of the
      width; there are bodies exactly when there is text; and together the
      bodies hold the text's non-whitespace characters in order. */
  lemma {:induction false} SegmentsFit(rem: string, width: nat, firstLen: nat, nextLen: nat)
    requires rem == [] || !IsWhitespace(rem[0])
    ensures Segments(rem, width, firstLen, nextLen) == [] <==> rem == []
    ensures forall i :: 0 <= i < |Segments(rem, width, firstLen, nextLen)| ==>
              Segments(rem, width, firstLen, nextLen)[i] != []
              && |Segments(rem, width, firstLen, nextLen)[i]| <= Avail(width, if i == 0 then firstLen else nextLen)
    ensures NonWhite(Concat(Segments(rem, width, firstLen, nextLen))) == NonWhite(rem)
    decreases |rem|
  {
    if rem != [] {
      var avail := Avail(width, firstLen);
      if |rem| <= avail {
        assert Concat([rem]) == rem by {
          assert [rem][1..] == [];
          assert rem + [] == rem;
        }
      } else {
        var cut := SplitPoint(rem, avail);
        var rest := TrimStart(rem[cut..]);
        TrimStartDrops(rem[cut..]);
        SegmentsFit(rest, width, nextLen, nextLen);
        SegmentsCut(rem, width, firstLen, nextLen);
      }
    }
  }

  /** One cut of a text longer than its line: the facts about the
      segments of what follows the cut carry over to the whole text. */
  lemma SegmentsCut(rem: string, width: nat, firstLen: nat, nextLen: nat)
    requires rem != [] && !IsWhitespace(rem[0]) && |rem| > Avail(width, firstLen)
    requires var rest := TrimStart(rem[SplitPoint(rem, Avail(width, firstLen))..]);
      (forall i :: 0 <= i < |Segments(rest, width, nextLen, nextLen)| ==>
         Segments(rest, width, nextLen, nextLen)[i] != []
         && |Segments(rest, width, nextLen, nextLen)[i]| <= Avail(width, nextLen))
      && NonWhite(Concat(Segments(rest, width, nextLen, nextLen))) == NonWhite(rest)
    ensures Segments(rem, width, firstLen, nextLen) != []
    ensures forall i :: 0 <= i < |Segments(rem, width, firstLen, nextLen)| ==>
              Segments(rem, width, firstLen, nextLen)[i] != []
              && |Segments(rem, width, firstLen, nextLen)[i]| <= Avail(width, if i == 0 then firstLen else nextLen)
    ensures NonWhite(Concat(Segments(rem, width, firstLen, nextLen))) == NonWhite(rem)
  {
    var avail := Avail(width, firstLen);
    var cut := SplitPoint(rem, avail);
    var head, tail := rem[..cut], rem[cut..];
    var later := Segments(TrimStart(tail), width, nextLen, nextLen);
    assert Segments(rem, width, firstLen, nextLen) == [TrimEnd(head)] + later;
    TrimEndKeepsHead(head);
    TrimEndDrops(head);
    FitsCons(TrimEnd(head), later, width, firstLen, nextLen);
    assert rem == head + tail;
    NonWhiteCut(head, tail, later);
  }

  /** A first body that fits its line, before bodies that fit theirs */
  lemma FitsCons(b: string, later: seq<string>, width: nat, firstLen: nat, nextLen: nat)
    requires b != [] && |b| <= Avail(width, firstLen)
    requires forall i :: 0 <= i < |later| ==> later[i] != [] && |later[i]| <= Avail(width, nextLen)
    ensures forall i :: 0 <= i < |[b] + later| ==>
              ([b] + later)[i] != []
              && |([b] + later)[i]| <= Avail(width, if i == 0 then firstLen else nextLen)
  {
    forall i | 0 <= i < |[b] + later|
      ensures ([b] + later)[i] != [] && |([b] + later)[i]| <= Avail(width, if i == 0 then firstLen else nextLen)
    {
      if i > 0 {
        assert ([b] + later)[i] == later[i - 1];
      }
    }
  }

  /** Cutting a text and trimming around the cut keeps its non-whitespace
      characters. */
  lemma NonWhiteCut(head: string, tail: string, later: seq<string>)
    requires NonWhite(Concat(later)) == NonWhite(TrimStart(tail))
    ensures NonWhite(Concat([TrimEnd(head)] + later)) == NonWhite(head + tail)
  {
    assert Concat([TrimEnd(head)] + later) == TrimEnd(head) + Concat(later) by {
      assert ([TrimEnd(head)] + later)[1..] == later;
    }
    NonWhiteAppend(TrimEnd(head), Concat(later));
    TrimEndNonWhite(head);
    TrimStartNonWhite(tail);
    NonWhiteAppend(head, tail);
  }

  /** Only whitespace of its own, a text wraps into nothing. */
  lemma TrimEmptyIffWhitespace(s: string)
    ensures Trim(s) == [] <==> forall i :: 0 <= i < |s| ==> IsWhitespace(s[i])
    ensures Trim(s) == [] || !IsWhitespace(Trim(s)[0])
    ensures NonWhite(Trim(s)) == NonWhite(s)
  {
    TrimStartDrops(s);
    TrimEndDrops(TrimStart(s));
    TrimStartNonWhite(s);
    TrimEndNonWhite(TrimStart(s));
    if TrimStart(s) != [] {
      TrimEndKeepsHead(TrimStart(s));
    }
  }

  /** An empty or all-whitespace text gives no lines. Otherwise the first
      line starts with `first` and the others with `next`; each body after
      its prefix is non-empty and at most what the prefix leaves of the
      width (at least ten characters); and the bodies together hold the
      text's non-whitespace characters in order. */
  lemma WrapForUiMeans(text: string, width: nat, first: string, next: string)
    ensures WrapForUi(text, width, first, next) == [] <==> forall i :: 0 <= i < |text| ==> IsWhitespace(text[i])
    ensures |WrapForUi(text, width, first, next)| == |Segments(Trim(text), width, |first|, |next|)|
    ensures forall i :: 0 <= i < |WrapForUi(text, width, first, next)| ==>
              var prefix := if i == 0 then first else next;
              var body := Segments(Trim(text), width, |first|, |next|)[i];
              WrapForUi(text, width, first, next)[i] == prefix + body
              && body != [] && |body| <= Avail(width, |prefix|)
    ensures NonWhite(Concat(Segments(Trim(text), width, |first|, |next|))) == NonWhite(text)
  {
    TrimEmptyIffWhitespace(text);
    SegmentsFit(Trim(text), width, |first|, |next|);
  }

  /** The lines still to come for what remains of the text, `prefix`
      before the first of them */
  function Pending(remaining: string, width: nat, prefix: string, next: string): seq<string>
  {
    Prefixed(Segments(remaining, width, |prefix|, |next|), prefix, next)
  }

  /** A remainder that fits its line is the last line. */
  lemma PendingLast(remaining: string, width: nat, prefix: string, next: string)
    requires remaining != [] && |remaining| <= Avail(width, |prefix|)
    ensures Pending(remaining, width, prefix, next) == [prefix + remaining]
  {
  }

  /** A longer remainder gives one line cut at `SplitPoint`, then the lines
      of what follows the cut, all with the `next` prefix. */
  lemma PendingCut(remaining: string, width: nat, prefix: string, next: string)
    requires |remaining| > Avail(width, |prefix|)
    ensures var cut := SplitPoint(remaining, Avail(width, |prefix|));
      Pending(remaining, width, prefix, next)
      == [prefix + TrimEnd(remaining[..cut])] + Pending(TrimStart(remaining[cut..]), width, next, next)
  {
    var cut := SplitPoint(remaining, Avail(width, |prefix|));
    var b := TrimEnd(remaining[..cut]);
    var bs := Segments(TrimStart(remaining[cut..]), width, |next|, |next|);
    assert Segments(remaining, width, |prefix|, |next|) == [b] + bs;
    var r := Prefixed([b] + bs, prefix, next);
    var r2 := [prefix + b] + Prefixed(bs, next, next);
    assert |r| == |r2|;
    forall i | 0 <= i < |r| ensures r[i] == r2[i] {
      if i > 0 {
        assert r[i] == next + bs[i - 1];
      }
    }
  }

  /** `wrap_for_ui` as the source runs it: a loop over what remains */
  method WrapForUiLoop(text: string, width: nat, firstPrefix: string, nextPrefix: string) returns (out: seq<string>)
    ensures out == WrapForUi(text, width, firstPrefix, nextPrefix)
  {
    out := [];
    var remaining := Trim(text);
    var isFirst := true;
    while remaining != []
      invariant out + Pending(remaining, width, if isFirst then firstPrefix else nextPrefix, nextPrefix)
                == WrapForUi(text, width, firstPrefix, nextPrefix)
      decreases |remaining|
    {
      var prefix := if isFirst then firstPrefix else nextPrefix;
      var avail := Avail(width, |prefix|);
      if |remaining| <= avail {
        PendingLast(remaining, width, prefix, nextPrefix);
        out := out + [prefix + remaining];
        return;
      }
      var splitAt := SplitPoint(remaining, avail);
      var head, tail := remaining[..splitAt], remaining[splitAt..];
      assert out + Pending(remaining, width, prefix, nextPrefix)
          == (out + [prefix + TrimEnd(head)]) + Pending(TrimStart(tail), width, nextPrefix, nextPrefix) by {
        PendingCut(remaining, width, prefix, nextPrefix);
      }
      out := out + [prefix + TrimEnd(head)];
      remaining := TrimStart(tail);
      isFirst := false;
    }
  }

  // ---------------------------------------------------------------------
  // The log

  /** The last `n` lines, or all of them when there are fewer */
  function Recent(lines: seq<string>, n: nat): (r: seq<string>)
  {
    if |lines| <= n then lines else lines[|lines| - n..]
  }

  /** `lines` logged one after another, each followed by the trimming */
  function LogAll(log: seq<string>, lines: seq<string>, n: nat): seq<string>
    decreases |lines|
  {
    if lines == [] then log else LogAll(Recent(log + [lines[0]], n), lines[1..], n)
  }

  /** The log keeps the most recent lines, in order, and never more than
      its bound; a line just logged is the last one shown. */
  lemma RecentKeepsLatest(log: seq<string>, line: string, n: nat)
    requires n > 0
    ensures |Recent(log + [line], n)| == if |log| + 1 <= n then |log| + 1 else n
    ensures Recent(log + [line], n)[|Recent(log + [line], n)| - 1] == line
    ensures forall i :: 0 <= i < |Recent(log + [line], n)| ==>
              Recent(log + [line], n)[i] == (log + [line])[|log| + 1 - |Recent(log + [line], n)| + i]
  {
  }

  /** Logging lines one at a time keeps the same lines as logging them all
      at once. */
  lemma {:induction false} LogAllIsRecent(log: seq<string>, lines: seq<string>, n: nat)
    requires |log| <= n
    ensures LogAll(log, lines, n) == Recent(log + lines, n)
    decreases |lines|
  {
    if lines == [] {
      assert log + lines == log;
    } else {
      var log1 := Recent(log + [lines[0]], n);
      LogAllIsRecent(log1, lines[1..], n);
      RecentOfRecent(log + [lines[0]], lines[1..], n);
      assert (log + [lines[0]]) + lines[1..] == log + lines;
    }
  }

  /** Trimming before more lines are added loses nothing that the final
      trimming would keep. */
  lemma RecentOfRecent(a: seq<string>, b: seq<string>, n: nat)
    ensures Recent(Recent(a, n) + b, n) == Recent(a + b, n)
  {
    if |a| > n {
      var c := a[|a| - n..] + b;
      var r1 := Recent(c, n);
      var r2 := Recent(a + b, n);
      assert |r1| == |r2| == n;
      forall k | 0 <= k < n ensures r1[k] == r2[k] {
        assert r1[k] == c[|c| - n + k];
        assert r2[k] == (a + b)[|a| + |b| - n + k];
      }
    }
  }

  // ---------------------------------------------------------------------
  // The application

  datatype AppState = BootSplash | Welcome | Error(msg: string) | Exit

  const MAX_LOG_LINES: nat := 80
  const BOOT_LINE := "TruthDB Installer booting"
  const EXIT_LINE := "[OK] Exiting"
  const ERROR_WIDTH: nat := 78
  const ERROR_FIRST := "[ERR] "
  const ERROR_NEXT := "      "

  /** `initialize` */
  function Initialized(s: AppState): AppState
  {
    if s == BootSplash then Welcome else s
  }

  predicate IsQuit(key: char)
  {
    key == 'q' || key == 'Q'
  }

  /** `handle_input`: only q or Q, and only on the welcome or error
      screen, leads to Exit */
  function AfterInput(s: AppState, key: char): AppState
  {
    if (s.Welcome? || s.Error?) && IsQuit(key) then Exit else s
  }

  /** The installer leaves by input only from the welcome or error screen
      and only on q or Q; initializing leaves only the splash screen, and
      every other state stays as it is. */
  lemma TransitionsMeans(s: AppState, key: char)
    ensures AfterInput(s, key) != s <==> (s.Welcome? || s.Error?) && IsQuit(key)
    ensures AfterInput(s, key) != s ==> AfterInput(s, key) == Exit
    ensures Initialized(s) != s <==> s.BootSplash?
    ensures Initialized(s).BootSplash? == false
  {
  }

  /** What the screen shows: the log, then a note once exiting */
  function Display(logLines: seq<string>, state: AppState): (r: seq<string>)
  {
    logLines + (if state == Exit then [EXIT_LINE] else [])
  }

  /** The display is the log in order, followed by the exit note exactly
      when the state is Exit. */
  lemma DisplayMeans(logLines: seq<string>, state: AppState)
    ensures Display(logLines, state)[..|logLines|] == logLines
    ensures |Display(logLines, state)| == |logLines| + 1 <==> state == Exit
    ensures state == Exit ==> Display(logLines, state)[|logLines|] == EXIT_LINE
  {
  }

  class App {
    var state: AppState
    var shouldExit: bool
    var logLines: seq<string>
    const maxLogLines: nat

    /** The log stays within its bound, and the exit flag is set while
        exiting and never before the first exit */
    ghost predicate Valid()
      reads this
    {
      0 < maxLogLines && |logLines| <= maxLogLines
      && (state == Exit ==> shouldExit)
      && (shouldExit ==> state == Exit || state.Error?)
    }

    constructor ()
      ensures Valid()
      ensures state == BootSplash && !shouldExit && maxLogLines == MAX_LOG_LINES
      ensures logLines == [BOOT_LINE]
    {
      state := BootSplash;
      shouldExit := false;
      logLines := [];
      maxLogLines := MAX_LOG_LINES;
      new;
      LogStep(BOOT_LINE);
    }

    method LogStep(line: string)
      requires 0 < maxLogLines && |logLines| <= maxLogLines
      modifies this
      ensures logLines == Recent(old(logLines) + [line], maxLogLines)
      ensures state == old(state) && shouldExit == old(shouldExit)
    {
      ghost var all := logLines + [line];
      logLines := logLines + [line];
      ghost var dropped := 0;
      while |logLines| > maxLogLines
        invariant dropped <= |all| && logLines == all[dropped..]
        invariant dropped > 0 ==> |logLines| >= maxLogLines
        invariant state == old(state) && shouldExit == old(shouldExit)
        decreases |logLines|
      {
        logLines := logLines[1..];
        dropped := dropped + 1;
      }
    }

    method TransitionTo(newState: AppState)
      modifies this
      ensures state == newState
      ensures shouldExit == (old(shouldExit) || newState == Exit)
      ensures logLines == old(logLines)
    {
      if newState == Exit {
        shouldExit := true;
      }
      state := newState;
    }

    method Initialize()
      requires Valid()
      modifies this
      ensures Valid()
      ensures state == Initialized(old(state))
      ensures shouldExit == old(shouldExit) && logLines == old(logLines)
    {
      if state == BootSplash {
        TransitionTo(Welcome);
      }
    }

    method HandleInput(key: char)
      requires Valid()
      modifies this
      ensures Valid()
      ensures state == AfterInput(old(state), key)
      ensures shouldExit == (old(shouldExit) || state == Exit)
      ensures logLines == old(logLines)
    {
      match state
      case Welcome =>
        if key == 'q' || key == 'Q' {
          TransitionTo(Exit);
        }
      case Error(_) =>
        if key == 'q' || key == 'Q' {
          TransitionTo(Exit);
        }
      case _ =>
    }

    method HandleError(error: string)
      requires Valid()
      modifies this
      ensures Valid()
      ensures state == Error(error) && shouldExit == old(shouldExit)
      ensures logLines == Recent(old(logLines) + WrapForUi(error, ERROR_WIDTH, ERROR_FIRST, ERROR_NEXT), maxLogLines)
    {
      var lines := WrapForUiLoop(error, ERROR_WIDTH, ERROR_FIRST, ERROR_NEXT);
      ghost var before := logLines;
      for i := 0 to |lines|
        invariant 0 < maxLogLines && |logLines| <= maxLogLines
        invariant logLines == LogAll(before, lines[..i], maxLogLines)
        invariant state == old(state) && shouldExit == old(shouldExit)
      {
        LogStep(lines[i]);
        LogAllPrefix(before, lines, i, maxLogLines);
      }
      LogAllWhole(before, lines, maxLogLines);
      state := Error(error);
    }

    /** `get_display_text` */
    function DisplayText(): seq<string>
      reads this
    {
      Display(logLines, state)
    }
  }

  lemma {:induction false} LogAllSnoc(log: seq<string>, lines: seq<string>, line: string, n: nat)
    ensures LogAll(log, lines + [line], n) == Recent(LogAll(log, lines, n) + [line], n)
    decreases |lines|
  {
    if lines == [] {
      assert lines + [line] == [line];
      assert [line][1..] == [];
    } else {
      assert (lines + [line])[0] == lines[0] && (lines + [line])[1..] == lines[1..] + [line];
      LogAllSnoc(Recent(log + [lines[0]], n), lines[1..], line, n);
    }
  }

  /** Logging one more of the lines: the step the loop takes */
  lemma LogAllPrefix(log: seq<string>, lines: seq<string>, i: nat, n: nat)
    requires i < |lines|
    ensures LogAll(log, lines[..i + 1], n) == Recent(LogAll(log, lines[..i], n) + [lines[i]], n)
  {
    assert lines[..i + 1] == lines[..i] + [lines[i]];
    LogAllSnoc(log, lines[..i], lines[i], n);
  }

  /** After the last of the lines, the log holds the most recent of all. */
  lemma LogAllWhole(log: seq<string>, lines: seq<string>, n: nat)
    requires |log| <= n
    ensures LogAll(log, lines[..|lines|], n) == Recent(log + lines, n)
  {
    assert lines[..|lines|] == lines;
    LogAllIsRecent(log, lines, n);
  }
}
