/** The `/etc/hostname` and `/etc/hosts` contents that `configure_hostname`
    writes into the target root. The hosts file is rewritten line by line:
    the first line mapping 127.0.1.1 is replaced by one for the new hostname
    and later ones are dropped, every other line is kept verbatim, the IPv4
    loopback entry is added when missing, and the IPv6 defaults are appended
    when "::1" occurs nowhere. */
module Hosts {
  import opened Text
  import opened Seqs

  const HOST_ADDR := "127.0.1.1"
  const LOOPBACK_ADDR := "127.0.0.1"
  const LOOPBACK6 := "::1"
  const LOCALHOST_LINE := LOOPBACK_ADDR + "\tlocalhost"

  /** The IPv6 entries appended when "::1" occurs nowhere, one per line */
  const IPV6_LINES: seq<string> := [
    LOOPBACK6 + "\tlocalhost ip6-localhost ip6-loopback",
    "ff02::1\tip6-allnodes",
    "ff02::2\tip6-allrouters"
  ]

  /** The entry mapping 127.0.1.1 to the hostname */
  function HostLine(hostname: string): string
  {
    HOST_ADDR + ("\t" + hostname)
  }

  /** Contents of `/etc/hostname` */
  function HostnameFile(hostname: string): (r: string)
    ensures |r| == |hostname| + 1
    ensures r[..|r| - 1] == hostname && r[|r| - 1] == '\n'
  {
    hostname + "\n"
  }

  /** A line that maps 127.0.1.1, once surrounding whitespace is trimmed */
  predicate IsHostLine(line: string)
  {
    StartsWith(Trim(line), HOST_ADDR)
  }

  /** A line that maps 127.0.0.1, once surrounding whitespace is trimmed */
  predicate IsLocalhostLine(line: string)
  {
    StartsWith(Trim(line), LOOPBACK_ADDR)
  }

  // ---------------------------------------------------------------------
  // The rewrite loop, step by step

  /** The loop's state: the lines written so far and its two flags */
  datatype Scan = Scan(out: seq<string>, hasLocalhost: bool, wroteHost: bool)

  const START := Scan([], false, false)

  /** One pass of the loop body over an existing line */
  function Step(st: Scan, line: string, hostname: string): Scan
  {
    var hasLocalhost := st.hasLocalhost || IsLocalhostLine(line);
    if IsHostLine(line) then
      Scan(if st.wroteHost then st.out else st.out + [HostLine(hostname)], hasLocalhost, true)
    else
      Scan(st.out + [line], hasLocalhost, st.wroteHost)
  }

  /** The loop run over the remaining lines from a given state */
  function Run(st: Scan, lines: seq<string>, hostname: string): Scan
    decreases |lines|
  {
    if lines == [] then st else Run(Step(st, lines[0], hostname), lines[1..], hostname)
  }

  /** The lines of the new hosts file: the loop's output, then the loopback
      entry when none was seen, then the host entry when none was written */
  function HostsLines(lines: seq<string>, hostname: string): seq<string>
  {
    var st := Run(START, lines, hostname);
    st.out + (if st.hasLocalhost then [] else [LOCALHOST_LINE])
      + (if st.wroteHost then [] else [HostLine(hostname)])
  }

  /** A line feed is added unless the text already ends in one. */
  function Terminate(text: string): string
  {
    if EndsWith(text, "\n") then text else text + "\n"
  }

  /** The IPv6 defaults are appended unless "::1" occurs somewhere. */
  function WithIpv6Defaults(text: string): string
  {
    if Contains(text, LOOPBACK6) then text else text + Terminated(IPV6_LINES)
  }

  /** Contents of `/etc/hosts` after the rewrite of `existing` */
  function HostsText(existing: string, hostname: string): string
  {
    WithIpv6Defaults(Terminate(Join(HostsLines(Lines(existing), hostname), "\n")))
  }

  /** The rewrite as `configure_hostname` performs it: one pass over the
      existing lines with two flags, then the appends. */
  method RewriteHosts(existing: string, hostname: string) returns (text: string)
    ensures text == HostsText(existing, hostname)
  {
    var lines := Lines(existing);
    var out: seq<string> := [];
    var hasLocalhost := false;
    var wroteHost := false;
    var i := 0;
    while i < |lines|
      invariant 0 <= i <= |lines|
      invariant Run(Scan(out, hasLocalhost, wroteHost), lines[i..], hostname) == Run(START, lines, hostname)
    {
      assert lines[i..][0] == lines[i] && lines[i..][1..] == lines[i + 1..];
      var line := lines[i];
      var trimmed := Trim(line);
      if StartsWith(trimmed, LOOPBACK_ADDR) {
        hasLocalhost := true;
      }
      if StartsWith(trimmed, HOST_ADDR) {
        if !wroteHost {
          out := out + [HostLine(hostname)];
          wroteHost := true;
        }
      } else {
        out := out + [line];
      }
      i := i + 1;
    }
    assert lines[i..] == [];
    assert Scan(out, hasLocalhost, wroteHost) == Run(START, lines, hostname);
    if !hasLocalhost {
      out := out + [LOCALHOST_LINE];
    }
    if !wroteHost {
      out := out + [HostLine(hostname)];
    }
    assert out == HostsLines(lines, hostname);
    text := Join(out, "\n");
    if !EndsWith(text, "\n") {
      text := text + "\n";
    }
    if !Contains(text, LOOPBACK6) {
      text := text + Terminated(IPV6_LINES);
    }
  }

  // ---------------------------------------------------------------------
  // The rewrite as a whole

  /** The host lines of a file, in order */
  function HostEntries(lines: seq<string>): seq<string>
  {
    Select(lines, IsHostLine, true)
  }

  /** The lines that are not host lines, in order */
  function OtherEntries(lines: seq<string>): seq<string>
  {
    Select(lines, IsHostLine, false)
  }

  predicate HasHostLine(lines: seq<string>)
  {
    AnyOf(lines, IsHostLine)
  }

  predicate HasLocalhost(lines: seq<string>)
  {
    AnyOf(lines, IsLocalhostLine)
  }

  /** The rewritten lines: the first host line becomes the new host entry
      (unless `wrote` says one was written) and later host lines vanish. */
  function Replace(lines: seq<string>, hostname: string, wrote: bool): seq<string>
  {
    ReplaceFirst(lines, IsHostLine, HostLine(hostname), wrote)
  }

  // ---------------------------------------------------------------------
  // Which lines are which

  /** A trimmed line cannot start with both addresses. */
  lemma HostNotLocalhost(line: string)
    requires IsHostLine(line)
    ensures !IsLocalhostLine(line)
  {
    assert Trim(line)[6] == HOST_ADDR[6];
  }

  /** The new host entry is a host line and not a loopback line. */
  lemma HostLineKind(hostname: string)
    ensures IsHostLine(HostLine(hostname)) && !IsLocalhostLine(HostLine(hostname))
  {
    StartsWithConcat(HOST_ADDR, "\t" + hostname);
    TrimKeepsPrefix(HostLine(hostname), HOST_ADDR);
    HostNotLocalhost(HostLine(hostname));
  }

  /** The added loopback entry is a loopback line and not a host line. */
  lemma LocalhostLineKind()
    ensures IsLocalhostLine(LOCALHOST_LINE) && !IsHostLine(LOCALHOST_LINE)
  {
    StartsWithConcat(LOOPBACK_ADDR, "\tlocalhost");
    TrimKeepsPrefix(LOCALHOST_LINE, LOOPBACK_ADDR);
    if IsHostLine(LOCALHOST_LINE) {
      HostNotLocalhost(LOCALHOST_LINE);
    }
  }

  /** A line starting with a character other than whitespace and '1'
      maps neither address. */
  lemma OtherAddressLine(line: string)
    requires line != [] && !IsWhitespace(line[0]) && line[0] != '1'
    ensures !IsHostLine(line) && !IsLocalhostLine(line)
  {
    assert StartsWith(line, [line[0]]);
    TrimKeepsPrefix(line, [line[0]]);
    assert Trim(line)[0] == line[0];
  }

  lemma Ipv6LinesKind()
    ensures !HasHostLine(IPV6_LINES) && !HasLocalhost(IPV6_LINES)
  {
    var v := IPV6_LINES;
    OtherAddressLine(v[0]);
    OtherAddressLine(v[1]);
    OtherAddressLine(v[2]);
    AnyOfMeans(v, IsHostLine);
    AnyOfMeans(v, IsLocalhostLine);
  }

  lemma Ipv6LinesReadBack()
    ensures forall i :: 0 <= i < |IPV6_LINES| ==>
              '\n' !in IPV6_LINES[i] && IPV6_LINES[i] != [] && IPV6_LINES[i][|IPV6_LINES[i]| - 1] != '\r'
  {
  }

  lemma Ipv6DefaultsHaveLoopback()
    ensures Contains(Terminated(IPV6_LINES), LOOPBACK6)
  {
    var v := IPV6_LINES;
    var tail := "\tlocalhost ip6-localhost ip6-loopback";
    ContainsItself(LOOPBACK6);
    ContainsInPrefix(LOOPBACK6, tail, LOOPBACK6);
    assert v[0] == LOOPBACK6 + tail;
    ContainsInPrefix(v[0], "\n" + Terminated(v[1..]), LOOPBACK6);
    assert Terminated(v) == v[0] + ("\n" + Terminated(v[1..]));
  }

  // ---------------------------------------------------------------------
  // The loop computes the rewrite

  /** From any state, the loop appends the rewrite of the remaining lines
      and raises each flag exactly when a matching line remains. */
  lemma {:induction false} RunFacts(st: Scan, lines: seq<string>, hostname: string)
    ensures Run(st, lines, hostname).out == st.out + Replace(lines, hostname, st.wroteHost)
    ensures Run(st, lines, hostname).wroteHost == (st.wroteHost || HasHostLine(lines))
    ensures Run(st, lines, hostname).hasLocalhost == (st.hasLocalhost || HasLocalhost(lines))
    decreases |lines|
  {
    if lines == [] {
      assert st.out + [] == st.out;
    } else {
      var next := Step(st, lines[0], hostname);
      RunFacts(next, lines[1..], hostname);
      var rest := Replace(lines[1..], hostname, next.wroteHost);
      if IsHostLine(lines[0]) {
        var x: seq<string> := if st.wroteHost then [] else [HostLine(hostname)];
        assert next.out == st.out + x;
        assert st.out + x + rest == st.out + (x + rest);
      } else {
        assert st.out + [lines[0]] + rest == st.out + ([lines[0]] + rest);
      }
    }
  }

  /** The loop's state after the whole file */
  lemma RunAll(lines: seq<string>, hostname: string)
    ensures Run(START, lines, hostname)
         == Scan(Replace(lines, hostname, false), HasLocalhost(lines), HasHostLine(lines))
  {
    RunFacts(START, lines, hostname);
    assert [] + Replace(lines, hostname, false) == Replace(lines, hostname, false);
  }

  // ---------------------------------------------------------------------
  // What the hosts file promises

  /** Every line that does not map 127.0.1.1 is kept verbatim and in order;
      the loopback entry follows them exactly when no line maps 127.0.0.1. */
  lemma HostsKeepsOtherLines(lines: seq<string>, hostname: string)
    ensures OtherEntries(HostsLines(lines, hostname))
         == OtherEntries(lines) + (if HasLocalhost(lines) then [] else [LOCALHOST_LINE])
  {
    var out := Replace(lines, hostname, false);
    var extra: seq<string> := if HasLocalhost(lines) then [] else [LOCALHOST_LINE];
    var host: seq<string> := if HasHostLine(lines) then [] else [HostLine(hostname)];
    assert HostsLines(lines, hostname) == out + extra + host by {
      RunAll(lines, hostname);
    }
    assert OtherEntries(out) == OtherEntries(lines) by {
      HostLineKind(hostname);
      ReplaceFirstKeepsOthers(lines, IsHostLine, HostLine(hostname), false);
    }
    assert OtherEntries(extra) == extra && OtherEntries(host) == [] by {
      HostLineKind(hostname);
      LocalhostLineKind();
      SelectOne(LOCALHOST_LINE, IsHostLine, false);
      SelectOne(HostLine(hostname), IsHostLine, false);
    }
    SelectAppend(out, extra, IsHostLine, false);
    SelectAppend(out + extra, host, IsHostLine, false);
  }

  /** The hosts file ends up with exactly one host line: the new entry. */
  lemma HostsHasOneHostLine(lines: seq<string>, hostname: string)
    ensures HostEntries(HostsLines(lines, hostname)) == [HostLine(hostname)]
  {
    var out := Replace(lines, hostname, false);
    var extra: seq<string> := if HasLocalhost(lines) then [] else [LOCALHOST_LINE];
    var host: seq<string> := if HasHostLine(lines) then [] else [HostLine(hostname)];
    assert HostsLines(lines, hostname) == out + extra + host by {
      RunAll(lines, hostname);
    }
    assert HostEntries(out) == (if HasHostLine(lines) then [HostLine(hostname)] else []) by {
      HostLineKind(hostname);
      ReplaceFirstPassing(lines, IsHostLine, HostLine(hostname), false);
    }
    assert HostEntries(extra) == [] && HostEntries(host) == host by {
      HostLineKind(hostname);
      LocalhostLineKind();
      SelectOne(LOCALHOST_LINE, IsHostLine, true);
      SelectOne(HostLine(hostname), IsHostLine, true);
    }
    SelectAppend(out, extra, IsHostLine, true);
    SelectAppend(out + extra, host, IsHostLine, true);
  }

  /** The hosts file always maps 127.0.0.1. */
  lemma HostsHasLocalhost(lines: seq<string>, hostname: string)
    ensures HasLocalhost(HostsLines(lines, hostname))
  {
    RunAll(lines, hostname);
    var out := Replace(lines, hostname, false);
    HostLineKind(hostname);
    LocalhostLineKind();
    forall line | IsHostLine(line) ensures !IsLocalhostLine(line) {
      HostNotLocalhost(line);
    }
    ReplaceFirstKeepsAny(lines, IsHostLine, HostLine(hostname), false, IsLocalhostLine);
    var extra: seq<string> := if HasLocalhost(lines) then [] else [LOCALHOST_LINE];
    var host: seq<string> := if HasHostLine(lines) then [] else [HostLine(hostname)];
    AnyOfAppend(out, extra, IsLocalhostLine);
    AnyOfAppend(out + extra, host, IsLocalhostLine);
  }

  /** The first host line is replaced in place and later ones dropped; with
      no host line, every line is kept and the new entry comes last. */
  lemma HostsReplacesInPlace(lines: seq<string>, hostname: string, k: nat)
    requires k < |lines| && IsHostLine(lines[k])
    requires forall j :: 0 <= j < k ==> !IsHostLine(lines[j])
    ensures HostsLines(lines, hostname)
         == lines[..k] + [HostLine(hostname)] + OtherEntries(lines[k + 1..])
            + (if HasLocalhost(lines) then [] else [LOCALHOST_LINE])
  {
    RunAll(lines, hostname);
    AnyOfMeans(lines, IsHostLine);
    ReplaceFirstInPlace(lines, IsHostLine, HostLine(hostname), k);
  }

  /** Without a host line every line is kept and the new entry comes last. */
  lemma HostsAppendsHostLine(lines: seq<string>, hostname: string)
    requires forall j :: 0 <= j < |lines| ==> !IsHostLine(lines[j])
    ensures HostsLines(lines, hostname)
         == lines + (if HasLocalhost(lines) then [] else [LOCALHOST_LINE]) + [HostLine(hostname)]
  {
    RunAll(lines, hostname);
    AnyOfMeans(lines, IsHostLine);
    ReplaceFirstNone(lines, IsHostLine, HostLine(hostname), false);
  }

  /** Adding a line feed cannot create an occurrence of "::1". */
  lemma TerminateKeepsLoopbackAbsence(text: string)
    ensures Contains(text + "\n", LOOPBACK6) == Contains(text, LOOPBACK6)
  {
    assert (text + "\n")[|text|] == '\n';
    if Contains(text + "\n", LOOPBACK6) {
      var k :| 0 <= k <= |text + "\n"| && OccursAt(text + "\n", LOOPBACK6, k);
      assert (text + "\n")[k..k + 3][2] == '1';
      assert k + 2 != |text|;
      assert text[k..k + 3] == (text + "\n")[k..k + 3];
      assert OccursAt(text, LOOPBACK6, k);
    }
    if Contains(text, LOOPBACK6) {
      ContainsInPrefix(text, "\n", LOOPBACK6);
    }
  }

  lemma Ipv6DefaultsEndInLineFeed()
    ensures EndsWith(Terminated(IPV6_LINES), "\n")
  {
    var v := IPV6_LINES;
    assert Terminated(v[2..]) == v[2] + "\n";
    assert Terminated(v[1..]) == v[1] + "\n" + Terminated(v[2..]);
    assert Terminated(v) == v[0] + "\n" + Terminated(v[1..]);
  }

  /** The hosts file ends in a line feed and always holds "::1"; the IPv6
      defaults are appended exactly when the joined lines lack "::1". */
  lemma HostsTextShape(existing: string, hostname: string)
    ensures EndsWith(HostsText(existing, hostname), "\n")
    ensures Contains(HostsText(existing, hostname), LOOPBACK6)
    ensures var body := Join(HostsLines(Lines(existing), hostname), "\n");
            HostsText(existing, hostname)
              == if Contains(body, LOOPBACK6) then Terminate(body)
                 else Terminate(body) + Terminated(IPV6_LINES)
  {
    var body := Join(HostsLines(Lines(existing), hostname), "\n");
    var t := Terminate(body);
    assert EndsWith(t, "\n");
    if !EndsWith(body, "\n") {
      TerminateKeepsLoopbackAbsence(body);
    }
    if !Contains(t, LOOPBACK6) {
      Ipv6DefaultsHaveLoopback();
      Ipv6DefaultsEndInLineFeed();
      ContainsInSuffix(t, Terminated(IPV6_LINES), LOOPBACK6);
      var u := Terminated(IPV6_LINES);
      assert (t + u)[|t + u| - 1..] == u[|u| - 1..];
    }
  }

  // ---------------------------------------------------------------------
  // Running the step twice

  /** Lines that `lines()` gives back unchanged once written one per line:
      none holds a line feed or ends in a carriage return, and the last is
      not empty. */
  predicate ReadsBack(lines: seq<string>)
  {
    lines != [] && lines[|lines| - 1] != []
    && forall i :: 0 <= i < |lines| ==>
         '\n' !in lines[i] && (lines[i] == [] || lines[i][|lines[i]| - 1] != '\r')
  }

  lemma TerminateJoin(lines: seq<string>)
    requires ReadsBack(lines)
    ensures Terminate(Join(lines, "\n")) == Terminated(lines)
    ensures Lines(Terminated(lines)) == lines
  {
    var last := lines[|lines| - 1];
    JoinEndsWithLast(lines);
    var j := Join(lines, "\n");
    assert j[|j| - 1] == last[|last| - 1];
    assert last[|last| - 1] in last;
    JoinThenNewline(lines);
    LinesOfTerminated(lines);
  }

  /** Lines whose only host line is the new entry and that map 127.0.0.1
      come out of the rewrite unchanged. */
  lemma HostsLinesFixed(lines: seq<string>, hostname: string)
    requires HostEntries(lines) == [HostLine(hostname)] && HasLocalhost(lines)
    ensures HostsLines(lines, hostname) == lines
  {
    RunAll(lines, hostname);
    SelectPassingEmpty(lines, IsHostLine);
    ReplaceFirstFixed(lines, IsHostLine, HostLine(hostname));
  }

  /** Rewriting the hosts file a second time with the same hostname changes
      nothing, provided its lines read back unchanged. */
  lemma HostsIdempotent(existing: string, hostname: string)
    requires ReadsBack(HostsLines(Lines(existing), hostname))
    ensures HostsText(HostsText(existing, hostname), hostname) == HostsText(existing, hostname)
  {
    var l := HostsLines(Lines(existing), hostname);
    HostsHasOneHostLine(Lines(existing), hostname);
    HostsHasLocalhost(Lines(existing), hostname);
    TerminateJoin(l);
    var t := Terminated(l);
    var v := IPV6_LINES;
    if Contains(t, LOOPBACK6) {
      assert HostsText(existing, hostname) == t;
      HostsLinesFixed(l, hostname);
    } else {
      Ipv6LinesKind();
      Ipv6LinesReadBack();
      var m := l + v;
      TerminatedAppend(l, v);
      assert HostsText(existing, hostname) == Terminated(m);
      SelectAppend(l, v, IsHostLine, true);
      SelectPassingEmpty(v, IsHostLine);
      AnyOfAppend(l, v, IsLocalhostLine);
      assert ReadsBack(m) by {
        forall i | 0 <= i < |m|
          ensures '\n' !in m[i] && (m[i] == [] || m[i][|m[i]| - 1] != '\r')
        {
          if i >= |l| {
            assert m[i] == v[i - |l|];
          }
        }
      }
      TerminateJoin(m);
      HostsLinesFixed(m, hostname);
      Ipv6DefaultsHaveLoopback();
      ContainsInSuffix(t, Terminated(v), LOOPBACK6);
    }
  }
}
