/**
 * The helpers of test_performance.py: the log-line normaliser, the `k=` and
 * `display=` option parsers of the query interface, and the bounded list of
 * recent log metadata.  Character classes are the ASCII ones.
 */
module PerformanceHelpers {
  import opened Wrappers
  import opened Decimal

  // ---------------------------------------------------------------------------
  // Character classes
  // ---------------------------------------------------------------------------

  /** `\s` and `str.isspace` on ASCII: tab to carriage return, the four separators, space. */
  predicate IsSpace(c: char) {
    c == ' ' || '\t' <= c <= '\r' || '\U{1c}' <= c <= '\U{1f}'
  }

  predicate NotSpace(c: char) {
    !IsSpace(c)
  }

  predicate IsUpper(c: char) {
    'A' <= c <= 'Z'
  }

  predicate IsLower(c: char) {
    'a' <= c <= 'z'
  }

  /**
   * The end of the longest run of characters in class p starting at i.  Each
   * `+` of the patterns here is followed by a character outside its class,
   * so the greedy run is the one the regex engine settles on.
   */
  function Run(s: string, i: nat, p: char -> bool): (j: nat)
    requires i <= |s|
    ensures i <= j <= |s|
    ensures forall k :: i <= k < j ==> p(s[k])
    ensures j == |s| || !p(s[j])
    decreases |s| - i
  {
    if i < |s| && p(s[i]) then Run(s, i + 1, p) else i
  }

  /** A run is determined by where it starts: any maximal run found by hand is the one Run computes. */
  lemma {:induction false} RunIs(s: string, i: nat, j: nat, p: char -> bool)
    requires i <= j <= |s|
    requires forall k :: i <= k < j ==> p(s[k])
    requires j == |s| || !p(s[j])
    ensures Run(s, i, p) == j
    decreases j - i
  {
    if i < j {
      assert p(s[i]);
      RunIs(s, i + 1, j, p);
    }
  }

  // ---------------------------------------------------------------------------
  // normalize_log
  // ---------------------------------------------------------------------------

  /** `p+` at i: the end of a non-empty run, or None. */
  function Plus(s: string, i: nat, p: char -> bool): (r: Option<nat>)
    requires i <= |s|
    ensures r.Some? ==> i < r.value <= |s|
  {
    var j := Run(s, i, p);
    if j == i then None else Some(j)
  }

  /** The literal character c at i: the position after it, or None. */
  function Char(s: string, i: nat, c: char): (r: Option<nat>)
    requires i <= |s|
    ensures r.Some? ==> r.value == i + 1 <= |s|
  {
    if i < |s| && s[i] == c then Some(i + 1) else None
  }

  /** `\d+:\d+:\d+` at i. */
  function TimeEnd(s: string, i: nat): (r: Option<nat>)
    requires i <= |s|
    ensures r.Some? ==> i < r.value <= |s|
  {
    match Plus(s, i, IsDigit)
    case None => None
    case Some(d) =>
      match Char(s, d, ':')
      case None => None
      case Some(d1) =>
        match Plus(s, d1, IsDigit)
        case None => None
        case Some(e) =>
          match Char(s, e, ':')
          case None => None
          case Some(e1) => Plus(s, e1, IsDigit)
  }

  /** `\s+\S+\s+` at i: the host between whitespace. */
  function HostEnd(s: string, i: nat): (r: Option<nat>)
    requires i <= |s|
    ensures r.Some? ==> i < r.value <= |s|
  {
    match Plus(s, i, IsSpace)
    case None => None
    case Some(g) =>
      match Plus(s, g, NotSpace)
      case None => None
      case Some(h) => Plus(s, h, IsSpace)
  }

  /** `[A-Z][a-z]{2}\s+\d+\s+` at the start: month and day. */
  function DateEnd(s: string): (r: Option<nat>)
    ensures r.Some? ==> 3 < r.value <= |s|
  {
    if |s| < 3 || !IsUpper(s[0]) || !IsLower(s[1]) || !IsLower(s[2]) then None
    else
      match Plus(s, 3, IsSpace)
      case None => None
      case Some(a) =>
        match Plus(s, a, IsDigit)
        case None => None
        case Some(b) => Plus(s, b, IsSpace)
  }

  /**
   * TIMESTAMP_HOSTNAME_PATTERN, anchored at the start of the line: month,
   * day, `hh:mm:ss` and host, each followed by whitespace.  The end of the
   * match, or None.
   */
  function PrefixEnd(s: string): (r: Option<nat>)
    ensures r.Some? ==> 3 < r.value <= |s|
  {
    match DateEnd(s)
    case None => None
    case Some(c) =>
      match TimeEnd(s, c)
      case None => None
      case Some(f) => HostEnd(s, f)
  }

  /**
   * A line that starts with a header (a capitalised three-letter month,
   * whitespace, a day, whitespace, `h:m:s`, whitespace, a host and
   * whitespace, split at the given offsets) and goes on with anything but
   * whitespace is matched, and the match ends exactly where the header does.
   */
  lemma HeaderRecognized(header: string, rest: string, a: nat, b: nat, c: nat, d: nat, e: nat, f: nat, g: nat, h: nat)
    requires 3 < a < b < c < d && d + 1 < e && e + 1 < f < g < h < |header|
    requires IsUpper(header[0]) && IsLower(header[1]) && IsLower(header[2])
    requires forall i :: 3 <= i < a ==> IsSpace(header[i])
    requires forall i :: a <= i < b ==> IsDigit(header[i])
    requires forall i :: b <= i < c ==> IsSpace(header[i])
    requires forall i :: c <= i < d ==> IsDigit(header[i])
    requires header[d] == ':'
    requires forall i :: d < i < e ==> IsDigit(header[i])
    requires header[e] == ':'
    requires forall i :: e < i < f ==> IsDigit(header[i])
    requires forall i :: f <= i < g ==> IsSpace(header[i])
    requires forall i :: g <= i < h ==> !IsSpace(header[i])
    requires forall i :: h <= i < |header| ==> IsSpace(header[i])
    requires rest == [] || !IsSpace(rest[0])
    ensures PrefixEnd(header + rest) == Some(|header|)
  {
    var s := header + rest;
    var k := |header|;
    assert forall i :: 0 <= i < k ==> s[i] == header[i];
    assert k == |s| || !IsSpace(s[k]) by {
      assert k == |s| || s[k] == rest[0];
    }
    DateRecognized(s, a, b, c);
    TimeRecognized(s, c, d, e, f);
    HostRecognized(s, f, g, h, k);
  }

  lemma DateRecognized(s: string, a: nat, b: nat, c: nat)
    requires 3 < a < b < c < |s|
    requires IsUpper(s[0]) && IsLower(s[1]) && IsLower(s[2])
    requires forall i :: 3 <= i < a ==> IsSpace(s[i])
    requires forall i :: a <= i < b ==> IsDigit(s[i])
    requires forall i :: b <= i < c ==> IsSpace(s[i])
    requires !IsSpace(s[c])
    ensures DateEnd(s) == Some(c)
  {
    RunIs(s, 3, a, IsSpace);
    RunIs(s, a, b, IsDigit);
    RunIs(s, b, c, IsSpace);
  }

  lemma TimeRecognized(s: string, c: nat, d: nat, e: nat, f: nat)
    requires c < d && d + 1 < e && e + 1 < f < |s|
    requires forall i :: c <= i < d ==> IsDigit(s[i])
    requires s[d] == ':'
    requires forall i :: d < i < e ==> IsDigit(s[i])
    requires s[e] == ':'
    requires forall i :: e < i < f ==> IsDigit(s[i])
    requires !IsDigit(s[f])
    ensures TimeEnd(s, c) == Some(f)
  {
    RunIs(s, c, d, IsDigit);
    RunIs(s, d + 1, e, IsDigit);
    RunIs(s, e + 1, f, IsDigit);
  }

  lemma HostRecognized(s: string, f: nat, g: nat, h: nat, k: nat)
    requires f < g < h < k <= |s|
    requires forall i :: f <= i < g ==> IsSpace(s[i])
    requires forall i :: g <= i < h ==> !IsSpace(s[i])
    requires forall i :: h <= i < k ==> IsSpace(s[i])
    requires k == |s| || !IsSpace(s[k])
    ensures HostEnd(s, f) == Some(k)
  {
    RunIs(s, f, g, IsSpace);
    RunIs(s, g, h, NotSpace);
    RunIs(s, h, k, IsSpace);
  }

  /**
   * The pattern is anchored: a match starts with the month's capital at
   * position 0 and ends after whitespace, at the first character that is
   * not whitespace.
   */
  lemma PrefixAnchored(s: string)
    ensures PrefixEnd(s).Some? ==>
              IsUpper(s[0]) && IsLower(s[1]) && IsLower(s[2])
              && IsSpace(s[PrefixEnd(s).value - 1])
              && (PrefixEnd(s).value == |s| || !IsSpace(s[PrefixEnd(s).value]))
  {
  }

  /** `TIMESTAMP_HOSTNAME_PATTERN.sub('', line)`. */
  function DropPrefix(s: string): (r: string)
    ensures |r| <= |s|
  {
    match PrefixEnd(s)
    case Some(e) => s[e..]
    case None => s
  }

  /** A header that is not at the very start of the line stays where it is. */
  lemma HeaderOnlyAtStart(lead: string, line: string)
    requires lead != [] && !IsUpper(lead[0])
    ensures DropPrefix(lead + line) == lead + line
  {
    assert (lead + line)[0] == lead[0];
  }

  /** `PID_PATTERN.sub('', line)`: every `[digits]`, scanning left to right. */
  function RemovePids(s: string): (r: string)
    ensures |r| <= |s|
    decreases |s|
  {
    if s == [] then []
    else
      var j := Run(s, 1, IsDigit);
      if s[0] == '[' && j > 1 && j < |s| && s[j] == ']' then RemovePids(s[j + 1..])
      else [s[0]] + RemovePids(s[1..])
  }

  /** Text without a `[` passes through unchanged. */
  lemma {:induction false} RemovePidsKeeps(a: string, b: string)
    requires '[' !in a
    ensures RemovePids(a + b) == a + RemovePids(b)
    decreases |a|
  {
    if a == [] {
      assert a + b == b;
    } else {
      assert (a + b)[0] == a[0] && (a + b)[1..] == a[1..] + b;
      assert a[0] in a;
      RemovePidsKeeps(a[1..], b);
      calc {
        RemovePids(a + b);
        [a[0]] + RemovePids(a[1..] + b);
        [a[0]] + (a[1..] + RemovePids(b));
        { assert a == [a[0]] + a[1..]; }
        a + RemovePids(b);
      }
    }
  }

  /** What PID_PATTERN matches: `[`, one or more digits, `]`. */
  predicate IsPid(pid: string) {
    |pid| >= 3 && pid[0] == '[' && pid[|pid| - 1] == ']' && AllDigits(pid[1..|pid| - 1])
  }

  /** A bracketed run of digits is removed. */
  lemma RemovePidsDrops(pid: string, b: string)
    requires IsPid(pid)
    ensures RemovePids(pid + b) == RemovePids(b)
  {
    var s := pid + b;
    var j := |pid| - 1;
    assert s[0] == '[' && s[j] == ']';
    assert forall i :: 1 <= i < j ==> s[i] == pid[1..|pid| - 1][i - 1];
    RunIs(s, 1, j, IsDigit);
    assert s[j + 1..] == b;
  }

  /** Text without a `[` has no PID to remove. */
  lemma NoPids(a: string)
    requires '[' !in a
    ensures RemovePids(a) == a
  {
    RemovePidsKeeps(a, []);
    assert a + [] == a;
  }

  /** Every whitespace character is a plain space, and none is followed by whitespace. */
  ghost predicate Collapsed(s: string) {
    forall i :: 0 <= i < |s| && IsSpace(s[i]) ==> s[i] == ' ' && (i + 1 == |s| || !IsSpace(s[i + 1]))
  }

  /** `WHITESPACE_PATTERN.sub(' ', line)`: each run of whitespace becomes one space. */
  function CollapseSpaces(s: string): (r: string)
    ensures |r| <= |s|
    ensures r == [] <==> s == []
    ensures r != [] ==> (IsSpace(r[0]) <==> IsSpace(s[0]))
    ensures r != [] ==> (IsSpace(r[|r| - 1]) <==> IsSpace(s[|s| - 1]))
    decreases |s|
  {
    if s == [] then []
    else if IsSpace(s[0]) then
      var j := Run(s, 0, IsSpace);
      var rest := CollapseSpaces(s[j..]);
      assert rest != [] ==> s[j..][|s[j..]| - 1] == s[|s| - 1];
      [' '] + rest
    else
      var rest := CollapseSpaces(s[1..]);
      assert rest != [] ==> s[1..][|s[1..]| - 1] == s[|s| - 1];
      [s[0]] + rest
  }

  lemma {:induction false} CollapseSpacesCollapsed(s: string)
    ensures Collapsed(CollapseSpaces(s))
    decreases |s|
  {
    if s != [] {
      var r := CollapseSpaces(s);
      if IsSpace(s[0]) {
        var j := Run(s, 0, IsSpace);
        var rest := CollapseSpaces(s[j..]);
        CollapseSpacesCollapsed(s[j..]);
        assert r == [' '] + rest;
        assert rest != [] ==> !IsSpace(rest[0]) by {
          if rest != [] { assert s[j..][0] == s[j]; }
        }
        forall i | 0 <= i < |r| && IsSpace(r[i]) ensures r[i] == ' ' && (i + 1 == |r| || !IsSpace(r[i + 1])) {
          if i > 0 { assert r[i] == rest[i - 1]; }
          if i + 1 < |r| { assert r[i + 1] == rest[i]; }
        }
      } else {
        var rest := CollapseSpaces(s[1..]);
        CollapseSpacesCollapsed(s[1..]);
        assert r == [s[0]] + rest;
        forall i | 0 <= i < |r| && IsSpace(r[i]) ensures r[i] == ' ' && (i + 1 == |r| || !IsSpace(r[i + 1])) {
          assert i > 0;
          assert r[i] == rest[i - 1];
          if i + 1 < |r| { assert r[i + 1] == rest[i]; }
        }
      }
    }
  }

  /** Collapsing changes nothing in text that is already collapsed. */
  lemma {:induction false} CollapsedFixed(s: string)
    requires Collapsed(s)
    ensures CollapseSpaces(s) == s
    decreases |s|
  {
    if s != [] {
      assert Collapsed(s[1..]) by {
        forall i | 0 <= i < |s[1..]| && IsSpace(s[1..][i])
          ensures s[1..][i] == ' ' && (i + 1 == |s[1..]| || !IsSpace(s[1..][i + 1]))
        {
          assert s[1..][i] == s[i + 1];
          if i + 1 < |s[1..]| { assert s[1..][i + 1] == s[i + 2]; }
        }
      }
      CollapsedFixed(s[1..]);
      if IsSpace(s[0]) {
        RunIs(s, 0, 1, IsSpace);
      }
      assert s == [s[0]] + s[1..];
    }
  }

  /** `str.strip()`: leading and trailing whitespace removed. */
  function Strip(s: string): (r: string)
    ensures |r| <= |s|
    ensures r == [] || (!IsSpace(r[0]) && !IsSpace(r[|r| - 1]))
  {
    StripRight(s[Run(s, 0, IsSpace)..])
  }

  function StripRight(s: string): (r: string)
    ensures |r| <= |s| && r == s[..|r|]
    ensures forall i :: |r| <= i < |s| ==> IsSpace(s[i])
    ensures r == [] || !IsSpace(r[|r| - 1])
    decreases |s|
  {
    if s != [] && IsSpace(s[|s| - 1]) then StripRight(s[..|s| - 1]) else s
  }

  /** Strip removes only the whitespace at either end: what it returns is a slice of its input. */
  lemma StripIsSlice(s: string)
    ensures exists i, j :: 0 <= i <= j <= |s| && Strip(s) == s[i..j]
              && (forall k :: 0 <= k < i ==> IsSpace(s[k]))
              && (forall k :: j <= k < |s| ==> IsSpace(s[k]))
  {
    var i := Run(s, 0, IsSpace);
    var r := Strip(s);
    var j := i + |r|;
    assert r == s[i..j];
    forall k | j <= k < |s| ensures IsSpace(s[k]) {
      assert s[k] == s[i..][k - i];
    }
  }

  lemma {:induction false} StripKeepsCollapsed(s: string)
    requires Collapsed(s)
    ensures Collapsed(Strip(s))
  {
    var i := Run(s, 0, IsSpace);
    var r := Strip(s);
    assert r == s[i..i + |r|];
    forall k | 0 <= k < |r| && IsSpace(r[k]) ensures r[k] == ' ' && (k + 1 == |r| || !IsSpace(r[k + 1])) {
      assert r[k] == s[i + k];
      if k + 1 < |r| { assert r[k + 1] == s[i + k + 1]; }
    }
  }

  /** Text that neither starts nor ends with whitespace is left as it is. */
  lemma StripFixed(s: string)
    requires s == [] || (!IsSpace(s[0]) && !IsSpace(s[|s| - 1]))
    ensures Strip(s) == s
  {
    if s != [] {
      RunIs(s, 0, 0, IsSpace);
    }
    assert s[0..] == s;
  }

  /** `normalize_log`: every step only removes text, and the result is stripped at both ends. */
  function Normalize(line: string): (r: string)
    ensures |r| <= |line|
    ensures r == [] || (!IsSpace(r[0]) && !IsSpace(r[|r| - 1]))
  {
    Strip(CollapseSpaces(RemovePids(DropPrefix(line))))
  }

  /** The shape of a normalised line: one space between words, none at either end. */
  ghost predicate Tidy(s: string) {
    Collapsed(s) && (s == [] || (!IsSpace(s[0]) && !IsSpace(s[|s| - 1])))
  }

  /** A normalised line is tidy. */
  lemma NormalizeTidy(line: string)
    ensures Tidy(Normalize(line))
  {
    var c := CollapseSpaces(RemovePids(DropPrefix(line)));
    CollapseSpacesCollapsed(RemovePids(DropPrefix(line)));
    StripKeepsCollapsed(c);
  }

  /** Collapsing and stripping leave a tidy text unchanged. */
  lemma TidyFixed(s: string)
    requires Tidy(s)
    ensures CollapseSpaces(s) == s && Strip(s) == s
  {
    CollapsedFixed(s);
    StripFixed(s);
  }

  /**
   * A syslog line (header, program name, PID, message) normalises to the
   * program name followed by the message, with whitespace collapsed and
   * stripped.
   */
  lemma NormalizeSyslogLine(header: string, name: string, pid: string, msg: string)
    requires PrefixEnd(header + (name + pid + msg)) == Some(|header|)
    requires '[' !in name && IsPid(pid) && '[' !in msg
    ensures Normalize(header + name + pid + msg) == Strip(CollapseSpaces(name + msg))
  {
    var rest := name + pid + msg;
    Assoc(header, name, pid);
    Assoc(header, name + pid, msg);
    assert (header + rest)[|header|..] == rest;
    Assoc(name, pid, msg);
    RemovePidsKeeps(name, pid + msg);
    RemovePidsDrops(pid, msg);
    NoPids(msg);
  }

  /** The whitespace-free text of a host name or a word. */
  predicate NoSpace(s: string) {
    forall i :: 0 <= i < |s| ==> !IsSpace(s[i])
  }

  /** The classic syslog header `Mmm dd hh:mm:ss host `, one space between fields. */
  function SyslogHeader(mon: string, day: string, hh: string, mm: string, ss: string, host: string): string {
    mon + " " + day + " " + hh + ":" + mm + ":" + ss + " " + host + " "
  }

  /**
   * Any classic header (a capitalised three-letter month, decimal day and
   * time fields, a host without whitespace) followed by a non-blank
   * remainder is what the pattern matches, exactly.
   */
  lemma ClassicHeaderRecognized(mon: string, day: string, hh: string, mm: string, ss: string, host: string, rest: string)
    requires |mon| == 3 && IsUpper(mon[0]) && IsLower(mon[1]) && IsLower(mon[2])
    requires day != [] && AllDigits(day)
    requires hh != [] && AllDigits(hh) && mm != [] && AllDigits(mm) && ss != [] && AllDigits(ss)
    requires host != [] && NoSpace(host)
    requires rest == [] || !IsSpace(rest[0])
    ensures PrefixEnd(SyslogHeader(mon, day, hh, mm, ss, host) + rest) == Some(|SyslogHeader(mon, day, hh, mm, ss, host)|)
  {
    var header := SyslogHeader(mon, day, hh, mm, ss, host);
    var a := 4;
    var b := a + |day|;
    var c := b + 1;
    var d := c + |hh|;
    var e := d + 1 + |mm|;
    var f := e + 1 + |ss|;
    var g := f + 1;
    var h := g + |host|;
    assert |header| == h + 1;
    assert header[0] == mon[0] && header[1] == mon[1] && header[2] == mon[2];
    assert header[3] == ' ';
    assert forall i :: a <= i < b ==> header[i] == day[i - a];
    assert header[b] == ' ';
    assert forall i :: c <= i < d ==> header[i] == hh[i - c];
    assert header[d] == ':';
    assert forall i :: d < i < e ==> header[i] == mm[i - d - 1];
    assert header[e] == ':';
    assert forall i :: e < i < f ==> header[i] == ss[i - e - 1];
    assert header[f] == ' ';
    assert forall i :: g <= i < h ==> header[i] == host[i - g];
    assert header[h] == ' ';
    HeaderRecognized(header, rest, a, b, c, d, e, f, g, h);
  }

  /** Two tidy texts joined by one space make a tidy text. */
  lemma TidyJoin(a: string, b: string)
    requires a != [] && b != [] && Tidy(a) && Tidy(b)
    ensures Tidy(a + " " + b)
  {
    var s := a + " " + b;
    forall i | 0 <= i < |s| && IsSpace(s[i]) ensures s[i] == ' ' && (i + 1 == |s| || !IsSpace(s[i + 1])) {
      if i < |a| {
        assert s[i] == a[i];
        if i + 1 < |a| { assert s[i + 1] == a[i + 1]; }
      } else if i > |a| {
        assert s[i] == b[i - |a| - 1];
        if i + 1 < |s| { assert s[i + 1] == b[i - |a|]; }
      } else {
        assert s[i + 1] == b[0];
      }
    }
    assert s[0] == a[0] && s[|s| - 1] == b[|b| - 1];
  }

  /**
   * A whitespace run between a text that does not end in whitespace and one
   * that does not start with it becomes one space; the two sides are
   * collapsed on their own.
   */
  lemma {:induction false} CollapseAcrossRun(a: string, w: string, b: string)
    requires a != [] && !IsSpace(a[|a| - 1])
    requires w != [] && forall i :: 0 <= i < |w| ==> IsSpace(w[i])
    requires b == [] || !IsSpace(b[0])
    ensures CollapseSpaces(a + w + b) == CollapseSpaces(a) + " " + CollapseSpaces(b)
    decreases |a|
  {
    var j := if IsSpace(a[0]) then Run(a, 0, IsSpace) else 1;
    if j == |a| {
      CollapseRunLast(a, w, b);
    } else {
      assert a[j..][|a[j..]| - 1] == a[|a| - 1];
      CollapseAcrossRun(a[j..], w, b);
      CollapseRunStep(a, w, b, j);
    }
  }

  /** A whitespace run at the start becomes one space. */
  lemma CollapseRunFirst(w: string, b: string)
    requires w != [] && forall i :: 0 <= i < |w| ==> IsSpace(w[i])
    requires b == [] || !IsSpace(b[0])
    ensures CollapseSpaces(w + b) == " " + CollapseSpaces(b)
  {
    var s := w + b;
    assert forall i :: 0 <= i < |w| ==> s[i] == w[i];
    assert |w| == |s| || s[|w|] == b[0];
    assert s[|w|..] == b;
    CollapseSpaceStep(s, |w|);
  }

  /** The base case: a is a single character. */
  lemma CollapseRunLast(a: string, w: string, b: string)
    requires |a| == 1 && !IsSpace(a[0])
    requires w != [] && forall i :: 0 <= i < |w| ==> IsSpace(w[i])
    requires b == [] || !IsSpace(b[0])
    ensures CollapseSpaces(a + w + b) == CollapseSpaces(a) + " " + CollapseSpaces(b)
  {
    Assoc(a, w, b);
    assert a == [a[0]];
    CollapseCons(a[0], w + b);
    CollapseCons(a[0], []);
    CollapseRunFirst(w, b);
    Assoc(a, " ", CollapseSpaces(b));
  }

  lemma Assoc(x: string, y: string, z: string)
    ensures x + y + z == x + (y + z)
  {
  }

  lemma CollapseCons(c: char, t: string)
    requires !IsSpace(c)
    ensures CollapseSpaces([c] + t) == [c] + CollapseSpaces(t)
  {
    var s := [c] + t;
    assert s[0] == c && s[1..] == t;
  }

  /** The step case: the first token of a (a whitespace run, or one character) is handled alike on both sides. */
  lemma CollapseRunStep(a: string, w: string, b: string, j: nat)
    requires a != [] && !IsSpace(a[|a| - 1])
    requires j == if IsSpace(a[0]) then Run(a, 0, IsSpace) else 1
    requires j < |a|
    requires CollapseSpaces(a[j..] + w + b) == CollapseSpaces(a[j..]) + " " + CollapseSpaces(b)
    ensures CollapseSpaces(a + w + b) == CollapseSpaces(a) + " " + CollapseSpaces(b)
  {
    var s := a + w + b;
    var c := CollapseSpaces(a[j..]);
    SliceConcat(a, w, b, j);
    if IsSpace(a[0]) {
      assert j < |a|;
      CollapseSpaceStep(a, j);
      assert forall i :: 0 <= i <= j ==> s[i] == a[i];
      CollapseSpaceStep(s, j);
      JoinAssoc([' '], c, CollapseSpaces(b));
    } else {
      CollapseCharStep(a);
      assert s[0] == a[0];
      CollapseCharStep(s);
      JoinAssoc([a[0]], c, CollapseSpaces(b));
    }
  }

  lemma CollapseSpaceStep(s: string, j: nat)
    requires 0 < j <= |s| && forall i :: 0 <= i < j ==> IsSpace(s[i])
    requires j == |s| || !IsSpace(s[j])
    ensures CollapseSpaces(s) == [' '] + CollapseSpaces(s[j..])
  {
    RunIs(s, 0, j, IsSpace);
  }

  lemma SliceConcat(x: string, y: string, z: string, j: nat)
    requires j <= |x|
    ensures (x + y + z)[j..] == x[j..] + y + z
  {
  }

  lemma CollapseCharStep(s: string)
    requires s != [] && !IsSpace(s[0])
    ensures CollapseSpaces(s) == [s[0]] + CollapseSpaces(s[1..])
  {
  }

  lemma JoinAssoc(x: string, p: string, q: string)
    ensures x + (p + " " + q) == (x + p) + " " + q
  {
  }

  /** Two tidy texts separated by a run of whitespace normalise to the texts joined by one space. */
  lemma TidyAcrossRun(a: string, w: string, b: string)
    requires a != [] && b != [] && Tidy(a) && Tidy(b)
    requires w != [] && forall i :: 0 <= i < |w| ==> IsSpace(w[i])
    ensures Strip(CollapseSpaces(a + w + b)) == a + " " + b
  {
    CollapseAcrossRun(a, w, b);
    CollapsedFixed(a);
    CollapsedFixed(b);
    TidyJoin(a, b);
    StripFixed(a + " " + b);
  }

  /** A syslog line whose program name and message already form a tidy text normalises to that text. */
  lemma TidySyslogLine(header: string, name: string, pid: string, msg: string)
    requires PrefixEnd(header + (name + pid + msg)) == Some(|header|)
    requires '[' !in name && IsPid(pid) && '[' !in msg
    requires Tidy(name + msg)
    ensures Normalize(header + name + pid + msg) == name + msg
  {
    NormalizeSyslogLine(header, name, pid, msg);
    TidyFixed(name + msg);
  }

  /**
   * A syslog line whose program name and message are two tidy texts with a
   * whitespace run between them normalises to the two texts joined by one
   * space.
   */
  lemma GappedSyslogLine(header: string, name: string, pid: string, msg: string, a: string, w: string, b: string)
    requires PrefixEnd(header + (name + pid + msg)) == Some(|header|)
    requires '[' !in name && IsPid(pid) && '[' !in msg
    requires name + msg == a + w + b
    requires a != [] && b != [] && Tidy(a) && Tidy(b)
    requires w != [] && forall i :: 0 <= i < |w| ==> IsSpace(w[i])
    ensures Normalize(header + name + pid + msg) == a + " " + b
  {
    NormalizeSyslogLine(header, name, pid, msg);
    TidyAcrossRun(a, w, b);
  }

  // The three cases of test_normalize_log.  Each line is split into header,
  // program name, PID and message; each small fact about the literals has a
  // lemma of its own.

  lemma Header1(rest: string)
    requires rest == [] || !IsSpace(rest[0])
    ensures PrefixEnd("Nov 04 23:58:33 archlinux " + rest) == Some(|"Nov 04 23:58:33 archlinux "|)
  {
    assert SyslogHeader("Nov", "04", "23", "58", "33", "archlinux") == "Nov 04 23:58:33 archlinux ";
    ClassicHeaderRecognized("Nov", "04", "23", "58", "33", "archlinux", rest);
  }

  lemma Split1()
    ensures "Nov 04 23:58:33 archlinux systemd[1]: ollama.service failed"
         == "Nov 04 23:58:33 archlinux " + "systemd" + "[1]" + ": ollama.service failed"
  {
  }

  lemma Words1()
    ensures "systemd" + ": ollama.service failed" == "systemd: ollama.service failed"
    ensures '[' !in "systemd" && '[' !in ": ollama.service failed" && IsPid("[1]")
    ensures "systemd"[0] == 's'
  {
  }

  lemma Tidy1()
    ensures Tidy("systemd: ollama.service failed")
  {
  }

  lemma NormalizeExample1()
    ensures Normalize("Nov 04 23:58:33 archlinux systemd[1]: ollama.service failed")
         == "systemd: ollama.service failed"
  {
    Split1();
    Words1();
    Header1("systemd" + "[1]" + ": ollama.service failed");
    Tidy1();
    TidySyslogLine("Nov 04 23:58:33 archlinux ", "systemd", "[1]", ": ollama.service failed");
  }

  lemma Header2(rest: string)
    requires rest == [] || !IsSpace(rest[0])
    ensures PrefixEnd("Nov 11 12:34:56 hostname " + rest) == Some(|"Nov 11 12:34:56 hostname "|)
  {
    assert SyslogHeader("Nov", "11", "12", "34", "56", "hostname") == "Nov 11 12:34:56 hostname ";
    ClassicHeaderRecognized("Nov", "11", "12", "34", "56", "hostname", rest);
  }

  lemma Split2()
    ensures "Nov 11 12:34:56 hostname kernel[12345]: Error occurred"
         == "Nov 11 12:34:56 hostname " + "kernel" + "[12345]" + ": Error occurred"
  {
  }

  lemma Words2()
    ensures "kernel" + ": Error occurred" == "kernel: Error occurred"
    ensures '[' !in "kernel" && '[' !in ": Error occurred" && IsPid("[12345]")
    ensures "kernel"[0] == 'k'
  {
  }

  lemma Tidy2()
    ensures Tidy("kernel: Error occurred")
  {
  }

  lemma NormalizeExample2()
    ensures Normalize("Nov 11 12:34:56 hostname kernel[12345]: Error occurred")
         == "kernel: Error occurred"
  {
    Split2();
    Words2();
    Header2("kernel" + "[12345]" + ": Error occurred");
    Tidy2();
    TidySyslogLine("Nov 11 12:34:56 hostname ", "kernel", "[12345]", ": Error occurred");
  }

  lemma Header3(rest: string)
    requires rest == [] || !IsSpace(rest[0])
    ensures PrefixEnd("Dec 25 00:00:01 server " + rest) == Some(|"Dec 25 00:00:01 server "|)
  {
    assert SyslogHeader("Dec", "25", "00", "00", "01", "server") == "Dec 25 00:00:01 server ";
    ClassicHeaderRecognized("Dec", "25", "00", "00", "01", "server", rest);
  }

  lemma Split3()
    ensures "Dec 25 00:00:01 server nginx[999]: Connection  timeout"
         == "Dec 25 00:00:01 server " + "nginx" + "[999]" + ": Connection  timeout"
  {
  }

  lemma Words3()
    ensures "nginx" + ": Connection  timeout" == "nginx: Connection" + "  " + "timeout"
    ensures '[' !in "nginx" && '[' !in ": Connection  timeout" && IsPid("[999]")
    ensures "nginx"[0] == 'n'
  {
  }

  lemma Tidy3()
    ensures Tidy("nginx: Connection") && Tidy("timeout")
  {
  }

  lemma Join3()
    ensures "nginx: Connection" + " " + "timeout" == "nginx: Connection timeout"
    ensures "  " != [] && forall i :: 0 <= i < |"  "| ==> IsSpace("  "[i])
  {
  }

  /** The third case also collapses the double space inside the message. */
  lemma NormalizeExample3()
    ensures Normalize("Dec 25 00:00:01 server nginx[999]: Connection  timeout")
         == "nginx: Connection timeout"
  {
    Split3();
    Words3();
    Header3("nginx" + "[999]" + ": Connection  timeout");
    Tidy3();
    Join3();
    GappedSyslogLine("Dec 25 00:00:01 server ", "nginx", "[999]", ": Connection  timeout",
                     "nginx: Connection", "  ", "timeout");
  }

  // ---------------------------------------------------------------------------
  // parse_k_option and parse_display_option
  // ---------------------------------------------------------------------------

  predicate StartsWith(s: string, prefix: string) {
    |prefix| <= |s| && s[..|prefix|] == prefix
  }

  /**
   * `int(text)` on an optional sign followed by decimal digits; None where
   * Python raises ValueError.
   */
  function ParseInt(text: string): (r: Option<int>)
    ensures r.Some? ==> text != []
  {
    if text != [] && (text[0] == '+' || text[0] == '-') then
      if |text| > 1 && AllDigits(text[1..]) then
        Some(if text[0] == '-' then -(Value(text[1..]) as int) else Value(text[1..]))
      else None
    else if text != [] && AllDigits(text) then Some(Value(text))
    else None
  }

  /** `parse_k_option`: `int(part[2:])` when part starts with `k=`; None otherwise or when the rest is not a number. */
  function ParseK(part: string): (r: Option<int>)
    ensures r.Some? ==> StartsWith(part, "k=")
  {
    if StartsWith(part, "k=") then ParseInt(part[2..]) else None
  }

  /** Every count written as `k=`, an optional minus sign and its decimal digits is read back. */
  lemma ParseKRoundTrip(n: nat)
    ensures ParseK("k=" + NatToString(n)) == Some(n)
    ensures ParseK("k=-" + NatToString(n)) == Some(-(n as int))
  {
    var digits := NatToString(n);
    ValueOfNatToString(n);
    var part := "k=" + digits;
    assert part[..2] == "k=" && part[2..] == digits;
    assert digits[0] != '+' && digits[0] != '-' by {
      assert IsDigit(digits[0]);
    }
    var neg := "k=-" + digits;
    assert neg[..2] == "k=" && neg[2..] == "-" + digits;
    assert ("-" + digits)[1..] == digits;
  }

  /** A number is read only from `k=` followed by an optional sign and at least one digit, and nothing else. */
  lemma ParseKSome(part: string)
    ensures ParseK(part).Some? <==>
              StartsWith(part, "k=") && |part| > 2
              && (AllDigits(part[2..])
                  || ((part[2] == '+' || part[2] == '-') && |part| > 3 && AllDigits(part[3..])))
  {
    if StartsWith(part, "k=") && |part| > 2 {
      assert part[2..][0] == part[2];
      assert part[2..][1..] == part[3..];
      if AllDigits(part[2..]) {
        assert IsDigit(part[2..][0]);
      }
    }
  }

  /** The assertions of test_parse_options on `k=`. */
  lemma ParseKExamples()
    ensures ParseK("k=10") == Some(10)
    ensures ParseK("k=5") == Some(5)
    ensures ParseK("k=invalid") == None
  {
    assert "k=10"[..2] == "k=" && "k=10"[2..] == "10";
    assert Value("10") == 10 by {
      assert "10"[..1] == "1";
      assert Value("1") == 1 by { assert "1"[..0] == ""; }
    }
    assert "k=5"[..2] == "k=" && "k=5"[2..] == "5";
    assert Value("5") == 5 by { assert "5"[..0] == ""; }
    assert "k=invalid"[..2] == "k=" && "k=invalid"[2..] == "invalid";
    assert !IsDigit("invalid"[0]);
  }

  /** `str.lower()` on ASCII letters. */
  function Lower(s: string): (r: string)
    ensures |r| == |s|
    ensures forall i :: 0 <= i < |s| ==> r[i] == LowerChar(s[i])
  {
    seq(|s|, i requires 0 <= i < |s| => LowerChar(s[i]))
  }

  function LowerChar(c: char): (d: char)
    ensures !IsUpper(d)
    ensures !IsUpper(c) ==> d == c
    ensures IsUpper(c) ==> IsLower(d) && (d as int) - (c as int) == 32
  {
    if IsUpper(c) then ((c as int) + 32) as char else c
  }

  /** Lower-casing leaves no capital and is idempotent. */
  lemma LowerIdempotent(s: string)
    ensures forall i :: 0 <= i < |s| ==> !IsUpper(Lower(s)[i])
    ensures Lower(Lower(s)) == Lower(s)
  {
  }

  /** Text without capitals is its own lower case. */
  lemma LowerKeeps(s: string)
    requires forall i :: 0 <= i < |s| ==> !IsUpper(s[i])
    ensures Lower(s) == s
  {
  }

  /** The lower-cased remainder of `display=...`; None for any other part. */
  function ParseDisplay(part: string): (r: Option<string>)
    ensures r.Some? <==> StartsWith(part, "display=")
    ensures r.Some? ==> |r.value| == |part| - 8
  {
    if StartsWith(part, "display=") then Some(Lower(part[8..])) else None
  }

  /** Whatever follows `display=` comes back lower-cased. */
  lemma ParseDisplayValue(v: string)
    ensures ParseDisplay("display=" + v) == Some(Lower(v))
  {
    assert ("display=" + v)[..8] == "display=" && ("display=" + v)[8..] == v;
  }

  /** The assertions of test_parse_options on `display=`. */
  lemma ParseDisplayExamples()
    ensures ParseDisplay("display=raw") == Some("raw")
    ensures ParseDisplay("display=pretty") == Some("pretty")
    ensures ParseDisplay("display=PRETTY") == Some("pretty")
  {
    ParseDisplayValue("raw");
    assert "display=" + "raw" == "display=raw";
    LowerKeeps("raw");
    ParseDisplayValue("pretty");
    assert "display=" + "pretty" == "display=pretty";
    LowerKeeps("pretty");
    ParseDisplayValue("PRETTY");
    assert "display=" + "PRETTY" == "display=PRETTY";
    LowerPretty();
  }

  lemma LowerPretty()
    ensures Lower("PRETTY") == "pretty"
  {
    var l := Lower("PRETTY");
    assert l[0] == 'p' && l[1] == 'r' && l[2] == 'e' && l[3] == 't' && l[4] == 't' && l[5] == 'y';
  }

  // ---------------------------------------------------------------------------
  // The bounded metadata list of test_memory_bounds
  // ---------------------------------------------------------------------------

  /** MAX_METADATA_SIZE. */
  const MaxMetadataSize: nat := 100

  /** The newest n entries of xs, in order. */
  function Newest<T>(xs: seq<T>, n: nat): (r: seq<T>)
    ensures |r| == if |xs| <= n then |xs| else n
    ensures r == xs[|xs| - |r|..]
  {
    if |xs| <= n then xs else xs[|xs| - n..]
  }

  /** Trimming after each append keeps the same entries as trimming once at the end. */
  lemma NewestSnoc<T>(xs: seq<T>, x: T, n: nat)
    ensures Newest(Newest(xs, n) + [x], n) == Newest(xs + [x], n)
  {
    var ys := xs + [x];
    var m := Newest(xs, n);
    assert m + [x] == ys[|xs| - |m|..];
  }

  /** The ids 0 .. n - 1 in order, as `range(n)` produces them. */
  function Ids(n: nat): (r: seq<nat>)
    ensures |r| == n && forall i :: 0 <= i < n ==> r[i] == i
  {
    seq(n, i requires 0 <= i < n => i)
  }

  lemma IdsSnoc(n: nat)
    ensures Ids(n) + [n] == Ids(n + 1)
  {
  }

  /** One append followed by `del metadata[:overflow]` when the list is too long. */
  method AppendBounded(metadata: seq<nat>, id: nat) returns (r: seq<nat>)
    ensures r == Newest(metadata + [id], MaxMetadataSize)
  {
    r := metadata + [id];
    if |r| > MaxMetadataSize {
      var overflow := |r| - MaxMetadataSize;
      r := r[overflow..];
    }
  }

  /**
   * The loop of test_memory_bounds over `count` ids: after every step the
   * list holds at most MAX_METADATA_SIZE entries, and at the end exactly
   * the newest of them, in order.
   */
  method FillBounded(count: nat) returns (metadata: seq<nat>)
    ensures |metadata| <= MaxMetadataSize
    ensures metadata == Newest(Ids(count), MaxMetadataSize)
  {
    metadata := [];
    var i := 0;
    while i < count
      invariant 0 <= i <= count
      invariant |metadata| <= MaxMetadataSize
      invariant metadata == Newest(Ids(i), MaxMetadataSize)
    {
      NewestSnoc(Ids(i), i, MaxMetadataSize);
      IdsSnoc(i);
      metadata := AppendBounded(metadata, i);
      i := i + 1;
    }
  }

  /** The assertions of test_memory_bounds: 150 appends leave ids 50 .. 149. */
  lemma MemoryBoundsExample()
    ensures |Newest(Ids(150), MaxMetadataSize)| == MaxMetadataSize
    ensures Newest(Ids(150), MaxMetadataSize) == seq(100, i requires 0 <= i < 100 => 50 + i)
    ensures Newest(Ids(150), MaxMetadataSize)[0] == 50
    ensures Newest(Ids(150), MaxMetadataSize)[99] == 149
  {
    var r := Newest(Ids(150), MaxMetadataSize);
    assert r == Ids(150)[50..];
    assert forall i :: 0 <= i < 100 ==> r[i] == Ids(150)[50 + i] == 50 + i;
  }
}
