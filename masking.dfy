/**
 * Masking and parameter extraction (`mask_message`, `extract_params` in
 * batchmanager/batchmana.py).
 *
 * The IPv4, IPv6, timestamp and path regular expressions are abstract
 * matchers: a matcher maps a text to its `finditer` spans, which are
 * non-empty, inside the text and listed left to right without overlap.  The
 * number pattern `\b\d+\b` is defined concretely over ASCII.
 */
module Masking {
  import opened Decimal
  import StableSort

  /** The five parameter categories, in the order the patterns are tried. */
  datatype Kind = IP | IPV6 | TIME | PATH | NUM

  function Rank(k: Kind): nat {
    match k
    case IP => 0
    case IPV6 => 1
    case TIME => 2
    case PATH => 3
    case NUM => 4
  }

  /** A match `m` of a pattern: the half-open range [m.start(), m.end()). */
  datatype Span = Span(start: nat, end: nat)

  /** What `finditer` yields: non-empty matches, in bounds, left to right, disjoint. */
  predicate SpansOk(s: string, spans: seq<Span>) {
    && (forall i :: 0 <= i < |spans| ==> spans[i].start < spans[i].end <= |s|)
    && (forall i, j :: 0 <= i < j < |spans| ==> spans[i].end <= spans[j].start)
  }

  type Matcher = string -> seq<Span>

  ghost predicate ValidMatcher(m: Matcher) {
    forall s :: SpansOk(s, m(s))
  }

  /** IP_V4_RE, IP_V6_RE, TIMESTAMP_RE and PATH_RE as abstract matchers. */
  datatype Matchers = Matchers(ipv4: Matcher, ipv6: Matcher, time: Matcher, path: Matcher)

  ghost predicate ValidMatchers(m: Matchers) {
    ValidMatcher(m.ipv4) && ValidMatcher(m.ipv6) && ValidMatcher(m.time) && ValidMatcher(m.path)
  }

  // ---------------------------------------------------------------------------
  // NUMBER_RE = \b\d+\b over ASCII
  // ---------------------------------------------------------------------------

  /** `\w` restricted to ASCII: letters, digits and underscore. */
  predicate IsWordChar(c: char) {
    IsDigit(c) || ('a' <= c <= 'z') || ('A' <= c <= 'Z') || c == '_'
  }

  /** s[i..j] is a match of `\b\d+\b`: all digits, with a word boundary on both sides. */
  predicate IsNumberAt(s: string, i: int, j: int) {
    && 0 <= i < j <= |s|
    && (forall k :: i <= k < j ==> IsDigit(s[k]))
    && (i == 0 || !IsWordChar(s[i - 1]))
    && (j == |s| || !IsWordChar(s[j]))
  }

  /** End of the maximal run of digits that starts at i. */
  function DigitRunEnd(s: string, i: nat): (j: nat)
    requires i <= |s|
    ensures i <= j <= |s|
    ensures forall k :: i <= k < j ==> IsDigit(s[k])
    ensures j == |s| || !IsDigit(s[j])
    decreases |s| - i
  {
    if i < |s| && IsDigit(s[i]) then DigitRunEnd(s, i + 1) else i
  }

  /**
   * The left-to-right search `finditer` performs from position pos: try a
   * match at pos; after a match resume at its end, otherwise at pos + 1.
   */
  function NumberSpansFrom(s: string, pos: nat): seq<Span>
    requires pos <= |s|
    decreases |s| - pos
  {
    if pos == |s| then []
    else if IsDigit(s[pos]) && (pos == 0 || !IsWordChar(s[pos - 1])) then
      var j := DigitRunEnd(s, pos);
      if j == |s| || !IsWordChar(s[j]) then [Span(pos, j)] + NumberSpansFrom(s, j)
      else NumberSpansFrom(s, pos + 1)
    else
      NumberSpansFrom(s, pos + 1)
  }

  /** A number match that starts at i ends where the run of digits from i ends. */
  lemma NumberEndsAtRunEnd(s: string, i: nat, j: int)
    requires i <= |s| && IsNumberAt(s, i, j)
    ensures j == DigitRunEnd(s, i)
  {
  }

  /** A number match followed by number matches that start at or after its end. */
  lemma ConsNumberSpan(s: string, sp: Span, rest: seq<Span>)
    requires IsNumberAt(s, sp.start, sp.end) && SpansOk(s, rest)
    requires forall k :: 0 <= k < |rest| ==> sp.end <= rest[k].start && IsNumberAt(s, rest[k].start, rest[k].end)
    ensures SpansOk(s, [sp] + rest)
    ensures forall k :: 0 <= k < |[sp] + rest| ==>
              sp.start <= ([sp] + rest)[k].start && IsNumberAt(s, ([sp] + rest)[k].start, ([sp] + rest)[k].end)
  {
    var r := [sp] + rest;
    assert forall k :: 0 < k < |r| ==> r[k] == rest[k - 1];
  }

  /** Every span the search reports is a number match at or after pos, in order. */
  lemma {:induction false} NumberSpansFromSound(s: string, pos: nat)
    requires pos <= |s|
    ensures SpansOk(s, NumberSpansFrom(s, pos))
    ensures forall k :: 0 <= k < |NumberSpansFrom(s, pos)| ==>
              pos <= NumberSpansFrom(s, pos)[k].start
              && IsNumberAt(s, NumberSpansFrom(s, pos)[k].start, NumberSpansFrom(s, pos)[k].end)
    decreases |s| - pos
  {
    if pos < |s| {
      if IsDigit(s[pos]) && (pos == 0 || !IsWordChar(s[pos - 1])) {
        var j := DigitRunEnd(s, pos);
        if j == |s| || !IsWordChar(s[j]) {
          NumberSpansFromSound(s, j);
          ConsNumberSpan(s, Span(pos, j), NumberSpansFrom(s, j));
        } else {
          NumberSpansFromSound(s, pos + 1);
        }
      } else {
        NumberSpansFromSound(s, pos + 1);
      }
    }
  }

  /** Every number match starting at or after pos is reported by the search. */
  lemma {:induction false} NumberSpansFromComplete(s: string, pos: nat, i: nat, j: nat)
    requires pos <= i && IsNumberAt(s, i, j)
    ensures Span(i, j) in NumberSpansFrom(s, pos)
    decreases |s| - pos
  {
    if IsDigit(s[pos]) && (pos == 0 || !IsWordChar(s[pos - 1])) {
      var e := DigitRunEnd(s, pos);
      if e == |s| || !IsWordChar(s[e]) {
        if i == pos {
          NumberEndsAtRunEnd(s, i, j);
        } else if e <= i {
          NumberSpansFromComplete(s, e, i, j);
        }
      } else {
        if i == pos {
          NumberEndsAtRunEnd(s, i, j);
        } else {
          NumberSpansFromComplete(s, pos + 1, i, j);
        }
      }
    } else {
      NumberSpansFromComplete(s, pos + 1, i, j);
    }
  }

  /** The matches of NUMBER_RE in s, as `finditer` lists them: exactly the number spans. */
  function NumberSpans(s: string): (r: seq<Span>)
    ensures SpansOk(s, r)
    ensures forall i: nat, j: nat :: IsNumberAt(s, i, j) <==> Span(i, j) in r
  {
    NumberSpansFromSound(s, 0);
    assert forall i: nat, j: nat :: IsNumberAt(s, i, j) ==> Span(i, j) in NumberSpansFrom(s, 0) by {
      forall i: nat, j: nat | IsNumberAt(s, i, j) ensures Span(i, j) in NumberSpansFrom(s, 0) {
        NumberSpansFromComplete(s, 0, i, j);
      }
    }
    NumberSpansFrom(s, 0)
  }

  // ---------------------------------------------------------------------------
  // Substitution and mask_message
  // ---------------------------------------------------------------------------

  /** `re.sub(token, ...)`: every listed span replaced by token, the rest kept. */
  function Substitute(s: string, spans: seq<Span>, token: string): (r: string)
    requires SpansOk(s, spans)
    decreases |spans|
  {
    if spans == [] then s
    else
      var last := spans[|spans| - 1];
      Substitute(s[..last.start], spans[..|spans| - 1], token) + token + s[last.end..]
  }

  /**
   * mask_message: IPv4, then IPv6, then TIME, then PATH, then NUMBER, each
   * pattern run on the output of the previous substitution.
   */
  function Mask(m: Matchers, msg: string): (r: string)
    requires ValidMatchers(m)
    ensures forall i: nat, j: nat :: !IsNumberAt(r, i, j)
  {
    var s1 := Substitute(msg, m.ipv4(msg), "<IP>");
    var s2 := Substitute(s1, m.ipv6(s1), "<IPV6>");
    var s3 := Substitute(s2, m.time(s2), "<TIME>");
    var s4 := Substitute(s3, m.path(s3), "<PATH>");
    NumberMaskLeavesNoNumber(s4);
    Substitute(s4, NumberSpans(s4), "<NUM>")
  }

  /** A message in which no pattern matches comes back unchanged. */
  lemma MaskWithoutMatches(m: Matchers, msg: string)
    requires ValidMatchers(m)
    requires m.ipv4(msg) == [] && m.ipv6(msg) == [] && m.time(msg) == [] && m.path(msg) == []
    requires forall i, j :: !IsNumberAt(msg, i, j)
    ensures Mask(m, msg) == msg
  {
  }

  /** The total length of the spans. */
  function Covered(spans: seq<Span>): int
    decreases |spans|
  {
    if spans == [] then 0
    else Covered(spans[..|spans| - 1]) + spans[|spans| - 1].end - spans[|spans| - 1].start
  }

  /**
   * `re.sub` keeps every character outside the spans and puts one token in
   * place of each span: the output is the input less the covered text plus
   * one token per span.
   */
  lemma {:induction false} SubstituteLength(s: string, spans: seq<Span>, token: string)
    requires SpansOk(s, spans)
    ensures |Substitute(s, spans, token)| == |s| - Covered(spans) + |spans| * |token|
    decreases |spans|
  {
    if spans != [] {
      var last := spans[|spans| - 1];
      var init := spans[..|spans| - 1];
      var p := s[..last.start];
      SubstituteLength(p, init, token);
      assert Substitute(s, spans, token) == Substitute(p, init, token) + token + s[last.end..];
      assert Covered(spans) == Covered(init) + last.end - last.start;
      calc {
        |spans| * |token|;
        (|init| + 1) * |token|;
        |init| * |token| + |token|;
      }
    }
  }

  /** spans are exactly the number matches of s. */
  ghost predicate NumbersExactly(s: string, spans: seq<Span>) {
    forall i: nat, j: nat :: IsNumberAt(s, i, j) <==> Span(i, j) in spans
  }

  /** A replacement token that no number can touch: it has no digits and starts and ends with a non-word character. */
  predicate Fenced(token: string) {
    && token != []
    && !IsWordChar(token[0]) && !IsWordChar(token[|token| - 1])
    && forall k :: 0 <= k < |token| ==> !IsDigit(token[k])
  }

  /** Cutting s before its last number match leaves exactly the other matches as the numbers of the prefix. */
  lemma NumbersOfPrefix(s: string, spans: seq<Span>)
    requires SpansOk(s, spans) && NumbersExactly(s, spans) && spans != []
    ensures NumbersExactly(s[..spans[|spans| - 1].start], spans[..|spans| - 1])
  {
    var last := spans[|spans| - 1];
    var p := s[..last.start];
    var init := spans[..|spans| - 1];
    assert IsNumberAt(s, last.start, last.end);
    forall i: nat, j: nat ensures IsNumberAt(p, i, j) <==> Span(i, j) in init {
      if IsNumberAt(p, i, j) {
        assert IsDigit(p[j - 1]) && p[j - 1] == s[j - 1];
        assert j < last.start;
        assert IsNumberAt(s, i, j);
        assert Span(i, j) != last;
        var q :| 0 <= q < |spans| && spans[q] == Span(i, j);
        assert init[q] == Span(i, j);
      }
      if Span(i, j) in init {
        var q :| 0 <= q < |init| && init[q] == Span(i, j);
        assert spans[q] == Span(i, j);
        assert j <= last.start;
        assert IsNumberAt(s, i, j);
      }
    }
  }

  /** No number of the text after the last match starts at or after that match's end. */
  lemma NoNumberAfterLast(s: string, spans: seq<Span>, i: nat, j: nat)
    requires SpansOk(s, spans) && NumbersExactly(s, spans) && spans != []
    requires spans[|spans| - 1].end <= i
    ensures !IsNumberAt(s, i, j)
  {
    forall q | 0 <= q < |spans| ensures spans[q] != Span(i, j) {
      if q < |spans| - 1 {
        assert spans[q].end <= spans[|spans| - 1].start;
      }
    }
  }

  /**
   * Replacing every number match by a fenced token leaves no number: each
   * digit run of the output lies in a gap between matches and would already
   * have been a match of the input.
   */
  lemma {:induction false} SubstituteRemovesNumbers(s: string, spans: seq<Span>, token: string, i: nat, j: nat)
    requires SpansOk(s, spans) && NumbersExactly(s, spans) && Fenced(token)
    ensures !IsNumberAt(Substitute(s, spans, token), i, j)
    decreases |spans|
  {
    if spans != [] {
      var last := spans[|spans| - 1];
      var init := spans[..|spans| - 1];
      var p := s[..last.start];
      var head := Substitute(p, init, token);
      var rest := s[last.end..];
      assert Substitute(s, spans, token) == head + token + rest;
      LastMatchSplit(s, spans);
      SubstituteRemovesNumbers(p, init, token, i, j);
      JoinHasNoNumber(head, token, rest, i, j);
    }
  }

  /**
   * Around the last match: the text before it has the earlier matches as its
   * numbers, and the text after it starts with a non-word character and has
   * no number that does not start it.
   */
  lemma LastMatchSplit(s: string, spans: seq<Span>)
    requires SpansOk(s, spans) && NumbersExactly(s, spans) && spans != []
    ensures var last := spans[|spans| - 1];
            && SpansOk(s[..last.start], spans[..|spans| - 1])
            && NumbersExactly(s[..last.start], spans[..|spans| - 1])
            && (|s[last.end..]| > 0 ==> !IsWordChar(s[last.end..][0]))
            && forall i: nat, j: nat :: 0 < i ==> !IsNumberAt(s[last.end..], i, j)
  {
    var last := spans[|spans| - 1];
    NumbersOfPrefix(s, spans);
    assert IsNumberAt(s, last.start, last.end);
    forall i: nat, j: nat | 0 < i ensures !IsNumberAt(s[last.end..], i, j) {
      NumberInSuffix(s, last.end, i, j);
      NoNumberAfterLast(s, spans, last.end + i, last.end + j);
    }
  }

  /**
   * Gluing a fenced token between two texts creates no number: a number of
   * the result would lie in head or in rest.
   */
  lemma JoinHasNoNumber(head: string, token: string, rest: string, i: nat, j: nat)
    requires Fenced(token) && !IsNumberAt(head, i, j)
    requires |rest| > 0 ==> !IsWordChar(rest[0])
    requires |head| + |token| < i < j ==> !IsNumberAt(rest, i - |head| - |token|, j - |head| - |token|)
    ensures !IsNumberAt(head + token + rest, i, j)
  {
    var out := head + token + rest;
    var k := |head| + |token|;
    if i < j <= |out| {
      if j <= |head| {
        // the run lies inside head
        NumberInHead(head, token, rest, i, j);
      } else if i < k {
        // the run would have to contain a character of the token
        var x := if i < |head| then |head| else i;
        assert out[x] == token[x - |head|];
      } else if i == k {
        // the run would start right after the token, at a non-word character
        assert out[i] == rest[0];
      } else {
        // the run lies inside rest
        NumberInRest(head, token, rest, i, j);
      }
    }
  }

  /** A number of `head + token + rest` that ends within head is a number of head. */
  lemma NumberInHead(head: string, token: string, rest: string, i: nat, j: nat)
    requires j <= |head|
    ensures IsNumberAt(head + token + rest, i, j) ==> IsNumberAt(head, i, j)
  {
    var out := head + token + rest;
    assert forall x :: 0 <= x < |head| ==> out[x] == head[x];
  }

  /** A number of `head + token + rest` that starts after the token's first character is a number of rest. */
  lemma NumberInRest(head: string, token: string, rest: string, i: nat, j: nat)
    requires |head| + |token| < i
    ensures IsNumberAt(head + token + rest, i, j) ==> IsNumberAt(rest, i - |head| - |token|, j - |head| - |token|)
  {
    var out := head + token + rest;
    var k := |head| + |token|;
    assert forall y :: 0 <= y < |rest| ==> rest[y] == out[y + k];
  }

  /** A number of a suffix that does not start it is a number of the whole text. */
  lemma NumberInSuffix(s: string, a: nat, i: nat, j: nat)
    requires a <= |s| && 0 < i
    ensures IsNumberAt(s[a..], i, j) ==> IsNumberAt(s, a + i, a + j)
  {
    assert forall x :: a <= x < |s| ==> s[x] == s[a..][x - a];
  }

  /**
   * After mask_message no standalone number is left: `\b\d+\b` finds
   * nothing in the masked text.
   */
  lemma MaskLeavesNoNumber(m: Matchers, msg: string)
    requires ValidMatchers(m)
    ensures forall sp :: sp !in NumberSpans(Mask(m, msg))
  {
  }

  /** The last step of mask_message on its own: `<NUM>` in place of every number match leaves none. */
  lemma NumberMaskLeavesNoNumber(s: string)
    ensures forall i: nat, j: nat :: !IsNumberAt(Substitute(s, NumberSpans(s), "<NUM>"), i, j)
  {
    assert Fenced("<NUM>");
    forall i: nat, j: nat ensures !IsNumberAt(Substitute(s, NumberSpans(s), "<NUM>"), i, j) {
      SubstituteRemovesNumbers(s, NumberSpans(s), "<NUM>", i, j);
    }
  }

  // ---------------------------------------------------------------------------
  // extract_params
  // ---------------------------------------------------------------------------

  /** One entry of the `matches` list: (m.start(), name, m.group(0)). */
  datatype Found = Found(start: nat, kind: Kind, value: string)

  /** One element of the returned list: {"type": name, "value": value}. */
  datatype Param = Param(kind: Kind, value: string)

  function Tagged(s: string, spans: seq<Span>, kind: Kind): (r: seq<Found>)
    requires SpansOk(s, spans)
    ensures |r| == |spans|
    ensures forall i :: 0 <= i < |r| ==> r[i].start == spans[i].start && r[i].kind == kind
    decreases |spans|
  {
    if spans == [] then []
    else [Found(spans[0].start, kind, s[spans[0].start..spans[0].end])] + Tagged(s, spans[1..], kind)
  }

  /** The `matches` list before sorting: pattern by pattern, each left to right. */
  function Scanned(m: Matchers, s: string): seq<Found>
    requires ValidMatchers(m)
  {
    Tagged(s, m.ipv4(s), IP) + Tagged(s, m.ipv6(s), IPV6) + Tagged(s, m.time(s), TIME)
    + Tagged(s, m.path(s), PATH) + Tagged(s, NumberSpans(s), NUM)
  }

  function StartOf(f: Found): int {
    f.start
  }

  /** `matches.sort(key=lambda x: x[0])`: a stable sort by start offset. */
  function ExtractFound(m: Matchers, s: string): seq<Found>
    requires ValidMatchers(m)
  {
    StableSort.SortBy(Scanned(m, s), StartOf)
  }

  /** extract_params: the sorted matches as {type, value} pairs. */
  function ExtractParams(m: Matchers, s: string): (r: seq<Param>)
    requires ValidMatchers(m)
    ensures |r| == |m.ipv4(s)| + |m.ipv6(s)| + |m.time(s)| + |m.path(s)| + |NumberSpans(s)|
    ensures forall i :: 0 <= i < |r| ==> exists f :: f in Scanned(m, s) && r[i] == Param(f.kind, f.value)
  {
    var found := ExtractFound(m, s);
    FoundFromScanned(m, s);
    var r := seq(|found|, i requires 0 <= i < |found| => Param(found[i].kind, found[i].value));
    assert forall i :: 0 <= i < |r| ==> found[i] in Scanned(m, s) && r[i] == Param(found[i].kind, found[i].value);
    r
  }

  lemma FoundFromScanned(m: Matchers, s: string)
    requires ValidMatchers(m)
    ensures |ExtractFound(m, s)| == |m.ipv4(s)| + |m.ipv6(s)| + |m.time(s)| + |m.path(s)| + |NumberSpans(s)|
    ensures forall f :: f in ExtractFound(m, s) ==> f in Scanned(m, s)
  {
    StableSort.SortByCorrect(Scanned(m, s), StartOf);
    forall f | f in ExtractFound(m, s) ensures f in Scanned(m, s) {
      assert f in multiset(ExtractFound(m, s));
    }
  }

  /**
   * Nothing is dropped or invented: the extracted entries are exactly the
   * matches of the five patterns on the original text, one per match, and
   * they are ordered by start offset.
   */
  lemma ExtractKeepsEveryMatch(m: Matchers, s: string)
    requires ValidMatchers(m)
    ensures multiset(ExtractFound(m, s)) == multiset(Scanned(m, s))
    ensures |ExtractParams(m, s)|
         == |m.ipv4(s)| + |m.ipv6(s)| + |m.time(s)| + |m.path(s)| + |NumberSpans(s)|
    ensures StableSort.SortedBy(ExtractFound(m, s), StartOf)
    ensures forall i :: 0 <= i < |ExtractParams(m, s)| ==>
              ExtractParams(m, s)[i] == Param(ExtractFound(m, s)[i].kind, ExtractFound(m, s)[i].value)
  {
    StableSort.SortByCorrect(Scanned(m, s), StartOf);
  }

  ghost predicate RankIncreasing(fs: seq<Found>) {
    forall p, q :: 0 <= p < q < |fs| ==> Rank(fs[p].kind) < Rank(fs[q].kind)
  }

  lemma {:induction false} TaggedAtOffset(s: string, spans: seq<Span>, kind: Kind, k: int)
    requires SpansOk(s, spans)
    ensures |StableSort.WithKey(Tagged(s, spans, kind), StartOf, k)| <= 1
    ensures forall p :: 0 <= p < |StableSort.WithKey(Tagged(s, spans, kind), StartOf, k)| ==>
              StableSort.WithKey(Tagged(s, spans, kind), StartOf, k)[p].kind == kind
    decreases |spans|
  {
    if spans != [] {
      var t := Tagged(s, spans, kind);
      var tail := Tagged(s, spans[1..], kind);
      assert t[0].kind == kind && t[1..] == tail;
      TaggedAtOffset(s, spans[1..], kind, k);
      if StartOf(t[0]) == k {
        forall i | 0 <= i < |tail| ensures StartOf(tail[i]) != k {
          assert tail[i].start == spans[i + 1].start;
          assert spans[0].end <= spans[i + 1].start;
        }
        StableSort.WithKeyAbsent(tail, StartOf, k);
      }
    }
  }

  lemma AppendInRankOrder(a: seq<Found>, b: seq<Found>, kind: Kind)
    requires RankIncreasing(a)
    requires forall p :: 0 <= p < |a| ==> Rank(a[p].kind) < Rank(kind)
    requires |b| <= 1 && forall p :: 0 <= p < |b| ==> b[p].kind == kind
    ensures RankIncreasing(a + b)
    ensures forall p :: 0 <= p < |a + b| ==> Rank((a + b)[p].kind) <= Rank(kind)
  {
  }

  /** The entries of the unsorted list at offset k, pattern by pattern. */
  lemma ScannedAtOffset(m: Matchers, s: string, k: int)
    requires ValidMatchers(m)
    ensures StableSort.WithKey(Scanned(m, s), StartOf, k)
         == StableSort.WithKey(Tagged(s, m.ipv4(s), IP), StartOf, k)
          + StableSort.WithKey(Tagged(s, m.ipv6(s), IPV6), StartOf, k)
          + StableSort.WithKey(Tagged(s, m.time(s), TIME), StartOf, k)
          + StableSort.WithKey(Tagged(s, m.path(s), PATH), StartOf, k)
          + StableSort.WithKey(Tagged(s, NumberSpans(s), NUM), StartOf, k)
  {
    var t1, t2, t3 := Tagged(s, m.ipv4(s), IP), Tagged(s, m.ipv6(s), IPV6), Tagged(s, m.time(s), TIME);
    var t4, t5 := Tagged(s, m.path(s), PATH), Tagged(s, NumberSpans(s), NUM);
    StableSort.WithKeyAppend(t1 + t2 + t3 + t4, t5, StartOf, k);
    StableSort.WithKeyAppend(t1 + t2 + t3, t4, StartOf, k);
    StableSort.WithKeyAppend(t1 + t2, t3, StartOf, k);
    StableSort.WithKeyAppend(t1, t2, StartOf, k);
  }

  ghost predicate AtMostOneOf(w: seq<Found>, kind: Kind) {
    |w| <= 1 && forall p :: 0 <= p < |w| ==> w[p].kind == kind
  }

  /** At most one entry of each kind, concatenated in the order IP, IPV6, TIME, PATH, NUM. */
  lemma FiveInRankOrder(w1: seq<Found>, w2: seq<Found>, w3: seq<Found>, w4: seq<Found>, w5: seq<Found>)
    requires AtMostOneOf(w1, IP) && AtMostOneOf(w2, IPV6) && AtMostOneOf(w3, TIME)
    requires AtMostOneOf(w4, PATH) && AtMostOneOf(w5, NUM)
    ensures RankIncreasing(w1 + w2 + w3 + w4 + w5)
  {
    AppendInRankOrder([], w1, IP);
    assert [] + w1 == w1;
    AppendInRankOrder(w1, w2, IPV6);
    AppendInRankOrder(w1 + w2, w3, TIME);
    AppendInRankOrder(w1 + w2 + w3, w4, PATH);
    AppendInRankOrder(w1 + w2 + w3 + w4, w5, NUM);
  }

  lemma ScannedAtOffsetInRankOrder(m: Matchers, s: string, k: int)
    requires ValidMatchers(m)
    ensures RankIncreasing(StableSort.WithKey(Scanned(m, s), StartOf, k))
  {
    ScannedAtOffset(m, s, k);
    TaggedAtOffset(s, m.ipv4(s), IP, k);
    TaggedAtOffset(s, m.ipv6(s), IPV6, k);
    TaggedAtOffset(s, m.time(s), TIME, k);
    TaggedAtOffset(s, m.path(s), PATH, k);
    TaggedAtOffset(s, NumberSpans(s), NUM, k);
    FiveInRankOrder(StableSort.WithKey(Tagged(s, m.ipv4(s), IP), StartOf, k),
                    StableSort.WithKey(Tagged(s, m.ipv6(s), IPV6), StartOf, k),
                    StableSort.WithKey(Tagged(s, m.time(s), TIME), StartOf, k),
                    StableSort.WithKey(Tagged(s, m.path(s), PATH), StartOf, k),
                    StableSort.WithKey(Tagged(s, NumberSpans(s), NUM), StartOf, k));
  }

  /**
   * Entries at one and the same offset come in pattern order IP, IPV6, TIME,
   * PATH, NUM: the sort is stable and each pattern contributes at most one
   * match per offset.
   */
  lemma SameOffsetInPatternOrder(m: Matchers, s: string, k: int)
    requires ValidMatchers(m)
    ensures RankIncreasing(StableSort.WithKey(ExtractFound(m, s), StartOf, k))
  {
    StableSort.SortByCorrect(Scanned(m, s), StartOf);
    ScannedAtOffsetInRankOrder(m, s, k);
  }
}
