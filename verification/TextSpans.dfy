/** Splitting long text into overlapping spans at natural boundaries. */
module TextSpans {
  import opened Sequences
  import opened Wrappers

  datatype Span = Span(start: nat, end: nat)

  const BOUNDARY_CHARS: string := "。！？!?；;，,"
  const CLOSING_CHARS: string := "\"'”’》」』）】〕〉≫」"

  // ----- Natural boundaries ---------------------------------------------------------------

  predicate Breaks(c: char) { c == '\n' || c in BOUNDARY_CHARS }

  /** The first position from `i` on that holds no closing punctuation. */
  function AfterClosing(text: string, i: nat): (j: nat)
    requires i <= |text|
    ensures i <= j <= |text| && (forall k :: i <= k < j ==> text[k] in CLOSING_CHARS)
            && (j < |text| ==> text[j] !in CLOSING_CHARS)
    decreases |text| - i
  {
    if i < |text| && text[i] in CLOSING_CHARS then AfterClosing(text, i + 1) else i
  }

  /** The first position from `i` on that holds no newline. */
  function AfterNewlines(text: string, i: nat): (j: nat)
    requires i <= |text|
    ensures i <= j <= |text| && (forall k :: i <= k < j ==> text[k] == '\n') && (j < |text| ==> text[j] != '\n')
    decreases |text| - i
  {
    if i < |text| && text[i] == '\n' then AfterNewlines(text, i + 1) else i
  }

  /** A full stop ends a sentence only before white space or at the end. */
  predicate FullStop(text: string, i: nat, isSpace: char -> bool)
    requires i < |text|
  {
    text[i] == '.' && (i + 1 == |text| || isSpace(text[i + 1]))
  }

  /** The boundaries from position `i` on: after a breaking character with the
      closing punctuation and the newlines that follow it, or after a full stop. */
  function BreaksFrom(text: string, i: nat, isSpace: char -> bool): (b: seq<nat>)
    requires i <= |text|
    ensures forall k :: 0 <= k < |b| ==> i < b[k] <= |text|
    ensures forall k, l :: 0 <= k < l < |b| ==> b[k] < b[l]
    decreases |text| - i
  {
    if i == |text| then []
    else if Breaks(text[i]) then
      var end := AfterNewlines(text, AfterClosing(text, i + 1));
      [end] + BreaksFrom(text, end, isSpace)
    else if FullStop(text, i, isSpace) then [i + 1] + BreaksFrom(text, i + 1, isSpace)
    else BreaksFrom(text, i + 1, isSpace)
  }

  predicate Increasing(b: seq<nat>) {
    forall k, l :: 0 <= k < l < |b| ==> b[k] < b[l]
  }

  /** Past the closing punctuation and the newlines after a breaking character. */
  method RunEnd(text: string, index: nat) returns (end: nat)
    requires index < |text|
    ensures end == AfterNewlines(text, AfterClosing(text, index + 1))
  {
    end := index + 1;
    while end < |text| && text[end] in CLOSING_CHARS
      invariant index < end <= |text| && AfterClosing(text, end) == AfterClosing(text, index + 1)
    {
      end := end + 1;
    }
    while end < |text| && text[end] == '\n'
      invariant index < end <= |text|
      invariant AfterNewlines(text, end) == AfterNewlines(text, AfterClosing(text, index + 1))
    {
      end := end + 1;
    }
  }

  method NaturalBreakPositions(text: string, isSpace: char -> bool) returns (positions: seq<nat>)
    ensures positions == BreaksFrom(text, 0, isSpace)
    ensures Increasing(positions) && forall k :: 0 <= k < |positions| ==> 0 < positions[k] <= |text|
  {
    positions := [];
    var index := 0;
    while index < |text|
      invariant 0 <= index <= |text|
      invariant positions + BreaksFrom(text, index, isSpace) == BreaksFrom(text, 0, isSpace)
    {
      ghost var rest := BreaksFrom(text, index, isSpace);
      if Breaks(text[index]) {
        var end := RunEnd(text, index);
        assert positions + rest == (positions + [end]) + BreaksFrom(text, end, isSpace);
        positions := positions + [end];
        index := end;
      } else {
        if FullStop(text, index, isSpace) {
          assert positions + rest == (positions + [index + 1]) + BreaksFrom(text, index + 1, isSpace);
          positions := positions + [index + 1];
        }
        index := index + 1;
      }
    }
  }

  lemma BreaksAreNotSwallowed(c: char)
    requires c in BOUNDARY_CHARS || c == '\n' || c == '.'
    ensures c !in CLOSING_CHARS && (c in BOUNDARY_CHARS ==> c != '\n' && c != '.')
  {
  }

  /** After every breaking character, wherever it stands, there is a boundary
      past its run, and right after every full stop; a newline may belong to the
      run of another character. */
  lemma {:induction false} EveryBreakIsFound(text: string, i: nat, at: nat, isSpace: char -> bool)
    requires i <= at < |text|
    ensures text[at] in BOUNDARY_CHARS ==>
              AfterNewlines(text, AfterClosing(text, at + 1)) in BreaksFrom(text, i, isSpace)
    ensures text[at] == '\n' ==>
              || AfterNewlines(text, AfterClosing(text, at + 1)) in BreaksFrom(text, i, isSpace)
              || AfterNewlines(text, at + 1) in BreaksFrom(text, i, isSpace)
    ensures text[at] == '.' && (at + 1 == |text| || isSpace(text[at + 1])) ==> at + 1 in BreaksFrom(text, i, isSpace)
    decreases |text| - i
  {
    if text[at] in BOUNDARY_CHARS || text[at] == '\n' || text[at] == '.' { BreaksAreNotSwallowed(text[at]); }
    hide AfterClosing, AfterNewlines;
    if i < at {
      if Breaks(text[i]) {
        var close := AfterClosing(text, i + 1);
        var end := AfterNewlines(text, close);
        if end <= at {
          EveryBreakIsFound(text, end, at, isSpace);
        } else if close <= at {
          SameEnd(text, close, at);
        }
      } else {
        EveryBreakIsFound(text, i + 1, at, isSpace);
      }
    }
  }

  lemma {:induction false} SameEnd(text: string, from: nat, at: nat)
    requires from <= at < |text| && at < AfterNewlines(text, from)
    ensures text[at] == '\n' && AfterNewlines(text, at + 1) == AfterNewlines(text, from)
    decreases at - from
  {
    if from < at { SameEnd(text, from + 1, at); }
  }

  /** Every boundary ends a run after a breaking character, or follows a full stop
      that ends a sentence. */
  lemma {:induction false} EveryBoundaryHasABreak(text: string, i: nat, p: nat, isSpace: char -> bool)
    requires i <= |text| && p in BreaksFrom(text, i, isSpace)
    ensures exists at :: i <= at < |text|
              && (if text[at] == '\n' || text[at] in BOUNDARY_CHARS then
                    p == AfterNewlines(text, AfterClosing(text, at + 1))
                 else text[at] == '.' && p == at + 1 && (p == |text| || isSpace(text[p])))
    decreases |text| - i
  {
    if Breaks(text[i]) {
      var end := AfterNewlines(text, AfterClosing(text, i + 1));
      if p != end { EveryBoundaryHasABreak(text, end, p, isSpace); }
    } else if !FullStop(text, i, isSpace) || p != i + 1 {
      EveryBoundaryHasABreak(text, i + 1, p, isSpace);
    }
  }

  // ----- Choosing among boundaries -----------------------------------------------------------

  /** How many of an increasing list are below `x`. */
  function BisectLeft(b: seq<nat>, x: int): (i: nat)
    requires Increasing(b)
    ensures i <= |b| && (forall k :: 0 <= k < i ==> b[k] < x) && (forall k :: i <= k < |b| ==> b[k] >= x)
    decreases |b|
  {
    if b == [] then 0 else if b[|b| - 1] < x then |b| else BisectLeft(b[..|b| - 1], x)
  }

  /** The latest boundary in the window, if there is one. */
  function LatestBoundary(b: seq<nat>, start: nat, targetEnd: nat, minimumLength: nat): (r: Option<nat>)
    requires Increasing(b)
    ensures r.Some? ==> r.value in b && start + minimumLength <= r.value <= targetEnd
                        && forall p :: p in b && start + minimumLength <= p <= targetEnd ==> p <= r.value
    ensures r.None? ==> forall p :: p in b ==> !(start + minimumLength <= p <= targetEnd)
  {
    var lower, upper := BisectLeft(b, start + minimumLength), BisectLeft(b, targetEnd + 1);
    if upper > lower then Some(b[upper - 1]) else None
  }

  /** The latest white space in the second half of the window. */
  method LatestWhitespace(text: string, start: nat, targetEnd: nat, isSpace: char -> bool) returns (r: Option<nat>)
    requires start <= targetEnd <= |text|
    ensures var lower := start + AtLeastOne((targetEnd - start) / 2);
            if r.Some? then lower < r.value <= targetEnd && isSpace(text[r.value - 1])
                            && forall k :: r.value <= k < targetEnd ==> !isSpace(text[k])
            else forall k :: lower <= k < targetEnd ==> !isSpace(text[k])
  {
    var lower := start + AtLeastOne((targetEnd - start) / 2);
    var index := targetEnd;
    while index > lower
      invariant index <= targetEnd && forall k :: index <= k < targetEnd && lower <= k ==> !isSpace(text[k])
      decreases index
    {
      index := index - 1;
      if isSpace(text[index]) {
        return Some(index + 1);
      }
    }
    return None;
  }

  function AtLeastOne(n: nat): nat { if n == 0 then 1 else n }

  const TWO_53: nat := 0x20_0000_0000_0000
  /** 0.35 in double precision (section 3.4 of IEEE 754-2008) is RATIO / TWO_53. */
  const RATIO: nat := 3152519739159347

  /** The nearest multiple of a unit, of two equally near ones the even one. */
  function Nearest(x: nat, unit: nat): (r: nat)
    requires unit > 0
    ensures r <= x + unit && (unit == 1 ==> r == x)
  {
    var q, rest := x / unit, x % unit;
    assert x == q * unit + rest;
    if 2 * rest < unit || (2 * rest == unit && q % 2 == 0) then q * unit else (q + 1) * unit
  }

  /** What double precision makes of an exact product: 53 significant bits. */
  function Rounded(x: nat, unit: nat): (r: nat)
    requires unit == 1 || (unit > 1 && unit * TWO_53 <= 2 * x)
    ensures 4 * r <= 5 * x
    decreases x - unit
  {
    if x < unit * TWO_53 then Nearest(x, unit) else Rounded(x, 2 * unit)
  }

  /** `int(maxLength * 0.35)` in double precision, and one character at least. */
  function MinimumLength(maxLength: nat): (r: nat)
    ensures 1 <= r <= AtLeastOne(maxLength / 2)
  {
    AtLeastOne(Rounded(maxLength * RATIO, 1) / TWO_53)
  }

  /** Not always 35 per cent: the length left to rows below a long table header
      comes out one lower. */
  lemma MinimumLengthInUse()
    ensures MinimumLength(600) == 210 == 600 * 35 / 100
    ensures MinimumLength(360) == 125 && 360 * 35 / 100 == 126
  {
    var x, y := 600 * RATIO, 360 * RATIO;
    assert Rounded(x, 1) == Rounded(x, 2) == Rounded(x, 4) == Rounded(x, 8) == Rounded(x, 16) == Rounded(x, 32)
        == Rounded(x, 64);
    assert Rounded(x, 64) == Rounded(x, 128) == Rounded(x, 256) == Nearest(x, 256);
    assert Rounded(y, 1) == Rounded(y, 2) == Rounded(y, 4) == Rounded(y, 8) == Rounded(y, 16) == Rounded(y, 32)
        == Rounded(y, 64);
    assert Rounded(y, 64) == Rounded(y, 128) == Nearest(y, 128);
  }

  function Distance(x: int, y: int): (r: nat)
    ensures r == x - y || r == y - x
  {
    if x < y then y - x else x - y
  }

  /** Where the next span starts: at the boundary closest to the wanted overlap,
      which it never exceeds twofold. */
  function SemanticOverlapStart(b: seq<nat>, start: nat, end: nat, overlap: nat): (r: int)
    requires Increasing(b) && start < end
    ensures end - 2 * overlap <= r <= end
    ensures overlap == 0 ==> r == end
    ensures overlap > 0 ==>
              if exists p :: p in b && InReach(p, start, end, overlap) then
                r >= 0 && r as nat in b && InReach(r, start, end, overlap)
                && forall p :: p in b && InReach(p, start, end, overlap) ==>
                     Distance(r, end - overlap) < Distance(p, end - overlap)
                     || (Distance(r, end - overlap) == Distance(p, end - overlap) && r <= p)
              else r == end - overlap
  {
    if overlap == 0 then end
    else
      var minimum := if start + 1 > end - 2 * overlap then start + 1 else end - 2 * overlap;
      var lower, upper := BisectLeft(b, minimum), BisectLeft(b, end);
      if upper <= lower then end - overlap else Closest(b[lower..upper], end - overlap)
  }

  predicate InReach(p: int, start: nat, end: nat, overlap: nat) {
    start + 1 <= p < end && end - 2 * overlap <= p
  }

  /** The element closest to the target, the smaller one of two. */
  function Closest(c: seq<nat>, target: int): (r: nat)
    requires c != [] && Increasing(c)
    ensures r in c
    ensures forall p :: p in c ==>
              Distance(r, target) < Distance(p, target) || (Distance(r, target) == Distance(p, target) && r <= p)
    decreases |c|
  {
    if |c| == 1 then c[0]
    else
      var head, last := c[..|c| - 1], c[|c| - 1];
      assert c == head + [last];
      var best := Closest(head, target);
      if Distance(last, target) < Distance(best, target) then last else best
  }

  // ----- The split --------------------------------------------------------------------------

  /** The spans cover the text in order without a gap, none longer than allowed. */
  predicate Tiling(n: nat, spans: seq<Span>, maxLength: int) {
    && spans != [] && spans[0].start == 0 && spans[|spans| - 1].end == n
    && (forall k :: 0 <= k < |spans| ==>
       spans[k].start < spans[k].end <= n && spans[k].end - spans[k].start <= maxLength)
    && (forall k :: 0 <= k < |spans| - 1 ==> spans[k].start < spans[k + 1].start <= spans[k].end <= spans[k + 1].end)
  }

  /** Where a span from `start` may end: at the latest natural boundary in the
      window, else after the latest white space, else at full length. */
  ghost predicate EndsWell(text: string, b: seq<nat>, start: nat, maxLength: nat, isSpace: char -> bool, end: nat)
    requires start + maxLength <= |text|
  {
    var lower, target := start + MinimumLength(maxLength), start + maxLength;
    var middle := start + AtLeastOne(maxLength / 2);
    if exists p :: p in b && lower <= p <= target then
      end in b && lower <= end <= target && forall p :: p in b && p <= target ==> p <= end
    else if exists k :: middle <= k < target && isSpace(text[k]) then
      middle < end <= target && isSpace(text[end - 1]) && forall k :: end <= k < target ==> !isSpace(text[k])
    else end == target
  }

  method ChooseEnd(text: string, b: seq<nat>, start: nat, maxLength: nat, isSpace: char -> bool) returns (end: nat)
    requires Increasing(b) && 0 < maxLength && start + maxLength <= |text|
    ensures EndsWell(text, b, start, maxLength, isSpace, end) && start < end <= start + maxLength
  {
    var target := start + maxLength;
    var chosen := LatestBoundary(b, start, target, MinimumLength(maxLength));
    if chosen.None? {
      chosen := LatestWhitespace(text, start, target, isSpace);
    }
    end := if chosen.None? || chosen.value <= start then target else chosen.value;
    if end - start < MinimumLength(maxLength) {
      end := target;
    }
  }

  /** Later spans never end earlier. */
  lemma EndsNeverDecrease(
    text: string, b: seq<nat>, maxLength: nat, isSpace: char -> bool, start: nat, end: nat, next: nat, nextEnd: nat)
    requires 0 < maxLength && start < next && next + maxLength <= |text|
    requires EndsWell(text, b, start, maxLength, isSpace, end) && EndsWell(text, b, next, maxLength, isSpace, nextEnd)
    ensures end <= nextEnd
  {
  }

  method SplitTextSpans(text: string, maxLength: int, overlap: int, isSpace: char -> bool)
    returns (r: Option<seq<Span>>)
    ensures r.None? <==> text != "" && (maxLength <= 0 || overlap < 0)
    ensures r.Some? ==> (text == "" <==> r.value == [])
    // For every text, length and overlap: progress, bounds and coverage.
    ensures r.Some? && text != "" ==> Tiling(|text|, r.value, maxLength)
    // Each cut is at the best place the window offers.
    ensures r.Some? && text != "" ==> maxLength > 0 && forall k :: 0 <= k < |r.value| - 1 ==>
              Chosen(text, BreaksFrom(text, 0, isSpace), maxLength, isSpace, r.value[k])
    // What two spans share begins at the boundary closest to the wanted overlap
    // and stays within twice of it.
    ensures r.Some? && text != "" ==> maxLength > 0 && overlap >= 0 && forall k :: 0 <= k < |r.value| - 1 ==>
              Linked(BreaksFrom(text, 0, isSpace), r.value[k], r.value[k + 1], SmallerOf(overlap, maxLength / 2))
  {
    if text == "" {
      return Some([]);
    }
    if maxLength <= 0 || overlap < 0 {
      return None;
    }
    if |text| <= maxLength {
      return Some([Span(0, |text|)]);
    }
    var effective := SmallerOf(overlap, maxLength / 2);
    var b := NaturalBreakPositions(text, isSpace);
    hide EndsWell, InProgress, MinimumLength, Tiling, Increasing, BreaksFrom, StartsWell, SemanticOverlapStart;
    var spans: seq<Span> := [];
    NothingChosen(text, b, maxLength, effective, isSpace);
    var start := 0;
    while |text| - start > maxLength
      invariant 0 <= start < |text|
      invariant InProgress(text, b, spans, start, maxLength, effective, isSpace)
      decreases |text| - start
    {
      var end := ChooseEnd(text, b, start, maxLength, isSpace);
      var next := SemanticOverlapStart(b, start, end, effective);
      NextStartsWell(b, start, end, effective);
      next := if next < start + 1 then start + 1 else next;
      SpanAdded(text, b, spans, start, end, next, maxLength, effective, isSpace);
      spans := spans + [Span(start, end)];
      start := next;
    }
    SpansDone(text, b, spans, start, maxLength, effective, isSpace);
    return Some(spans + [Span(start, |text|)]);
  }

  lemma NextStartsWell(b: seq<nat>, start: nat, end: nat, overlap: nat)
    requires Increasing(b) && start < end
    ensures var wanted := SemanticOverlapStart(b, start, end, overlap);
            var next := if wanted < start + 1 then start + 1 else wanted;
            start < next <= end && end - next <= 2 * overlap && StartsWell(b, Span(start, end), overlap, next)
  {
  }

  lemma NothingChosen(text: string, b: seq<nat>, maxLength: nat, effective: nat, isSpace: char -> bool)
    ensures InProgress(text, b, [], 0, maxLength, effective, isSpace)
  {
  }

  lemma SpansDone(
    text: string, b: seq<nat>, spans: seq<Span>, start: nat, maxLength: nat, effective: nat, isSpace: char -> bool)
    requires InProgress(text, b, spans, start, maxLength, effective, isSpace)
    requires 0 < maxLength && start < |text| <= start + maxLength
    ensures var all := spans + [Span(start, |text|)];
            Tiling(|text|, all, maxLength)
            && (forall k :: 0 <= k < |all| - 1 ==> Chosen(text, b, maxLength, isSpace, all[k]))
            && (forall k :: 0 <= k < |all| - 1 ==> Linked(b, all[k], all[k + 1], effective))
  {
    var all := spans + [Span(start, |text|)];
    if spans != [] {
      var last := spans[|spans| - 1];
      assert Chosen(text, b, maxLength, isSpace, last) && Linked(b, last, Span(start, |text|), effective);
    }
    LinksGrow(b, spans, Span(start, |text|), effective);
    assert forall k :: 0 <= k < |all| - 1 ==> all[k] == spans[k];
    hide EndsWell, Linked;
    ChosenSpansTile(text, b, all, maxLength, effective, isSpace);
  }

  lemma LinksGrow(b: seq<nat>, spans: seq<Span>, next: Span, effective: nat)
    requires forall k :: 0 <= k < |spans| - 1 ==> Linked(b, spans[k], spans[k + 1], effective)
    requires spans != [] ==> Linked(b, spans[|spans| - 1], next, effective)
    ensures var all := spans + [next]; forall k :: 0 <= k < |all| - 1 ==> Linked(b, all[k], all[k + 1], effective)
  {
    hide Linked;
    var all := spans + [next];
    forall k | 0 <= k < |all| - 1
      ensures Linked(b, all[k], all[k + 1], effective)
    {
      assert all[k] == spans[k];
      if k < |spans| - 1 { assert all[k + 1] == spans[k + 1]; }
    }
  }

  lemma ChosenSpansTile(
    text: string, b: seq<nat>, all: seq<Span>, maxLength: nat, effective: nat, isSpace: char -> bool)
    requires all != [] && all[0].start == 0 && all[|all| - 1].end == |text|
    requires all[|all| - 1].start < |text| <= all[|all| - 1].start + maxLength
    requires forall k :: 0 <= k < |all| - 1 ==> Chosen(text, b, maxLength, isSpace, all[k])
    requires forall k :: 0 <= k < |all| - 1 ==> Linked(b, all[k], all[k + 1], effective)
    ensures Tiling(|text|, all, maxLength)
  {
    hide EndsWell;
  }

  /** A full-length span with a well-chosen end. */
  ghost predicate Chosen(text: string, b: seq<nat>, maxLength: nat, isSpace: char -> bool, s: Span) {
    && s.start + maxLength < |text| && s.start < s.end <= s.start + maxLength
    && EndsWell(text, b, s.start, maxLength, isSpace, s.end)
  }

  /** Where the span after `s` starts: at the boundary closest to the wanted
      overlap, else with exactly that overlap as far as the span is that long. */
  ghost predicate StartsWell(b: seq<nat>, s: Span, overlap: nat, next: nat) {
    if overlap == 0 then next == s.end
    else if exists p :: p in b && InReach(p, s.start, s.end, overlap) then
      && next in b && InReach(next, s.start, s.end, overlap)
      && forall p :: p in b && InReach(p, s.start, s.end, overlap) ==>
           Distance(next, s.end - overlap) < Distance(p, s.end - overlap)
           || (Distance(next, s.end - overlap) == Distance(p, s.end - overlap) && next <= p)
    else next == if s.end - overlap > s.start then s.end - overlap else s.start + 1
  }

  ghost predicate Linked(b: seq<nat>, s: Span, t: Span, effective: nat) {
    && s.start < t.start <= s.end <= t.end && s.end - t.start <= 2 * effective
    && StartsWell(b, s, effective, t.start)
  }

  /** The spans chosen so far, and where the next one starts. */
  ghost predicate InProgress(
    text: string, b: seq<nat>, spans: seq<Span>, start: nat, maxLength: nat, effective: nat, isSpace: char -> bool)
  {
    && (if spans == [] then start == 0 else spans[0].start == 0)
    && (forall k :: 0 <= k < |spans| ==> Chosen(text, b, maxLength, isSpace, spans[k]))
    && (forall k :: 0 <= k < |spans| - 1 ==> Linked(b, spans[k], spans[k + 1], effective))
    && (spans != [] ==>
          var last := spans[|spans| - 1];
          last.start < start <= last.end && last.end - start <= 2 * effective && StartsWell(b, last, effective, start))
  }

  lemma SpanAdded(
    text: string, b: seq<nat>, spans: seq<Span>, start: nat, end: nat, next: nat, maxLength: nat, effective: nat,
    isSpace: char -> bool)
    requires InProgress(text, b, spans, start, maxLength, effective, isSpace)
    requires 0 < maxLength && start + maxLength < |text| && start < end <= start + maxLength
    requires EndsWell(text, b, start, maxLength, isSpace, end)
    requires start < next <= end && end - next <= 2 * effective && StartsWell(b, Span(start, end), effective, next)
    ensures InProgress(text, b, spans + [Span(start, end)], next, maxLength, effective, isSpace)
  {
    var span := Span(start, end);
    assert Chosen(text, b, maxLength, isSpace, span);
    if spans != [] {
      var last := spans[|spans| - 1];
      assert Chosen(text, b, maxLength, isSpace, last);
      EndsNeverDecrease(text, b, maxLength, isSpace, last.start, last.end, start, end);
    }
    hide EndsWell, Chosen;
    assert spans != [] ==> Linked(b, spans[|spans| - 1], span, effective);
    hide Linked;
    LinksGrow(b, spans, span, effective);
  }

  /** Every position of the text lies in a span. */
  lemma {:induction false} TilingCovers(n: nat, spans: seq<Span>, maxLength: int, p: nat)
    requires Tiling(n, spans, maxLength) && p < n
    ensures exists k :: 0 <= k < |spans| && spans[k].start <= p < spans[k].end
  {
    var k := 0;
    while spans[k].end <= p
      invariant 0 <= k < |spans| && spans[k].start <= p
      decreases |spans| - k
    {
      assert k < |spans| - 1;
      k := k + 1;
    }
  }
}
