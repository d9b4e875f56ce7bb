/** Deciding which of the ranked hits are evidence. */
module Evidence {
  import opened Wrappers
  import opened TextOrder
  import opened RankedHits

  const LOW_CONFIDENCE_TOP_SCORE: real := 0.005
  const NORMALIZED_RELATIVE_FLOOR: real := 0.10
  const NORMALIZED_MINIMUM_FLOOR: real := 0.03
  const CONFIDENT_SCORE: real := 0.70
  const CLEAR_LEAD: real := 0.15

  /** The question as far as the filter looks at it, and its settings.  What
      words match is left to the predicates. */
  datatype Lens = Lens(
    blank: bool, references: Option<seq<string>>, matches: (string, string) -> bool, asksField: bool,
    incompatible: Hit -> bool,
    overlaps: Hit -> bool, namesSubject: bool, relativeFloor: real, minimumFloor: real, adjacency: int,
    singleSource: bool)

  function Select(hits: seq<Hit>, p: Hit -> bool): (r: seq<Hit>)
    ensures forall h :: h in r <==> h in hits && p(h)
  {
    if hits == [] then []
    else Select(hits[..|hits| - 1], p) + (if p(hits[|hits| - 1]) then [hits[|hits| - 1]] else [])
  }

  lemma {:induction false} SelectAll(hits: seq<Hit>, p: Hit -> bool)
    requires forall h :: h in hits ==> p(h)
    ensures Select(hits, p) == hits
  {
    if hits != [] {
      var head := hits[..|hits| - 1];
      assert hits == head + [hits[|hits| - 1]];
      SelectAll(head, p);
    }
  }

  function Larger(x: real, y: real): real { if x >= y then x else y }

  function MaxScore(hits: seq<Hit>): (r: real)
    requires hits != []
    ensures (exists h :: h in hits && h.score == r) && forall h :: h in hits ==> h.score <= r
  {
    var head, last := hits[..|hits| - 1], hits[|hits| - 1];
    assert hits == head + [last];
    if head == [] then last.score else Larger(MaxScore(head), last.score)
  }

  // ----- Scope and fields ----------------------------------------------------------------------

  predicate EndsWith(s: string, end: string) { |end| <= |s| && s[|s| - |end|..] == end }

  predicate Matched(hits: seq<Hit>, lens: Lens, reference: string) {
    exists h :: h in hits && lens.matches(reference, h.sourceName)
  }

  /** A longer reference that ends in this one has matches of its own. */
  predicate Shadowed(hits: seq<Hit>, lens: Lens, reference: string)
    requires lens.references.Some?
  {
    exists other :: other in lens.references.value && |other| > |reference| && EndsWith(other, reference)
        && Matched(hits, lens, other)
  }

  predicate InScope(hits: seq<Hit>, lens: Lens, h: Hit)
    requires lens.references.Some?
  {
    exists reference :: reference in lens.references.value && !Shadowed(hits, lens, reference)
      && exists g :: g in hits && g.source == h.source && lens.matches(reference, g.sourceName)
  }

  /** A file named in the question is a hard limit. */
  function Scoped(hits: seq<Hit>, lens: Lens): seq<Hit> {
    if lens.blank || lens.references.None? then hits
        else Select(hits, (h: Hit) requires lens.references.Some? => InScope(hits, lens, h))
  }

  function Compatible(hits: seq<Hit>, lens: Lens): seq<Hit> {
    if !lens.blank && lens.asksField then Select(hits, (h: Hit) => !lens.incompatible(h)) else hits
  }

  // ----- Anchors ----------------------------------------------------------------------------------

  predicate Normalized(hits: seq<Hit>) {
    forall h :: h in hits ==> 0.0 <= h.score <= 1.0
  }

  /** The score to meet, stricter where scores are probabilities. */
  function CutoffFor(top: real, normalized: bool, lens: Lens): real {
    if normalized then
      Larger(Larger(lens.minimumFloor, NORMALIZED_MINIMUM_FLOOR),
          top * Larger(lens.relativeFloor, NORMALIZED_RELATIVE_FLOOR))
    else Larger(lens.minimumFloor, top * lens.relativeFloor)
  }

  function Cutoff(hits: seq<Hit>, lens: Lens): real
    requires hits != []
  {
    CutoffFor(MaxScore(hits), Normalized(hits), lens)
  }

  /** The first of the highest-scored hits. */
  function FirstHighest(hits: seq<Hit>): (r: Hit)
    requires hits != []
    ensures r in hits && forall h :: h in hits ==> h.score <= r.score
  {
    var head, last := hits[..|hits| - 1], hits[|hits| - 1];
    assert hits == head + [last];
    if head == [] then last
    else
      var best := FirstHighest(head);
      if last.score > best.score then last else best
  }

  /** What the hits are judged by: the anchors, the cutoff they meet, and whether
      only a lexical match put them there. */
  datatype Basis = Basis(anchors: seq<Hit>, cutoff: real, lexical: bool)

  function BasisOf(hits: seq<Hit>, lens: Lens): Basis
    requires hits != []
  {
    var cutoff := Cutoff(hits, lens);
    var anchors := Select(hits, (h: Hit) => h.score >= cutoff);
    if anchors == [] && Normalized(hits) && MaxScore(hits) >= LOW_CONFIDENCE_TOP_SCORE && !lens.blank then
      var lexical := Select(hits, lens.overlaps);
      var fallback := if lens.namesSubject || lexical == [] then lexical else [FirstHighest(lexical)];
      if fallback == [] then Basis([], cutoff, false) else Basis(fallback, MaxScore(fallback), true)
    else Basis(anchors, cutoff, false)
  }

  // ----- One source or several ----------------------------------------------------------------------

  predicate Stronger(a: Hit, b: Hit) {
    a.score > b.score || (a.score == b.score && StringLess(a.source, b.source))
  }

  /** The strongest anchor: highest score, then smallest source identifier. */
  function Strongest(anchors: seq<Hit>): (r: Hit)
    requires anchors != []
    ensures r in anchors && forall a :: a in anchors ==> !Stronger(a, r)
  {
    var head, last := anchors[..|anchors| - 1], anchors[|anchors| - 1];
    assert anchors == head + [last];
    StringLessAsymmetric(last.source, last.source);
    if head == [] then last
    else
      var best := Strongest(head);
      if Stronger(last, best) then StrongerStays(head, best, last); last else best
  }

  lemma StrongerStays(head: seq<Hit>, best: Hit, last: Hit)
    requires (forall a :: a in head ==> !Stronger(a, best)) && Stronger(last, best)
    ensures forall a :: a in head ==> !Stronger(a, last)
  {
    forall a | a in head && Stronger(a, last)
      ensures false
    {
      if a.score == last.score == best.score {
        StringLessTransitive(a.source, last.source, best.source);
      }
    }
  }

  /** The best score of any other source. */
  function SecondScore(anchors: seq<Hit>, source: string): (r: real)
    ensures r >= 0.0 && (forall a :: a in anchors && a.source != source ==> a.score <= r)
    ensures r == 0.0 || exists a :: a in anchors && a.source != source && a.score == r
  {
    if anchors == [] then 0.0
    else
      var head, last := anchors[..|anchors| - 1], anchors[|anchors| - 1];
      assert anchors == head + [last];
      var before := SecondScore(head, source);
      if last.source == source then before else Larger(before, last.score)
  }

  /** The only source that counts, when one is wanted and clearly leads. */
  function OnlySource(anchors: seq<Hit>, normalized: bool, lens: Lens): Option<string> {
    if !lens.singleSource || anchors == [] then None
    else
      var best := Strongest(anchors);
      if !normalized
          || (best.score >= CONFIDENT_SCORE && best.score - SecondScore(anchors, best.source) >= CLEAR_LEAD) then
             Some(best.source)
      else None
  }

  // ----- What is kept ---------------------------------------------------------------------------------

  predicate Near(a: Hit, h: Hit, distance: int) {
    a.source == h.source && a.index - h.index <= distance && h.index - a.index <= distance
  }

  predicate Keeps(h: Hit, basis: Basis, only: Option<string>, lens: Lens) {
    && (only == None || only == Some(h.source))
    && (exists a :: a in basis.anchors && a.source == h.source)
    && ((exists a :: a in basis.anchors && a.id == h.id)
        || ((exists a :: a in basis.anchors && Near(a, h, lens.adjacency)) && (lens.blank || !lens.incompatible(h)))
        || (!basis.lexical && h.score >= basis.cutoff))
  }

  /** Inserting behind everything that ranks no lower. */
  function Insert(sorted: seq<Hit>, h: Hit): seq<Hit> {
    if sorted == [] || !Above(h, sorted[|sorted| - 1]) then sorted + [h]
    else Insert(sorted[..|sorted| - 1], h) + [sorted[|sorted| - 1]]
  }

  function Sort(hits: seq<Hit>): seq<Hit> {
    if hits == [] then [] else Insert(Sort(hits[..|hits| - 1]), hits[|hits| - 1])
  }

  datatype Filtered = Kept(hits: seq<Hit>) | BadSettings

  function Eligible(hits: seq<Hit>, lens: Lens): seq<Hit> { Compatible(Scoped(hits, lens), lens) }

  /** The anchors and what stands by them, from best to worst. */
  function KeptOf(eligible: seq<Hit>, lens: Lens): seq<Hit>
    requires eligible != []
  {
    var basis := BasisOf(eligible, lens);
    var only := OnlySource(basis.anchors, Normalized(eligible), lens);
    Sort(Select(eligible, (h: Hit) => Keeps(h, basis, only, lens)))
  }

  /** The evidence among hits with usable scores. */
  function Relevant(hits: seq<Hit>, lens: Lens): Filtered {
    var eligible := Eligible(hits, lens);
    if eligible == [] then Kept([])
    else if lens.relativeFloor < 0.0 || lens.minimumFloor < 0.0 || lens.adjacency < 0 then BadSettings
    else if MaxScore(eligible) <= 0.0 then Kept([])
    else Kept(KeptOf(eligible, lens))
  }

  // ----- What filtering promises -------------------------------------------------------------------------

  predicate Descending(hits: seq<Hit>) {
    forall i, j :: 0 <= i < j < |hits| ==> !Above(hits[j], hits[i])
  }

  lemma {:induction false} InsertIs(sorted: seq<Hit>, h: Hit)
    requires Descending(sorted)
    ensures Descending(Insert(sorted, h)) && multiset(Insert(sorted, h)) == multiset(sorted) + multiset{h}
    decreases |sorted|
  {
    if sorted != [] && Above(h, sorted[|sorted| - 1]) {
      var head, last := sorted[..|sorted| - 1], sorted[|sorted| - 1];
      assert sorted == head + [last];
      InsertIs(head, h);
      forall x | x in Insert(head, h)
        ensures !Above(last, x)
      {
        assert x in multiset(Insert(head, h));
        if x == h { AboveAsymmetric(h, last); }
      }
    } else if sorted != [] {
      forall i | 0 <= i < |sorted|
        ensures !Above(h, sorted[i])
      {
        if Above(h, sorted[i]) { NotAboveTheRest(sorted, h, i); }
      }
    }
  }

  lemma NotAboveTheRest(sorted: seq<Hit>, h: Hit, i: nat)
    requires Descending(sorted) && i < |sorted| && Above(h, sorted[i])
    ensures Above(h, sorted[|sorted| - 1])
  {
    var last := sorted[|sorted| - 1];
    if i < |sorted| - 1 {
      assert !Above(last, sorted[i]);
      if SamePlace(last, sorted[i]) {
        assert last.score <= sorted[i].score;
      } else {
        AboveTotal(sorted[i], last);
        AboveTransitive(h, sorted[i], last);
      }
    }
  }

  lemma {:induction false} SortIs(hits: seq<Hit>)
    ensures Descending(Sort(hits)) && multiset(Sort(hits)) == multiset(hits)
    ensures forall h :: h in Sort(hits) <==> h in hits
  {
    if hits != [] {
      hide Insert, Above, Descending;
      var head, last := hits[..|hits| - 1], hits[|hits| - 1];
      SortIs(head);
      InsertIs(Sort(head), last);
      hide Sort;
      assert hits == head + [last];
      assert multiset(hits) == multiset(head) + multiset{last};
    }
    SameElements(Sort(hits), hits);
  }

  lemma SameElements(s: seq<Hit>, t: seq<Hit>)
    requires multiset(s) == multiset(t)
    ensures forall h :: h in s <==> h in t
  {
    assert forall h :: h in s <==> h in multiset(s);
    assert forall h :: h in t <==> h in multiset(t);
  }

  /** Sorting again moves nothing. */
  lemma {:induction false} SortOfSorted(hits: seq<Hit>)
    requires Descending(hits)
    ensures Sort(hits) == hits
  {
    if hits != [] {
      var n := |hits| - 1;
      DescendingHead(hits);
      hide Above, Insert, Descending;
      SortOfSorted(hits[..n]);
      InsertBehind(hits[..n], hits[n]);
      assert hits == hits[..n] + [hits[n]];
    }
  }

  lemma DescendingHead(hits: seq<Hit>)
    requires Descending(hits) && hits != []
    ensures var n := |hits| - 1; Descending(hits[..n]) && (n > 0 ==> !Above(hits[n], hits[n - 1]))
  {
    hide Above;
  }

  lemma InsertBehind(sorted: seq<Hit>, h: Hit)
    requires sorted != [] ==> !Above(h, sorted[|sorted| - 1])
    ensures Insert(sorted, h) == sorted + [h]
  {
  }

  /** Settings are in order and something scores above nothing. */
  predicate Judged(hits: seq<Hit>, lens: Lens) {
    var eligible := Eligible(hits, lens);
    eligible != [] && lens.relativeFloor >= 0.0 && lens.minimumFloor >= 0.0 && lens.adjacency >= 0
    && MaxScore(eligible) > 0.0
  }

  lemma KeptOfIs(eligible: seq<Hit>, lens: Lens)
    requires eligible != []
    ensures Descending(KeptOf(eligible, lens))
    ensures var basis := BasisOf(eligible, lens);
            forall h :: h in KeptOf(eligible, lens) <==>
              h in eligible && Keeps(h, basis, OnlySource(basis.anchors, Normalized(eligible), lens), lens)
  {
    var basis := BasisOf(eligible, lens);
    var only := OnlySource(basis.anchors, Normalized(eligible), lens);
    hide BasisOf, OnlySource, Normalized, Keeps, Descending;
    SortIs(Select(eligible, (h: Hit) => Keeps(h, basis, only, lens)));
  }

  /** There is evidence exactly when there are anchors, and all of it comes from
      a source that has one. */
  lemma EvidenceNeedsAnchors(hits: seq<Hit>, lens: Lens)
    requires Judged(hits, lens)
    ensures var basis := BasisOf(Eligible(hits, lens), lens); var r := Relevant(hits, lens);
            r.Kept? && (r.hits != [] <==> basis.anchors != [])
            && forall h :: h in r.hits ==> h in hits && exists a :: a in basis.anchors && a.source == h.source
  {
    hide KeptOf, BasisOf, OnlySource, Normalized, MaxScore;
    var eligible := Eligible(hits, lens);
    var basis := BasisOf(eligible, lens);
    KeptOfIs(eligible, lens);
    EligibleIsSome(hits, lens);
    if KeptOf(eligible, lens) != [] { KeptHasAnchors(eligible, lens); }
    if basis.anchors != [] {
      var best := Strongest(basis.anchors);
      AnchorsAreEligible(eligible, lens, best);
      OnlySourceIsStrongest(basis.anchors, Normalized(eligible), lens);
      assert best in KeptOf(eligible, lens);
    }
  }

  lemma AnchorsAreEligible(eligible: seq<Hit>, lens: Lens, a: Hit)
    requires eligible != [] && a in BasisOf(eligible, lens).anchors
    ensures a in eligible
  {
  }

  /** Of a reference and a longer one that ends in it, the longer one is what
      limits the question as soon as it names a file that was found. */
  lemma LongerReferenceWins(hits: seq<Hit>, lens: Lens, prefix: string, short: string)
    requires !lens.blank && !lens.asksField && prefix != "" && lens.references == Some([short, prefix + short])
    ensures var long := prefix + short;
            var name := if exists g :: g in hits && lens.matches(long, g.sourceName) then long else short;
            forall h :: h in Eligible(hits, lens) <==>
              h in hits && exists g :: g in hits && g.source == h.source && lens.matches(name, g.sourceName)
  {
    var long := prefix + short;
    assert EndsWith(long, short) && |long| > |short|;
    assert lens.references.value[0] == short && lens.references.value[1] == long;
    assert !Shadowed(hits, lens, long);
    assert Shadowed(hits, lens, short) <==> Matched(hits, lens, long);
  }

  /** A field that is asked for shuts out hits that are about another. */
  lemma OtherFieldsAreOut(hits: seq<Hit>, lens: Lens)
    requires !lens.blank && lens.asksField
    ensures forall h :: h in Eligible(hits, lens) <==>
            h in Eligible(hits, lens.(asksField := false)) && !lens.incompatible(h)
  {
    var free := lens.(asksField := false);
    forall h: Hit
      ensures h in Scoped(hits, lens) <==> h in Scoped(hits, free)
    {
    }
  }

  // ----- Evidence in scores and places -------------------------------------------------------------------

  /** A hit that may stand by an anchor is the same chunk, or so near in the same
      source, in either direction, and of no incompatible field. */
  predicate StandsBy(h: Hit, a: Hit, lens: Lens) {
    a.source == h.source
    && (a.id == h.id
        || (a.index - lens.adjacency <= h.index <= a.index + lens.adjacency && (lens.blank || !lens.incompatible(h))))
  }

  lemma ScaledUp(x: real, low: real, high: real)
    requires x >= 0.0 && low <= high
    ensures x * low <= x * high
  {
    assert x * high - x * low == x * (high - low);
  }

  /** The score to meet is the largest of the floors that apply. */
  lemma CutoffIsLargest(top: real, lens: Lens)
    requires top >= 0.0
    ensures var c := CutoffFor(top, true, lens);
            && c >= lens.minimumFloor && c >= 0.03 && c >= top * lens.relativeFloor && c >= top * 0.1
            && (c == lens.minimumFloor || c == 0.03 || c == top * lens.relativeFloor || c == top * 0.1)
    ensures var c := CutoffFor(top, false, lens);
            c >= lens.minimumFloor && c >= top * lens.relativeFloor
            && (c == lens.minimumFloor || c == top * lens.relativeFloor)
  {
    var rate := Larger(lens.relativeFloor, NORMALIZED_RELATIVE_FLOOR);
    var product, low, tenth := top * rate, top * lens.relativeFloor, top * 0.1;
    ScaledUp(top, lens.relativeFloor, rate);
    ScaledUp(top, 0.1, rate);
    LargestOf(lens.minimumFloor, product, low, tenth);
  }

  lemma LargestOf(floor: real, product: real, low: real, tenth: real)
    requires product >= low && product >= tenth && (product == low || product == tenth)
    ensures var c := Larger(Larger(floor, 0.03), product);
            && c >= floor && c >= 0.03 && c >= low && c >= tenth && (c == floor || c == 0.03 || c == low || c == tenth)
  {
  }

  /** Under the default floors. */
  lemma CutoffByDefault(top: real, lens: Lens)
    requires lens.relativeFloor == 0.05 && lens.minimumFloor == 0.01
    ensures CutoffFor(top, true, lens) == if 0.1 * top > 0.03 then 0.1 * top else 0.03
    ensures CutoffFor(top, false, lens) == if 0.05 * top > 0.01 then 0.05 * top else 0.01
  {
  }

  /** The best of the hits, and whether all scores are probabilities. */
  ghost predicate Measures(hits: seq<Hit>, top: real, unit: bool) {
    && (exists h :: h in hits && h.score == top) && (forall h :: h in hits ==> h.score <= top)
    && (unit <==> forall h :: h in hits ==> 0.0 <= h.score <= 1.0)
  }

  /** Anchors are the hits that reach the cutoff, if any does. */
  lemma AnchorsInScores(e: seq<Hit>, lens: Lens, top: real, unit: bool)
    requires Measures(e, top, unit) && exists h :: h in e && h.score >= CutoffFor(top, unit, lens)
    ensures var basis := BasisOf(e, lens);
            && !basis.lexical && basis.cutoff == CutoffFor(top, unit, lens)
            && (forall a :: a in basis.anchors <==> a in e && a.score >= CutoffFor(top, unit, lens))
            && Normalized(e) == unit && MaxScore(e) == top
  {
    hide CutoffFor;
    AnchorsMeetCutoff(e, lens);
    assert MaxScore(e) == top;
    assert Normalized(e) == unit;
  }

  /** What is kept around given anchors. */
  lemma KeptAround(e: seq<Hit>, lens: Lens, basis: Basis, only: Option<string>, h: Hit)
    requires WellIdentified(e) && forall a :: a in basis.anchors ==> a in e
    requires !basis.lexical ==> forall a :: a in basis.anchors <==> a in e && a.score >= basis.cutoff
    requires h in e
    ensures Keeps(h, basis, only, lens) <==>
            && (only == None || only == Some(h.source))
            && exists a :: a in basis.anchors
                 && (StandsBy(h, a, lens) || (!basis.lexical && a.source == h.source && h.score >= basis.cutoff))
  {
    if Keeps(h, basis, only, lens) {
      if a :| a in basis.anchors && a.id == h.id {
        assert StandsBy(h, a, lens);
      } else if a :| a in basis.anchors && Near(a, h, lens.adjacency) && (lens.blank || !lens.incompatible(h)) {
        assert StandsBy(h, a, lens);
      }
    } else if a :| a in basis.anchors && StandsBy(h, a, lens) {
      assert a.id == h.id || Near(a, h, lens.adjacency);
    }
  }

  /** The evidence, in scores and places: everything of the source that counts
      (or of any, if none is chosen) that reaches the cutoff or stands by a hit
      that does. */
  lemma EvidenceInScores(hits: seq<Hit>, lens: Lens, top: real, unit: bool, only: Option<string>)
    requires Judged(hits, lens) && WellIdentified(hits) && Measures(Eligible(hits, lens), top, unit)
    requires exists h :: h in Eligible(hits, lens) && h.score >= CutoffFor(top, unit, lens)
    requires only == OnlySource(BasisOf(Eligible(hits, lens), lens).anchors, unit, lens)
    ensures forall h :: h in Relevant(hits, lens).hits <==>
              h in Eligible(hits, lens) && (only == None || only == Some(h.source))
              && (h.score >= CutoffFor(top, unit, lens)
                  || exists a ::
                       a in Eligible(hits, lens) && a.score >= CutoffFor(top, unit, lens) && StandsBy(h, a, lens))
  {
    hide WellIdentified, Eligible, KeptOf, BasisOf, Keeps, StandsBy, CutoffFor, Normalized, MaxScore, Measures,
         OnlySource;
    var e := Eligible(hits, lens);
    var basis := BasisOf(e, lens);
    JudgedMeans(hits, lens);
    KeptOfIs(e, lens);
    AnchorsInScores(e, lens, top, unit);
    EligibleIsSome(hits, lens);
    WellIdentifiedPart(hits, e);
    forall h | h in e
      ensures Keeps(h, basis, only, lens) <==>
                (only == None || only == Some(h.source))
                && (h.score >= basis.cutoff || exists a :: a in e && a.score >= basis.cutoff && StandsBy(h, a, lens))
    {
      KeptAround(e, lens, basis, only, h);
      if h.score >= basis.cutoff { assert h in basis.anchors && h.source == h.source; }
    }
  }

  /** Under the default floors, number by number. */
  lemma EvidenceByDefault(hits: seq<Hit>, lens: Lens, top: real, unit: bool, c: real)
    requires Judged(hits, lens) && WellIdentified(hits) && !lens.singleSource
    requires lens.relativeFloor == 0.05 && lens.minimumFloor == 0.01 && lens.adjacency == 1 && lens.blank
    requires Measures(Eligible(hits, lens), top, unit)
    requires unit ==> c == if 0.1 * top > 0.03 then 0.1 * top else 0.03
    requires !unit ==> c == if 0.05 * top > 0.01 then 0.05 * top else 0.01
    requires exists h :: h in Eligible(hits, lens) && h.score >= c
    ensures forall h :: h in Relevant(hits, lens).hits <==>
              h in Eligible(hits, lens)
              && (h.score >= c
                  || exists a :: a in Eligible(hits, lens) && a.score >= c && a.source == h.source
                                 && (a.id == h.id || a.index == h.index || a.index == h.index + 1
                                    || h.index == a.index + 1))
  {
    CutoffByDefault(top, lens);
    EvidenceInScores(hits, lens, top, unit, None);
    hide WellIdentified, Eligible, Relevant, CutoffFor, Judged, Measures;
    forall h: Hit, a: Hit
      ensures StandsBy(h, a, lens) <==>
                a.source == h.source
                && (a.id == h.id || a.index == h.index || a.index == h.index + 1 || h.index == a.index + 1)
    {
    }
  }

  /** `best` is what a single source is chosen by: the highest score, then the
      smallest identifier; `second` is the best score of any other source. */
  ghost predicate Leads(anchors: seq<Hit>, best: Hit, second: real) {
    && best in anchors
    && (forall a :: a in anchors ==>
          a.score < best.score
          || (a.score == best.score && (a.source == best.source || StringLess(best.source, a.source))))
    && (forall a :: a in anchors && a.source != best.source ==> a.score <= second)
    && (if exists a :: a in anchors && a.source != best.source && a.score >= 0.0 then
          exists a :: a in anchors && a.source != best.source && a.score == second
        else second == 0.0)
  }

  /** A single source is chosen, if one is wanted, unless scores are
      probabilities of which none is at least 0.7 and ahead by 0.15. */
  lemma SourceInScores(anchors: seq<Hit>, lens: Lens, best: Hit, second: real, unit: bool)
    requires Leads(anchors, best, second)
    ensures OnlySource(anchors, unit, lens)
         == if lens.singleSource && (!unit || (best.score >= 0.7 && best.score - second >= 0.15)) then Some(best.source)
             else None
  {
    var strongest := Strongest(anchors);
    StringLessAsymmetric(best.source, strongest.source);
    StringLessTotal(best.source, strongest.source);
    assert strongest.source == best.source && strongest.score == best.score;
    var found := SecondScore(anchors, best.source);
    assert found == second;
  }

  /** Where no score reaches the cutoff: the evidence is what shares words with
      the question, and what stands by it, if the best score is 0.005 at least. */
  lemma EvidenceInWords(hits: seq<Hit>, lens: Lens, top: real)
    requires Judged(hits, lens) && WellIdentified(hits) && !lens.singleSource && !lens.blank && lens.namesSubject
    requires Measures(Eligible(hits, lens), top, true)
    requires forall h :: h in Eligible(hits, lens) ==> h.score < CutoffFor(top, true, lens)
    ensures forall h :: h in Relevant(hits, lens).hits <==>
              top >= 0.005 && h in Eligible(hits, lens)
              && exists a :: a in Eligible(hits, lens) && lens.overlaps(a) && StandsBy(h, a, lens)
  {
    hide WellIdentified, Eligible, KeptOf, BasisOf, Keeps, StandsBy, CutoffFor, Normalized, MaxScore;
    var e := Eligible(hits, lens);
    var basis := BasisOf(e, lens);
    JudgedMeans(hits, lens);
    KeptOfIs(e, lens);
    assert MaxScore(e) == top;
    assert Normalized(e) by { UnitIsNormalized(e, top); }
    LexicalMeans(e, lens);
    EligibleIsSome(hits, lens);
    WellIdentifiedPart(hits, e);
    EvidenceNeedsAnchors(hits, lens);
    if top >= 0.005 && Select(e, lens.overlaps) != [] {
      forall h | h in e
        ensures Keeps(h, basis, None, lens) <==> exists a :: a in e && lens.overlaps(a) && StandsBy(h, a, lens)
      {
        KeptAround(e, lens, basis, None, h);
      }
    }
  }

  /** The first of the highest-scored of some hits. */
  ghost predicate BestOf(hits: seq<Hit>, p: Hit -> bool, i: nat) {
    && i < |hits| && p(hits[i])
    && forall j :: 0 <= j < |hits| && p(hits[j]) ==>
         hits[j].score <= hits[i].score && (j < i ==> hits[j].score < hits[i].score)
  }

  lemma HighestOfMore(head: seq<Hit>, last: Hit)
    ensures FirstHighest(head + [last])
         == if head == [] || last.score > FirstHighest(head).score then last else FirstHighest(head)
  {
    assert (head + [last])[..|head|] == head;
  }

  lemma BestOfPart(hits: seq<Hit>, p: Hit -> bool, i: nat)
    requires BestOf(hits, p, i)
    ensures i < |hits| && p(hits[i]) && hits != []
    ensures var n := |hits| - 1;
            if i < n then BestOf(hits[..n], p, i) && hits[..n][i] == hits[i]
                && (p(hits[n]) ==> hits[n].score <= hits[i].score)
            else forall h :: h in hits[..n] && p(h) ==> h.score < hits[n].score
  {
  }

  lemma SelectUnfolds(hits: seq<Hit>, p: Hit -> bool)
    requires hits != []
    ensures var n := |hits| - 1;
            Select(hits, p) == if p(hits[n]) then Select(hits[..n], p) + [hits[n]] else Select(hits[..n], p)
  {
  }

  lemma {:induction false} FirstHighestIsBest(hits: seq<Hit>, p: Hit -> bool, i: nat)
    requires BestOf(hits, p, i)
    ensures Select(hits, p) != [] && FirstHighest(Select(hits, p)) == hits[i]
  {
    hide FirstHighest, BestOf, Select;
    BestOfPart(hits, p, i);
    var n := |hits| - 1;
    var head := Select(hits[..n], p);
    SelectUnfolds(hits, p);
    if i < n {
      FirstHighestIsBest(hits[..n], p, i);
      if p(hits[n]) { HighestOfMore(head, hits[n]); }
    } else {
      HighestOfMore(head, hits[n]);
      assert head != [] ==> FirstHighest(head) in head;
    }
  }

  /** Without a subject only the best of what shares words with the question
      counts, and what stands by it. */
  lemma EvidenceByBestWords(hits: seq<Hit>, lens: Lens, top: real, i: nat)
    requires Judged(hits, lens) && WellIdentified(hits) && !lens.singleSource && !lens.blank && !lens.namesSubject
    requires Measures(Eligible(hits, lens), top, true) && top >= 0.005
    requires forall h :: h in Eligible(hits, lens) ==> h.score < CutoffFor(top, true, lens)
    requires BestOf(Eligible(hits, lens), lens.overlaps, i)
    ensures forall h :: h in Relevant(hits, lens).hits <==>
              h in Eligible(hits, lens) && i < |Eligible(hits, lens)| && StandsBy(h, Eligible(hits, lens)[i], lens)
  {
    hide WellIdentified, Eligible, KeptOf, BasisOf, Keeps, StandsBy, CutoffFor, Normalized, MaxScore, BestOf,
         FirstHighest;
    var e := Eligible(hits, lens);
    var basis := BasisOf(e, lens);
    BestOfPart(e, lens.overlaps, i);
    JudgedMeans(hits, lens);
    KeptOfIs(e, lens);
    assert MaxScore(e) == top;
    assert Normalized(e) by { UnitIsNormalized(e, top); }
    LexicalMeans(e, lens);
    FirstHighestIsBest(e, lens.overlaps, i);
    EligibleIsSome(hits, lens);
    WellIdentifiedPart(hits, e);
    EvidenceNeedsAnchors(hits, lens);
    assert basis.anchors == [e[i]] && e[i] in e;
    forall h | h in e
      ensures Keeps(h, basis, None, lens) <==> StandsBy(h, e[i], lens)
    {
      KeptAround(e, lens, basis, None, h);
    }
  }

  lemma UnitIsNormalized(hits: seq<Hit>, top: real)
    requires Measures(hits, top, true)
    ensures Normalized(hits)
  {
  }

  // ----- Filtering twice ------------------------------------------------------------------------------------

  /** A chunk belongs to one source, and a source has one name. */
  predicate WellIdentified(hits: seq<Hit>) {
    forall a, b :: a in hits && b in hits ==>
        (a.id == b.id ==> a.source == b.source) && (a.source == b.source ==> a.sourceName == b.sourceName)
  }

  /** Whatever has passed scope and field checks passes them again. */
  lemma EligibleAgain(hits: seq<Hit>, lens: Lens, some: seq<Hit>)
    requires WellIdentified(hits) && forall h :: h in some ==> h in Eligible(hits, lens)
    ensures Eligible(some, lens) == some
  {
    if !lens.blank && lens.references.Some? {
      forall h | h in some
        ensures InScope(some, lens, h)
      {
        InScopeAgain(hits, lens, some, h);
      }
      SelectAll(some, (h: Hit) requires lens.references.Some? => InScope(some, lens, h));
    }
    if !lens.blank && lens.asksField {
      SelectAll(some, (h: Hit) => !lens.incompatible(h));
    }
  }

  lemma InScopeAgain(hits: seq<Hit>, lens: Lens, some: seq<Hit>, h: Hit)
    requires lens.references.Some? && WellIdentified(hits) && (forall g :: g in some ==> g in hits) && h in some
             && InScope(hits, lens, h)
    ensures InScope(some, lens, h)
  {
    var reference :| reference in lens.references.value && !Shadowed(hits, lens, reference)
      && exists g :: g in hits && g.source == h.source && lens.matches(reference, g.sourceName);
    assert lens.matches(reference, h.sourceName);
    assert forall other :: Matched(some, lens, other) ==> Matched(hits, lens, other);
  }

  /** Scores count as probabilities for what is kept as they do for everything:
      none is negative, or some exceeds 1, or a negative one is kept. */
  predicate ScaleStays(eligible: seq<Hit>, kept: seq<Hit>) {
    (forall h :: h in eligible ==> h.score >= 0.0) || (exists h :: h in eligible && h.score > 1.0)
    || (exists h :: h in kept && h.score < 0.0)
  }

  /** The judgement of a first pass that did not fall back on words. */
  ghost predicate FirstPass(eligible: seq<Hit>, lens: Lens, kept: seq<Hit>) {
    && eligible != [] && WellIdentified(eligible)
    && lens.relativeFloor >= 0.0 && lens.minimumFloor >= 0.0 && lens.adjacency >= 0 && MaxScore(eligible) > 0.0
    && var basis := BasisOf(eligible, lens);
       var only := OnlySource(basis.anchors, Normalized(eligible), lens);
       !basis.lexical && basis.anchors != []
       && forall h :: h in kept <==> h in eligible && Keeps(h, basis, only, lens)
  }

  /** Unless words decided, the anchors are what meets the cutoff. */
  lemma AnchorsMeetCutoff(hits: seq<Hit>, lens: Lens)
    requires hits != []
    ensures var basis := BasisOf(hits, lens);
            !basis.lexical ==>
              basis.cutoff == Cutoff(hits, lens) && forall a :: a in basis.anchors <==>
                  a in hits && a.score >= basis.cutoff
    ensures (exists h :: h in hits && h.score >= Cutoff(hits, lens)) ==> !BasisOf(hits, lens).lexical
  {
    hide Cutoff;
    var cutoff := Cutoff(hits, lens);
    assert forall h :: h in Select(hits, (h: Hit) => h.score >= cutoff) <==> h in hits && h.score >= cutoff;
  }

  lemma OnlySourceIsStrongest(anchors: seq<Hit>, normalized: bool, lens: Lens)
    requires anchors != []
    ensures var only := OnlySource(anchors, normalized, lens); only == None || only == Some(Strongest(anchors).source)
  {
  }

  lemma SameScale(eligible: seq<Hit>, kept: seq<Hit>)
    requires eligible != [] && kept != [] && MaxScore(eligible) == MaxScore(kept) && forall h :: h in kept ==>
             h in eligible
    ensures Normalized(kept) == Normalized(eligible) <==> ScaleStays(eligible, kept)
    ensures Normalized(eligible) ==> Normalized(kept)
  {
    hide MaxScore;
  }

  /** The best hit is an anchor, and one of the best survives. */
  lemma TopSurvives(eligible: seq<Hit>, lens: Lens, kept: seq<Hit>)
    requires FirstPass(eligible, lens, kept)
    ensures kept != [] && MaxScore(kept) == MaxScore(eligible) && Strongest(BasisOf(eligible, lens).anchors) in kept
    ensures Normalized(kept) == Normalized(eligible) <==> ScaleStays(eligible, kept)
    ensures Normalized(eligible) ==> Normalized(kept)
    ensures Normalized(kept) == Normalized(eligible) ==> Cutoff(kept, lens) == Cutoff(eligible, lens)
  {
    AnchorsMeetCutoff(eligible, lens);
    hide BasisOf, CutoffFor, WellIdentified, Strongest, MaxScore, OnlySource, Normalized;
    var basis := BasisOf(eligible, lens);
    var best := Strongest(basis.anchors);
    OnlySourceIsStrongest(basis.anchors, Normalized(eligible), lens);
    assert best in kept;
    var top :| top in eligible && top.score == MaxScore(eligible);
    assert top in basis.anchors && !Stronger(top, best);
    SameScale(eligible, kept);
  }

  /** The same anchors, but for sources that no longer count. */
  ghost predicate Narrowed(first: seq<Hit>, second: seq<Hit>, only: Option<string>) {
    forall a :: a in second <==> a in first && (only == None || only == Some(a.source))
  }

  lemma AnchorsNarrow(eligible: seq<Hit>, kept: seq<Hit>, first: Basis, second: Basis, only: Option<string>, lens: Lens)
    requires forall h :: h in kept <==> h in eligible && Keeps(h, first, only, lens)
    requires forall a :: a in first.anchors <==> a in eligible && a.score >= first.cutoff
    requires forall a :: a in second.anchors <==> a in kept && a.score >= first.cutoff
    ensures Narrowed(first.anchors, second.anchors, only)
  {
  }

  /** The whole judgement of a second pass on the same scale. */
  lemma SameJudgement(eligible: seq<Hit>, lens: Lens, kept: seq<Hit>)
    requires FirstPass(eligible, lens, kept) && ScaleStays(eligible, kept)
    ensures kept != [] && Normalized(kept) == Normalized(eligible) && Cutoff(kept, lens) == Cutoff(eligible, lens)
    ensures exists h :: h in kept && h.score >= Cutoff(kept, lens)
  {
    hide ScaleStays, BasisOf, CutoffFor, WellIdentified, Strongest, MaxScore, OnlySource, Normalized;
    TopSurvives(eligible, lens, kept);
    AnchorsMeetCutoff(eligible, lens);
    assert Strongest(BasisOf(eligible, lens).anchors) in BasisOf(eligible, lens).anchors;
  }

  lemma AnchorsAgain(eligible: seq<Hit>, lens: Lens, kept: seq<Hit>)
    requires FirstPass(eligible, lens, kept) && ScaleStays(eligible, kept)
    ensures kept != []
    ensures var first, second := BasisOf(eligible, lens), BasisOf(kept, lens);
            second.cutoff == first.cutoff && !second.lexical
            && Narrowed(first.anchors, second.anchors, OnlySource(first.anchors, Normalized(eligible), lens))
  {
    hide ScaleStays, BasisOf, Cutoff, WellIdentified, Strongest, MaxScore, OnlySource, Normalized, Keeps, Narrowed;
    SameJudgement(eligible, lens, kept);
    AnchorsMeetCutoff(eligible, lens);
    AnchorsMeetCutoff(kept, lens);
    var first, second := BasisOf(eligible, lens), BasisOf(kept, lens);
    AnchorsNarrow(eligible, kept, first, second, OnlySource(first.anchors, Normalized(eligible), lens), lens);
  }

  /** Once only the source that counts is left, it still is the only one. */
  lemma SourceStays(first: seq<Hit>, second: seq<Hit>, normalized: bool, lens: Lens)
    requires first != [] && Narrowed(first, second, OnlySource(first, normalized, lens))
    ensures second != [] && OnlySource(second, normalized, lens) == OnlySource(first, normalized, lens)
  {
    var best := Strongest(first);
    assert best in second;
    var again := Strongest(second);
    assert again in first;
    StringLessTotal(best.source, again.source);
    assert again.score == best.score && again.source == best.source;
    if OnlySource(first, normalized, lens) == None {
      SecondScoreOfSame(first, second, best.source);
    } else {
      assert SecondScore(second, best.source) == 0.0;
      assert SecondScore(first, best.source) >= 0.0;
    }
  }

  lemma SourceAgain(eligible: seq<Hit>, lens: Lens, kept: seq<Hit>)
    requires FirstPass(eligible, lens, kept) && ScaleStays(eligible, kept) && kept != []
    ensures OnlySource(BasisOf(kept, lens).anchors, Normalized(kept), lens)
         == OnlySource(BasisOf(eligible, lens).anchors, Normalized(eligible), lens)
  {
    TopSurvives(eligible, lens, kept);
    AnchorsAgain(eligible, lens, kept);
    hide BasisOf, Normalized, MaxScore, WellIdentified, OnlySource, Narrowed;
    SourceStays(BasisOf(eligible, lens).anchors, BasisOf(kept, lens).anchors, Normalized(eligible), lens);
  }

  lemma SecondScoreOfSame(a: seq<Hit>, b: seq<Hit>, source: string)
    requires forall h :: h in a <==> h in b
    ensures SecondScore(a, source) == SecondScore(b, source)
  {
  }

  /** A hit that is kept is kept by the same anchors, but for those of sources
      that no longer count. */
  lemma KeepsAgain(h: Hit, first: Basis, second: Basis, only: Option<string>, lens: Lens)
    requires Keeps(h, first, only, lens) && second.lexical == first.lexical
             && (first.lexical || second.cutoff == first.cutoff)
    requires Narrowed(first.anchors, second.anchors, only)
    requires forall a :: a in first.anchors && a.id == h.id ==> a.source == h.source
    ensures Keeps(h, second, only, lens)
  {
    var a :| a in first.anchors && a.source == h.source;
    assert a in second.anchors;
  }

  lemma KeptAgain(eligible: seq<Hit>, lens: Lens, kept: seq<Hit>, h: Hit)
    requires FirstPass(eligible, lens, kept) && ScaleStays(eligible, kept) && h in kept
    ensures var basis := BasisOf(kept, lens); Keeps(h, basis, OnlySource(basis.anchors, Normalized(kept), lens), lens)
  {
    hide ScaleStays, BasisOf, OnlySource, Normalized, MaxScore, Keeps, Cutoff, Narrowed;
    AnchorsAgain(eligible, lens, kept);
    SourceAgain(eligible, lens, kept);
    AnchorsMeetCutoff(eligible, lens);
    var first, second := BasisOf(eligible, lens), BasisOf(kept, lens);
    assert h in eligible && forall a :: a in first.anchors ==> a in eligible;
    KeepsAgain(h, first, second, OnlySource(first.anchors, Normalized(eligible), lens), lens);
  }

  /** Unless only words put the evidence there, filtering it again changes
      nothing as long as the scale stays: in particular if no score is negative. */
  lemma FilteringTwice(hits: seq<Hit>, lens: Lens)
    requires Judged(hits, lens) && WellIdentified(hits) && !BasisOf(Eligible(hits, lens), lens).lexical
    requires ScaleStays(Eligible(hits, lens), Relevant(hits, lens).hits)
    ensures Relevant(Relevant(hits, lens).hits, lens) == Relevant(hits, lens)
  {
    var eligible := Eligible(hits, lens);
    var kept := KeptOf(eligible, lens);
    JudgedMeans(hits, lens);
    if kept != [] {
      PassedOnce(hits, lens);
      hide Judged, WellIdentified, FirstPass, Relevant, KeptOf, BasisOf, Descending, Eligible, ScaleStays;
      FilteredAgain(eligible, lens, kept);
    } else {
      hide Judged, WellIdentified, KeptOf, BasisOf, MaxScore, ScaleStays;
    }
  }

  lemma JudgedMeans(hits: seq<Hit>, lens: Lens)
    requires Judged(hits, lens)
    ensures Relevant(hits, lens) == Kept(KeptOf(Eligible(hits, lens), lens)) && Relevant([], lens) == Kept([])
  {
    hide KeptOf, MaxScore;
  }

  lemma PassedOnce(hits: seq<Hit>, lens: Lens)
    requires Judged(hits, lens) && WellIdentified(hits) && !BasisOf(Eligible(hits, lens), lens).lexical
    requires KeptOf(Eligible(hits, lens), lens) != []
    ensures var eligible := Eligible(hits, lens); var kept := KeptOf(eligible, lens);
            FirstPass(eligible, lens, kept) && Descending(kept) && Eligible(kept, lens) == kept
  {
    var eligible := Eligible(hits, lens);
    EligibleIsSome(hits, lens);
    PassesFirst(hits, eligible, lens);
    KeptIsEligible(hits, eligible, lens);
    KeptOfIs(eligible, lens);
    hide *;
  }

  lemma PassesFirst(hits: seq<Hit>, eligible: seq<Hit>, lens: Lens)
    requires eligible != [] && WellIdentified(hits) && !BasisOf(eligible, lens).lexical
             && (forall h :: h in eligible ==> h in hits)
    requires lens.relativeFloor >= 0.0 && lens.minimumFloor >= 0.0 && lens.adjacency >= 0 && MaxScore(eligible) > 0.0
    requires KeptOf(eligible, lens) != []
    ensures FirstPass(eligible, lens, KeptOf(eligible, lens))
  {
    hide KeptOf, BasisOf, OnlySource, Normalized, MaxScore, Descending, WellIdentified, Keeps;
    WellIdentifiedPart(hits, eligible);
    KeptHasAnchors(eligible, lens);
    KeptOfIs(eligible, lens);
  }

  lemma WellIdentifiedPart(hits: seq<Hit>, some: seq<Hit>)
    requires WellIdentified(hits) && forall h :: h in some ==> h in hits
    ensures WellIdentified(some)
  {
  }

  lemma KeptHasAnchors(eligible: seq<Hit>, lens: Lens)
    requires eligible != [] && KeptOf(eligible, lens) != []
    ensures BasisOf(eligible, lens).anchors != []
  {
    KeptOfIs(eligible, lens);
    hide KeptOf, BasisOf, OnlySource, Normalized, MaxScore, Descending;
    assert KeptOf(eligible, lens)[0] in KeptOf(eligible, lens);
  }

  lemma KeptIsEligible(hits: seq<Hit>, eligible: seq<Hit>, lens: Lens)
    requires eligible == Eligible(hits, lens) && eligible != [] && WellIdentified(hits)
    ensures Eligible(KeptOf(eligible, lens), lens) == KeptOf(eligible, lens)
  {
    KeptOfIs(eligible, lens);
    hide KeptOf, BasisOf, OnlySource, Normalized, Descending, Eligible, Keeps, WellIdentified;
    EligibleAgain(hits, lens, KeptOf(eligible, lens));
  }

  lemma EligibleIsSome(hits: seq<Hit>, lens: Lens)
    ensures forall h :: h in Eligible(hits, lens) ==> h in hits
  {
  }

  lemma FilteredAgain(eligible: seq<Hit>, lens: Lens, kept: seq<Hit>)
    requires FirstPass(eligible, lens, kept) && ScaleStays(eligible, kept) && Descending(kept) && kept != []
             && Eligible(kept, lens) == kept
    ensures Relevant(kept, lens) == Kept(kept)
  {
    FirstPassMeans(eligible, lens, kept);
    TopSurvives(eligible, lens, kept);
    EverythingKept(eligible, lens, kept);
    hide FirstPass, KeptOf, MaxScore, Eligible, Descending, ScaleStays;
  }

  lemma EverythingKept(eligible: seq<Hit>, lens: Lens, kept: seq<Hit>)
    requires FirstPass(eligible, lens, kept) && ScaleStays(eligible, kept) && Descending(kept) && kept != []
    ensures KeptOf(kept, lens) == kept
  {
    hide FirstPass, KeptOf, BasisOf, OnlySource, Normalized, Keeps, Descending, ScaleStays;
    forall h | h in kept
      ensures var basis := BasisOf(kept, lens); Keeps(h, basis, OnlySource(basis.anchors, Normalized(kept), lens), lens)
    {
      KeptAgain(eligible, lens, kept, h);
    }
    AllKept(kept, lens);
  }

  lemma FirstPassMeans(eligible: seq<Hit>, lens: Lens, kept: seq<Hit>)
    requires FirstPass(eligible, lens, kept)
    ensures eligible != [] && lens.relativeFloor >= 0.0 && lens.minimumFloor >= 0.0 && lens.adjacency >= 0
            && MaxScore(eligible) > 0.0
  {
  }

  lemma AllKept(kept: seq<Hit>, lens: Lens)
    requires kept != [] && Descending(kept)
    requires var basis := BasisOf(kept, lens);
             forall h :: h in kept ==> Keeps(h, basis, OnlySource(basis.anchors, Normalized(kept), lens), lens)
    ensures KeptOf(kept, lens) == kept
  {
    var basis := BasisOf(kept, lens);
    var only := OnlySource(basis.anchors, Normalized(kept), lens);
    hide BasisOf, OnlySource, Normalized, Keeps;
    SelectAll(kept, (h: Hit) => Keeps(h, basis, only, lens));
    SortOfSorted(kept);
  }

  // ----- Where the scale shifts ---------------------------------------------------------------------------

  /** What a second pass needs to keep a hit: to be an anchor or stand by one. */
  predicate Stands(h: Hit, anchors: seq<Hit>, lens: Lens) {
    exists a :: a in anchors && (a.id == h.id || (Near(a, h, lens.adjacency) && (lens.blank || !lens.incompatible(h))))
  }

  /** All that is kept comes from the source that counts in the second pass. */
  lemma SecondSource(eligible: seq<Hit>, lens: Lens, kept: seq<Hit>)
    requires FirstPass(eligible, lens, kept) && kept != []
    ensures var only := OnlySource(BasisOf(kept, lens).anchors, Normalized(kept), lens);
            forall h :: h in kept ==> only == None || only == Some(h.source)
  {
    hide ScaleStays, BasisOf, Normalized, MaxScore, Cutoff, WellIdentified;
    var first, second := BasisOf(eligible, lens), BasisOf(kept, lens);
    if ScaleStays(eligible, kept) {
      SourceAgain(eligible, lens, kept);
    } else if second.anchors != [] && lens.singleSource {
      TopSurvives(eligible, lens, kept);
      assert !Normalized(eligible);
      OnlySourceIsStrongest(second.anchors, Normalized(kept), lens);
      AnchorsAreEligible(kept, lens, Strongest(second.anchors));
    }
  }

  lemma KeepsIsStands(kept: seq<Hit>, basis: Basis, only: Option<string>, lens: Lens, h: Hit)
    requires h in kept && WellIdentified(kept) && (only == None || only == Some(h.source))
    requires forall a :: a in basis.anchors ==> a in kept
    requires !basis.lexical ==> forall a :: a in kept && a.score >= basis.cutoff ==> a in basis.anchors
    ensures Keeps(h, basis, only, lens) <==> Stands(h, basis.anchors, lens)
  {
  }

  /** Unless words decide at first, filtering twice is filtering once exactly if
      all that was kept is an anchor of what was kept, or stands by one. */
  lemma FilteringTwiceExactly(hits: seq<Hit>, lens: Lens)
    requires Judged(hits, lens) && WellIdentified(hits) && !BasisOf(Eligible(hits, lens), lens).lexical
    requires Relevant(hits, lens).hits != []
    ensures var kept := Relevant(hits, lens).hits;
            Relevant(kept, lens) == Kept(kept) <==> forall h :: h in kept ==>
                Stands(h, BasisOf(kept, lens).anchors, lens)
  {
    hide WellIdentified, FirstPass, Relevant, KeptOf, BasisOf, Descending, Eligible, ScaleStays, MaxScore, Keeps,
         Stands, OnlySource, Normalized;
    var eligible := Eligible(hits, lens);
    var kept := KeptOf(eligible, lens);
    JudgedMeans(hits, lens);
    PassedOnce(hits, lens);
    KeptAreIdentified(hits, eligible, lens);
    FirstPassMeans(eligible, lens, kept);
    TopSurvives(eligible, lens, kept);
    SecondSource(eligible, lens, kept);
    AnchorsMeetCutoff(kept, lens);
    var basis := BasisOf(kept, lens);
    var only := OnlySource(basis.anchors, Normalized(kept), lens);
    assert Judged(kept, lens);
    JudgedMeans(kept, lens);
    KeptOfIs(kept, lens);
    forall a | a in basis.anchors
      ensures a in kept
    {
      AnchorsAreEligible(kept, lens, a);
    }
    forall h | h in kept
      ensures Keeps(h, basis, only, lens) <==> Stands(h, basis.anchors, lens)
    {
      KeepsIsStands(kept, basis, only, lens, h);
    }
    if forall h :: h in kept ==> Stands(h, basis.anchors, lens) {
      AllKept(kept, lens);
    } else {
      var h :| h in kept && !Stands(h, basis.anchors, lens);
      assert h !in KeptOf(kept, lens);
    }
  }

  lemma KeptAreIdentified(hits: seq<Hit>, eligible: seq<Hit>, lens: Lens)
    requires eligible == Eligible(hits, lens) && eligible != [] && WellIdentified(hits)
    ensures WellIdentified(KeptOf(eligible, lens))
  {
    hide KeptOf, BasisOf, OnlySource, Normalized, Keeps, Eligible, WellIdentified;
    KeptOfIs(eligible, lens);
    EligibleIsSome(hits, lens);
    WellIdentifiedPart(hits, KeptOf(eligible, lens));
  }

  /** A hit between the two minimum floors beside one of negative score, under
      the default floors. */
  predicate OnlyNegativesHelp(strong: Hit, negative: Hit, lens: Lens) {
    && lens.blank && !lens.singleSource && lens.relativeFloor == 0.05 && lens.minimumFloor == 0.01
       && lens.adjacency >= 0
    && strong.source != negative.source && strong.id != negative.id && 0.01 <= strong.score < 0.03
       && negative.score < 0.0
  }

  /** Once the negative score is gone the rest counts as probabilities, and the
      stricter floor drops it. */
  lemma EvidenceMayVanishWithNegatives(strong: Hit, negative: Hit, lens: Lens)
    requires OnlyNegativesHelp(strong, negative, lens)
    ensures Judged([strong, negative], lens) && !BasisOf(Eligible([strong, negative], lens), lens).lexical
    ensures Relevant([strong, negative], lens) == Kept([strong]) && Relevant([strong], lens) == Kept([])
  {
    hide KeptOf, BasisOf, MaxScore;
    TwoHits(strong, negative);
    NegativesHelp(strong, negative, lens);
    NothingHelps(strong, negative, lens);
  }

  lemma NegativesHelp(strong: Hit, negative: Hit, lens: Lens)
    requires OnlyNegativesHelp(strong, negative, lens)
    ensures KeptOf([strong, negative], lens) == [strong] && !BasisOf([strong, negative], lens).lexical
  {
    TwoHits(strong, negative);
    hide MaxScore;
    var hits := [strong, negative];
    assert negative in hits && !Normalized(hits) && Cutoff(hits, lens) == 0.01;
    SelectTwo(strong, negative, (h: Hit) => h.score >= Cutoff(hits, lens));
    var basis := BasisOf(hits, lens);
    assert basis == Basis([strong], 0.01, false) && strong in basis.anchors;
    hide BasisOf, Normalized, Cutoff;
    var only := OnlySource(basis.anchors, Normalized(hits), lens);
    assert only == None && Keeps(strong, basis, only, lens) && !Keeps(negative, basis, only, lens);
    hide Keeps, OnlySource;
    SelectTwo(strong, negative, (h: Hit) => Keeps(h, basis, only, lens));
    SortOne(strong);
  }

  lemma NothingHelps(strong: Hit, negative: Hit, lens: Lens)
    requires OnlyNegativesHelp(strong, negative, lens)
    ensures KeptOf([strong], lens) == []
  {
    TwoHits(strong, negative);
    hide MaxScore;
    assert strong in [strong] && Normalized([strong]) && Cutoff([strong], lens) == 0.03;
    SelectNone([strong], (h: Hit) => h.score >= Cutoff([strong], lens));
    var basis := BasisOf([strong], lens);
    assert basis == Basis([], 0.03, false);
    hide BasisOf;
    var only := OnlySource(basis.anchors, Normalized([strong]), lens);
    SelectOne(strong, (h: Hit) => Keeps(h, basis, only, lens));
  }

  // ----- Where words decide ---------------------------------------------------------------------------------

  /** A question about a subject that only the second of two weak hits shares
      words with, under the default floors. */
  predicate OnlyWordsHelp(strong: Hit, worded: Hit, lens: Lens) {
    && !lens.blank && lens.references.None? && !lens.asksField && lens.namesSubject && !lens.singleSource
    && lens.relativeFloor == 0.05 && lens.minimumFloor == 0.01 && lens.adjacency >= 0
    && strong.id != worded.id && strong.source != worded.source && lens.overlaps(worded) && !lens.overlaps(strong)
    && LOW_CONFIDENCE_TOP_SCORE <= strong.score < 0.03 && 0.0 < worded.score < LOW_CONFIDENCE_TOP_SCORE
  }

  /** Where only words put the evidence there, a second pass may drop it: the
      stronger hit that opened the fallback is gone. */
  lemma LexicalEvidenceMayVanish(strong: Hit, worded: Hit, lens: Lens)
    requires OnlyWordsHelp(strong, worded, lens)
    ensures Judged([strong, worded], lens) && BasisOf(Eligible([strong, worded], lens), lens).lexical
    ensures Relevant([strong, worded], lens) == Kept([worded]) && Relevant([worded], lens) == Kept([])
  {
    hide KeptOf, BasisOf, MaxScore;
    TwoHits(strong, worded);
    WordsAreTheBasis(strong, worded, lens);
    WordsKeepOne(strong, worded, lens);
    WordsAloneKeepNone(strong, worded, lens);
  }

  lemma TwoHits(strong: Hit, worded: Hit)
    requires strong.score > worded.score
    ensures MaxScore([strong, worded]) == strong.score && MaxScore([worded]) == worded.score
    ensures forall h :: h in [strong, worded] <==> h == strong || h == worded
  {
    var hits := [strong, worded];
    assert hits[0] == strong && hits[1] == worded;
  }

  lemma WordsAreTheBasis(strong: Hit, worded: Hit, lens: Lens)
    requires OnlyWordsHelp(strong, worded, lens)
    ensures BasisOf([strong, worded], lens) == Basis([worded], worded.score, true)
  {
    hide BasisOf, MaxScore;
    TwoHits(strong, worded);
    WeakBasis([strong, worded], lens);
    SelectTwo(strong, worded, lens.overlaps);
  }

  lemma WordsKeepOne(strong: Hit, worded: Hit, lens: Lens)
    requires OnlyWordsHelp(strong, worded, lens)
    ensures KeptOf([strong, worded], lens) == [worded]
  {
    hide BasisOf, MaxScore, Normalized;
    WordsAreTheBasis(strong, worded, lens);
    var basis := BasisOf([strong, worded], lens);
    var only := OnlySource(basis.anchors, Normalized([strong, worded]), lens);
    assert only == None && worded in basis.anchors;
    assert Keeps(worded, basis, only, lens) && !Keeps(strong, basis, only, lens);
    hide Keeps, OnlySource;
    SelectTwo(strong, worded, (h: Hit) => Keeps(h, basis, only, lens));
    SortOne(worded);
  }

  lemma SortOne(h: Hit)
    ensures Sort([h]) == [h]
  {
    SortOfSorted([h]);
  }

  lemma WordsAloneKeepNone(strong: Hit, worded: Hit, lens: Lens)
    requires OnlyWordsHelp(strong, worded, lens)
    ensures KeptOf([worded], lens) == []
  {
    TwoHits(strong, worded);
    WeakBasis([worded], lens);
    hide BasisOf, MaxScore;
    var basis := BasisOf([worded], lens);
    var only := OnlySource(basis.anchors, Normalized([worded]), lens);
    SelectOne(worded, (h: Hit) => Keeps(h, basis, only, lens));
  }

  lemma SelectOne(a: Hit, p: Hit -> bool)
    ensures Select([a], p) == if p(a) then [a] else []
  {
    assert [a][..0] == [];
  }

  lemma SelectTwo(a: Hit, b: Hit, p: Hit -> bool)
    ensures Select([a, b], p) == (if p(a) then [a] else []) + (if p(b) then [b] else [])
  {
    SelectOne(a, p);
    assert [a, b][..1] == [a];
  }

  /** The basis of hits none of which meets the cutoff. */
  lemma WeakBasis(hits: seq<Hit>, lens: Lens)
    requires hits != [] && Normalized(hits) && !lens.blank && lens.namesSubject && lens.relativeFloor == 0.05
             && lens.minimumFloor == 0.01
    requires forall h :: h in hits ==> h.score < 0.03
    ensures BasisOf(hits, lens) ==
              var lexical := Select(hits, lens.overlaps);
              if MaxScore(hits) < LOW_CONFIDENCE_TOP_SCORE || lexical == [] then Basis([], 0.03, false)
              else Basis(lexical, MaxScore(lexical), true)
  {
    var cutoff := Cutoff(hits, lens);
    assert cutoff == 0.03;
    SelectNone(hits, (h: Hit) => h.score >= cutoff);
  }

  lemma {:induction false} SelectNone(hits: seq<Hit>, p: Hit -> bool)
    requires forall h :: h in hits ==> !p(h)
    ensures Select(hits, p) == []
  {
    if hits != [] { SelectNone(hits[..|hits| - 1], p); }
  }

  /** A first pass in which only words decided. */
  ghost predicate WordsDecided(eligible: seq<Hit>, lens: Lens, kept: seq<Hit>) {
    && eligible != [] && WellIdentified(eligible) && MaxScore(eligible) > 0.0
    && lens.relativeFloor >= 0.0 && lens.minimumFloor >= 0.0 && lens.adjacency >= 0
    && var basis := BasisOf(eligible, lens);
       basis.lexical && forall h :: h in kept <==>
           h in eligible && Keeps(h, basis, OnlySource(basis.anchors, Normalized(eligible), lens), lens)
  }

  lemma LexicalMeans(hits: seq<Hit>, lens: Lens)
    requires hits != []
    ensures var basis, lexical := BasisOf(hits, lens), Select(hits, lens.overlaps);
            basis.lexical ==>
              Normalized(hits) && !lens.blank && lexical != []
              && (forall h :: h in hits ==> h.score < Cutoff(hits, lens))
              && basis.anchors == if lens.namesSubject then lexical else [FirstHighest(lexical)]
    ensures var lexical := Select(hits, lens.overlaps);
            Normalized(hits) && !lens.blank && (forall h :: h in hits ==> h.score < Cutoff(hits, lens)) ==>
              if MaxScore(hits) < LOW_CONFIDENCE_TOP_SCORE || lexical == [] then BasisOf(hits, lens).anchors == []
              else BasisOf(hits, lens).lexical
  {
    hide Cutoff, MaxScore;
    var cutoff := Cutoff(hits, lens);
    if forall h :: h in hits ==> h.score < cutoff { SelectNone(hits, (h: Hit) => h.score >= cutoff); }
    assert forall h :: h in Select(hits, (h: Hit) => h.score >= cutoff) <==> h in hits && h.score >= cutoff;
    if hits != [] && (exists h :: h in hits && h.score >= cutoff) {
      AnchorsMeetCutoff(hits, lens);
    }
  }

  lemma MoreThanItself(x: real, rate: real, product: real)
    requires x > 0.0 && product == x * rate
    ensures product > x <==> rate > 1.0
  {
    assert product - x == x * (rate - 1.0);
  }

  /** Where nothing met the cutoff, nothing of a part of it meets the cutoff of
      that part. */
  lemma CutoffStaysAhead(top: real, less: real, lens: Lens)
    requires 0.0 < less <= top && CutoffFor(top, true, lens) > top
    ensures CutoffFor(less, true, lens) > less
  {
    var rate := Larger(lens.relativeFloor, NORMALIZED_RELATIVE_FLOOR);
    var a, b := top * rate, less * rate;
    MoreThanItself(top, rate, a);
    MoreThanItself(less, rate, b);
    LargerStaysAhead(Larger(lens.minimumFloor, NORMALIZED_MINIMUM_FLOOR), a, b, top, less);
  }

  lemma LargerStaysAhead(floor: real, a: real, b: real, top: real, less: real)
    requires Larger(floor, a) > top >= less && (a > top ==> b > less)
    ensures Larger(floor, b) > less
  {
  }

  /** Among the hits that are kept, those that share words with the question and
      score like an anchor are anchors. */
  predicate Untied(kept: seq<Hit>, anchors: seq<Hit>, lens: Lens) {
    forall h, a :: h in kept && a in anchors && lens.overlaps(h) && h.score == a.score ==> h in anchors
  }

  lemma WordsStillDecide(eligible: seq<Hit>, lens: Lens, kept: seq<Hit>)
    requires WordsDecided(eligible, lens, kept) && kept != [] && MaxScore(kept) > 0.0
    ensures Normalized(kept) && !lens.blank && forall h :: h in kept ==> h.score < Cutoff(kept, lens)
  {
    hide BasisOf, MaxScore, CutoffFor, WellIdentified, OnlySource;
    LexicalMeans(eligible, lens);
    var top :| top in eligible && top.score == MaxScore(eligible);
    var less :| less in kept && less.score == MaxScore(kept);
    CutoffStaysAhead(MaxScore(eligible), MaxScore(kept), lens);
  }

  lemma AnchorsKept(eligible: seq<Hit>, lens: Lens, kept: seq<Hit>)
    requires WordsDecided(eligible, lens, kept)
    ensures var basis := BasisOf(eligible, lens); var only := OnlySource(basis.anchors, Normalized(eligible), lens);
            basis.anchors != [] && (forall a :: a in basis.anchors ==> a in eligible && lens.overlaps(a))
            && (forall a :: a in basis.anchors && (only == None || only == Some(a.source)) ==> a in kept)
            && Strongest(basis.anchors) in kept
    ensures lens.namesSubject ==> Untied(kept, BasisOf(eligible, lens).anchors, lens)
  {
    hide BasisOf, MaxScore, WellIdentified, Normalized;
    LexicalMeans(eligible, lens);
    var basis := BasisOf(eligible, lens);
    OnlySourceIsStrongest(basis.anchors, Normalized(eligible), lens);
  }

  /** The anchors of a second pass in which words decide as well. */
  lemma SecondByWords(eligible: seq<Hit>, lens: Lens, kept: seq<Hit>)
    requires WordsDecided(eligible, lens, kept) && kept != [] && MaxScore(kept) >= LOW_CONFIDENCE_TOP_SCORE
    ensures var second, lexical := BasisOf(kept, lens), Select(kept, lens.overlaps);
            second.lexical && lexical != [] && second.anchors == if lens.namesSubject then lexical
                else [FirstHighest(lexical)]
  {
    hide BasisOf, MaxScore, WellIdentified, Normalized, Cutoff, OnlySource, Strongest, WordsDecided;
    WordsStillDecide(eligible, lens, kept);
    AnchorsKept(eligible, lens, kept);
    LexicalMeans(kept, lens);
    assert Strongest(BasisOf(eligible, lens).anchors) in Select(kept, lens.overlaps);
  }

  lemma WordsAgain(eligible: seq<Hit>, lens: Lens, kept: seq<Hit>)
    requires WordsDecided(eligible, lens, kept) && kept != [] && MaxScore(kept) >= LOW_CONFIDENCE_TOP_SCORE
    requires Untied(kept, BasisOf(eligible, lens).anchors, lens)
    ensures var first, second := BasisOf(eligible, lens), BasisOf(kept, lens);
            second.lexical
            && Narrowed(first.anchors, second.anchors, OnlySource(first.anchors, Normalized(eligible), lens))
  {
    hide BasisOf, MaxScore, WellIdentified, Normalized, Cutoff, OnlySource, Strongest;
    var first, second := BasisOf(eligible, lens), BasisOf(kept, lens);
    var only := OnlySource(first.anchors, Normalized(eligible), lens);
    SecondByWords(eligible, lens, kept);
    AnchorsKept(eligible, lens, kept);
    LexicalMeans(eligible, lens);
    KeptOfSource(eligible, lens, kept);
    hide WordsDecided, Select, FirstHighest, Untied, Narrowed;
    if lens.namesSubject {
      NarrowedByWords(first.anchors, second.anchors, eligible, kept, only, lens);
    } else {
      var a, b := FirstHighest(Select(eligible, lens.overlaps)), FirstHighest(Select(kept, lens.overlaps));
      OnlyOne(a, only);
      OneAnchor(a, b, eligible, kept, lens);
    }
  }

  lemma NarrowedByWords(
    first: seq<Hit>, second: seq<Hit>, eligible: seq<Hit>, kept: seq<Hit>, only: Option<string>, lens: Lens)
    requires first == Select(eligible, lens.overlaps) && second == Select(kept, lens.overlaps)
    requires forall h :: h in kept ==> h in eligible && (only == None || only == Some(h.source))
    requires forall a :: a in first && (only == None || only == Some(a.source)) ==> a in kept
    ensures Narrowed(first, second, only)
  {
  }

  lemma OnlyOne(a: Hit, only: Option<string>)
    ensures Strongest([a]) == a && (only == None || only == Some(a.source) ==> Narrowed([a], [a], only))
  {
    assert Strongest([a]) in [a];
  }

  lemma KeptOfSource(eligible: seq<Hit>, lens: Lens, kept: seq<Hit>)
    requires WordsDecided(eligible, lens, kept)
    ensures var only := OnlySource(BasisOf(eligible, lens).anchors, Normalized(eligible), lens);
            forall h :: h in kept ==> h in eligible && (only == None || only == Some(h.source))
  {
    hide BasisOf, OnlySource, Normalized, MaxScore, WellIdentified;
  }

  /** The hit chosen for its words is chosen again. */
  lemma OneAnchor(a: Hit, b: Hit, eligible: seq<Hit>, kept: seq<Hit>, lens: Lens)
    requires Select(eligible, lens.overlaps) != [] && a == FirstHighest(Select(eligible, lens.overlaps)) && a in kept
    requires Select(kept, lens.overlaps) != [] && b == FirstHighest(Select(kept, lens.overlaps))
    requires (forall h :: h in kept ==> h in eligible) && Untied(kept, [a], lens)
    ensures a == b
  {
    hide Select, FirstHighest;
    assert b in Select(eligible, lens.overlaps) && a in Select(kept, lens.overlaps);
    assert b.score == a.score && a in [a];
  }

  lemma WordsKeepAll(eligible: seq<Hit>, lens: Lens, kept: seq<Hit>)
    requires WordsDecided(eligible, lens, kept) && kept != [] && MaxScore(kept) >= LOW_CONFIDENCE_TOP_SCORE
             && Descending(kept)
    requires Untied(kept, BasisOf(eligible, lens).anchors, lens)
    ensures KeptOf(kept, lens) == kept
  {
    hide BasisOf, MaxScore, Normalized, Cutoff, OnlySource, Strongest, Keeps, KeptOf, Descending, Untied, Narrowed;
    var first, second := BasisOf(eligible, lens), BasisOf(kept, lens);
    WordsAgain(eligible, lens, kept);
    AnchorsKept(eligible, lens, kept);
    WordsStillDecide(eligible, lens, kept);
    assert Normalized(eligible) == Normalized(kept) by { LexicalMeans(eligible, lens); }
    SourceStays(first.anchors, second.anchors, Normalized(eligible), lens);
    forall h | h in kept
      ensures Keeps(h, second, OnlySource(second.anchors, Normalized(kept), lens), lens)
    {
      KeepsAgain(h, first, second, OnlySource(first.anchors, Normalized(eligible), lens), lens);
    }
    AllKept(kept, lens);
  }

  /** Where only words put the evidence there, and the question names a subject
      or the hit chosen for its words is untied, filtering twice is filtering
      once exactly if something that was kept reaches the fallback's own floor. */
  lemma FilteringTwiceByWords(hits: seq<Hit>, lens: Lens)
    requires Judged(hits, lens) && WellIdentified(hits) && BasisOf(Eligible(hits, lens), lens).lexical
    requires lens.namesSubject || Untied(Relevant(hits, lens).hits, BasisOf(Eligible(hits, lens), lens).anchors, lens)
    ensures var kept := Relevant(hits, lens).hits;
            kept != [] && (Relevant(kept, lens) == Kept(kept) <==> MaxScore(kept) >= LOW_CONFIDENCE_TOP_SCORE)
  {
    hide WellIdentified, Relevant, KeptOf, BasisOf, Descending, Eligible, MaxScore, Keeps, OnlySource, Normalized,
         Untied;
    var eligible := Eligible(hits, lens);
    var kept := KeptOf(eligible, lens);
    JudgedMeans(hits, lens);
    KeptOfIs(eligible, lens);
    EligibleIsSome(hits, lens);
    WellIdentifiedPart(hits, eligible);
    AnchorsKept(eligible, lens, kept);
    KeptIsEligible(hits, eligible, lens);
    if MaxScore(kept) >= LOW_CONFIDENCE_TOP_SCORE {
      assert Judged(kept, lens);
      JudgedMeans(kept, lens);
      WordsKeepAll(eligible, lens, kept);
    } else if MaxScore(kept) > 0.0 {
      assert Judged(kept, lens);
      WordsStillDecide(eligible, lens, kept);
      LexicalMeans(kept, lens);
      EvidenceNeedsAnchors(kept, lens);
    } else {
      NothingAbove(kept, lens);
    }
  }

  lemma NothingAbove(hits: seq<Hit>, lens: Lens)
    requires hits != [] && Eligible(hits, lens) == hits && MaxScore(hits) <= 0.0
    ensures Relevant(hits, lens) != Kept(hits)
  {
    hide KeptOf, MaxScore, Eligible;
  }

  // ----- The filter ----------------------------------------------------------------------------------------------

  /** Hits whose score is a number. */
  function Finite(candidates: seq<Candidate>): seq<Hit> {
    if candidates == [] then []
    else
      var last := candidates[|candidates| - 1];
      Finite(candidates[..|candidates| - 1]) + (if last.Scored? then [last.hit] else [])
  }

  method FiniteHits(candidates: seq<Candidate>) returns (hits: seq<Hit>)
    ensures hits == Finite(candidates)
  {
    hits := [];
    for n := 0 to |candidates|
      invariant hits == Finite(candidates[..n])
    {
      assert candidates[..n + 1][..n] == candidates[..n];
      if candidates[n].Scored? {
        hits := hits + [candidates[n].hit];
      }
    }
    assert candidates[..|candidates|] == candidates;
  }

  method SelectHits(hits: seq<Hit>, p: Hit -> bool) returns (selected: seq<Hit>)
    ensures selected == Select(hits, p)
  {
    selected := [];
    for n := 0 to |hits|
      invariant selected == Select(hits[..n], p)
    {
      assert hits[..n + 1][..n] == hits[..n];
      if p(hits[n]) {
        selected := selected + [hits[n]];
      }
    }
    assert hits[..|hits|] == hits;
  }

  /** Usable scores, then the named files, then the compatible fields. */
  method EligibleHits(candidates: seq<Candidate>, lens: Lens) returns (hits: seq<Hit>)
    ensures hits == Eligible(Finite(candidates), lens)
  {
    var finite := FiniteHits(candidates);
    hits := finite;
    if !lens.blank && lens.references.Some? {
      hits := SelectHits(finite, (h: Hit) requires lens.references.Some? => InScope(finite, lens, h));
    }
    var scoped := hits;
    assert scoped == Scoped(finite, lens);
    hide InScope, Finite, Select;
    if !lens.blank && lens.asksField {
      hits := SelectHits(scoped, (h: Hit) => !lens.incompatible(h));
    }
  }

  /** What the anchors keep, in order. */
  method KeptHits(eligible: seq<Hit>, lens: Lens) returns (kept: seq<Hit>)
    requires eligible != []
    ensures kept == KeptOf(eligible, lens)
  {
    hide BasisOf, OnlySource, Normalized, Keeps, Select, Sort;
    var basis := BasisOf(eligible, lens);
    var only := OnlySource(basis.anchors, Normalized(eligible), lens);
    var selected := SelectHits(eligible, (h: Hit) => Keeps(h, basis, only, lens));
    kept := Sort(selected);
  }

  /** The evidence, ranked anew; `None` for settings that are refused. */
  method FilterRelevantHits(candidates: seq<Candidate>, lens: Lens) returns (r: Option<seq<RankedHit>>)
    ensures match Relevant(Finite(candidates), lens)
            case BadSettings => r == None
            case Kept(hits) =>
              r.Some? && HitsOf(r.value) == hits && forall i :: 0 <= i < |r.value| ==> r.value[i].rank == i + 1
  {
    hide Eligible, KeptOf, MaxScore, Finite;
    var hits := EligibleHits(candidates, lens);
    if hits == [] {
      return Some([]);
    }
    if lens.relativeFloor < 0.0 || lens.minimumFloor < 0.0 || lens.adjacency < 0 {
      return None;
    }
    if MaxScore(hits) <= 0.0 {
      return Some([]);
    }
    var kept := KeptHits(hits, lens);
    var ranked := seq(|kept|, i requires 0 <= i < |kept| => RankedHit(kept[i], i + 1));
    assert HitsOf(ranked) == kept;
    return Some(ranked);
  }
}
