/** Merging rounds of retrieval into one ranked list. */
module RankedHits {
  import opened Sequences
  import opened Wrappers
  import opened TextOrder

  /** A chunk that was found, by its identifier and its place among the sources;
      `detail` stands for everything else that is carried along. */
  datatype Hit = Hit(id: string, source: string, sourceName: string, index: nat, score: real, detail: nat)

  /** Retrieval output as it arrives: a score may not be a number. */
  datatype Candidate = Scored(hit: Hit) | Unscored

  datatype RankedHit = RankedHit(hit: Hit, rank: nat)

  // ----- The ranking ------------------------------------------------------------------------

  /** Higher score first, then source name, then position in the source. */
  predicate Above(a: Hit, b: Hit) {
    a.score > b.score
    || (a.score == b.score
       && (StringLess(a.sourceName, b.sourceName) || (a.sourceName == b.sourceName && a.index < b.index)))
  }

  lemma AboveTransitive(a: Hit, b: Hit, c: Hit)
    requires Above(a, b) && Above(b, c)
    ensures Above(a, c)
  {
    if StringLess(a.sourceName, b.sourceName) && StringLess(b.sourceName, c.sourceName) {
      StringLessTransitive(a.sourceName, b.sourceName, c.sourceName);
    }
  }

  lemma AboveAsymmetric(a: Hit, b: Hit)
    ensures !(Above(a, b) && Above(b, a))
  {
    StringLessAsymmetric(a.sourceName, b.sourceName);
    StringLessAsymmetric(a.sourceName, a.sourceName);
  }

  predicate SamePlace(a: Hit, b: Hit) { a.sourceName == b.sourceName && a.index == b.index }

  lemma AboveTotal(a: Hit, b: Hit)
    requires !SamePlace(a, b)
    ensures Above(a, b) || Above(b, a)
  {
    StringLessTotal(a.sourceName, b.sourceName);
  }

  // ----- The best hit of each chunk -----------------------------------------------------------

  type Best = map<string, Hit>

  /** The first of the highest-scored hits of each chunk, on top of what is known. */
  function Absorb(m: Best, incoming: seq<Candidate>): Best {
    if incoming == [] then m
    else
      var before, last := Absorb(m, incoming[..|incoming| - 1]), incoming[|incoming| - 1];
      if last.Unscored? || (last.hit.id in before && before[last.hit.id].score >= last.hit.score) then before
      else before[last.hit.id := last.hit]
  }

  /** What one chunk's best hit becomes. */
  function Improve(known: Option<Hit>, incoming: seq<Candidate>, id: string): Option<Hit> {
    if incoming == [] then known
    else
      var before, last := Improve(known, incoming[..|incoming| - 1], id), incoming[|incoming| - 1];
      if last.Unscored? || last.hit.id != id || (before.Some? && before.value.score >= last.hit.score) then before
      else Some(last.hit)
  }

  function At(m: Best, id: string): Option<Hit> { if id in m then Some(m[id]) else None }

  lemma {:induction false} AbsorbAt(m: Best, incoming: seq<Candidate>, id: string)
    ensures At(Absorb(m, incoming), id) == Improve(At(m, id), incoming, id)
  {
    if incoming != [] { AbsorbAt(m, incoming[..|incoming| - 1], id); }
  }

  /** A known hit is only replaced by a better one, the same that would have been
      found without it. */
  lemma {:induction false} ImproveBeats(known: Hit, incoming: seq<Candidate>, id: string)
    ensures var alone, both := Improve(None, incoming, id), Improve(Some(known), incoming, id);
            both == if alone.Some? && alone.value.score > known.score then alone else Some(known)
  {
    if incoming != [] { ImproveBeats(known, incoming[..|incoming| - 1], id); }
  }

  lemma {:induction false} AbsorbBoth(m: Best, a: seq<Candidate>, b: seq<Candidate>)
    ensures Absorb(m, a + b) == Absorb(Absorb(m, a), b)
  {
    if b == [] {
      assert a + b == a;
    } else {
      AbsorbBoth(m, a, b[..|b| - 1]);
      assert (a + b)[..|a + b| - 1] == a + b[..|b| - 1];
    }
  }

  /** Each chunk has one place, and no two chunks share one. */
  predicate Distinct(all: seq<Candidate>) {
    forall a, b :: a in all && b in all && a.Scored? && b.Scored? ==>
        (a.hit.id == b.hit.id <==> SamePlace(a.hit, b.hit))
  }

  /** The hits are among the candidates, each under its own identifier. */
  predicate From(m: Best, all: seq<Candidate>) {
    forall id :: id in m ==> m[id].id == id && Scored(m[id]) in all
  }

  lemma {:induction false} AbsorbFrom(m: Best, incoming: seq<Candidate>, all: seq<Candidate>)
    requires From(m, all) && forall c :: c in incoming ==> c in all
    ensures From(Absorb(m, incoming), all)
  {
    if incoming != [] { AbsorbFrom(m, incoming[..|incoming| - 1], all); }
  }

  // ----- The top of a ranking -------------------------------------------------------------------

  predicate Ordered(top: seq<Hit>) {
    forall i, j :: 0 <= i < j < |top| ==> Above(top[i], top[j])
  }

  /** The highest-ranked hits, in order, as many as allowed. */
  ghost predicate TopOf(m: Best, limit: nat, top: seq<Hit>) {
    && Ordered(top) && |top| == SmallerOf(limit, |m|)
    && (forall h :: h in top ==> h.id in m && m[h.id] == h)
    && (forall id, h :: id in m && m[id] !in top && h in top ==> Above(h, m[id]))
  }

  /** The ranking leaves no choice. */
  lemma TopIsUnique(m: Best, limit: nat, all: seq<Candidate>, s: seq<Hit>, t: seq<Hit>)
    requires Distinct(all) && From(m, all) && TopOf(m, limit, s) && TopOf(m, limit, t)
    ensures s == t
  {
    var i := 0;
    while i < |s|
      invariant 0 <= i <= |s| && s[..i] == t[..i]
    {
      if s[i] != t[i] {
        assert s[i] in s && t[i] in t;
        assert Scored(s[i]) in all && Scored(t[i]) in all && s[i].id != t[i].id;
        AboveTotal(s[i], t[i]);
        if Above(s[i], t[i]) {
          NotLater(m, limit, s, t, i);
        } else {
          NotLater(m, limit, t, s, i);
        }
        assert false;
      }
      i := i + 1;
    }
  }

  lemma NotLater(m: Best, limit: nat, s: seq<Hit>, t: seq<Hit>, i: nat)
    requires TopOf(m, limit, s) && TopOf(m, limit, t) && i < |s| && i < |t| && s[..i] == t[..i]
    ensures !Above(s[i], t[i])
  {
    if Above(s[i], t[i]) {
      assert s[i] in s;
      if j :| 0 <= j < |t| && t[j] == s[i] {
        if j < i {
          assert s[j] == t[j];
          assert Above(s[j], s[i]);
        } else if j > i {
          assert Above(t[i], t[j]);
        }
        AboveAsymmetric(s[i], t[i]);
        AboveAsymmetric(s[i], s[i]);
      } else {
        assert t[i] in t && m[s[i].id] == s[i];
        assert Above(t[i], s[i]);
        AboveAsymmetric(s[i], t[i]);
      }
    }
  }

  // ----- Rounds that forget -----------------------------------------------------------------------

  /** What an earlier list stands for; of two entries for a chunk the last counts. */
  function Known(existing: seq<Candidate>): Best {
    if existing == [] then map[]
    else
      var before, last := Known(existing[..|existing| - 1]), existing[|existing| - 1];
      if last.Unscored? then before else before[last.hit.id := last.hit]
  }

  function AsCandidates(hits: seq<Hit>): seq<Candidate> {
    seq(|hits|, i requires 0 <= i < |hits| => Scored(hits[i]))
  }

  ghost function IdsOf(hits: seq<Hit>): set<string> { set h | h in hits :: h.id }

  lemma {:induction false} KnownIs(hits: seq<Hit>, m: Best, id: string)
    requires forall h :: h in hits ==> h.id in m && m[h.id] == h
    ensures At(Known(AsCandidates(hits)), id) == if id in IdsOf(hits) then At(m, id) else None
  {
    if hits != [] {
      var head, last := hits[..|hits| - 1], hits[|hits| - 1];
      KnownIs(head, m, id);
      assert AsCandidates(hits)[..|hits| - 1] == AsCandidates(head);
      assert hits == head + [last];
      assert IdsOf(hits) == IdsOf(head) + {last.id};
    }
  }

  lemma {:induction false} IdsCounted(hits: seq<Hit>)
    requires forall i, j :: 0 <= i < j < |hits| ==> hits[i].id != hits[j].id
    ensures |IdsOf(hits)| == |hits|
  {
    if hits != [] {
      var head, last := hits[..|hits| - 1], hits[|hits| - 1];
      IdsCounted(head);
      assert hits == head + [last];
      assert IdsOf(hits) == IdsOf(head) + {last.id};
    }
  }

  lemma TopCounted(m: Best, limit: nat, top: seq<Hit>)
    requires TopOf(m, limit, top)
    ensures |IdsOf(top)| == |top| && IdsOf(top) <= m.Keys
  {
    forall i, j | 0 <= i < j < |top|
      ensures top[i].id != top[j].id
    {
      assert top[i] in top && top[j] in top && Above(top[i], top[j]);
      AboveAsymmetric(top[i], top[j]);
    }
    IdsCounted(top);
  }

  /** As good as another hit of the same chunk, or better. */
  predicate NoWorse(a: Hit, b: Hit) { a.id == b.id && SamePlace(a, b) && a.score >= b.score }

  lemma NoWorseAbove(a: Hit, b: Hit, x: Hit, y: Hit)
    requires NoWorse(a, b) && Above(b, x) && (NoWorse(x, y) || Above(x, y))
    ensures Above(a, y)
  {
    if NoWorse(x, y) {
      assert Above(b, y);
    } else {
      AboveTransitive(b, x, y);
    }
  }

  /** A full list of hits, all above `x` and all improved, leaves no room for
      anything that is no better than `x`. */
  lemma CrowdedOut(n: Best, limit: nat, full: seq<Hit>, top: seq<Hit>, x: Hit, h: Hit)
    requires TopOf(n, limit, top) && |IdsOf(full)| == limit && (NoWorse(x, h) || Above(x, h))
    requires forall g :: g in full ==> g.id in n && NoWorse(n[g.id], g) && Above(g, x)
    ensures h !in top
  {
    if h in top {
      TopCounted(n, limit, top);
      forall id | id in IdsOf(full)
        ensures id in IdsOf(top) && id != h.id
      {
        var g :| g in full && g.id == id;
        NoWorseAbove(n[id], g, x, h);
        AboveAsymmetric(n[id], h);
        assert n[id] in top;
      }
      SmallerSet(IdsOf(full) + {h.id}, IdsOf(top));
    }
  }

  lemma {:induction false} SmallerSet<T>(a: set<T>, b: set<T>)
    requires a <= b
    ensures |a| <= |b|
  {
    if a != {} {
      var x :| x in a;
      SmallerSet(a - {x}, b - {x});
    }
  }

  /** What one more round makes of a chunk, with and without what an earlier
      round dropped. */
  lemma RoundAt(m: Best, limit: nat, kept: seq<Hit>, incoming: seq<Candidate>, all: seq<Candidate>, id: string)
    requires Distinct(all) && From(m, all) && (forall c :: c in incoming ==> c in all) && TopOf(m, limit, kept)
    ensures var full, less := At(Absorb(m, incoming), id), At(Absorb(Known(AsCandidates(kept)), incoming), id);
            full == less
            || (id in m && id !in IdsOf(kept) && full == At(m, id) && (less.Some? ==> NoWorse(m[id], less.value)))
    ensures id in IdsOf(kept) ==>
              var less := At(Absorb(Known(AsCandidates(kept)), incoming), id); less.Some? && NoWorse(less.value, m[id])
  {
    var known := Known(AsCandidates(kept));
    KnownIs(kept, m, id);
    AbsorbAt(m, incoming, id);
    AbsorbAt(known, incoming, id);
    AbsorbFrom(m, incoming, all);
    KnownFrom(kept, m, all);
    AbsorbFrom(known, incoming, all);
    if id in m { ImproveBeats(m[id], incoming, id); }
  }

  lemma KnownFrom(kept: seq<Hit>, m: Best, all: seq<Candidate>)
    requires From(m, all) && forall h :: h in kept ==> h.id in m && m[h.id] == h
    ensures From(Known(AsCandidates(kept)), all)
  {
    forall id | id in Known(AsCandidates(kept))
      ensures Known(AsCandidates(kept))[id].id == id && Scored(Known(AsCandidates(kept))[id]) in all
    {
      KnownIs(kept, m, id);
      assert At(Known(AsCandidates(kept)), id).Some?;
    }
  }

  /** Dropping what is not at the top between rounds changes nothing at the top. */
  lemma RoundsForgetNothing(
    m: Best, limit: nat, kept: seq<Hit>, incoming: seq<Candidate>, top: seq<Hit>, all: seq<Candidate>)
    requires Distinct(all) && From(m, all) && (forall c :: c in incoming ==> c in all)
    requires TopOf(m, limit, kept) && TopOf(Absorb(Known(AsCandidates(kept)), incoming), limit, top)
    ensures TopOf(Absorb(m, incoming), limit, top)
  {
    var full, less := Absorb(m, incoming), Absorb(Known(AsCandidates(kept)), incoming);
    forall h | h in top
      ensures h.id in full && full[h.id] == h
    {
      RoundAt(m, limit, kept, incoming, all, h.id);
      if At(full, h.id) != At(less, h.id) {
        DroppedStaysOut(m, limit, kept, incoming, top, all, h.id, h);
      }
    }
    forall id, h | id in full && full[id] !in top && h in top
      ensures Above(h, full[id])
    {
      RoundAt(m, limit, kept, incoming, all, id);
      if At(full, id) != At(less, id) {
        RoundAt(m, limit, kept, incoming, all, h.id);
        AbsorbFrom(m, incoming, all);
        assert full[h.id] == h && h.id != id;
        AboveTotal(h, full[id]) by { assert Scored(h) in all && Scored(full[id]) in all; }
        if Above(full[id], h) {
          DroppedStaysOut(m, limit, kept, incoming, top, all, id, h);
        }
      }
    }
    RoundsKeepCount(m, limit, kept, incoming, all);
  }

  /** A dropped chunk's hit keeps everything below it out of the top. */
  lemma DroppedStaysOut(
    m: Best, limit: nat, kept: seq<Hit>, incoming: seq<Candidate>, top: seq<Hit>, all: seq<Candidate>, id: string,
    h: Hit)
    requires Distinct(all) && From(m, all) && (forall c :: c in incoming ==> c in all)
    requires TopOf(m, limit, kept) && TopOf(Absorb(Known(AsCandidates(kept)), incoming), limit, top)
    requires id in m && id !in IdsOf(kept) && (NoWorse(m[id], h) || Above(m[id], h))
    ensures h !in top
  {
    var n := Absorb(Known(AsCandidates(kept)), incoming);
    TopCounted(m, limit, kept);
    assert m[id] !in kept;
    if |kept| < limit {
      SetsOfOneSize(IdsOf(kept), m.Keys);
    }
    forall g | g in kept
      ensures g.id in n && NoWorse(n[g.id], g) && Above(g, m[id])
    {
      RoundAt(m, limit, kept, incoming, all, g.id);
      assert g.id in IdsOf(kept);
    }
    CrowdedOut(n, limit, kept, top, m[id], h);
  }

  lemma {:induction false} SetsOfOneSize<T>(a: set<T>, b: set<T>)
    requires a <= b && |a| == |b|
    ensures a == b
  {
    if x :| x in b && x !in a {
      SmallerSet(a, b - {x});
    }
  }

  lemma RoundsKeepCount(m: Best, limit: nat, kept: seq<Hit>, incoming: seq<Candidate>, all: seq<Candidate>)
    requires Distinct(all) && From(m, all) && (forall c :: c in incoming ==> c in all) && TopOf(m, limit, kept)
    ensures SmallerOf(limit, |Absorb(m, incoming)|) == SmallerOf(limit, |Absorb(Known(AsCandidates(kept)), incoming)|)
  {
    var full, less := Absorb(m, incoming), Absorb(Known(AsCandidates(kept)), incoming);
    TopCounted(m, limit, kept);
    forall id: string
      ensures id in less ==> id in full
      ensures id in IdsOf(kept) ==> id in less
      ensures id in full ==> id in less || (id in m && id !in IdsOf(kept))
    {
      RoundAt(m, limit, kept, incoming, all, id);
    }
    assert less.Keys <= full.Keys;
    SmallerSet(less.Keys, full.Keys);
    SmallerSet(IdsOf(kept), less.Keys);
    if |kept| < limit {
      SetsOfOneSize(IdsOf(kept), m.Keys);
      assert full.Keys == less.Keys;
    }
  }

  // ----- The merge ------------------------------------------------------------------------------------

  function HitsOf(ranked: seq<RankedHit>): seq<Hit> {
    seq(|ranked|, i requires 0 <= i < |ranked| => ranked[i].hit)
  }

  /** The hits of a map from best to worst; places decide between equal scores. */
  method SortHits(m: Best, ghost all: seq<Candidate>) returns (sorted: seq<Hit>)
    requires forall id :: id in m ==> m[id].id == id
    ensures |sorted| == |m| && (forall h :: h in sorted <==> h.id in m && m[h.id] == h)
    ensures Distinct(all) && From(m, all) ==> Ordered(sorted)
  {
    sorted := [];
    var todo := m.Keys;
    while todo != {}
      invariant todo <= m.Keys && |sorted| + |todo| == |m.Keys|
      invariant forall h :: h in sorted <==> h.id in m && m[h.id] == h && h.id !in todo
      invariant forall i, j :: 0 <= i < j < |sorted| ==> sorted[i].id != sorted[j].id && !Above(sorted[j], sorted[i])
      decreases todo
    {
      var id :| id in todo;
      var at := 0;
      while at < |sorted| && !Above(m[id], sorted[at])
        invariant 0 <= at <= |sorted| && forall k :: 0 <= k < at ==> !Above(m[id], sorted[k])
      {
        at := at + 1;
      }
      forall k | 0 <= k < |sorted|
        ensures sorted[k].id != id
      {
        assert sorted[k] in sorted;
      }
      InsertionKeepsOrder(sorted, at, m[id]);
      sorted := sorted[..at] + [m[id]] + sorted[at..];
      todo := todo - {id};
    }
    if Distinct(all) && From(m, all) {
      StrictOrder(sorted, m, all);
    }
  }

  lemma InsertionKeepsOrder(sorted: seq<Hit>, at: nat, h: Hit)
    requires at <= |sorted| && forall i, j :: 0 <= i < j < |sorted| ==>
             sorted[i].id != sorted[j].id && !Above(sorted[j], sorted[i])
    requires forall k :: 0 <= k < |sorted| ==> sorted[k].id != h.id
    requires forall k :: 0 <= k < at ==> !Above(h, sorted[k])
    requires at < |sorted| ==> Above(h, sorted[at])
    ensures var longer := sorted[..at] + [h] + sorted[at..];
            (forall i, j :: 0 <= i < j < |longer| ==> longer[i].id != longer[j].id && !Above(longer[j], longer[i]))
            && forall x :: x in longer <==> x in sorted || x == h
  {
    forall k | at <= k < |sorted|
      ensures !Above(sorted[k], h)
    {
      if k == at {
        AboveAsymmetric(h, sorted[at]);
      } else if Above(sorted[k], h) {
        AboveTransitive(sorted[k], h, sorted[at]);
      }
    }
    assert sorted == sorted[..at] + sorted[at..];
  }

  lemma StrictOrder(sorted: seq<Hit>, m: Best, all: seq<Candidate>)
    requires Distinct(all) && From(m, all) && forall h :: h in sorted ==> h.id in m && m[h.id] == h
    requires forall i, j :: 0 <= i < j < |sorted| ==> sorted[i].id != sorted[j].id && !Above(sorted[j], sorted[i])
    ensures Ordered(sorted)
  {
    forall i, j | 0 <= i < j < |sorted|
      ensures Above(sorted[i], sorted[j])
    {
      assert sorted[i] in sorted && sorted[j] in sorted;
      assert Scored(sorted[i]) in all && Scored(sorted[j]) in all;
      AboveTotal(sorted[i], sorted[j]);
    }
  }

  // ----- Which hit counts for a chunk ----------------------------------------------------------------

  predicate HitOf(c: Candidate, id: string) { c.Scored? && c.hit.id == id }

  /** No hit of the chunk scores higher, and no earlier one as high. */
  ghost predicate FirstBest(h: Hit, list: seq<Candidate>) {
    exists i :: 0 <= i < |list| && list[i] == Scored(h)
      && forall j :: 0 <= j < |list| && HitOf(list[j], h.id) ==>
           list[j].hit.score <= h.score && (j < i ==> list[j].hit.score < h.score)
  }

  /** The last entry a list holds for the chunk. */
  ghost predicate LastOf(h: Hit, list: seq<Candidate>) {
    exists i :: 0 <= i < |list| && list[i] == Scored(h) && forall j :: i < j < |list| ==> !HitOf(list[j], h.id)
  }

  /** The hit that counts once a round is merged into a list: the listed one
      unless the round has a better one, then the round's first best. */
  ghost predicate Wins(h: Hit, existing: seq<Candidate>, incoming: seq<Candidate>) {
    (LastOf(h, existing) && forall c :: c in incoming && HitOf(c, h.id) ==> c.hit.score <= h.score)
    || (FirstBest(h, incoming) && forall g :: LastOf(g, existing) && g.id == h.id ==> g.score < h.score)
  }

  ghost function Winners(
    existing: seq<Candidate>, incoming: seq<Candidate>): iset<Hit> { iset h: Hit | Wins(h, existing, incoming) }

  ghost function BestHits(list: seq<Candidate>): iset<Hit> { iset h: Hit | FirstBest(h, list) }

  /** The highest-ranked of the hits that count, as many as allowed. */
  ghost predicate TopAmong(counting: iset<Hit>, limit: nat, top: seq<Hit>) {
    && Ordered(top) && |top| <= limit && (forall h :: h in top ==> h in counting)
    && forall h :: h in counting && h !in top ==> |top| == limit && forall g :: g in top ==> Above(g, h)
  }

  lemma FirstBestStays(h: Hit, list: seq<Candidate>, c: Candidate)
    requires FirstBest(h, list) && (HitOf(c, h.id) ==> c.hit.score <= h.score)
    ensures FirstBest(h, list + [c])
  {
    var longer := list + [c];
    var i :| 0 <= i < |list| && list[i] == Scored(h)
      && forall j :: 0 <= j < |list| && HitOf(list[j], h.id) ==>
           list[j].hit.score <= h.score && (j < i ==> list[j].hit.score < h.score);
    assert longer[i] == Scored(h) && forall j :: 0 <= j < |list| ==> longer[j] == list[j];
  }

  lemma NewIsFirstBest(h: Hit, list: seq<Candidate>)
    requires forall c :: c in list && HitOf(c, h.id) ==> c.hit.score < h.score
    ensures FirstBest(h, list + [Scored(h)])
  {
    var longer := list + [Scored(h)];
    assert longer[|list|] == Scored(h) && forall j :: 0 <= j < |list| ==> longer[j] in list;
  }

  lemma {:induction false} ImproveIs(list: seq<Candidate>, id: string)
    ensures match Improve(None, list, id)
            case None => forall c :: c in list ==> !HitOf(c, id)
            case Some(h) => h.id == id && FirstBest(h, list)
  {
    if list != [] {
      hide FirstBest;
      var n := |list| - 1;
      var before := Improve(None, list[..n], id);
      ImproveIs(list[..n], id);
      assert list == list[..n] + [list[n]];
      if before.Some? { BestIsThere(before.value, list[..n]); }
      if HitOf(list[n], id) && (before.Some? ==> before.value.score < list[n].hit.score) {
        NewIsFirstBest(list[n].hit, list[..n]);
      } else if before.Some? {
        FirstBestStays(before.value, list[..n], list[n]);
      }
    }
  }

  lemma OneFirstBest(a: Hit, b: Hit, list: seq<Candidate>)
    requires FirstBest(a, list) && FirstBest(b, list) && a.id == b.id
    ensures a == b
  {
  }

  lemma {:induction false} KnownAt(existing: seq<Candidate>, id: string)
    ensures match At(Known(existing), id)
            case None => forall c :: c in existing ==> !HitOf(c, id)
            case Some(h) => h.id == id && LastOf(h, existing)
  {
    if existing != [] {
      var n := |existing| - 1;
      KnownAt(existing[..n], id);
      assert existing == existing[..n] + [existing[n]];
      if At(Known(existing), id).Some? && !HitOf(existing[n], id) {
        var h := At(Known(existing), id).value;
        var i :| 0 <= i < n && existing[..n][i] == Scored(h) && forall j :: i < j < n ==>
            !HitOf(existing[..n][j], h.id);
        assert existing[i] == Scored(h) && forall j :: 0 <= j < n ==> existing[j] == existing[..n][j];
      }
    }
  }

  lemma OneLast(a: Hit, b: Hit, list: seq<Candidate>)
    requires LastOf(a, list) && LastOf(b, list) && a.id == b.id
    ensures a == b
  {
  }

  /** The map of the merge holds exactly the hits that count. */
  lemma WinsAt(existing: seq<Candidate>, incoming: seq<Candidate>, h: Hit)
    ensures At(Absorb(Known(existing), incoming), h.id) == Some(h) <==> Wins(h, existing, incoming)
  {
    var known, alone := At(Known(existing), h.id), Improve(None, incoming, h.id);
    AbsorbAt(Known(existing), incoming, h.id);
    KnownAt(existing, h.id);
    ImproveIs(incoming, h.id);
    if known.Some? { ImproveBeats(known.value, incoming, h.id); }
    hide LastOf, FirstBest;
    forall g | LastOf(g, existing) && g.id == h.id
      ensures known == Some(g)
    {
      LastIsThere(g, existing);
      OneLast(g, known.value, existing);
    }
    forall g | FirstBest(g, incoming) && g.id == h.id
      ensures alone == Some(g)
    {
      BestIsThere(g, incoming);
      OneFirstBest(g, alone.value, incoming);
    }
    if alone.Some? { BestIsThere(alone.value, incoming); }
  }

  lemma LastIsThere(g: Hit, list: seq<Candidate>)
    requires LastOf(g, list)
    ensures Scored(g) in list
  {
  }

  lemma BestIsThere(g: Hit, list: seq<Candidate>)
    requires FirstBest(g, list)
    ensures Scored(g) in list && forall c :: c in list && HitOf(c, g.id) ==> c.hit.score <= g.score
  {
  }

  lemma TopIsAmong(m: Best, counting: iset<Hit>, limit: nat, top: seq<Hit>)
    requires TopOf(m, limit, top) && forall h :: h in counting <==> At(m, h.id) == Some(h)
    requires forall id :: id in m ==> m[id].id == id
    ensures TopAmong(counting, limit, top)
  {
    forall h | h in counting && h !in top
      ensures |top| == limit && forall g :: g in top ==> Above(g, h)
    {
      assert m[h.id] == h;
      if |top| < limit { NothingLeft(m, limit, top); }
    }
  }

  /** A list that is not full holds everything. */
  lemma NothingLeft(m: Best, limit: nat, top: seq<Hit>)
    requires TopOf(m, limit, top) && |top| < limit
    ensures forall id :: id in m ==> m[id] in top
  {
    TopCounted(m, limit, top);
    SetsOfOneSize(IdsOf(top), m.Keys);
    forall id | id in m
      ensures m[id] in top
    {
      assert id in IdsOf(top);
    }
  }

  /** Best hit of each chunk, ranked, cut off and numbered from one. */
  method MergeRankedHits(existing: seq<Candidate>, incoming: seq<Candidate>, limit: nat) returns (r: seq<RankedHit>)
    ensures |r| == SmallerOf(limit, |Absorb(Known(existing), incoming)|)
    ensures forall h :: h in HitsOf(r) ==> Wins(h, existing, incoming)
    ensures Distinct(existing + incoming) ==> TopAmong(Winners(existing, incoming), limit, HitsOf(r))
    ensures forall i :: 0 <= i < |r| ==> r[i].rank == i + 1
    ensures Distinct(existing + incoming) ==> TopOf(Absorb(Known(existing), incoming), limit, HitsOf(r))
    // By falling score, then by name, then by place, and so is what was left out.
    ensures Distinct(existing + incoming) ==>
              && (forall i, j :: 0 <= i < j < |r| ==> ListedBefore(r[i].hit, r[j].hit))
              && forall h, g :: Wins(h, existing, incoming) && h !in HitsOf(r) && g in HitsOf(r) ==>
                   ListedBefore(g, h)
  {
    var m: Best := map[];
    for n := 0 to |existing|
      invariant m == Known(existing[..n])
    {
      assert existing[..n + 1][..n] == existing[..n];
      if existing[n].Scored? {
        m := m[existing[n].hit.id := existing[n].hit];
      }
    }
    assert existing[..|existing|] == existing;
    for n := 0 to |incoming|
      invariant m == Absorb(Known(existing), incoming[..n])
    {
      assert incoming[..n + 1][..n] == incoming[..n];
      if incoming[n].Scored? {
        var h := incoming[n].hit;
        if h.id !in m || h.score > m[h.id].score {
          m := m[h.id := h];
        }
      }
    }
    assert incoming[..|incoming|] == incoming;
    ghost var all := existing + incoming;
    ExistingFrom(existing, all);
    AbsorbFrom(Known(existing), incoming, all);
    var sorted := SortHits(m, all);
    var top := sorted[..SmallerOf(limit, |sorted|)];
    if Distinct(all) { CutIsTop(m, limit, sorted); }
    r := seq(|top|, i requires 0 <= i < |top| => RankedHit(top[i], i + 1));
    assert HitsOf(r) == top;
    MergedAreWinners(existing, incoming, m);
    hide Wins, TopAmong, Absorb, Known;
    if Distinct(all) {
      TopIsAmong(m, Winners(existing, incoming), limit, top);
      hide Above, TopOf, ListedBefore;
      ListedInOrder(existing, incoming, limit, top);
    }
  }

  /** The names part at some place, where the first has the lesser character or ends. */
  ghost predicate NameBefore(a: Hit, b: Hit) { exists k :: LessAt(a.sourceName, b.sourceName, k) }

  ghost predicate ListedBefore(a: Hit, b: Hit) {
    && a.score >= b.score && (a.score == b.score ==> !NameBefore(b, a))
    && (a.score == b.score && !NameBefore(a, b) ==> a.index < b.index)
  }

  lemma AboveIsBefore(a: Hit, b: Hit)
    requires Above(a, b)
    ensures ListedBefore(a, b)
  {
    FirstDifference(a.sourceName, b.sourceName);
    FirstDifference(b.sourceName, a.sourceName);
    StringLessAsymmetric(a.sourceName, b.sourceName);
  }

  lemma ListedInOrder(existing: seq<Candidate>, incoming: seq<Candidate>, limit: nat, top: seq<Hit>)
    requires TopAmong(Winners(existing, incoming), limit, top)
    ensures forall i, j :: 0 <= i < j < |top| ==> ListedBefore(top[i], top[j])
    ensures forall h, g :: Wins(h, existing, incoming) && h !in top && g in top ==> ListedBefore(g, h)
  {
    hide Above, ListedBefore, Wins;
    forall a, b | Above(a, b)
      ensures ListedBefore(a, b)
    {
      AboveIsBefore(a, b);
    }
    assert forall h :: Wins(h, existing, incoming) <==> h in Winners(existing, incoming);
  }

  lemma MergedAreWinners(existing: seq<Candidate>, incoming: seq<Candidate>, m: Best)
    requires m == Absorb(Known(existing), incoming)
    ensures forall h: Hit :: At(m, h.id) == Some(h) <==> Wins(h, existing, incoming)
  {
    forall h: Hit
      ensures At(m, h.id) == Some(h) <==> Wins(h, existing, incoming)
    {
      WinsAt(existing, incoming, h);
    }
  }

  lemma {:induction false} ExistingFrom(existing: seq<Candidate>, all: seq<Candidate>)
    requires forall c :: c in existing ==> c in all
    ensures From(Known(existing), all)
  {
    if existing != [] { ExistingFrom(existing[..|existing| - 1], all); }
  }

  lemma CutIsTop(m: Best, limit: nat, sorted: seq<Hit>)
    requires Ordered(sorted) && |sorted| == |m| && (forall h :: h in sorted <==> h.id in m && m[h.id] == h)
    requires forall id :: id in m ==> m[id].id == id
    ensures TopOf(m, limit, sorted[..SmallerOf(limit, |sorted|)])
  {
    var top := sorted[..SmallerOf(limit, |sorted|)];
    forall id, h | id in m && m[id] !in top && h in top
      ensures Above(h, m[id])
    {
      assert m[id] in sorted;
      var j :| 0 <= j < |sorted| && sorted[j] == m[id];
      var i :| 0 <= i < |top| && top[i] == h;
      assert Above(sorted[i], sorted[j]);
    }
  }

  /** Round after round, each merged into what the earlier ones left, comes to
      the same list as one merge of everything that was ever found. */
  method MergeRounds(rounds: seq<seq<Candidate>>, limit: nat) returns (r: seq<RankedHit>)
    requires Distinct(Flatten(rounds))
    // The first best hit of each chunk, over all rounds, from best to worst.
    ensures TopAmong(BestHits(Flatten(rounds)), limit, HitsOf(r))
    ensures TopOf(Absorb(map[], Flatten(rounds)), limit, HitsOf(r))
    ensures forall once: seq<Hit> :: TopOf(Absorb(map[], Flatten(rounds)), limit, once) ==> once == HitsOf(r)
    ensures forall i :: 0 <= i < |r| ==> r[i].rank == i + 1
  {
    ghost var all := Flatten(rounds);
    r := [];
    for n := 0 to |rounds|
      invariant n > 0 || r == []
      invariant TopOf(Absorb(map[], Flatten(rounds[..n])), limit, HitsOf(r))
      invariant forall i :: 0 <= i < |r| ==> r[i].rank == i + 1
    {
      ghost var found, m := Flatten(rounds[..n]), Absorb(map[], Flatten(rounds[..n]));
      assert rounds[..n + 1] == rounds[..n] + [rounds[n]];
      FlattenPush(rounds[..n], rounds[n]);
      FlattenHas(rounds, n);
      AbsorbFrom(map[], found, all);
      ghost var kept := HitsOf(r);
      var existing := AsCandidates(HitsOf(r));
      r := MergeRankedHits(existing, rounds[n], limit);
      DistinctPart(existing + rounds[n], all) by {
        assert forall h :: h in kept ==> Scored(h) in all;
      }
      RoundsForgetNothing(m, limit, kept, rounds[n], HitsOf(r), all);
      AbsorbBoth(map[], found, rounds[n]);
    }
    assert rounds[..|rounds|] == rounds;
    AbsorbFrom(map[], all, all);
    BestOverall(all, limit, HitsOf(r));
    forall once: seq<Hit> | TopOf(Absorb(map[], all), limit, once)
      ensures once == HitsOf(r)
    {
      TopIsUnique(Absorb(map[], all), limit, all, once, HitsOf(r));
    }
  }

  lemma BestOverall(all: seq<Candidate>, limit: nat, top: seq<Hit>)
    requires TopOf(Absorb(map[], all), limit, top)
    ensures TopAmong(BestHits(all), limit, top)
  {
    MergedAreWinners([], all, Absorb(map[], all));
    assert forall h: Hit :: Wins(h, [], all) <==> FirstBest(h, all);
    hide Wins, FirstBest;
    AbsorbFrom(map[], all, all);
    TopIsAmong(Absorb(map[], all), BestHits(all), limit, top);
  }

  lemma DistinctPart(some: seq<Candidate>, all: seq<Candidate>)
    requires Distinct(all) && forall c :: c in some ==> c in all
    ensures Distinct(some)
  {
  }

  lemma {:induction false} FlattenHas(rounds: seq<seq<Candidate>>, n: nat)
    requires n < |rounds|
    ensures forall c :: c in Flatten(rounds[..n]) || c in rounds[n] ==> c in Flatten(rounds)
    decreases |rounds|
  {
    var m := |rounds| - 1;
    if n < m {
      FlattenHas(rounds[..m], n);
      assert rounds[..m][..n] == rounds[..n];
    }
  }
}
