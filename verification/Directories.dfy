/** Which managed directories a deployment has to create, and in what order. */
module Directories {
  import opened Wrappers
  import opened Disk
  import opened TextOrder

  /** A managed directory as the plan found it; `original` is absent when it is
      to be created. */
  datatype DirectoryMutation = DirectoryMutation(path: Path, original: Option<Authority>)

  function MutationFor(t: Tree, p: Path): DirectoryMutation {
    DirectoryMutation(p, if p in t then Some(t[p].auth) else None)
  }

  /** The path itself or its closest ancestor that exists. */
  function Nearest(t: Tree, p: Path): (r: Option<Path>)
    ensures r.Some? ==> r.value in t && r.value <= p
    decreases |p|
  {
    if p in t then Some(p) else if p == [] then None else Nearest(t, Parent(p))
  }

  /** Bits 0022 of a mode. */
  predicate WritableByOthers(mode: nat) {
    mode / 2 % 2 == 1 || mode / 16 % 2 == 1
  }

  /** An octal digit of a mode that permits writing. */
  predicate Writes(digit: nat) { digit in {2, 3, 6, 7} }

  lemma Quotient(n: nat, q: nat, rest: nat, d: nat)
    requires n == d * q + rest && rest < d && d in {2, 16}
    ensures n / d == q
  {
  }

  /** The second bit of an octal digit. */
  lemma SecondBit(digit: nat)
    requires digit < 8
    ensures digit / 2 % 2 == 1 <==> digit in {2, 3, 6, 7}
  {
  }

  lemma EvenAdded(k: nat, x: nat)
    ensures (2 * k + x) % 2 == x % 2
  {
  }

  /** In octal digits: those of the group and of the others. */
  lemma WritableDigits(s: nat, u: nat, g: nat, o: nat)
    requires u < 8 && g < 8 && o < 8
    ensures WritableByOthers(512 * s + 64 * u + 8 * g + o) <==> g in {2, 3, 6, 7} || o in {2, 3, 6, 7}
  {
    var mode, k, l := 512 * s + 64 * u + 8 * g + o, 128 * s + 16 * u + 2 * g, 16 * s + 2 * u;
    var half, rest, lower, odd := g / 2, g % 2, o / 2, o % 2;
    assert g == 2 * half + rest && o == 2 * lower + odd;
    Quotient(mode, 2 * k + lower, odd, 2);
    Quotient(mode, 2 * l + half, 8 * rest + o, 16);
    EvenAdded(k, lower);
    EvenAdded(l, half);
    SecondBit(g);
    SecondBit(o);
  }

  lemma ModeDigits(mode: nat)
    ensures WritableByOthers(mode) <==> Writes(mode / 8 % 8) || Writes(mode % 8)
  {
    var a, o := mode / 8, mode % 8;
    var b, g := a / 8, a % 8;
    WritableDigits(b / 8, b % 8, g, o);
  }

  /** `a` is what exists of a target, as far as it exists. */
  ghost predicate Closest(t: Tree, target: Path, a: Path) {
    a <= target && a in t && forall p :: p <= target && p in t ==> p <= a
  }

  /** A target can be used or created: what exists of it is the account's own
      directory, and nothing is to be created where others may write. */
  ghost predicate CanBeMade(t: Tree, target: Path, a: Path, uid: nat, gid: nat) {
    && Closest(t, target, a)
    && t[a].kind == Directory && t[a].auth.uid == uid && t[a].auth.gid == gid
    && (target in t || !(Writes(t[a].auth.mode / 8 % 8) || Writes(t[a].auth.mode % 8)))
  }

  ghost predicate Makeable(t: Tree, target: Path, uid: nat, gid: nat) {
    exists a :: CanBeMade(t, target, a, uid, gid)
  }

  lemma {:induction false} NearestIsClosest(t: Tree, target: Path)
    ensures match Nearest(t, target)
            case None => forall p :: p <= target ==> p !in t
            case Some(a) => Closest(t, target, a)
    decreases |target|
  {
    if target !in t && target != [] {
      NearestIsClosest(t, Parent(target));
      forall p | p <= target && p in t
        ensures p <= Parent(target)
      {
        assert p != target;
      }
    }
  }

  lemma UsableExactly(t: Tree, target: Path, uid: nat, gid: nat)
    ensures Usable(t, target, uid, gid) <==> Makeable(t, target, uid, gid)
  {
    hide WritableByOthers;
    NearestIsClosest(t, target);
    match Nearest(t, target)
    case None =>
    case Some(n) =>
      ModeDigits(t[n].auth.mode);
      forall a | CanBeMade(t, target, a, uid, gid)
        ensures a == n
      {
        assert a <= n && n <= a;
      }
      assert CanBeMade(t, target, n, uid, gid) <==> Usable(t, target, uid, gid);
  }

  predicate Usable(t: Tree, target: Path, uid: nat, gid: nat) {
    match Nearest(t, target)
    case None => false
    case Some(a) =>
      t[a].kind == Directory && t[a].auth.uid == uid && t[a].auth.gid == gid
      && (a != target ==> !WritableByOthers(t[a].auth.mode))
  }

  /** Every target, and every missing directory on the way to one. */
  ghost predicate Needed(t: Tree, targets: seq<Path>, p: Path) {
    exists k | 0 <= k < |targets| :: targets[k] == p || (p !in t && p <= targets[k])
  }

  // ----- Order -----------------------------------------------------------------------

  function Posix(p: Path): string {
    if p == [] then "" else Posix(Parent(p)) + "/" + p[|p| - 1]
  }

  /** By depth, then by name. */
  predicate KeyLess(p: Path, q: Path) {
    |p| < |q| || (|p| == |q| && StringLess(Posix(p), Posix(q)))
  }

  lemma KeyLessTransitive(p: Path, q: Path, s: Path)
    requires KeyLess(p, q) && KeyLess(q, s)
    ensures KeyLess(p, s)
  {
    if |p| == |q| == |s| {
      StringLessTransitive(Posix(p), Posix(q), Posix(s));
    }
  }

  ghost predicate ByDepth(list: seq<DirectoryMutation>) {
    forall i, j :: 0 <= i < j < |list| ==> list[i].path != list[j].path && !KeyLess(list[j].path, list[i].path)
  }

  /** Sorting by insertion. */
  method SortByDepth(list: seq<DirectoryMutation>) returns (sorted: seq<DirectoryMutation>)
    requires forall i, j :: 0 <= i < j < |list| ==> list[i].path != list[j].path
    ensures ByDepth(sorted) && forall m :: m in sorted <==> m in list
    ensures forall i, j :: 0 <= i < j < |sorted| ==>
              |sorted[i].path| < |sorted[j].path|
              || (|sorted[i].path| == |sorted[j].path| && !StringLess(Posix(sorted[j].path), Posix(sorted[i].path)))
  {
    sorted := [];
    for n := 0 to |list|
      invariant ByDepth(sorted) && forall m :: m in sorted <==> m in list[..n]
    {
      var at := 0;
      while at < |sorted| && !KeyLess(list[n].path, sorted[at].path)
        invariant 0 <= at <= |sorted|
        invariant forall k :: 0 <= k < at ==> !KeyLess(list[n].path, sorted[k].path)
      {
        at := at + 1;
      }
      forall k | 0 <= k < |sorted|
        ensures sorted[k].path != list[n].path
      {
        assert sorted[k] in list[..n];
      }
      InsertionKeepsDepth(sorted, at, list[n]);
      assert list[..n + 1] == list[..n] + [list[n]];
      sorted := sorted[..at] + [list[n]] + sorted[at..];
    }
    assert list[..|list|] == list;
  }

  lemma InsertionKeepsDepth(sorted: seq<DirectoryMutation>, at: nat, m: DirectoryMutation)
    requires ByDepth(sorted) && at <= |sorted|
    requires forall k :: 0 <= k < |sorted| ==> sorted[k].path != m.path
    requires forall k :: 0 <= k < at ==> !KeyLess(m.path, sorted[k].path)
    requires at < |sorted| ==> KeyLess(m.path, sorted[at].path)
    ensures ByDepth(sorted[..at] + [m] + sorted[at..])
    ensures forall x :: x in sorted[..at] + [m] + sorted[at..] <==> x in sorted || x == m
  {
    forall k | at <= k < |sorted|
      ensures !KeyLess(sorted[k].path, m.path)
    {
      if k == at {
        Irreflexive(m.path, sorted[at].path);
      } else if KeyLess(sorted[k].path, m.path) {
        KeyLessTransitive(sorted[k].path, m.path, sorted[at].path);
      }
    }
    assert sorted == sorted[..at] + sorted[at..];
  }

  lemma Irreflexive(p: Path, q: Path)
    ensures !(KeyLess(p, q) && KeyLess(q, p))
  {
    StringLessAsymmetric(Posix(p), Posix(q));
  }

  // ----- The plan ---------------------------------------------------------------------

  /** What the plan comes to: exactly the needed directories, each as found,
      parents before children. */
  ghost predicate DirectoriesPlanned(t: Tree, targets: seq<Path>, uid: nat, gid: nat, list: seq<DirectoryMutation>) {
    && (forall k :: 0 <= k < |targets| ==> Usable(t, targets[k], uid, gid))
    && (forall m :: m in list <==> m == MutationFor(t, m.path) && Needed(t, targets, m.path))
    && ByDepth(list)
  }

  /** The missing directories on the way to a target, deepest first; absent when
      not even the root exists. */
  method MissingAncestors(t: Tree, target: Path) returns (missing: Option<seq<Path>>)
    ensures missing.Some? == Nearest(t, target).Some?
    ensures missing.Some? ==>
              |missing.value| <= |target| && Nearest(t, target) == Some(target[..|target| - |missing.value|])
              && forall k :: 0 <= k < |missing.value| ==>
                 missing.value[k] == target[..|target| - k] && missing.value[k] !in t
  {
    var list, current := [], target;
    while current !in t
      invariant |list| <= |target| && current == target[..|target| - |list|]
      invariant Nearest(t, target) == Nearest(t, current)
      invariant forall k :: 0 <= k < |list| ==> list[k] == target[..|target| - k] && list[k] !in t
      decreases |current|
    {
      list := list + [current];
      if current == [] {
        return None;
      }
      current := Parent(current);
    }
    return Some(list);
  }

  /** A directory already listed keeps its entry. */
  method SetDefault(list: seq<DirectoryMutation>, m: DirectoryMutation) returns (longer: seq<DirectoryMutation>)
    requires forall i, j :: 0 <= i < j < |list| ==> list[i].path != list[j].path
    requires forall i :: 0 <= i < |list| && list[i].path == m.path ==> list[i] == m
    ensures forall i, j :: 0 <= i < j < |longer| ==> longer[i].path != longer[j].path
    ensures forall x :: x in longer <==> x in list || x == m
  {
    for i := 0 to |list|
      invariant forall k :: 0 <= k < i ==> list[k].path != m.path
    {
      if list[i].path == m.path {
        return list;
      }
    }
    return list + [m];
  }

  lemma {:induction false} PrefixExists(t: Tree, p: Path, q: Path)
    requires ParentClosed(t) && q in t && p <= q
    ensures p in t
    decreases |q|
  {
    if p != q {
      assert p <= Parent(q);
      PrefixExists(t, p, Parent(q));
    }
  }

  lemma NeededBy(t: Tree, targets: seq<Path>, n: nat, missing: seq<Path>, p: Path)
    requires ParentClosed(t) && n < |targets| && |missing| <= |targets[n]|
    requires targets[n][..|targets[n]| - |missing|] in t
    requires forall k :: 0 <= k < |missing| ==> missing[k] == targets[n][..|targets[n]| - k] && missing[k] !in t
    ensures Needed(t, targets[..n + 1], p) <==>
            Needed(t, targets[..n], p) || (if missing == [] then p == targets[n] else p in missing)
  {
    var target, a := targets[n], targets[n][..|targets[n]| - |missing|];
    assert forall k :: 0 <= k < n ==> targets[..n + 1][k] == targets[..n][k];
    assert targets[..n + 1][n] == target;
    if p !in t && p <= target {
      if |p| <= |a| {
        assert p <= a;
        PrefixExists(t, p, a);
      } else {
        assert missing[|target| - |p|] == p;
      }
    }
    if missing != [] {
      assert missing[0] == target;
    }
  }

  method DirectoryPlan(t: Tree, targets: seq<Path>, uid: nat, gid: nat) returns (r: Option<seq<DirectoryMutation>>)
    requires ParentClosed(t)
    ensures r.Some? <==> forall k :: 0 <= k < |targets| ==> Usable(t, targets[k], uid, gid)
    ensures r.Some? <==> forall k :: 0 <= k < |targets| ==> Makeable(t, targets[k], uid, gid)
    ensures r.Some? ==> DirectoriesPlanned(t, targets, uid, gid, r.value)
    // Nothing is created where the group or others may write.
    ensures r.Some? ==> forall m, a :: m in r.value && m.original.None? && Closest(t, m.path, a) ==>
                          !Writes(t[a].auth.mode / 8 % 8) && !Writes(t[a].auth.mode % 8)
  {
    AllUsable(t, targets, uid, gid);
    var list: seq<DirectoryMutation> := [];
    for n := 0 to |targets|
      invariant forall i, j :: 0 <= i < j < |list| ==> list[i].path != list[j].path
      invariant forall k :: 0 <= k < n ==> Usable(t, targets[k], uid, gid)
      invariant forall m :: m in list <==> m == MutationFor(t, m.path) && Needed(t, targets[..n], m.path)
    {
      var target := targets[n];
      var missing := MissingAncestors(t, target);
      if missing.None? {
        return None;
      }
      var a := target[..|target| - |missing.value|];
      if t[a].kind != Directory || t[a].auth.uid != uid || t[a].auth.gid != gid
         || (missing.value != [] && WritableByOthers(t[a].auth.mode)) {
        return None;
      }
      list := AddMissing(t, targets, n, list, missing.value);
    }
    assert targets[..|targets|] == targets;
    var sorted := SortByDepth(list);
    forall m, a | m in sorted && m.original.None? && Closest(t, m.path, a)
      ensures !Writes(t[a].auth.mode / 8 % 8) && !Writes(t[a].auth.mode % 8)
    {
      CreatedInPrivate(t, targets, uid, gid, m, a);
    }
    return Some(sorted);
  }

  lemma AllUsable(t: Tree, targets: seq<Path>, uid: nat, gid: nat)
    ensures (forall k :: 0 <= k < |targets| ==> Usable(t, targets[k], uid, gid))
       <==> forall k :: 0 <= k < |targets| ==> Makeable(t, targets[k], uid, gid)
  {
    hide Usable, Makeable;
    forall k | 0 <= k < |targets|
      ensures Usable(t, targets[k], uid, gid) <==> Makeable(t, targets[k], uid, gid)
    {
      UsableExactly(t, targets[k], uid, gid);
    }
  }

  /** What exists of a missing directory is what exists of the target it is for. */
  lemma CreatedInPrivate(t: Tree, targets: seq<Path>, uid: nat, gid: nat, m: DirectoryMutation, a: Path)
    requires ParentClosed(t) && forall k :: 0 <= k < |targets| ==> Usable(t, targets[k], uid, gid)
    requires m == MutationFor(t, m.path) && Needed(t, targets, m.path) && m.original.None? && Closest(t, m.path, a)
    ensures !Writes(t[a].auth.mode / 8 % 8) && !Writes(t[a].auth.mode % 8)
  {
    var k :| 0 <= k < |targets| && (targets[k] == m.path || (m.path !in t && m.path <= targets[k]));
    var target := targets[k];
    assert m.path !in t && m.path <= target && Usable(t, target, uid, gid);
    NearestIsClosest(t, target);
    var n := Nearest(t, target).value;
    if |n| >= |m.path| { PrefixExists(t, m.path, n); }
    if target in t { PrefixExists(t, m.path, target); }
    assert n <= m.path && a <= target;
    assert n == a;
    ModeDigits(t[n].auth.mode);
  }

  /** One target's entries: its missing directories, topmost first, or itself. */
  method AddMissing(t: Tree, targets: seq<Path>, n: nat, list: seq<DirectoryMutation>, missing: seq<Path>)
    returns (longer: seq<DirectoryMutation>)
    requires ParentClosed(t) && n < |targets| && |missing| <= |targets[n]|
    requires targets[n][..|targets[n]| - |missing|] in t
    requires forall k :: 0 <= k < |missing| ==> missing[k] == targets[n][..|targets[n]| - k] && missing[k] !in t
    requires forall i, j :: 0 <= i < j < |list| ==> list[i].path != list[j].path
    requires forall m :: m in list <==> m == MutationFor(t, m.path) && Needed(t, targets[..n], m.path)
    ensures forall i, j :: 0 <= i < j < |longer| ==> longer[i].path != longer[j].path
    ensures forall m :: m in longer <==> m == MutationFor(t, m.path) && Needed(t, targets[..n + 1], m.path)
  {
    longer := list;
    var k := |missing|;
    while k > 0
      invariant 0 <= k <= |missing|
      invariant forall i, j :: 0 <= i < j < |longer| ==> longer[i].path != longer[j].path
      invariant forall m :: m in longer <==>
                m in list || exists l | k <= l < |missing| :: m == MutationFor(t, missing[l])
    {
      k := k - 1;
      longer := SetDefault(longer, MutationFor(t, missing[k]));
    }
    if missing == [] {
      longer := SetDefault(longer, MutationFor(t, targets[n]));
    }
    forall m: DirectoryMutation
      ensures m in longer <==> m == MutationFor(t, m.path) && Needed(t, targets[..n + 1], m.path)
    {
      NeededBy(t, targets, n, missing, m.path);
    }
  }

  /** Nothing can be created before the directory it goes into: that is there,
      or comes earlier in the plan. */
  lemma ParentsComeFirst(t: Tree, targets: seq<Path>, uid: nat, gid: nat, list: seq<DirectoryMutation>, j: nat)
    requires ParentClosed(t) && DirectoriesPlanned(t, targets, uid, gid, list) && j < |list| && list[j].original.None?
    ensures var p := list[j].path;
            p != []
            && (IsDirectory(t, Parent(p)) || exists i :: 0 <= i < j && list[i] == DirectoryMutation(Parent(p), None))
  {
    var p := list[j].path;
    assert list[j] in list;
    var k :| 0 <= k < |targets| && (targets[k] == p || (p !in t && p <= targets[k]));
    var a := Nearest(t, targets[k]).value;
    NearestAbove(t, targets[k], p);
    if Parent(p) !in t {
      assert Parent(p) <= targets[k];
      assert MutationFor(t, Parent(p)) in list;
      var i :| 0 <= i < |list| && list[i] == MutationFor(t, Parent(p));
      assert KeyLess(list[i].path, p);
    }
  }

  lemma {:induction false} NearestAbove(t: Tree, target: Path, p: Path)
    requires ParentClosed(t) && p <= target && p !in t && Nearest(t, target).Some?
    ensures p != [] && (Parent(p) in t ==> Nearest(t, target) == Some(Parent(p)))
    decreases |target|
  {
    if target in t {
      PrefixExists(t, p, target);
    } else if p != target {
      assert p <= Parent(target);
      NearestAbove(t, Parent(target), p);
    }
  }
}
