/** The tree a deployment ends with, seen from the tree it was planned for. */
module FinalTree {
  import opened Wrappers
  import opened Disk
  import opened Operations
  import opened Journal
  import opened Environment
  import opened Transaction
  import opened Recovery
  import opened Secrets
  import opened Directories
  import opened Plan

  // ----- The companion's contents -----------------------------------------------------------

  function Suffixes(t: Tree, dir: Path): (r: set<Path>)
    ensures forall q :: q in r <==> q != [] && dir + q in t
  {
    var r := set p | p in t && Within(p, dir) :: p[|dir|..];
    assert forall q :: q != [] && dir + q in t ==> Within(dir + q, dir) && (dir + q)[|dir|..] == q;
    assert forall p :: p in t && Within(p, dir) ==> dir + p[|dir|..] == p;
    r
  }

  /** What a directory holds, by path below it. */
  function Holdings(t: Tree, dir: Path): Tree {
    map q | q in Suffixes(t, dir) :: t[dir + q]
  }

  lemma HoldingsAt(t: Tree, dir: Path, q: Path)
    requires q != []
    ensures Lookup(Holdings(t, dir), q) == Lookup(t, dir + q)
  {
  }

  lemma HoldingsPrivate(t: Tree, dir: Path)
    ensures CompanionPrivate(t, dir) <==> forall q :: q in Holdings(t, dir) ==> IsPrivate(Holdings(t, dir)[q])
  {
    forall q | q in Holdings(t, dir)
      ensures Within(dir + q, dir)
    {
    }
    forall p | p in t && Within(p, dir)
      ensures p == dir + p[|dir|..] && p[|dir|..] in Holdings(t, dir)
    {
    }
  }

  // ----- The whole tree -----------------------------------------------------------------------

  function Placed(t: Tree, p: Path, n: Option<Node>): Tree {
    match n
    case None => t
    case Some(node) => t[p := node]
  }

  /** A transaction's tree without its companion, and with the two directories
      around it as they are. */
  function Assembled(t: Tree, layout: Layout, root: Option<Node>, parent: Option<Node>): Tree {
    var rest := map p | p in t && !(layout.Companion() <= p) && p != layout.secretRoot
        && p != layout.CompanionParent() :: t[p];
    Placed(Placed(rest, layout.secretRoot, root), layout.CompanionParent(), parent)
  }

  lemma AssembledAt(t: Tree, layout: Layout, root: Option<Node>, parent: Option<Node>, p: Path)
    ensures Lookup(Assembled(t, layout, root, parent), p)
         == if p == layout.CompanionParent() then parent
            else if p == layout.secretRoot then root
            else if layout.Companion() <= p then None
            else Lookup(t, p)
  {
    assert |layout.CompanionParent()| == |layout.secretRoot| + 1;
  }

  lemma SameLookups(t: Tree, u: Tree)
    requires forall p :: Lookup(t, p) == Lookup(u, p)
    ensures t == u
  {
    forall p
      ensures p in t <==> p in u
      ensures p in t && p in u ==> t[p] == u[p]
    {
      assert Lookup(t, p) == Lookup(u, p);
    }
  }

  lemma BootstrappedAt(plan: Preparation, t: Tree, p: Path)
    requires !(plan.layout.Companion() <= p) && p != plan.layout.secretRoot && p != plan.layout.CompanionParent()
    ensures Lookup(Bootstrapped(t, plan.layout, plan.uid, plan.gid), p) == Lookup(t, p)
  {
  }

  /** With everything outside the companion given back, and both directories as
      they were found, the tree is the inspected one. */
  lemma UndoneIsInspected(plan: Preparation, t: Tree, targets: seq<Path>, rotate: bool, u: Tree)
    requires Made(plan, t, targets, rotate)
    requires Outside(u, plan.layout.Companion())
          == Outside(Bootstrapped(t, plan.layout, plan.uid, plan.gid), plan.layout.Companion())
    ensures Assembled(u, plan.layout, Lookup(t, plan.layout.secretRoot), Lookup(t, plan.layout.CompanionParent())) == t
  {
    var layout := plan.layout;
    var base, c := Bootstrapped(t, layout, plan.uid, plan.gid), layout.Companion();
    hide Bootstrapped, Assembled, DirectoriesPlanned;
    forall p
      ensures Lookup(Assembled(u, layout, Lookup(t, layout.secretRoot), Lookup(t, layout.CompanionParent())), p)
              == Lookup(t, p)
    {
      AssembledAt(u, layout, Lookup(t, layout.secretRoot), Lookup(t, layout.CompanionParent()), p);
      if !(c <= p) && p != layout.secretRoot && p != layout.CompanionParent() {
        BootstrappedAt(plan, t, p);
        assert Lookup(u, p) == Lookup(Outside(u, c), p) && Lookup(base, p) == Lookup(Outside(base, c), p);
      }
    }
    SameLookups(Assembled(u, layout, Lookup(t, layout.secretRoot), Lookup(t, layout.CompanionParent())), t);
  }

  // ----- What a committed deployment amounts to ---------------------------------------------------

  function WithMode(n: Node, mode: nat): Node { n.(auth := n.auth.(mode := mode)) }

  ghost predicate IsManaged(plan: Preparation, p: Path) {
    || (exists name :: name in MANAGED && p == plan.layout.Active(name))
    || (exists m :: m in plan.directories && m.path == p)
  }

  /** A private directory, the one that was there if one was. */
  predicate MadeOrKept(n: Option<Node>, was: Option<Node>) {
    n.Some? && n.value.kind == Directory && n.value.auth.mode == PRIVATE_DIR
    && (was.Some? ==> n.value.id == was.value.id)
  }

  /** A new secret is in place, a kept one is there and private. */
  ghost predicate SecretReady(plan: Preparation, t: Tree, values: string -> nat, final: Tree, name: string) {
    var active := plan.layout.Active(name);
    if name in plan.publish then Lookup(final, active) == Some(NewSecret(plan, name, values(name)).node)
    else active in t && Lookup(final, active) == Some(WithMode(t[active], PRIVATE_FILE))
  }

  ghost predicate SecretsReady(plan: Preparation, t: Tree, values: string -> nat, final: Tree) {
    (forall name :: name in plan.publish ==> name in MANAGED) && forall name :: name in MANAGED ==>
        SecretReady(plan, t, values, final, name)
  }

  /** Managed directories are there and private. */
  ghost predicate DirectoriesReady(plan: Preparation, t: Tree, final: Tree) {
    && (forall m :: m in plan.directories && m.path != plan.layout.secretRoot ==>
          Lookup(final, m.path)
              == Some(if m.path in t then WithMode(t[m.path], PRIVATE_DIR) else PrivateDirectory(plan.uid, plan.gid)))
    && MadeOrKept(Lookup(final, plan.layout.secretRoot), Lookup(t, plan.layout.secretRoot))
    && MadeOrKept(Lookup(final, plan.layout.CompanionParent()), Lookup(t, plan.layout.CompanionParent()))
  }

  /** The two directories around the companion, and the companion itself. */
  predicate IsPrivateTo(layout: Layout, p: Path) {
    p == layout.secretRoot || p == layout.CompanionParent() || layout.Companion() <= p
  }

  /** The transaction's companion is gone, and nothing that is not managed has
      been touched. */
  ghost predicate OthersKept(plan: Preparation, t: Tree, final: Tree) {
    && (forall p :: plan.layout.Companion() <= p ==> p !in final)
    && (forall p :: !IsManaged(plan, p) && !IsPrivateTo(plan.layout, p) ==> Lookup(final, p) == Lookup(t, p))
  }

  /** The outcome of a preparation, without mention of its steps. */
  ghost predicate Prepared(plan: Preparation, t: Tree, values: string -> nat, final: Tree) {
    SecretsReady(plan, t, values, final) && DirectoriesReady(plan, t, final) && OthersKept(plan, t, final)
  }

  /** A plan as it is about to run: its operations and the tree they start from. */
  ghost predicate Runs(
    plan: Preparation, t: Tree, targets: seq<Path>, rotate: bool, values: string -> nat, valid: Validator,
    ops: seq<Operation>, start: Tree)
  {
    && Made(plan, t, targets, rotate)
    && ops == PlannedOperations(StepsFor(plan, Bootstrapped(t, plan.layout, plan.uid, plan.gid), values))
    && start == Start(plan, t, values) && Shape(ops, start, valid)
  }

  /** What no element of a plan is for, its run leaves alone. */
  lemma NotTouched(
    plan: Preparation, t: Tree, targets: seq<Path>, rotate: bool, values: string -> nat, valid: Validator,
    ops: seq<Operation>, start: Tree, E: set<nat>, p: Path)
    requires Runs(plan, t, targets, rotate, values, valid, ops, start)
    requires forall op, origin :: ComesFrom(plan, Bootstrapped(t, plan.layout, plan.uid, plan.gid), op, origin) ==>
             p !in Footprint(op)
    ensures Lookup(Image(ops, start, E, |ops|), p) == Lookup(start, p)
  {
    hide Made, Start, Shape, Bootstrapped, StepsFor, PlannedOperations, ComesFrom;
    forall j: nat | j < |ops|
      ensures p !in Footprint(ops[j])
    {
      var origin := OriginOf(plan, Bootstrapped(t, plan.layout, plan.uid, plan.gid), values, j);
    }
    ImageFrame(ops, start, E, |ops|, p);
  }

  lemma PublicationAt(plan: Preparation, base: Tree, values: string -> nat, name: string) returns (i: nat)
    requires name in plan.publish
    ensures var ops := PlannedOperations(StepsFor(plan, base, values));
            i < |ops| && Some(ops[i]) == PublishStep(plan, name)
  {
    var steps := StepsFor(plan, base, values);
    var at :| 0 <= at < |plan.publish| && plan.publish[at] == name;
    var k := CollectHas(plan.publish, n => PublishStep(plan, n), at);
    i := |steps.directories| + |steps.backups| + k;
    assert PlannedOperations(steps)[i] == steps.publications[k];
  }

  lemma PermissionAt(plan: Preparation, base: Tree, values: string -> nat, name: string) returns (i: nat)
    requires name in MANAGED && PermissionStep(plan, base, name).Some?
    ensures var ops := PlannedOperations(StepsFor(plan, base, values));
            i < |ops| && Some(ops[i]) == PermissionStep(plan, base, name)
  {
    var steps := StepsFor(plan, base, values);
    var at :| 0 <= at < |MANAGED| && MANAGED[at] == name;
    var k := CollectHas(MANAGED, n => PermissionStep(plan, base, n), at);
    i := |steps.directories| + |steps.backups| + |steps.publications| + k;
    assert PlannedOperations(steps)[i] == steps.permissions[k];
  }

  lemma DirectoryAt(plan: Preparation, base: Tree, values: string -> nat, m: DirectoryMutation) returns (i: nat)
    requires m in plan.directories && DirectoryStep(plan, m).Some?
    ensures var ops := PlannedOperations(StepsFor(plan, base, values));
            i < |ops| && Some(ops[i]) == DirectoryStep(plan, m)
  {
    var steps := StepsFor(plan, base, values);
    var at :| 0 <= at < |plan.directories| && plan.directories[at] == m;
    var k := CollectHas(plan.directories, x => DirectoryStep(plan, x), at);
    i := k;
    assert PlannedOperations(steps)[i] == steps.directories[k];
  }

  /** A new secret is in place. */
  lemma SecretPublished(
    plan: Preparation, t: Tree, targets: seq<Path>, rotate: bool, values: string -> nat, valid: Validator,
    ops: seq<Operation>, start: Tree, name: string)
    requires Runs(plan, t, targets, rotate, values, valid, ops, start) && name in plan.publish
    ensures Lookup(Image(ops, start, Below(|ops|), |ops|), plan.layout.Active(name))
            == Some(NewSecret(plan, name, values(name)).node)
  {
    var i := PublicationAt(plan, Bootstrapped(t, plan.layout, plan.uid, plan.gid), values, name);
    StartHas(plan, t, targets, rotate, values);
    hide Made, Start, Shape, Bootstrapped, StepsFor, PlannedOperations, Layout.Active, Layout.Staging, Layout.Saved,
         NewSecret;
    assert Closed(ops, Below(|ops|));
    MovedFile(ops, start, Below(|ops|), i, valid);
  }

  lemma PermissionOf(plan: Preparation, base: Tree, name: string)
    requires name !in plan.publish && plan.layout.Active(name) in base
    ensures var p := plan.layout.Active(name);
            match PermissionStep(plan, base, name)
            case Some(op) =>
              Footprint(op) == {p} && !IsMove(op)
              && forall u: Tree :: Lookup(u, p) == Lookup(base, p) ==>
                 Lookup(Apply(op, u), p) == Some(WithMode(base[p], PRIVATE_FILE))
            case None => base[p] == WithMode(base[p], PRIVATE_FILE)
  {
  }

  /** A secret that was kept is there, and private. */
  lemma SecretKept(
    plan: Preparation, t: Tree, targets: seq<Path>, rotate: bool, values: string -> nat, valid: Validator,
    ops: seq<Operation>, start: Tree, name: string)
    requires Runs(plan, t, targets, rotate, values, valid, ops, start) && name in MANAGED && name !in plan.publish
    ensures plan.layout.Active(name) in t
    ensures Lookup(Image(ops, start, Below(|ops|), |ops|), plan.layout.Active(name))
         == Some(WithMode(t[plan.layout.Active(name)], PRIVATE_FILE))
  {
    hide Made, Start, Shape, Bootstrapped, StepsFor, PlannedOperations, Layout.Active, PermissionStep, WithMode, Apply,
         Footprint, ComesFrom;
    var base, p := Bootstrapped(t, plan.layout, plan.uid, plan.gid), plan.layout.Active(name);
    KeptIsThere(plan, t, targets, rotate, name);
    SecretBefore(plan, t, targets, rotate, values, name);
    PermissionOf(plan, base, name);
    if PermissionStep(plan, base, name).Some? {
      var i := PermissionAt(plan, base, values, name);
      EffectStays(ops, start, Below(|ops|), i, p, valid);
    } else {
      forall op, origin | ComesFrom(plan, base, op, origin)
        ensures p !in Footprint(op)
      {
        SecretNotMeant(plan, t, targets, rotate, base, op, origin, name);
      }
      NotTouched(plan, t, targets, rotate, values, valid, ops, start, Below(|ops|), p);
    }
  }

  lemma KeptIsThere(plan: Preparation, t: Tree, targets: seq<Path>, rotate: bool, name: string)
    requires Made(plan, t, targets, rotate) && name in MANAGED && name !in plan.publish
    ensures plan.layout.Active(name) in t
  {
    PublishNamesAre(t, plan.layout, rotate);
  }

  lemma SecretNotMeant(
    plan: Preparation, t: Tree, targets: seq<Path>, rotate: bool, base: Tree, op: Operation, origin: Origin,
    name: string)
    requires Made(plan, t, targets, rotate) && ComesFrom(plan, base, op, origin)
    requires name !in plan.publish && PermissionStep(plan, base, name).None?
    ensures plan.layout.Active(name) !in Footprint(op)
  {
    if origin.OfDirectory? {
      DirectoriesOutside(plan, t, targets, rotate, origin.m);
    } else if OfSecret(origin) {
      SecretPathsApart(plan.layout, name, origin.name);
    }
  }

  /** A managed directory is there, and private. */
  lemma DirectoryPrepared(
    plan: Preparation, t: Tree, targets: seq<Path>, rotate: bool, values: string -> nat, valid: Validator,
    ops: seq<Operation>, start: Tree, m: DirectoryMutation)
    requires Runs(plan, t, targets, rotate, values, valid, ops, start) && m in plan.directories
             && m.path != plan.layout.secretRoot
    ensures Lookup(Image(ops, start, Below(|ops|), |ops|), m.path)
         == Some(if m.path in t then WithMode(t[m.path], PRIVATE_DIR) else PrivateDirectory(plan.uid, plan.gid))
  {
    var base, p := Bootstrapped(t, plan.layout, plan.uid, plan.gid), m.path;
    DirectoriesOutside(plan, t, targets, rotate, m);
    StartElsewhere(plan, t, targets, rotate, values, p);
    if DirectoryStep(plan, m).Some? {
      var i := DirectoryAt(plan, base, values, m);
      hide Made, Start, Shape, Bootstrapped, StepsFor, PlannedOperations;
      EffectStays(ops, start, Below(|ops|), i, p, valid);
    } else {
      DirectoryNotMeant(plan, t, targets, rotate, base, m);
      hide Made, Start, Shape, Bootstrapped, StepsFor, PlannedOperations;
      NotTouched(plan, t, targets, rotate, values, valid, ops, start, Below(|ops|), p);
    }
  }

  lemma DirectoryNotMeant(
    plan: Preparation, t: Tree, targets: seq<Path>, rotate: bool, base: Tree, m: DirectoryMutation)
    requires Made(plan, t, targets, rotate) && m in plan.directories && m.path != plan.layout.secretRoot
             && DirectoryStep(plan, m).None?
    ensures forall op, origin :: ComesFrom(plan, base, op, origin) ==> m.path !in Footprint(op)
  {
    OneEntryEach(plan, t, targets, rotate);
    DirectoriesOutside(plan, t, targets, rotate, m);
    hide Made;
    forall op, origin | ComesFrom(plan, base, op, origin)
      ensures m.path !in Footprint(op)
    {
      if OfSecret(origin) { SecretsBelow(plan, base, op, origin); }
    }
  }

  lemma OneEntryEach(plan: Preparation, t: Tree, targets: seq<Path>, rotate: bool)
    requires Made(plan, t, targets, rotate)
    ensures forall m, n :: m in plan.directories && n in plan.directories && m.path == n.path ==> m == n
  {
  }

  lemma StagingWithin(layout: Layout, p: Path)
    ensures InStaging(layout, p) ==> layout.Companion() <= p
  {
    if InStaging(layout, p) {
      assert p[..|p| - 1] == layout.StagingDirectory();
    }
  }

  /** Whatever is not managed is as it was. */
  lemma OthersUntouched(
    plan: Preparation, t: Tree, targets: seq<Path>, rotate: bool, values: string -> nat, valid: Validator,
    ops: seq<Operation>, start: Tree, E: set<nat>, p: Path)
    requires Runs(plan, t, targets, rotate, values, valid, ops, start)
    requires !IsManaged(plan, p) && !IsPrivateTo(plan.layout, p)
    ensures Lookup(Image(ops, start, E, |ops|), p) == Lookup(t, p)
  {
    var base := Bootstrapped(t, plan.layout, plan.uid, plan.gid);
    PublishNamesAre(t, plan.layout, rotate);
    forall op, origin | ComesFrom(plan, base, op, origin)
      ensures p !in Footprint(op)
    {
      NotMeant(plan, base, op, origin, p);
    }
    BootstrappedAt(plan, t, p);
    StagingWithin(plan.layout, p);
    StagedAt(plan, base, values, plan.publish, StepsFor(plan, base, values).staged);
    assert Lookup(start, p) == Lookup(base, p);
    hide Made, Start, Shape, Bootstrapped, StepsFor, PlannedOperations, IsManaged;
    NotTouched(plan, t, targets, rotate, values, valid, ops, start, E, p);
  }

  lemma NotMeant(plan: Preparation, base: Tree, op: Operation, origin: Origin, p: Path)
    requires ComesFrom(plan, base, op, origin) && !IsManaged(plan, p) && !(plan.layout.Companion() <= p)
    requires forall name :: name in plan.publish ==> name in MANAGED
    ensures p !in Footprint(op)
  {
  }

  lemma SecretsArePrepared(
    plan: Preparation, t: Tree, targets: seq<Path>, rotate: bool, values: string -> nat, valid: Validator,
    ops: seq<Operation>, start: Tree, root: Option<Node>, parent: Option<Node>)
    requires Runs(plan, t, targets, rotate, values, valid, ops, start)
    ensures SecretsReady(plan, t, values, Assembled(Image(ops, start, Below(|ops|), |ops|), plan.layout, root, parent))
  {
    var u := Image(ops, start, Below(|ops|), |ops|);
    PublishedAreManaged(plan, t, targets, rotate, values, valid, ops, start);
    hide Runs, Assembled, NewSecret, WithMode, Image, Layout.Active;
    forall name | name in MANAGED
      ensures SecretReady(plan, t, values, Assembled(u, plan.layout, root, parent), name)
    {
      AssembledAtSecret(u, plan.layout, root, parent, name);
      if name in plan.publish {
        SecretPublished(plan, t, targets, rotate, values, valid, ops, start, name);
      } else {
        SecretKept(plan, t, targets, rotate, values, valid, ops, start, name);
      }
    }
  }

  lemma DirectoriesArePrepared(
    plan: Preparation, t: Tree, targets: seq<Path>, rotate: bool, values: string -> nat, valid: Validator,
    ops: seq<Operation>, start: Tree, root: Option<Node>, parent: Option<Node>)
    requires Runs(plan, t, targets, rotate, values, valid, ops, start)
    requires MadeOrKept(root, Lookup(t, plan.layout.secretRoot))
             && MadeOrKept(parent, Lookup(t, plan.layout.CompanionParent()))
    ensures DirectoriesReady(plan, t, Assembled(Image(ops, start, Below(|ops|), |ops|), plan.layout, root, parent))
  {
    var u := Image(ops, start, Below(|ops|), |ops|);
    AssembledAt(u, plan.layout, root, parent, plan.layout.secretRoot);
    AssembledAt(u, plan.layout, root, parent, plan.layout.CompanionParent());
    hide Runs, Assembled, MadeOrKept, PrivateDirectory, WithMode, Image;
    forall m | m in plan.directories && m.path != plan.layout.secretRoot
      ensures Lookup(Assembled(u, plan.layout, root, parent), m.path)
           == Some(if m.path in t then WithMode(t[m.path], PRIVATE_DIR) else PrivateDirectory(plan.uid, plan.gid))
    {
      DirectoryPrepared(plan, t, targets, rotate, values, valid, ops, start, m);
      DirectoryApart(plan, t, targets, rotate, values, valid, ops, start, m);
      AssembledAt(u, plan.layout, root, parent, m.path);
    }
  }

  lemma OthersAreKept(
    plan: Preparation, t: Tree, targets: seq<Path>, rotate: bool, values: string -> nat, valid: Validator,
    ops: seq<Operation>, start: Tree, root: Option<Node>, parent: Option<Node>)
    requires Runs(plan, t, targets, rotate, values, valid, ops, start)
    ensures OthersKept(plan, t, Assembled(Image(ops, start, Below(|ops|), |ops|), plan.layout, root, parent))
  {
    var u := Image(ops, start, Below(|ops|), |ops|);
    var final := Assembled(u, plan.layout, root, parent);
    hide Runs, Assembled, IsManaged, Image;
    forall p | !IsManaged(plan, p) && !IsPrivateTo(plan.layout, p)
      ensures Lookup(final, p) == Lookup(t, p)
    {
      OthersUntouched(plan, t, targets, rotate, values, valid, ops, start, Below(|ops|), p);
      AssembledAt(u, plan.layout, root, parent, p);
    }
    forall p | plan.layout.Companion() <= p
      ensures p !in final
    {
      AssembledAt(u, plan.layout, root, parent, p);
    }
  }

  /** Once everything planned has run and the companion is gone, the tree is the
      one the preparation was to bring about. */
  lemma RunIsPrepared(
    plan: Preparation, t: Tree, targets: seq<Path>, rotate: bool, values: string -> nat, valid: Validator,
    ops: seq<Operation>, start: Tree, root: Option<Node>, parent: Option<Node>)
    requires Runs(plan, t, targets, rotate, values, valid, ops, start)
    requires MadeOrKept(root, Lookup(t, plan.layout.secretRoot))
             && MadeOrKept(parent, Lookup(t, plan.layout.CompanionParent()))
    ensures Prepared(plan, t, values, Assembled(ApplyAll(ops, start), plan.layout, root, parent))
  {
    hide Runs, Assembled, SecretsReady, DirectoriesReady, OthersKept, MadeOrKept, Image, ApplyAll;
    AllApplied(ops, start, Below(|ops|), |ops|);
    assert ops[..|ops|] == ops;
    SecretsArePrepared(plan, t, targets, rotate, values, valid, ops, start, root, parent);
    DirectoriesArePrepared(plan, t, targets, rotate, values, valid, ops, start, root, parent);
    OthersAreKept(plan, t, targets, rotate, values, valid, ops, start, root, parent);
  }

  lemma AssembledAtSecret(u: Tree, layout: Layout, root: Option<Node>, parent: Option<Node>, name: string)
    requires name in MANAGED
    ensures Lookup(Assembled(u, layout, root, parent), layout.Active(name)) == Lookup(u, layout.Active(name))
  {
    AssembledAt(u, layout, root, parent, layout.Active(name));
    assert |name| != 21 && |".dcagent-transactions"| == 21;
    assert layout.Active(name)[|layout.secretRoot|] == name;
    assert layout.CompanionParent()[|layout.secretRoot|] == ".dcagent-transactions";
    assert |layout.Companion()| == |layout.Active(name)| + 1;
  }

  lemma PublishedAreManaged(
    plan: Preparation, t: Tree, targets: seq<Path>, rotate: bool, values: string -> nat, valid: Validator,
    ops: seq<Operation>, start: Tree)
    requires Runs(plan, t, targets, rotate, values, valid, ops, start)
    ensures forall name :: name in plan.publish ==> name in MANAGED
  {
    PublishNamesAre(t, plan.layout, rotate);
  }

  lemma DirectoryApart(
    plan: Preparation, t: Tree, targets: seq<Path>, rotate: bool, values: string -> nat, valid: Validator,
    ops: seq<Operation>, start: Tree, m: DirectoryMutation)
    requires Runs(plan, t, targets, rotate, values, valid, ops, start) && m in plan.directories
             && m.path != plan.layout.secretRoot
    ensures m.path != plan.layout.CompanionParent() && !(plan.layout.Companion() <= m.path)
  {
    DirectoriesOutside(plan, t, targets, rotate, m);
    assert plan.layout.secretRoot <= plan.layout.CompanionParent() <= plan.layout.Companion();
  }

  // ----- The companion at the end ------------------------------------------------------------------

  /** Every secret to be replaced has the private mode. */
  predicate RotatedPrivate(plan: Preparation, t: Tree) {
    forall name | name in plan.publish :: plan.layout.Active(name) in t ==>
        t[plan.layout.Active(name)].auth.mode == PRIVATE_FILE
  }

  lemma BackupAt(plan: Preparation, base: Tree, values: string -> nat, name: string) returns (i: nat)
    requires name in plan.publish && plan.layout.Active(name) in base
    ensures var ops := PlannedOperations(StepsFor(plan, base, values));
            i < |ops| && Some(ops[i]) == BackupStep(plan, base, name)
  {
    var steps := StepsFor(plan, base, values);
    var at :| 0 <= at < |plan.publish| && plan.publish[at] == name;
    var k := CollectHas(plan.publish, n => BackupStep(plan, base, n), at);
    i := |steps.directories| + k;
    assert PlannedOperations(steps)[i] == steps.backups[k];
  }

  /** The companion a run starts from. */
  lemma CompanionBegins(
    plan: Preparation, t: Tree, targets: seq<Path>, rotate: bool, values: string -> nat, valid: Validator,
    ops: seq<Operation>, start: Tree)
    requires Runs(plan, t, targets, rotate, values, valid, ops, start)
    ensures CompanionPrivate(start, plan.layout.Companion()) && CompanionBoundary(ops, plan.layout.Companion())
    ensures IsDirectory(start, plan.layout.StagingDirectory()) && IsDirectory(start, plan.layout.BackupDirectory())
  {
    var base, c := Bootstrapped(t, plan.layout, plan.uid, plan.gid), plan.layout.Companion();
    var staged := StepsFor(plan, base, values).staged;
    StagedFits(plan, t, targets, rotate, values);
    StagedAt(plan, base, values, plan.publish, staged);
    hide Made, Bootstrapped, CompanionPrivate, CompanionBoundary, StagedInto, WithStaged, Shape, PlannedOperations;
    CompanionStartsPrivate(plan, t, targets, rotate);
    BootstrapAdds(plan, t, targets, rotate);
    PlanKeepsBoundary(plan, t, targets, rotate, base, values);
    StagingStaysInside(base, staged, c);
    assert !InStaging(plan.layout, plan.layout.StagingDirectory())
        && !InStaging(plan.layout, plan.layout.BackupDirectory());
    assert Lookup(start, plan.layout.StagingDirectory()) == Lookup(base, plan.layout.StagingDirectory());
    assert Lookup(start, plan.layout.BackupDirectory()) == Lookup(base, plan.layout.BackupDirectory());
  }

  /** A managed secret when its transaction starts. */
  lemma SecretBefore(plan: Preparation, t: Tree, targets: seq<Path>, rotate: bool, values: string -> nat, name: string)
    requires Made(plan, t, targets, rotate) && (name in plan.publish || name in MANAGED)
    ensures name in MANAGED
    ensures var base, p := Bootstrapped(t, plan.layout, plan.uid, plan.gid), plan.layout.Active(name);
            Lookup(base, p) == Lookup(t, p) == Lookup(Start(plan, t, values), p)
  {
    PublishNamesAre(t, plan.layout, rotate);
    BootstrapAdds(plan, t, targets, rotate);
    StartHas(plan, t, targets, rotate, values);
  }

  /** A replaced secret is in the companion until cleanup, the file it was. */
  lemma SecretSaved(
    plan: Preparation, t: Tree, targets: seq<Path>, rotate: bool, values: string -> nat, valid: Validator,
    ops: seq<Operation>, start: Tree, name: string)
    requires Runs(plan, t, targets, rotate, values, valid, ops, start) && name in plan.publish
             && plan.layout.Active(name) in t
    ensures Lookup(ApplyAll(ops, start), plan.layout.Saved(name)) == Some(t[plan.layout.Active(name)])
    ensures exists i :: 0 <= i < |ops| && ops[i].Backup? && ops[i].auth == t[plan.layout.Active(name)].auth
  {
    SecretBefore(plan, t, targets, rotate, values, name);
    var i := BackupAt(plan, Bootstrapped(t, plan.layout, plan.uid, plan.gid), values, name);
    hide Made, Start, Shape, Bootstrapped, StepsFor, PlannedOperations, Layout.Active, Layout.Saved, ApplyAll;
    assert Closed(ops, Below(|ops|));
    MovedFile(ops, start, Below(|ops|), i, valid);
    AllApplied(ops, start, Below(|ops|), |ops|);
    assert ops[..|ops|] == ops;
  }

  /** Every backup is that of a secret to be replaced, and takes it as it is. */
  lemma BackupOf(
    plan: Preparation, t: Tree, targets: seq<Path>, rotate: bool, values: string -> nat, valid: Validator,
    ops: seq<Operation>, start: Tree, e: nat) returns (name: string)
    requires Runs(plan, t, targets, rotate, values, valid, ops, start) && e < |ops|
             && (ops[e].Backup? || ops[e].Unlink?)
    ensures name in plan.publish && plan.layout.Active(name) in t && ops[e].auth == t[plan.layout.Active(name)].auth
  {
    var base := Bootstrapped(t, plan.layout, plan.uid, plan.gid);
    hide Made, Start, Shape, Bootstrapped, StepsFor, PlannedOperations;
    var origin := OriginOf(plan, base, values, e);
    name := origin.name;
    SecretBefore(plan, t, targets, rotate, values, name);
  }

  lemma AllIsClosed(ops: seq<Operation>)
    ensures Closed(ops, Below(|ops|))
  {
  }

  /** After a commit the companion can be deleted exactly if every secret that
      was replaced had the private mode. */
  lemma CompanionEnds(
    plan: Preparation, t: Tree, targets: seq<Path>, rotate: bool, values: string -> nat, valid: Validator,
    ops: seq<Operation>, start: Tree)
    requires Runs(plan, t, targets, rotate, values, valid, ops, start)
    ensures CompanionPrivate(ApplyAll(ops, start), plan.layout.Companion()) <==> RotatedPrivate(plan, t)
    ensures plan.layout.StagingDirectory() in ApplyAll(ops, start)
            && plan.layout.BackupDirectory() in ApplyAll(ops, start)
  {
    var base, all := Bootstrapped(t, plan.layout, plan.uid, plan.gid), Below(|ops|);
    assert Made(plan, t, targets, rotate) && Shape(ops, start, valid);
    hide *;
    CompanionBegins(plan, t, targets, rotate, values, valid, ops, start);
    BackupsArePrivate(plan, t, targets, rotate, values, valid, ops, start);
    assert Closed(ops, all) by { AllIsClosed(ops); }
    ReopenableWhenPrivate(ops, start, all, plan.layout.Companion(), valid);
    DirectoryStands(ops, start, all, |ops|, plan.layout.StagingDirectory(), valid);
    DirectoryStands(ops, start, all, |ops|, plan.layout.BackupDirectory(), valid);
    AllApplied(ops, start, all, |ops|);
    assert ops[..|ops|] == ops;
  }

  lemma BackupsArePrivate(
    plan: Preparation, t: Tree, targets: seq<Path>, rotate: bool, values: string -> nat, valid: Validator,
    ops: seq<Operation>, start: Tree)
    requires Runs(plan, t, targets, rotate, values, valid, ops, start)
    ensures RotatedPrivate(plan, t) <==>
            forall e :: e in Below(|ops|) && e < |ops| && (ops[e].Backup? || ops[e].Unlink?) ==>
                ops[e].auth.mode == PRIVATE_FILE
  {
    hide Runs;
    forall name | name in plan.publish && plan.layout.Active(name) in t
      ensures exists i :: 0 <= i < |ops| && ops[i].Backup? && ops[i].auth == t[plan.layout.Active(name)].auth
    {
      SecretSaved(plan, t, targets, rotate, values, valid, ops, start, name);
    }
    forall e: nat | e < |ops| && (ops[e].Backup? || ops[e].Unlink?)
      ensures exists name ::
                name in plan.publish && plan.layout.Active(name) in t && ops[e].auth == t[plan.layout.Active(name)].auth
    {
      var name := BackupOf(plan, t, targets, rotate, values, valid, ops, start, e);
    }
  }

  // ----- Where a refusal leaves the tree --------------------------------------------------------------

  /** A secret to be replaced: the old one is at exactly one of its two places;
      at the active one there is nothing else, or the new one. */
  ghost predicate SecretHeld(plan: Preparation, t: Tree, values: string -> nat, u: Tree, name: string) {
    var active, saved := plan.layout.Active(name), plan.layout.Saved(name);
    (Lookup(u, active) == Lookup(t, active) && saved !in u)
    || (Lookup(u, saved) == Lookup(t, active)
       && (active in u ==> u[active] == NewSecret(plan, name, values(name)).node))
  }

  /** A secret that is kept is where it was, with its mode or the private one. */
  ghost predicate SecretStays(plan: Preparation, t: Tree, u: Tree, name: string) {
    var active := plan.layout.Active(name);
    active in t && (Lookup(u, active) == Some(t[active])
    || Lookup(u, active) == Some(WithMode(t[active], PRIVATE_FILE)))
  }

  /** A managed directory is as it was found, or as it was to become. */
  ghost predicate DirectoryHeld(plan: Preparation, t: Tree, u: Tree, m: DirectoryMutation) {
    Lookup(u, m.path) == Lookup(t, m.path)
    || Lookup(u, m.path)
       == Some(if m.path in t then WithMode(t[m.path], PRIVATE_DIR) else PrivateDirectory(plan.uid, plan.gid))
  }

  /** What is certain of the tree wherever a deployment stops: every managed
      object is in its earlier or its new state, no old secret is lost, and
      nothing else has been touched. */
  ghost predicate Suspended(plan: Preparation, t: Tree, values: string -> nat, u: Tree) {
    && (forall name :: name in MANAGED ==> if name in plan.publish then SecretHeld(plan, t, values, u, name)
       else SecretStays(plan, t, u, name))
    && (forall m :: m in plan.directories && m.path != plan.layout.secretRoot ==> DirectoryHeld(plan, t, u, m))
    && (forall p :: !IsManaged(plan, p) && !IsPrivateTo(plan.layout, p) ==> Lookup(u, p) == Lookup(t, p))
  }

  lemma NoEffectYet(ops: seq<Operation>, base: Tree, E: set<nat>, e: nat, p: Path, valid: Validator)
    requires Shape(ops, base, valid) && e < |ops| && e !in E && Footprint(ops[e]) == {p} && !IsMove(ops[e])
    ensures Lookup(Image(ops, base, E, |ops|), p) == Lookup(base, p)
  {
    forall j: nat | j < |ops| && j in E
      ensures p !in Footprint(ops[j])
    {
      assert p in Footprint(ops[e]);
    }
    ImageFrame(ops, base, E, |ops|, p);
  }

  lemma BackupOfName(plan: Preparation, base: Tree, values: string -> nat, b: nat, name: string)
    requires var ops := PlannedOperations(StepsFor(plan, base, values));
             b < |ops| && ops[b].Backup? && ops[b].active == plan.layout.Active(name)
    ensures plan.layout.Active(name) in base
  {
    hide StepsFor, PlannedOperations;
    var origin := OriginOf(plan, base, values, b);
    SecretPathsApart(plan.layout, origin.name, name);
  }

  lemma PublicationOfName(plan: Preparation, base: Tree, values: string -> nat, i: nat, name: string)
    requires var ops := PlannedOperations(StepsFor(plan, base, values));
             i < |ops| && ops[i].Publish? && ops[i].active == plan.layout.Active(name)
    ensures PlannedOperations(StepsFor(plan, base, values))[i].staging == plan.layout.Staging(name)
  {
    hide StepsFor, PlannedOperations;
    var origin := OriginOf(plan, base, values, i);
    SecretPathsApart(plan.layout, origin.name, name);
  }

  /** A secret that was there: at its place, or saved with nothing or the new
      one in its place. */
  lemma OldSecretHeld(
    plan: Preparation, t: Tree, targets: seq<Path>, rotate: bool, values: string -> nat, valid: Validator,
    ops: seq<Operation>, start: Tree, E: set<nat>, name: string)
    requires Runs(plan, t, targets, rotate, values, valid, ops, start) && Closed(ops, E)
    requires name in plan.publish && plan.layout.Active(name) in t
    ensures SecretHeld(plan, t, values, Image(ops, start, E, |ops|), name)
  {
    hide Made, Start, Shape, Bootstrapped, StepsFor, PlannedOperations, Layout.Active, Layout.Saved, Layout.Staging,
         NewSecret;
    var base, u := Bootstrapped(t, plan.layout, plan.uid, plan.gid), Image(ops, start, E, |ops|);
    SecretBefore(plan, t, targets, rotate, values, name);
    var b := BackupAt(plan, base, values, name);
    if b in E {
      MovedFile(ops, start, E, b, valid);
      VacatedPath(ops, start, E, b, valid);
      if plan.layout.Active(name) in u {
        var i :| i in E && i < |ops| && Paired(ops, b, i) && Lookup(start, ops[i].staging) == Some(u[ops[b].active]);
        PublicationOfName(plan, base, values, i, name);
        StartHas(plan, t, targets, rotate, values);
      }
    } else {
      WaitingFile(ops, start, E, b, |ops|, valid);
    }
  }

  /** A secret that was not there: not yet, or the new one. */
  lemma NewSecretHeld(
    plan: Preparation, t: Tree, targets: seq<Path>, rotate: bool, values: string -> nat, valid: Validator,
    ops: seq<Operation>, start: Tree, E: set<nat>, name: string)
    requires Runs(plan, t, targets, rotate, values, valid, ops, start) && Closed(ops, E)
    requires name in plan.publish && plan.layout.Active(name) !in t
    ensures SecretHeld(plan, t, values, Image(ops, start, E, |ops|), name)
  {
    hide Made, Start, Shape, Bootstrapped, StepsFor, PlannedOperations, Layout.Active, Layout.Saved, Layout.Staging,
         NewSecret, ComesFrom, Footprint;
    var base, u := Bootstrapped(t, plan.layout, plan.uid, plan.gid), Image(ops, start, E, |ops|);
    SecretBefore(plan, t, targets, rotate, values, name);
    StartHas(plan, t, targets, rotate, values);
    var i := PublicationAt(plan, base, values, name);
    if i in E {
      MovedFile(ops, start, E, i, valid);
    } else {
      ReservedPath(ops, start, E, i, valid);
      if plan.layout.Active(name) in u {
        var b :| 0 <= b < i && b !in E && Paired(ops, b, i);
        BackupOfName(plan, base, values, b, name);
      }
    }
    forall op, origin | ComesFrom(plan, base, op, origin)
      ensures plan.layout.Saved(name) !in Footprint(op)
    {
      NotSaved(plan, t, targets, rotate, base, op, origin, name);
    }
    NotTouched(plan, t, targets, rotate, values, valid, ops, start, E, plan.layout.Saved(name));
  }

  lemma NotSaved(
    plan: Preparation, t: Tree, targets: seq<Path>, rotate: bool, base: Tree, op: Operation, origin: Origin,
    name: string)
    requires Made(plan, t, targets, rotate) && ComesFrom(plan, base, op, origin) && plan.layout.Active(name) !in base
    ensures plan.layout.Saved(name) !in Footprint(op)
  {
    if origin.OfDirectory? {
      DirectoriesOutside(plan, t, targets, rotate, origin.m);
    } else if OfSecret(origin) {
      SecretPathsApart(plan.layout, name, origin.name);
      SecretPathsApart(plan.layout, origin.name, name);
    }
  }

  lemma KeptSecretStays(
    plan: Preparation, t: Tree, targets: seq<Path>, rotate: bool, values: string -> nat, valid: Validator,
    ops: seq<Operation>, start: Tree, E: set<nat>, name: string)
    requires Runs(plan, t, targets, rotate, values, valid, ops, start) && name in MANAGED && name !in plan.publish
    ensures SecretStays(plan, t, Image(ops, start, E, |ops|), name)
  {
    hide Made, Start, Shape, Bootstrapped, StepsFor, PlannedOperations, Layout.Active, PermissionStep, WithMode, Apply,
         Footprint, ComesFrom;
    var base, p := Bootstrapped(t, plan.layout, plan.uid, plan.gid), plan.layout.Active(name);
    KeptIsThere(plan, t, targets, rotate, name);
    SecretBefore(plan, t, targets, rotate, values, name);
    PermissionOf(plan, base, name);
    if PermissionStep(plan, base, name).Some? {
      var i := PermissionAt(plan, base, values, name);
      if i in E { EffectStays(ops, start, E, i, p, valid); } else { NoEffectYet(ops, start, E, i, p, valid); }
    } else {
      forall op, origin | ComesFrom(plan, base, op, origin)
        ensures p !in Footprint(op)
      {
        SecretNotMeant(plan, t, targets, rotate, base, op, origin, name);
      }
      NotTouched(plan, t, targets, rotate, values, valid, ops, start, E, p);
    }
  }

  lemma DirectoryIsHeld(
    plan: Preparation, t: Tree, targets: seq<Path>, rotate: bool, values: string -> nat, valid: Validator,
    ops: seq<Operation>, start: Tree, E: set<nat>, m: DirectoryMutation)
    requires Runs(plan, t, targets, rotate, values, valid, ops, start) && m in plan.directories
             && m.path != plan.layout.secretRoot
    ensures DirectoryHeld(plan, t, Image(ops, start, E, |ops|), m)
  {
    var base, p := Bootstrapped(t, plan.layout, plan.uid, plan.gid), m.path;
    DirectoriesOutside(plan, t, targets, rotate, m);
    StartElsewhere(plan, t, targets, rotate, values, p);
    if DirectoryStep(plan, m).Some? {
      var i := DirectoryAt(plan, base, values, m);
      hide Made, Start, Shape, Bootstrapped, StepsFor, PlannedOperations;
      if i in E { EffectStays(ops, start, E, i, p, valid); } else { NoEffectYet(ops, start, E, i, p, valid); }
    } else {
      DirectoryNotMeant(plan, t, targets, rotate, base, m);
      hide Made, Start, Shape, Bootstrapped, StepsFor, PlannedOperations;
      NotTouched(plan, t, targets, rotate, values, valid, ops, start, E, p);
    }
  }

  /** Whatever has run of a plan. */
  lemma RunIsSuspended(
    plan: Preparation, t: Tree, targets: seq<Path>, rotate: bool, values: string -> nat, valid: Validator,
    ops: seq<Operation>, start: Tree, E: set<nat>)
    requires Runs(plan, t, targets, rotate, values, valid, ops, start) && Closed(ops, E)
    ensures Suspended(plan, t, values, Image(ops, start, E, |ops|))
  {
    hide Runs, Closed, Image, SecretHeld, SecretStays, DirectoryHeld, IsManaged;
    var u := Image(ops, start, E, |ops|);
    forall name | name in MANAGED
      ensures if name in plan.publish then SecretHeld(plan, t, values, u, name) else SecretStays(plan, t, u, name)
    {
      if name !in plan.publish {
        KeptSecretStays(plan, t, targets, rotate, values, valid, ops, start, E, name);
      } else if plan.layout.Active(name) in t {
        OldSecretHeld(plan, t, targets, rotate, values, valid, ops, start, E, name);
      } else {
        NewSecretHeld(plan, t, targets, rotate, values, valid, ops, start, E, name);
      }
    }
    forall m | m in plan.directories && m.path != plan.layout.secretRoot
      ensures DirectoryHeld(plan, t, u, m)
    {
      DirectoryIsHeld(plan, t, targets, rotate, values, valid, ops, start, E, m);
    }
    forall p | !IsManaged(plan, p) && !IsPrivateTo(plan.layout, p)
      ensures Lookup(u, p) == Lookup(t, p)
    {
      OthersUntouched(plan, t, targets, rotate, values, valid, ops, start, E, p);
    }
  }

  lemma {:induction false} NothingBeyond(ops: seq<Operation>, base: Tree, E: set<nat>, m: nat, n: nat)
    requires m <= n <= |ops| && forall e :: e in E ==> e < m
    ensures Image(ops, base, E, n) == Image(ops, base, E, m)
  {
    if n > m { NothingBeyond(ops, base, E, m, n - 1); }
  }

  lemma StillClosed(part: seq<Operation>, all: seq<Operation>, base: Tree, E: set<nat>, valid: Validator)
    requires part <= all && Closed(part, E) && Shape(all, base, valid)
    ensures Closed(all, E)
  {
    forall i, k | 0 <= i < |all| && k in E && k < |all| && (Paired(all, i, k) || Nested(all[i], all[k]))
      ensures i in E
    {
      assert i < k < |part|;
      hide Shape;
      assert part[i] == all[i] && part[k] == all[k];
      assert Paired(all, i, k) ==> Paired(part, i, k);
    }
  }

  /** What a part of a plan has done, the whole plan has done so far. */
  lemma PartOfPlan(part: seq<Operation>, all: seq<Operation>, base: Tree, E: set<nat>, valid: Validator)
    requires part <= all && Closed(part, E) && Shape(all, base, valid)
    ensures Image(part, base, E, |part|) == Image(all, base, E, |all|) && Closed(all, E)
  {
    StillClosed(part, all, base, E, valid);
    assert forall e :: e in E ==> e < |part|;
    hide Shape, Image, Closed;
    assert all[..|part|] == part;
    ImagePrefixes(all, |part|, base, E, |part|);
    NothingBeyond(all, base, E, |part|, |all|);
  }

  lemma StagedOnly(plan: Preparation, t: Tree, values: string -> nat, u: Tree)
    requires var base :=
             Bootstrapped(t, plan.layout, plan.uid, plan.gid); PartlyStaged(base, u,
                 StepsFor(plan, base, values).staged)
    ensures forall p :: !InStaging(plan.layout, p) ==>
              Lookup(u, p) == Lookup(Bootstrapped(t, plan.layout, plan.uid, plan.gid), p)
  {
    hide Bootstrapped, InStaging, WithStaged, NewSecret;
    var base := Bootstrapped(t, plan.layout, plan.uid, plan.gid);
    var staged := StepsFor(plan, base, values).staged;
    var k :| 0 <= k <= |staged| && u == WithStaged(base, staged[..k]);
    StagedAt(plan, base, values, plan.publish[..k], staged[..k]);
  }

  /** Before the first operation nothing has changed but the companion. */
  lemma StagingIsSuspended(plan: Preparation, t: Tree, targets: seq<Path>, rotate: bool, values: string -> nat, u: Tree)
    requires Made(plan, t, targets, rotate)
    requires var base :=
             Bootstrapped(t, plan.layout, plan.uid, plan.gid); PartlyStaged(base, u,
                 StepsFor(plan, base, values).staged)
    ensures Suspended(plan, t, values, u)
  {
    hide Made, PartlyStaged, Bootstrapped, StepsFor, InStaging, NewSecret, IsManaged, IsPrivateTo, Layout.Active,
         Layout.Saved;
    StagedOnly(plan, t, values, u);
    BootstrapAdds(plan, t, targets, rotate);
    OthersThanStaging(plan.layout);
    forall m | m in plan.directories && m.path != plan.layout.secretRoot
      ensures Lookup(u, m.path) == Lookup(t, m.path)
    {
      DirectoriesOutside(plan, t, targets, rotate, m);
    }
    forall p | !IsPrivateTo(plan.layout, p)
      ensures Lookup(u, p) == Lookup(t, p)
    {
      PrivateMeans(plan.layout, p);
      StagingWithin(plan.layout, p);
      BootstrappedAt(plan, t, p);
    }
    forall name | name in MANAGED
      ensures Lookup(u, plan.layout.Active(name)) == Lookup(t, plan.layout.Active(name))
              && plan.layout.Saved(name) !in u
      ensures name !in plan.publish ==> plan.layout.Active(name) in t
    {
      assert Lookup(u, plan.layout.Saved(name))
          == Lookup(Bootstrapped(t, plan.layout, plan.uid, plan.gid), plan.layout.Saved(name));
      if name !in plan.publish { KeptIsThere(plan, t, targets, rotate, name); }
    }
  }

  lemma PrivateMeans(layout: Layout, p: Path)
    requires !IsPrivateTo(layout, p)
    ensures p != layout.secretRoot && p != layout.CompanionParent() && !(layout.Companion() <= p)
  {
  }

  /** Wherever the transaction of a plan stops, its tree is that of a run. */
  lemma StopIsSuspended(
    plan: Preparation, t: Tree, targets: seq<Path>, rotate: bool, values: string -> nat, env: Option<Node>,
    valid: Validator, j: Journal)
    requires Made(plan, t, targets, rotate) && Supplied(plan, values, env, valid) && WrittenAhead(j, valid)
    requires var base := Bootstrapped(t, plan.layout, plan.uid, plan.gid); var steps := StepsFor(plan, base, values);
             && j.ops <= PlannedOperations(steps) && PartlyStaged(base, j.base, steps.staged)
             && (j.ops != [] ==> j.base == WithStaged(base, steps.staged))
    ensures Suspended(plan, t, values, j.tree)
  {
    var base := Bootstrapped(t, plan.layout, plan.uid, plan.gid);
    var all := PlannedOperations(StepsFor(plan, base, values));
    if j.ops == [] {
      StagingIsSuspended(plan, t, targets, rotate, values, j.base);
    } else {
      hide Made, Supplied, Bootstrapped, StepsFor, PlannedOperations, WithStaged, Shape, PartlyStaged, Suspended;
      PlanHasShape(plan, t, targets, rotate, values, env, valid);
      PartOfPlan(j.ops, all, j.base, j.executed, valid);
      RunIsSuspended(plan, t, targets, rotate, values, valid, all, j.base, j.executed);
    }
  }

  // ----- Where a refusal leaves the environment file ----------------------------------------------------

  /** The earlier file (or its absence), the new one, or, where there was none,
      the empty stand-in of an unfinished rollback. */
  predicate EnvironmentHeld(plan: Preparation, env: Option<Node>, after: Option<Node>) {
    || SameFile(env, after)
    || (plan.environment.Some?
        && var change := plan.environment.value;
           IsFile(after, None, change.after) || (change.before.None? && IsFile(after, None, Replacement(change))))
  }

  lemma StopHoldsEnvironment(
    plan: Preparation, base: Tree, values: string -> nat, env: Option<Node>, valid: Validator, j: Journal, e: EnvState)
    requires Supplied(plan, values, env, valid) && EnvTracked(j, e) && j.envBase == env
             && (env.Some? ==> env.value.kind == Regular)
    requires j.ops <= PlannedOperations(StepsFor(plan, base, values))
    ensures EnvironmentHeld(plan, env, e.env)
  {
    hide StepsFor, PlannedOperations, Publishing, Restorable;
    if i: nat :| i < |j.ops| && j.ops[i].EnvReplace? {
      var all := PlannedOperations(StepsFor(plan, base, values));
      assert j.ops[i] == all[i];
      var origin := OriginOf(plan, base, values, i);
      assert j.ops[i].change == plan.environment.value;
      assert EnvTrackedAt(j, e, i);
      HeldFile(j.ops[i].change, env, e);
    } else {
      assert NoEnvironment(j.ops);
    }
  }

  lemma HeldFile(change: EnvChange, env: Option<Node>, e: EnvState)
    requires BeforeState(env, change) && (env.Some? ==> env.value.kind == Regular)
    requires if e.forward.Some? then Publishing(change, e) else Restorable(change, e)
    ensures SameFile(env, e.env) || IsFile(e.env, None, change.after)
            || (change.before.None? && IsFile(e.env, None, Replacement(change)))
  {
  }
}
