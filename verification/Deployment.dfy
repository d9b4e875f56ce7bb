/** The whole of a preparation: inspection, plan, journal, transaction, recovery
    and cleanup, and the tree it ends with. */
module Deployment {
  import opened Wrappers
  import opened Disk
  import opened Operations
  import opened Environment
  import opened Journal
  import opened Transaction
  import opened Recovery
  import opened Directories
  import opened Plan
  import Bootstrap
  import Cleanup
  import opened FinalTree

  // ----- Planning -----------------------------------------------------------------------------

  /** What goes without saying of a tree, of the identities in it, of the names
      asked for and of a transaction's name. */
  ghost predicate Inspected(t: Tree, layout: Layout, targets: seq<Path>, nextId: nat) {
    && ParentClosed(t) && layout.secretRoot != []
    && (forall k :: 0 <= k < |targets| ==> !Within(targets[k], layout.secretRoot))
    && (forall p :: p in t ==> !(layout.Companion() <= p) && t[p].id < nextId)
  }

  predicate OwnedBy(n: Node, kind: Kind, uid: nat, gid: nat) {
    n.kind == kind && n.auth.uid == uid && n.auth.gid == gid
  }

  predicate SecretsOwned(t: Tree, layout: Layout, uid: nat, gid: nat) {
    forall k | 0 <= k < |MANAGED| ::
      layout.Active(MANAGED[k]) in t ==> OwnedBy(t[layout.Active(MANAGED[k])], Regular, uid, gid)
  }

  /** The two directories a journal may have to make, as they are found. */
  function SiteOf(t: Tree, layout: Layout, uid: nat, gid: nat, nextId: nat): Bootstrap.Site {
    var root, parent := layout.secretRoot, layout.CompanionParent();
    var dirs := [Lookup(t, root), Lookup(t, parent)];
    Bootstrap.Site(None, dirs, false,
                   [exists p | p in t :: ChildOf(p, root) && p != parent, exists p | p in t :: ChildOf(p, parent)],
                   nextId, uid, gid, dirs)
  }

  /** Whether a preparation is accepted.  `started` says that the deployment has
      been started before, or its database initialised. */
  predicate Accepted(
    t: Tree, targets: seq<Path>, layout: Layout, rotate: bool, started: bool, uid: nat, gid: nat, nextId: nat)
    requires layout.secretRoot != []
  {
    && PublishNames(t, layout, rotate).Some? && SecretsOwned(t, layout, uid, gid) && !(rotate && started)
    && (forall k | 0 <= k < |targets| :: Usable(t, targets[k], uid, gid))
    && Parent(layout.secretRoot) in t && OwnedBy(t[Parent(layout.secretRoot)], Directory, uid, gid)
    && Bootstrap.Plannable(SiteOf(t, layout, uid, gid, nextId))
  }

  /** The two directories around the companion: their parent stands, and what
      exists of them is the account's own; the inner one must be private. */
  predicate PlaceStands(t: Tree, layout: Layout, uid: nat, gid: nat)
    requires layout.secretRoot != []
  {
    var root, parent := layout.secretRoot, layout.CompanionParent();
    && Parent(root) in t && OwnedBy(t[Parent(root)], Directory, uid, gid)
    && (root in t ==> OwnedBy(t[root], Directory, uid, gid))
    && (parent in t ==> OwnedBy(t[parent], Directory, uid, gid) && t[parent].auth.mode == PRIVATE_DIR)
  }

  /** What is accepted, condition by condition. */
  lemma AcceptedExactly(
    t: Tree, targets: seq<Path>, layout: Layout, rotate: bool, started: bool, uid: nat, gid: nat, nextId: nat)
    requires Inspected(t, layout, targets, nextId)
    ensures Accepted(t, targets, layout, rotate, started, uid, gid, nextId) <==>
            && (layout.Active("postgres-password") in t <==> layout.Active("database-url") in t)
            && (layout.Active("clickhouse-query-password") in t <==> layout.Active("clickhouse-ingest-password") in t)
            && (forall name :: name in MANAGED && layout.Active(name) in t ==>
                  var n := t[layout.Active(name)]; n.kind == Regular && n.auth.uid == uid && n.auth.gid == gid)
            && !(rotate && started)
            && (forall k :: 0 <= k < |targets| ==> Makeable(t, targets[k], uid, gid))
            && PlaceStands(t, layout, uid, gid)
  {
    HalfAPairIsRefused(t, layout, rotate);
    AllUsable(t, targets, uid, gid);
    PlaceIsPlannable(t, layout, uid, gid, nextId);
    assert SecretsOwned(t, layout, uid, gid) <==>
      forall name :: name in MANAGED && layout.Active(name) in t ==>
          OwnedBy(t[layout.Active(name)], Regular, uid, gid) by {
      EachManaged();
    }
    hide PublishNames, Usable, Makeable, SiteOf, Bootstrap.Plannable, PlaceStands, SecretsOwned;
  }

  lemma EachManaged()
    ensures forall name :: name in MANAGED ==> exists k :: 0 <= k < |MANAGED| && MANAGED[k] == name
  {
  }

  lemma PlaceIsPlannable(t: Tree, layout: Layout, uid: nat, gid: nat, nextId: nat)
    requires ParentClosed(t) && layout.secretRoot != [] && forall p :: p in t ==> t[p].id < nextId
    ensures PlaceStands(t, layout, uid, gid) <==>
            Parent(layout.secretRoot) in t && OwnedBy(t[Parent(layout.secretRoot)], Directory, uid, gid)
            && Bootstrap.Plannable(SiteOf(t, layout, uid, gid, nextId))
  {
    var root, parent := layout.secretRoot, layout.CompanionParent();
    var s := SiteOf(t, layout, uid, gid, nextId);
    assert s.original[0] == Lookup(t, root) && s.original[1] == Lookup(t, parent);
    assert Parent(parent) == root;
  }

  /** Inspects and plans; nothing is written yet. */
  method MakePlan(
    t: Tree, targets: seq<Path>, layout: Layout, rotate: bool, started: bool, uid: nat, gid: nat, nextId: nat,
    environment: Option<EnvChange>)
    returns (plan: Option<Preparation>)
    requires Inspected(t, layout, targets, nextId)
    ensures plan.Some? <==> Accepted(t, targets, layout, rotate, started, uid, gid, nextId)
    // No directory is to be created where the group or others may write.
    ensures plan.Some? ==> forall m, a :: m in plan.value.directories && m.original.None? && Closest(t, m.path, a) ==>
                             !Writes(t[a].auth.mode / 8 % 8) && !Writes(t[a].auth.mode % 8)
    ensures plan.Some? ==>
            Made(plan.value, t, targets, rotate) && plan.value.layout == layout && plan.value.environment == environment
                           && plan.value.uid == uid && plan.value.gid == gid
  {
    hide Usable, SiteOf, Bootstrap.Plannable;
    var names := PublishNames(t, layout, rotate);
    if names.None? || !SecretsOwned(t, layout, uid, gid) || (rotate && started) {
      return None;
    }
    var directories := DirectoryPlan(t, targets, uid, gid);
    if directories.None? || Parent(layout.secretRoot) !in t
        || !OwnedBy(t[Parent(layout.secretRoot)], Directory, uid, gid)
       || !Bootstrap.Plannable(SiteOf(t, layout, uid, gid, nextId)) {
      return None;
    }
    SiteIs(t, layout, uid, gid, nextId);
    assert forall name :: name in MANAGED ==> exists k :: 0 <= k < |MANAGED| && MANAGED[k] == name;
    return Some(Preparation(layout, directories.value, names.value, uid, gid, environment));
  }

  lemma SiteIs(t: Tree, layout: Layout, uid: nat, gid: nat, nextId: nat)
    requires Bootstrap.Plannable(SiteOf(t, layout, uid, gid, nextId))
    ensures layout.secretRoot in t ==> IsDirectory(t, layout.secretRoot)
  {
    assert SiteOf(t, layout, uid, gid, nextId).original[0] == Lookup(t, layout.secretRoot);
  }

  // ----- How a preparation ends --------------------------------------------------------------------

  /** With the tree and the environment file: after a cleanup without what is
      private to the transaction (if the companion could not be deleted, with its
      contents), after a refusal as the transaction left them. */
  datatype Ending =
    | Finished(tree: Tree, env: Option<Node>)
    | Uncleaned(tree: Tree, env: Option<Node>, companion: Tree)
    | Undone(tree: Tree, env: Option<Node>)
    | Refused(phase: Phase, tree: Tree, env: Option<Node>)

  /** When power is lost: while the journal is created, in the forward run, in
      the rollback that answers a failure, in recoveries, in the cleanup that
      follows at once, and in later cleanups. */
  datatype Course = Course(
    createdFor: Option<nat>, steadyFor: Option<nat>, handledFor: Option<nat>, recoveries: seq<nat>,
    cleanedFor: Option<nat>, cleanups: seq<nat>)

  /** Where a run stopped short of its commit. */
  datatype Stop = Nowhere | InCreation(site: Bootstrap.Site) | InRun(journal: Journal, env: EnvState)

  predicate EnvironmentSet(plan: Preparation, env: Option<Node>, after: Option<Node>) {
    match plan.environment
    case Some(change) => IsFile(after, None, change.after)
    case None => after == env
  }

  /** What may not be deleted stays: the old secrets that were not private. */
  ghost predicate LeftBehind(plan: Preparation, t: Tree, companion: Tree) {
    forall name ::
      name in plan.publish && plan.layout.Active(name) in t && t[plan.layout.Active(name)].auth.mode != PRIVATE_FILE ==>
        Lookup(companion, ["backup", name]) == Some(t[plan.layout.Active(name)])
  }

  /** What each ending promises. */
  ghost predicate EndsWell(ending: Ending, plan: Preparation, t: Tree, env: Option<Node>, values: string -> nat) {
    match ending
    case Finished(tree, after) =>
      Prepared(plan, t, values, tree) && EnvironmentSet(plan, env, after) && RotatedPrivate(plan, t)
    case Uncleaned(tree, after, companion) =>
      Prepared(plan, t, values, tree) && EnvironmentSet(plan, env, after) && !RotatedPrivate(plan, t)
      && LeftBehind(plan, t, companion)
    case Undone(tree, after) => tree == t && SameFile(env, after)
    case Refused(_, tree, after) =>
      // Not given back, but every managed object is in its earlier or its new
      // state, every old secret is at one of its two places, and nothing else
      // has been touched.
      Suspended(plan, t, values, tree) && EnvironmentHeld(plan, env, after)
  }

  /** Without rotation, the exact condition under which a run that stopped is
      refused. */
  ghost predicate RefusedAfter(stop: Stop, course: Course) {
    match stop
    case Nowhere => false
    case InCreation(site) => Bootstrap.Valid(site) && site.record.Some? && Bootstrap.Stuck(site)
    case InRun(journal, env) =>
      UnfinishedPublication(journal, env) || (ManifestTorn(journal) && course.handledFor != Some(0))
  }

  // ----- The journal's creation ------------------------------------------------------------------------

  lemma NothingInside(t: Tree, layout: Layout, uid: nat, gid: nat, nextId: nat)
    requires ParentClosed(t)
    ensures var s := SiteOf(t, layout, uid, gid, nextId);
            |s.original| == 2 && |s.others| == 2 && forall i :: 0 <= i < 2 && s.original[i].None? ==> !s.others[i]
  {
    assert layout.CompanionParent() != layout.secretRoot;
  }

  /** Once everything has been prepared and recorded, and nothing else lies in
      what was created, nothing stands in the way of cleanup. */
  lemma CreatedIsNotStuck(s: Bootstrap.Site)
    requires Bootstrap.Valid(s) && s.record.Some? && s.record.value.state.Ready?
    requires forall i :: 0 <= i < 2 && s.original[i].None? ==> !s.others[i]
    ensures !Bootstrap.Stuck(s)
  {
    assert !s.record.value.entries[0].cleaned && !s.record.value.entries[1].cleaned;
    assert Bootstrap.Standing(s, 0) && Bootstrap.Standing(s, 1);
  }

  /** Both directories are private, and the ones that were there if any were. */
  lemma CreatedIsKept(s: Bootstrap.Site, i: nat)
    requires Bootstrap.Valid(s) && s.record.Some? && s.record.value.state.Ready? && i < 2
    requires s.dirs[i].Some? && s.dirs[i].value.auth.mode == PRIVATE_DIR
    ensures MadeOrKept(s.dirs[i], s.original[i])
  {
    assert !s.record.value.entries[0].cleaned && !s.record.value.entries[1].cleaned;
    assert Bootstrap.Standing(s, i);
  }

  lemma AsFound(plan: Preparation, t: Tree, targets: seq<Path>, rotate: bool)
    requires Made(plan, t, targets, rotate)
    ensures Assembled(t, plan.layout, Lookup(t, plan.layout.secretRoot), Lookup(t, plan.layout.CompanionParent())) == t
  {
    var layout := plan.layout;
    forall p
      ensures Lookup(Assembled(t, layout, Lookup(t, layout.secretRoot), Lookup(t, layout.CompanionParent())), p)
              == Lookup(t, p)
    {
      AssembledAt(t, layout, Lookup(t, layout.secretRoot), Lookup(t, layout.CompanionParent()), p);
    }
    SameLookups(Assembled(t, layout, Lookup(t, layout.secretRoot), Lookup(t, layout.CompanionParent())), t);
  }

  lemma UnrecordedIsAsFound(s: Bootstrap.Site)
    requires Bootstrap.Valid(s)
    ensures |s.original| == |s.dirs| == 2
    ensures s.record.None? || Bootstrap.GivenBack(s) ==> s.dirs == s.original
  {
  }

  /** What is left of an interrupted creation: the journal, which has nothing to
      undo, and a companion in which nothing stands but what was made of its two
      directories. */
  method Leftover(plan: Preparation, whole: Tree, bootstrap: Bootstrap.BootstrapDirectories)
    returns (remains: Cleanup.TransactionRemains)
    requires Bootstrap.Valid(bootstrap.State()) && bootstrap.record.Some? && Cleanup.AllPrivate(Some(whole))
    ensures remains.power == bootstrap.power && remains.bootstrap == bootstrap && fresh(remains)
    ensures fresh(remains.companion) && fresh(remains.tombstone) && fresh(remains.rollbackTombstone)
    ensures remains.Retiring() && remains.root.Some? && Cleanup.AllPrivate(remains.companion.entries)
  {
    var d := PrivateDirectory(plan.uid, plan.gid);
    var rooms: Tree :=
      match bootstrap.rooms
      case 0 => map[]
      case 1 => map[Cleanup.STAGING := d]
      case _ => map[Cleanup.STAGING := d, Cleanup.BACKUP := d];
    var contents := if bootstrap.companion then Some(rooms) else None;
    assert Cleanup.AllPrivate(contents);
    hide Cleanup.AllPrivate, Bootstrap.Valid, Bootstrap.GivenBack;
    var companion := new Cleanup.PrivateDirectory(bootstrap.power, contents);
    remains := new Cleanup.TransactionRemains(bootstrap.power, whole, companion, bootstrap, RollbackComplete, true);
    Cleanup.EmptyIsPrivate();
  }

  lemma NothingHasRun(
    plan: Preparation, t: Tree, targets: seq<Path>, rotate: bool, values: string -> nat, root: Option<Node>,
    parent: Option<Node>)
    requires Made(plan, t, targets, rotate)
    ensures Suspended(plan, t, values, Assembled(t, plan.layout, root, parent))
  {
    hide Made, Assembled, IsManaged, Layout.Active, Layout.Saved;
    var u := Assembled(t, plan.layout, root, parent);
    forall name | name in MANAGED
      ensures Lookup(u, plan.layout.Active(name)) == Lookup(t, plan.layout.Active(name))
              && plan.layout.Saved(name) !in u
      ensures name !in plan.publish ==> plan.layout.Active(name) in t
    {
      AssembledAtSecret(t, plan.layout, root, parent, name);
      NotAtSaved(t, plan.layout, root, parent, name);
      if name !in plan.publish { KeptIsThere(plan, t, targets, rotate, name); }
    }
    forall m | m in plan.directories && m.path != plan.layout.secretRoot
      ensures Lookup(u, m.path) == Lookup(t, m.path)
    {
      DirectoriesOutside(plan, t, targets, rotate, m);
      AssembledAt(t, plan.layout, root, parent, m.path);
      assert plan.layout.secretRoot <= plan.layout.CompanionParent() <= plan.layout.Companion();
    }
    forall p | !IsPrivateTo(plan.layout, p)
      ensures Lookup(u, p) == Lookup(t, p)
    {
      AssembledAt(t, plan.layout, root, parent, p);
    }
  }

  lemma NotAtSaved(t: Tree, layout: Layout, root: Option<Node>, parent: Option<Node>, name: string)
    ensures layout.Saved(name) !in Assembled(t, layout, root, parent)
  {
    hide Assembled;
    AssembledAt(t, layout, root, parent, layout.Saved(name));
    assert layout.Companion() <= layout.Saved(name) && |layout.CompanionParent()| < |layout.Saved(name)|;
    assert |layout.secretRoot| < |layout.Saved(name)|;
  }

  /** Creation was interrupted: both directories are given back, or cleanup stops. */
  method AbandonCreation(
    plan: Preparation, t: Tree, env: Option<Node>, targets: seq<Path>, rotate: bool, ghost values: string -> nat,
    nextId: nat, whole: Tree, course: Course, bootstrap: Bootstrap.BootstrapDirectories)
    returns (ending: Ending)
    requires Made(plan, t, targets, rotate) && Cleanup.AllPrivate(Some(whole))
    requires Bootstrap.Valid(bootstrap.State())
             && bootstrap.original == SiteOf(t, plan.layout, plan.uid, plan.gid, nextId).original
    requires env.Some? ==> env.value.kind == Regular
    modifies bootstrap, bootstrap.power
    ensures if old(bootstrap.record.Some? && Bootstrap.Stuck(bootstrap.State())) then
              ending.Refused? && ending.phase == RollbackFailed && ending.env == env
              && Suspended(plan, t, values, ending.tree)
            else ending == Undone(t, env)
  {
    AsFound(plan, t, targets, rotate);
    hide Made, Bootstrap.Stuck, Bootstrap.Valid, Bootstrap.GivenBack, Assembled, Cleanup.AllPrivate,
         Cleanup.RollbackCleanup, Cleanup.Scan, Cleanup.Clean;
    UnrecordedIsAsFound(bootstrap.State());
    ghost var original := bootstrap.original;
    if bootstrap.record.Some? {
      var remains := Leftover(plan, whole, bootstrap);
      var r := Cleanup.RolledBackThroughCrashes(remains, course.cleanedFor, course.cleanups);
      UnrecordedIsAsFound(bootstrap.State());
      if r.Conflict? {
        NothingHasRun(plan, t, targets, rotate, values, bootstrap.dirs[0], bootstrap.dirs[1]);
        return Refused(RollbackFailed, Assembled(t, plan.layout, bootstrap.dirs[0], bootstrap.dirs[1]), env);
      }
    }
    return Undone(Assembled(t, plan.layout, bootstrap.dirs[0], bootstrap.dirs[1]), env);
  }

  // ----- Cleanup ---------------------------------------------------------------------------------------------

  /** The bootstrap directories of a transaction that is under way. */
  ghost predicate Underway(plan: Preparation, t: Tree, nextId: nat, bootstrap: Bootstrap.BootstrapDirectories)
    reads bootstrap
  {
    && Bootstrap.Valid(bootstrap.State()) && bootstrap.record.Some? && bootstrap.record.value.state.Ready?
    && bootstrap.companion && bootstrap.Private()
    && bootstrap.others == SiteOf(t, plan.layout, plan.uid, plan.gid, nextId).others
    && bootstrap.original == SiteOf(t, plan.layout, plan.uid, plan.gid, nextId).original
  }

  lemma UnderwayIsKept(plan: Preparation, t: Tree, nextId: nat, bootstrap: Bootstrap.BootstrapDirectories)
    requires Underway(plan, t, nextId, bootstrap)
    ensures |bootstrap.dirs| == 2
    ensures MadeOrKept(bootstrap.dirs[0], Lookup(t, plan.layout.secretRoot))
    ensures MadeOrKept(bootstrap.dirs[1], Lookup(t, plan.layout.CompanionParent()))
  {
    CreatedIsKept(bootstrap.State(), 0);
    CreatedIsKept(bootstrap.State(), 1);
  }

  lemma UnderwayIsNotStuck(plan: Preparation, t: Tree, nextId: nat, bootstrap: Bootstrap.BootstrapDirectories)
    requires ParentClosed(t) && Underway(plan, t, nextId, bootstrap)
    ensures !Bootstrap.Stuck(bootstrap.State())
  {
    NothingInside(t, plan.layout, plan.uid, plan.gid, nextId);
    CreatedIsNotStuck(bootstrap.State());
  }

  /** The companion a committed transaction leaves, as its cleanup finds it. */
  lemma CompanionFound(
    plan: Preparation, t: Tree, targets: seq<Path>, rotate: bool, values: string -> nat, valid: Validator,
    ops: seq<Operation>, start: Tree)
    requires Runs(plan, t, targets, rotate, values, valid, ops, start)
    ensures var contents := Holdings(ApplyAll(ops, start), plan.layout.Companion());
            Cleanup.Intact(Some(contents)) && (Cleanup.AllPrivate(Some(contents)) <==> RotatedPrivate(plan, t))
  {
    var layout, u := plan.layout, ApplyAll(ops, start);
    CompanionEnds(plan, t, targets, rotate, values, valid, ops, start);
    hide Runs, RotatedPrivate, CompanionPrivate, ApplyAll, Holdings;
    HoldingsPrivate(u, layout.Companion());
    assert layout.Companion() + Cleanup.STAGING == layout.StagingDirectory();
    assert layout.Companion() + Cleanup.BACKUP == layout.BackupDirectory();
    HoldingsAt(u, layout.Companion(), Cleanup.STAGING);
    HoldingsAt(u, layout.Companion(), Cleanup.BACKUP);
  }

  /** Old secrets that were not private survive the attempt to delete them. */
  lemma SecretsLeft(
    plan: Preparation, t: Tree, targets: seq<Path>, rotate: bool, values: string -> nat, valid: Validator,
    ops: seq<Operation>, start: Tree, companion: Tree)
    requires Runs(plan, t, targets, rotate, values, valid, ops, start)
    requires Cleanup.Remaining(companion, Holdings(ApplyAll(ops, start), plan.layout.Companion()))
    ensures LeftBehind(plan, t, companion)
  {
    var u, c := ApplyAll(ops, start), plan.layout.Companion();
    PublishedAreRegular(plan, t, targets, rotate);
    hide Runs, ApplyAll, Holdings, Layout.Active;
    forall name | name in plan.publish && plan.layout.Active(name) in t
        && t[plan.layout.Active(name)].auth.mode != PRIVATE_FILE
      ensures Lookup(companion, ["backup", name]) == Some(t[plan.layout.Active(name)])
    {
      SecretSaved(plan, t, targets, rotate, values, valid, ops, start, name);
      assert c + ["backup", name] == plan.layout.Saved(name);
      HoldingsAt(u, c, ["backup", name]);
    }
  }

  lemma PublishedAreRegular(plan: Preparation, t: Tree, targets: seq<Path>, rotate: bool)
    requires Made(plan, t, targets, rotate)
    ensures forall name :: name in plan.publish && plan.layout.Active(name) in t ==>
            t[plan.layout.Active(name)].kind == Regular
  {
    PublishNamesAre(t, plan.layout, rotate);
  }

  /** Retires a committed journal and its companion; `left` is what of the
      companion may not be deleted. */
  method RetireCompanion(contents: Tree, whole: Tree, course: Course, bootstrap: Bootstrap.BootstrapDirectories)
    returns (r: Outcome, left: Tree)
    requires Cleanup.Intact(Some(contents)) && Cleanup.AllPrivate(Some(whole))
    requires Bootstrap.Valid(bootstrap.State()) && bootstrap.companion
    modifies bootstrap`companion, bootstrap.power
    ensures r == if Cleanup.AllPrivate(Some(contents)) then Pass else Conflict
    ensures r.Conflict? ==> Cleanup.Remaining(left, contents)
  {
    hide Bootstrap.Valid, Cleanup.Scan, Cleanup.AllPrivate, Cleanup.Remaining;
    var companion := new Cleanup.PrivateDirectory(bootstrap.power, Some(contents));
    var remains := new Cleanup.TransactionRemains(bootstrap.power, whole, companion, bootstrap, Committed, false);
    Cleanup.EmptyIsPrivate();
    r := Cleanup.CommittedThroughCrashes(remains, course.cleanedFor, course.cleanups);
    left := if r.Pass? then map[] else remains.companion.entries.value;
  }

  /** Cleanup after the commit of a plan. */
  method CleanCommitted(
    plan: Preparation, t: Tree, env: Option<Node>, targets: seq<Path>, rotate: bool, values: string -> nat, nextId: nat,
    whole: Tree, valid: Validator, course: Course, ghost ops: seq<Operation>, ghost start: Tree, tree: Tree,
    after: Option<Node>, bootstrap: Bootstrap.BootstrapDirectories)
    returns (ending: Ending)
    requires Runs(plan, t, targets, rotate, values, valid, ops, start) && tree == ApplyAll(ops, start)
    requires EnvironmentSet(plan, env, after) && Underway(plan, t, nextId, bootstrap) && Cleanup.AllPrivate(Some(whole))
    modifies bootstrap, bootstrap.power
    ensures EndsWell(ending, plan, t, env, values) && (ending.Finished? || ending.Uncleaned?)
  {
    UnderwayIsKept(plan, t, nextId, bootstrap);
    CompanionFound(plan, t, targets, rotate, values, valid, ops, start);
    hide MadeOrKept, LeftBehind, Runs, ApplyAll, Prepared, RotatedPrivate, Assembled, Holdings, EnvironmentSet,
         Bootstrap.Valid, Cleanup.AllPrivate, Cleanup.Remaining;
    var final := Assembled(tree, plan.layout, bootstrap.dirs[0], bootstrap.dirs[1]);
    RunIsPrepared(plan, t, targets, rotate, values, valid, ops, start, bootstrap.dirs[0], bootstrap.dirs[1]);
    var r, left := RetireCompanion(Holdings(tree, plan.layout.Companion()), whole, course, bootstrap);
    if r.Pass? {
      return Finished(final, after);
    }
    SecretsLeft(plan, t, targets, rotate, values, valid, ops, start, left);
    return Uncleaned(final, after, left);
  }

  /** Retires a rolled back journal, its companion and its directories. */
  method RetireRolledBack(
    contents: Tree, whole: Tree, phase: Phase, course: Course, bootstrap: Bootstrap.BootstrapDirectories)
    requires Cleanup.AllPrivate(Some(contents)) && Cleanup.AllPrivate(Some(whole)) && IsRolledBack(phase)
    requires Bootstrap.Valid(bootstrap.State()) && bootstrap.companion && bootstrap.record.Some?
             && !Bootstrap.Stuck(bootstrap.State())
    modifies bootstrap`record, bootstrap`dirs, bootstrap`companion, bootstrap.power
    ensures |bootstrap.original| == |bootstrap.dirs| == 2 && bootstrap.dirs == bootstrap.original
  {
    hide Bootstrap.Valid, Bootstrap.Stuck, Bootstrap.GivenBack, Cleanup.Scan, Cleanup.AllPrivate;
    Cleanup.EmptyIsPrivate();
    var companion := new Cleanup.PrivateDirectory(bootstrap.power, Some(contents));
    var remains := new Cleanup.TransactionRemains(bootstrap.power, whole, companion, bootstrap, phase, true);
    var r := Cleanup.RolledBackThroughCrashes(remains, course.cleanedFor, course.cleanups);
    UnrecordedIsAsFound(bootstrap.State());
  }

  /** Cleanup after the rollback of a plan. */
  method CleanRolledBack(
    plan: Preparation, t: Tree, targets: seq<Path>, rotate: bool, nextId: nat, whole: Tree, course: Course,
    phase: Phase, tree: Tree, after: Option<Node>, bootstrap: Bootstrap.BootstrapDirectories)
    returns (ending: Ending)
    requires Made(plan, t, targets, rotate) && Underway(plan, t, nextId, bootstrap) && Cleanup.AllPrivate(Some(whole))
             && IsRolledBack(phase)
    requires Outside(tree, plan.layout.Companion())
          == Outside(Bootstrapped(t, plan.layout, plan.uid, plan.gid), plan.layout.Companion())
    requires CompanionPrivate(tree, plan.layout.Companion())
    modifies bootstrap, bootstrap.power
    ensures ending == Undone(t, after)
  {
    UnderwayIsNotStuck(plan, t, nextId, bootstrap);
    UndoneIsInspected(plan, t, targets, rotate, tree);
    HoldingsPrivate(tree, plan.layout.Companion());
    hide Made, Outside, Bootstrapped, Assembled, Holdings, CompanionPrivate, Bootstrap.Valid, Bootstrap.Stuck;
    RetireRolledBack(Holdings(tree, plan.layout.Companion()), whole, phase, course, bootstrap);
    return Undone(Assembled(tree, plan.layout, bootstrap.dirs[0], bootstrap.dirs[1]), after);
  }

  // ----- The whole -------------------------------------------------------------------------------------------------

  /** What a committed transaction means for its plan. */
  lemma CommittedRuns(
    plan: Preparation, t: Tree, env: Option<Node>, targets: seq<Path>, rotate: bool, values: string -> nat,
    valid: Validator, j: Journal, e: EnvState)
    requires Made(plan, t, targets, rotate) && Supplied(plan, values, env, valid)
    requires var base := Bootstrapped(t, plan.layout, plan.uid, plan.gid); var steps := StepsFor(plan, base, values);
             Deployed(steps, j, e) && j.base == WithStaged(base, steps.staged) && j.envBase == env
    ensures Runs(plan, t, targets, rotate, values, valid, j.ops, j.base) && j.tree == ApplyAll(j.ops, j.base)
    ensures EnvironmentSet(plan, env, e.env)
  {
    PlanHasShape(plan, t, targets, rotate, values, env, valid);
    hide Made, Supplied, Shape, ApplyAll, WithStaged, PlannedOperations, Bootstrapped;
  }

  /** Makes the two directories and the companion, until power is lost. */
  method CreateDirectories(plan: Preparation, t: Tree, nextId: nat, course: Course)
    returns (r: Outcome, bootstrap: Bootstrap.BootstrapDirectories)
    requires Bootstrap.Plannable(SiteOf(t, plan.layout, plan.uid, plan.gid, nextId))
    ensures fresh(bootstrap) && fresh(bootstrap.power) && !r.Conflict? && (course.createdFor == None ==> r.Pass?)
    ensures Bootstrap.Valid(bootstrap.State())
            && bootstrap.original == SiteOf(t, plan.layout, plan.uid, plan.gid, nextId).original
    ensures r.Pass? ==> Underway(plan, t, nextId, bootstrap)
  {
    var site := SiteOf(t, plan.layout, plan.uid, plan.gid, nextId);
    var power := new Power(course.createdFor);
    bootstrap := new Bootstrap.BootstrapDirectories(power, plan.uid, plan.gid, site.others, site.dirs, nextId);
    hide Bootstrap.Valid;
    r := bootstrap.Create();
  }

  lemma PlanIsReady(
    plan: Preparation, t: Tree, targets: seq<Path>, rotate: bool, values: string -> nat, env: Option<Node>,
    valid: Validator)
    requires Made(plan, t, targets, rotate) && Supplied(plan, values, env, valid)
    ensures var base := Bootstrapped(t, plan.layout, plan.uid, plan.gid); var steps := StepsFor(plan, base, values);
            ParentClosed(base) && Fits(steps, base, env, plan.layout.Companion(), valid)
            && CompanionPrivate(base, plan.layout.Companion())
            && (!rotate ==> PlainPlan(PlannedOperations(steps), base, plan.layout.Companion()))
  {
    BootstrapAdds(plan, t, targets, rotate);
    PlanFits(plan, t, targets, rotate, values, env, valid);
    CompanionStartsPrivate(plan, t, targets, rotate);
    if !rotate { PlanIsPlain(plan, t, targets, values); }
    hide Made, Supplied, Fits, Bootstrapped, StepsFor, PlannedOperations, PlainPlan, ParentClosed, CompanionPrivate;
  }

  method NewJournal(base: Tree, env: Option<Node>, exchanges: bool, companion: Path)
    returns (journal: TransactionJournal)
    requires ParentClosed(base)
    ensures fresh(journal) && fresh(journal.env) && fresh(journal.power) && journal.Wired()
            && journal.companion == companion
    ensures Untouched(journal.Now(), journal.env.State())
    ensures journal.tree == journal.base == base && journal.env.env == journal.envBase == env
  {
    var power := new Power(None);
    var store := new EnvironmentStore(power, exchanges, env);
    journal := new TransactionJournal(power, store, companion, base);
  }

  /** The transaction of a plan, up to its commit or the end of its recovery. */
  method Transact(
    plan: Preparation, t: Tree, env: Option<Node>, exchanges: bool, targets: seq<Path>, rotate: bool,
    values: string -> nat, valid: Validator, course: Course)
    returns (r: Outcome, journal: TransactionJournal, ghost failed: Journal, ghost left: EnvState)
    requires Made(plan, t, targets, rotate) && Supplied(plan, values, env, valid)
             && (env.Some? ==> env.value.kind == Regular)
    ensures var base := Bootstrapped(t, plan.layout, plan.uid, plan.gid); var steps := StepsFor(plan, base, values);
            Ended(r, steps, journal.Now(), journal.env.State(), base, env, plan.layout.Companion())
            && CompanionPrivate(base, plan.layout.Companion()) && journal.envBase == env
    ensures !IsCommitted(journal.phase) ==> Running(failed, left, valid)
    ensures !IsCommitted(journal.phase) && !rotate ==> (r.Conflict? <==> RefusedAfter(InRun(failed, left), course))
    ensures course.steadyFor == None ==> IsCommitted(journal.phase)
    ensures !IsCommitted(journal.phase) ==>
              Suspended(plan, t, values, journal.tree) && EnvironmentHeld(plan, env, journal.env.env)
  {
    PlanIsReady(plan, t, targets, rotate, values, env, valid);
    assert forall j, e :: RefusedAfter(InRun(j, e), course) <==>
        UnfinishedPublication(j, e) || (ManifestTorn(j) && course.handledFor != Some(0));
    hide *;
    var base := Bootstrapped(t, plan.layout, plan.uid, plan.gid);
    journal := NewJournal(base, env, exchanges, plan.layout.Companion());
    r, failed, left :=
      DeployThroughCrashes(journal, StepsFor(plan, base, values), course.steadyFor, course.handledFor,
          course.recoveries, valid);
    if !IsCommitted(journal.phase) {
      StopMeans(plan, t, targets, rotate, values, env, valid, journal.Now(), journal.env.State());
    }
  }

  /** What is certain wherever the transaction of a plan stops. */
  lemma StopMeans(
    plan: Preparation, t: Tree, targets: seq<Path>, rotate: bool, values: string -> nat, env: Option<Node>,
    valid: Validator, j: Journal, e: EnvState)
    requires Made(plan, t, targets, rotate) && Supplied(plan, values, env, valid)
             && (env.Some? ==> env.value.kind == Regular)
    requires Recoverable(j, e, valid) && j.envBase == env
    requires var base := Bootstrapped(t, plan.layout, plan.uid, plan.gid); var steps := StepsFor(plan, base, values);
             && j.ops <= PlannedOperations(steps) && PartlyStaged(base, j.base, steps.staged)
             && (j.ops != [] ==> j.base == WithStaged(base, steps.staged))
    ensures Suspended(plan, t, values, j.tree) && EnvironmentHeld(plan, env, e.env)
  {
    hide Made, Supplied, Bootstrapped, StepsFor, PlannedOperations, PartlyStaged, WithStaged, WrittenAhead, EnvTracked,
         Progress, Suspended, EnvironmentHeld;
    StopIsSuspended(plan, t, targets, rotate, values, env, valid, j);
    StopHoldsEnvironment(plan, Bootstrapped(t, plan.layout, plan.uid, plan.gid), values, env, valid, j, e);
  }

  /** The transaction of a plan and its cleanup. */
  method RunTransaction(
    plan: Preparation, t: Tree, env: Option<Node>, exchanges: bool, targets: seq<Path>, rotate: bool,
    values: string -> nat, nextId: nat, whole: Tree, valid: Validator, course: Course,
    bootstrap: Bootstrap.BootstrapDirectories)
    returns (ending: Ending, ghost stop: Stop)
    requires Made(plan, t, targets, rotate) && Supplied(plan, values, env, valid)
             && (env.Some? ==> env.value.kind == Regular)
    requires Underway(plan, t, nextId, bootstrap) && Cleanup.AllPrivate(Some(whole))
    modifies bootstrap, bootstrap.power
    ensures EndsWell(ending, plan, t, env, values)
    ensures !rotate ==> (ending.Refused? <==> RefusedAfter(stop, course))
    ensures if ending.Finished? || ending.Uncleaned? then stop == Nowhere
            else stop.InRun? && Running(stop.journal, stop.env, valid)
    ensures course.steadyFor == None ==> stop.Nowhere?
  {
    hide Made, Supplied, Bootstrapped, StepsFor, Underway, Cleanup.AllPrivate, CompanionPrivate, Running, Deployed,
         WithStaged, Outside, UnfinishedPublication, ManifestTorn, Prepared, RotatedPrivate, LeftBehind, Suspended,
         EnvironmentHeld;
    var r, journal, failed, left := Transact(plan, t, env, exchanges, targets, rotate, values, valid, course);
    var tree, after := journal.tree, journal.env.env;
    if IsCommitted(journal.phase) {
      stop := Nowhere;
      CommittedRuns(plan, t, env, targets, rotate, values, valid, journal.Now(), journal.env.State());
      ending := CleanCommitted(plan, t, env, targets, rotate, values, nextId, whole, valid, course, journal.ops,
          journal.base, tree, after, bootstrap);
    } else {
      stop := InRun(failed, left);
      if r.Conflict? {
        ending := Refused(journal.phase, tree, after);
      } else {
        ending := CleanRolledBack(plan, t, targets, rotate, nextId, whole, course, journal.phase, tree, after,
            bootstrap);
      }
    }
  }

  lemma NothingReplaced(plan: Preparation, env: Option<Node>)
    requires env.Some? ==> env.value.kind == Regular
    ensures SameFile(env, env) && EnvironmentHeld(plan, env, env)
  {
  }

  /** Creates the journal of a plan and runs it to its end, whatever happens on
      the way. */
  method RunPlan(
    plan: Preparation, t: Tree, env: Option<Node>, exchanges: bool, targets: seq<Path>, rotate: bool,
    values: string -> nat, nextId: nat, whole: Tree, valid: Validator, course: Course)
    returns (ending: Ending, ghost stop: Stop)
    requires Made(plan, t, targets, rotate) && Supplied(plan, values, env, valid)
             && (env.Some? ==> env.value.kind == Regular)
    requires Bootstrap.Plannable(SiteOf(t, plan.layout, plan.uid, plan.gid, nextId)) && Cleanup.AllPrivate(Some(whole))
    ensures EndsWell(ending, plan, t, env, values)
    ensures !rotate ==> (ending.Refused? <==> RefusedAfter(stop, course))
    ensures stop.Nowhere? <==> ending.Finished? || ending.Uncleaned?
    ensures stop.InRun? ==> Running(stop.journal, stop.env, valid)
    ensures course.createdFor == None && course.steadyFor == None ==> stop.Nowhere?
  {
    hide Made, Supplied, Bootstrap.Valid, Bootstrap.Stuck, Bootstrap.Plannable, Cleanup.AllPrivate, SiteOf, Running,
         Underway, Prepared, RotatedPrivate, LeftBehind, Suspended, EnvironmentHeld;
    var r, bootstrap := CreateDirectories(plan, t, nextId, course);
    if r.Pass? {
      ending, stop :=
          RunTransaction(plan, t, env, exchanges, targets, rotate, values, nextId, whole, valid, course, bootstrap);
    } else {
      stop := InCreation(bootstrap.State());
      NothingReplaced(plan, env);
      ending := AbandonCreation(plan, t, env, targets, rotate, values, nextId, whole, course, bootstrap);
    }
  }

  /** A preparation from the first look at the disk to its end, whatever stops
      creation, run, rollback, recovery and cleanup on the way.  `None` means
      that it was not accepted and nothing was touched. */
  method PrepareDeployment(
    t: Tree, env: Option<Node>, exchanges: bool, targets: seq<Path>, layout: Layout, rotate: bool, started: bool,
    uid: nat, gid: nat, nextId: nat, environment: Option<EnvChange>, values: string -> nat, whole: Tree,
    valid: Validator, course: Course)
    returns (r: Option<Ending>, ghost plan: Preparation, ghost stop: Stop)
    requires Inspected(t, layout, targets, nextId) && (env.Some? ==> env.value.kind == Regular)
             && Cleanup.AllPrivate(Some(whole))
    requires Supplied(Preparation(layout, [], MANAGED, uid, gid, environment), values, env, valid)
    ensures r.Some? <==> Accepted(t, targets, layout, rotate, started, uid, gid, nextId)
    ensures r.Some? ==>
              && Made(plan, t, targets, rotate) && plan.layout == layout && plan.environment == environment
                 && plan.uid == uid && plan.gid == gid
              && EndsWell(r.value, plan, t, env, values)
              // Refused, without rotation, exactly where it must be.
              && (!rotate ==> (r.value.Refused? <==> RefusedAfter(stop, course)))
              && (stop.Nowhere? <==> r.value.Finished? || r.value.Uncleaned?)
              && (stop.InRun? ==> Running(stop.journal, stop.env, valid))
              && (course.createdFor == None && course.steadyFor == None ==> stop.Nowhere?)
              && (forall m, a :: m in plan.directories && m.original.None? && Closest(t, m.path, a) ==>
                    !Writes(t[a].auth.mode / 8 % 8) && !Writes(t[a].auth.mode % 8))
  {
    hide Inspected, Accepted, EndsWell, RefusedAfter, Running, Cleanup.AllPrivate, PublishNames;
    var made := MakePlan(t, targets, layout, rotate, started, uid, gid, nextId, environment);
    if made.None? {
      return None, Preparation(layout, [], [], uid, gid, environment), Nowhere;
    }
    plan := made.value;
    AcceptedMeans(t, targets, layout, rotate, started, uid, gid, nextId);
    hide Made, SiteOf, Bootstrap.Plannable;
    var ending;
    ending, stop := RunPlan(made.value, t, env, exchanges, targets, rotate, values, nextId, whole, valid, course);
    r := Some(ending);
  }

  lemma AcceptedMeans(
    t: Tree, targets: seq<Path>, layout: Layout, rotate: bool, started: bool, uid: nat, gid: nat, nextId: nat)
    requires layout.secretRoot != [] && Accepted(t, targets, layout, rotate, started, uid, gid, nextId)
    ensures Bootstrap.Plannable(SiteOf(t, layout, uid, gid, nextId))
    ensures PublishNames(t, layout, rotate).Some? && forall name :: name in PublishNames(t, layout, rotate).value ==>
            name in MANAGED
  {
    PublishNamesAre(t, layout, rotate);
  }
}
