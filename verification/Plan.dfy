/** From an inspected deployment to the steps of its transaction. */
module Plan {
  import opened Wrappers
  import opened Disk
  import opened Operations
  import opened Environment
  import opened Journal
  import opened Transaction
  import opened Directories

  const POSTGRES: seq<string> := ["postgres-password", "database-url"]
  const CLICKHOUSE: seq<string> := ["clickhouse-query-password", "clickhouse-ingest-password"]
  const MANAGED: seq<string> := POSTGRES + CLICKHOUSE

  /** Where the secrets and the transaction's private directories are. */
  datatype Layout = Layout(secretRoot: Path, transaction: string) {
    function CompanionParent(): Path { secretRoot + [".dcagent-transactions"] }

    function Companion(): Path { CompanionParent() + [transaction] }

    function StagingDirectory(): Path { Companion() + ["staging"] }

    function BackupDirectory(): Path { Companion() + ["backup"] }

    function Active(name: string): Path { secretRoot + [name] }

    function Staging(name: string): Path { StagingDirectory() + [name] }

    function Saved(name: string): Path { BackupDirectory() + [name] }
  }

  datatype Preparation = Preparation(
    layout: Layout, directories: seq<DirectoryMutation>, publish: seq<string>, uid: nat, gid: nat,
    environment: Option<EnvChange>)

  // ----- Which secrets to write -------------------------------------------------------------

  /** A pair of secrets of which only one exists. */
  predicate Halved(t: Tree, layout: Layout, pair: seq<string>)
    requires |pair| == 2
  {
    (layout.Active(pair[0]) in t) != (layout.Active(pair[1]) in t)
  }

  /** All secrets when rotating, otherwise the pairs that are missing. */
  function PublishNames(t: Tree, layout: Layout, rotate: bool): Option<seq<string>> {
    if Halved(t, layout, POSTGRES) || Halved(t, layout, CLICKHOUSE) then None
    else
      Some((if rotate || layout.Active(POSTGRES[0]) !in t then POSTGRES else [])
           + (if rotate || layout.Active(CLICKHOUSE[0]) !in t then CLICKHOUSE else []))
  }

  lemma PublishNamesAre(t: Tree, layout: Layout, rotate: bool)
    requires PublishNames(t, layout, rotate).Some?
    ensures var names := PublishNames(t, layout, rotate).value;
            (forall k, l :: 0 <= k < l < |names| ==> names[k] != names[l])
            && (forall name :: name in names ==> name in MANAGED)
            && (forall name :: name in MANAGED ==> layout.Active(name) in t || name in names)
            && (!rotate ==> forall name :: name in names ==> layout.Active(name) !in t)
            && (rotate ==> forall name :: name in MANAGED ==> name in names)
  {
    assert |POSTGRES[0]| == 17 && |POSTGRES[1]| == 12 && |CLICKHOUSE[0]| == 25 && |CLICKHOUSE[1]| == 26;
  }

  /** Refused exactly for half a pair. */
  lemma HalfAPairIsRefused(t: Tree, layout: Layout, rotate: bool)
    ensures PublishNames(t, layout, rotate).Some? <==>
            && (layout.Active("postgres-password") in t <==> layout.Active("database-url") in t)
            && (layout.Active("clickhouse-query-password") in t <==> layout.Active("clickhouse-ingest-password") in t)
  {
  }

  // ----- The tree once the journal has been created --------------------------------------------

  function PrivateDirectory(uid: nat, gid: nat): Node { NewDirectory(Authority(PRIVATE_DIR, uid, gid)) }

  /** The secret root and the companion's parent are created if missing, the
      companion always is. */
  function Bootstrapped(t: Tree, layout: Layout, uid: nat, gid: nat): Tree {
    var d := PrivateDirectory(uid, gid);
    var s := if layout.secretRoot in t then SetMode(t, layout.secretRoot, PRIVATE_DIR) else t[layout.secretRoot := d];
    var p := if layout.CompanionParent() in s then s else s[layout.CompanionParent() := d];
    p[layout.Companion() := d][layout.StagingDirectory() := d][layout.BackupDirectory() := d]
  }

  // ----- The steps --------------------------------------------------------------------------------

  /** One operation at most for each element, in order. */
  function Collect<T>(xs: seq<T>, step: T -> Option<Operation>): seq<Operation> {
    if xs == [] then []
    else
      Collect(xs[..|xs| - 1], step)
      + match step(xs[|xs| - 1])
        case None => []
        case Some(op) => [op]
  }

  function DirectoryStep(plan: Preparation, m: DirectoryMutation): Option<Operation> {
    if m.path == plan.layout.secretRoot then None
    else
      match m.original
      case None => Some(Mkdir(m.path, Authority(PRIVATE_DIR, plan.uid, plan.gid)))
      case Some(auth) =>
        if auth.mode == PRIVATE_DIR then None
        else Some(Chmod(m.path, Directory, auth.mode, PRIVATE_DIR, auth.uid, auth.gid))
  }

  function BackupStep(plan: Preparation, base: Tree, name: string): Option<Operation> {
    var active := plan.layout.Active(name);
    if active in base then Some(Backup(active, plan.layout.Saved(name), base[active].auth)) else None
  }

  function PublishStep(plan: Preparation, name: string): Option<Operation> {
    Some(Publish(plan.layout.Staging(name), plan.layout.Active(name), Authority(PRIVATE_FILE, plan.uid, plan.gid)))
  }

  /** Secrets that were kept lose their public modes. */
  function PermissionStep(plan: Preparation, base: Tree, name: string): Option<Operation> {
    var active := plan.layout.Active(name);
    if name in plan.publish || active !in base || base[active].auth.mode == PRIVATE_FILE then None
    else Some(Chmod(active, Regular, base[active].auth.mode, PRIVATE_FILE, base[active].auth.uid,
        base[active].auth.gid))
  }

  function NewSecret(plan: Preparation, name: string, digest: nat): StagedFile {
    StagedFile(plan.layout.Staging(name), Node(0, Regular, digest, Authority(PRIVATE_FILE, plan.uid, plan.gid)))
  }

  /** The steps of a preparation; `values` are the digests of the new secrets. */
  function StepsFor(plan: Preparation, base: Tree, values: string -> nat): Steps {
    Steps(
      seq(|plan.publish|,
          k requires 0 <= k < |plan.publish| => NewSecret(plan, plan.publish[k], values(plan.publish[k]))),
      Collect(plan.directories, m => DirectoryStep(plan, m)),
      Collect(plan.publish, name => BackupStep(plan, base, name)),
      Collect(plan.publish, name => PublishStep(plan, name)),
      Collect(MANAGED, name => PermissionStep(plan, base, name)),
      plan.environment)
  }

  lemma {:induction false} CollectOrigin<T>(xs: seq<T>, step: T -> Option<Operation>, i: nat) returns (k: nat)
    requires i < |Collect(xs, step)|
    ensures k < |xs| && step(xs[k]) == Some(Collect(xs, step)[i])
  {
    var head := xs[..|xs| - 1];
    if i < |Collect(head, step)| {
      k := CollectOrigin(head, step, i);
    } else {
      k := |xs| - 1;
    }
  }

  lemma {:induction false} CollectOrigins<T>(xs: seq<T>, step: T -> Option<Operation>, i: nat, j: nat)
    returns (k: nat, l: nat)
    requires i < j < |Collect(xs, step)|
    ensures k < l < |xs| && step(xs[k]) == Some(Collect(xs, step)[i]) && step(xs[l]) == Some(Collect(xs, step)[j])
  {
    var head := xs[..|xs| - 1];
    if j < |Collect(head, step)| {
      k, l := CollectOrigins(head, step, i, j);
    } else {
      l := |xs| - 1;
      k := CollectOrigin(head, step, i);
    }
  }

  lemma {:induction false} CollectHas<T>(xs: seq<T>, step: T -> Option<Operation>, k: nat) returns (i: nat)
    requires k < |xs| && step(xs[k]).Some?
    ensures i < |Collect(xs, step)| && Collect(xs, step)[i] == step(xs[k]).value
  {
    var head := xs[..|xs| - 1];
    if k < |xs| - 1 {
      i := CollectHas(head, step, k);
    } else {
      i := |Collect(head, step)|;
    }
  }

  // ----- What planning establishes -------------------------------------------------------------------

  /** A plan made for the tree `t`: directories as inspected, no other managed
      directory below the secret root, secrets regular files, and a transaction
      name nobody used before. */
  ghost predicate Made(plan: Preparation, t: Tree, targets: seq<Path>, rotate: bool) {
    var layout := plan.layout;
    && ParentClosed(t) && DirectoriesPlanned(t, targets, plan.uid, plan.gid, plan.directories)
    && (forall k :: 0 <= k < |targets| ==> !Within(targets[k], layout.secretRoot))
    && layout.secretRoot != [] && IsDirectory(t, Parent(layout.secretRoot))
    && (layout.secretRoot in t ==> IsDirectory(t, layout.secretRoot))
    && (forall name :: name in MANAGED && layout.Active(name) in t ==> t[layout.Active(name)].kind == Regular)
    && PublishNames(t, layout, rotate) == Some(plan.publish)
    && (forall p :: p in t ==> !(layout.Companion() <= p))
  }

  /** What the new secrets and the environment file bring. */
  ghost predicate Supplied(plan: Preparation, values: string -> nat, env: Option<Node>, valid: Validator) {
    && (forall name :: name in plan.publish ==>
          valid(plan.layout.Staging(name), values(name)) && valid(plan.layout.Active(name), values(name)))
    && (plan.environment.Some? ==>
          BeforeState(env, plan.environment.value)
          && BeforeDigest(plan.environment.value) != Some(plan.environment.value.after.digest))
  }

  lemma SecretPathsApart(layout: Layout, m: string, n: string)
    ensures layout.Active(m) != layout.Staging(n) && layout.Active(m) != layout.Saved(n)
            && layout.Staging(m) != layout.Saved(n)
    ensures m != n ==>
            layout.Active(m) != layout.Active(n) && layout.Staging(m) != layout.Staging(n)
            && layout.Saved(m) != layout.Saved(n)
  {
    var at := |layout.secretRoot|;
    assert layout.Staging(m)[at + 2] == "staging" && layout.Saved(n)[at + 2] == "backup";
    assert layout.Active(m)[at] == m && layout.Active(n)[at] == n;
    assert layout.Staging(m)[at + 3] == m && layout.Staging(n)[at + 3] == n;
    assert layout.Saved(m)[at + 3] == m && layout.Saved(n)[at + 3] == n;
  }

  /** Creating the journal adds the private directories and nothing else. */
  lemma BootstrapAdds(plan: Preparation, t: Tree, targets: seq<Path>, rotate: bool)
    requires Made(plan, t, targets, rotate)
    ensures var base, layout := Bootstrapped(t, plan.layout, plan.uid, plan.gid), plan.layout;
            ParentClosed(base) && IsDirectory(base, layout.StagingDirectory())
            && IsDirectory(base, layout.BackupDirectory())
            && (forall p :: !(layout.secretRoot <= p) ==> Lookup(base, p) == Lookup(t, p))
            && (forall name :: name in MANAGED ==> Lookup(base, layout.Active(name)) == Lookup(t, layout.Active(name)))
            && (forall name :: layout.Staging(name) !in base && layout.Saved(name) !in base)
  {
    hide DirectoriesPlanned, PublishNames;
    var layout := plan.layout;
    var base := Bootstrapped(t, layout, plan.uid, plan.gid);
    var c := layout.Companion();
    assert Parent(layout.CompanionParent()) == layout.secretRoot && Parent(c) == layout.CompanionParent();
    assert Parent(layout.StagingDirectory()) == Parent(layout.BackupDirectory()) == c;
    forall name: string
      ensures layout.Staging(name) !in base && layout.Saved(name) !in base
    {
      assert c <= layout.Staging(name) && c <= layout.Saved(name);
    }
    forall name | name in MANAGED
      ensures Lookup(base, layout.Active(name)) == Lookup(t, layout.Active(name))
    {
      assert |name| != 21 && |".dcagent-transactions"| == 21;
      assert layout.Active(name)[|layout.secretRoot|] == name;
      assert layout.CompanionParent()[|layout.secretRoot|] == ".dcagent-transactions";
    }
  }

  lemma CompanionStartsPrivate(plan: Preparation, t: Tree, targets: seq<Path>, rotate: bool)
    requires Made(plan, t, targets, rotate)
    ensures CompanionPrivate(Bootstrapped(t, plan.layout, plan.uid, plan.gid), plan.layout.Companion())
  {
    var base, c := Bootstrapped(t, plan.layout, plan.uid, plan.gid), plan.layout.Companion();
    forall p | p in base && Within(p, c)
      ensures base[p].kind == Directory
    {
      assert c <= p;
      assert p !in t;
    }
  }

  predicate InStaging(layout: Layout, p: Path) {
    p != [] && Parent(p) == layout.StagingDirectory()
  }

  /** The new secrets, once written. */
  lemma {:induction false} StagedAt(
    plan: Preparation, base: Tree, values: string -> nat, names: seq<string>, staged: seq<StagedFile>)
    requires |staged| == |names| && forall k :: 0 <= k < |names| ==>
             staged[k] == NewSecret(plan, names[k], values(names[k]))
    ensures var t := WithStaged(base, staged);
            (forall p :: !InStaging(plan.layout, p) ==> Lookup(t, p) == Lookup(base, p))
            && (forall name :: name in names ==>
               Lookup(t, plan.layout.Staging(name)) == Some(NewSecret(plan, name, values(name)).node))
    ensures forall p :: p in base ==> p in WithStaged(base, staged)
  {
    assert forall name :: InStaging(plan.layout, plan.layout.Staging(name));
    if names != [] {
      var n := |names| - 1;
      StagedAt(plan, base, values, names[..n], staged[..n]);
      assert names == names[..n] + [names[n]];
      forall name | name in names && name != names[n]
        ensures plan.layout.Staging(name) != plan.layout.Staging(names[n])
      {
        SecretPathsApart(plan.layout, name, names[n]);
      }
    }
  }

  /** The tree the transaction runs on. */
  ghost function Start(plan: Preparation, t: Tree, values: string -> nat): Tree {
    var base := Bootstrapped(t, plan.layout, plan.uid, plan.gid);
    WithStaged(base, StepsFor(plan, base, values).staged)
  }

  /** What the transaction starts from. */
  lemma StartHas(plan: Preparation, t: Tree, targets: seq<Path>, rotate: bool, values: string -> nat)
    requires Made(plan, t, targets, rotate)
    ensures var start, layout := Start(plan, t, values), plan.layout;
            ParentClosed(start)
            && (forall p :: !(layout.secretRoot <= p) ==> Lookup(start, p) == Lookup(t, p))
            && (forall name :: name in MANAGED ==> Lookup(start, layout.Active(name)) == Lookup(t, layout.Active(name)))
            && (forall name :: layout.Saved(name) !in start)
            && (forall name :: name in plan.publish ==>
                  Lookup(start, layout.Staging(name)) == Some(NewSecret(plan, name, values(name)).node))
  {
    var base, layout := Bootstrapped(t, plan.layout, plan.uid, plan.gid), plan.layout;
    var staged := StepsFor(plan, base, values).staged;
    BootstrapAdds(plan, t, targets, rotate);
    StagedAt(plan, base, values, plan.publish, staged);
    StartClosed(plan, base, values, staged);
    hide Made, Bootstrapped, WithStaged, ParentClosed, IsDirectory, NewSecret, InStaging;
    OthersThanStaging(layout);
  }

  lemma OthersThanStaging(layout: Layout)
    ensures forall name: string :: !InStaging(layout, layout.Active(name)) && !InStaging(layout, layout.Saved(name))
    ensures forall p :: InStaging(layout, p) ==> layout.secretRoot <= p
  {
    forall name: string
      ensures !InStaging(layout, layout.Active(name)) && !InStaging(layout, layout.Saved(name))
    {
      assert Parent(layout.Saved(name)) == layout.BackupDirectory();
      assert layout.BackupDirectory()[|layout.secretRoot| + 2] != layout.StagingDirectory()[|layout.secretRoot| + 2];
    }
    forall p | InStaging(layout, p)
      ensures layout.secretRoot <= p
    {
      assert layout.secretRoot <= Parent(p) <= p;
    }
  }

  lemma StartClosed(plan: Preparation, base: Tree, values: string -> nat, staged: seq<StagedFile>)
    requires ParentClosed(base) && IsDirectory(base, plan.layout.StagingDirectory())
    requires |staged| == |plan.publish|
    requires forall k :: 0 <= k < |staged| ==> staged[k] == NewSecret(plan, plan.publish[k], values(plan.publish[k]))
    ensures ParentClosed(WithStaged(base, staged))
  {
    StagedAt(plan, base, values, plan.publish, staged);
    var start := WithStaged(base, staged);
    hide WithStaged, NewSecret;
    forall q | q in start && q != []
      ensures Parent(q) in start
    {
      if !InStaging(plan.layout, q) {
        assert Lookup(start, q) == Lookup(base, q);
      }
    }
  }

  // ----- Every operation of the plan ----------------------------------------------------------------

  /** Where an operation of the plan comes from: a directory or a secret. */
  datatype Origin = OfDirectory(m: DirectoryMutation) | OfBackup(name: string) | OfPublication(name: string)
                  | OfPermission(name: string) | OfEnvironment

  ghost predicate ComesFrom(plan: Preparation, base: Tree, op: Operation, origin: Origin) {
    match origin
    case OfDirectory(m) => m in plan.directories && DirectoryStep(plan, m) == Some(op)
    case OfBackup(name) => name in plan.publish && BackupStep(plan, base, name) == Some(op)
    case OfPublication(name) => name in plan.publish && PublishStep(plan, name) == Some(op)
    case OfPermission(name) => name in MANAGED && PermissionStep(plan, base, name) == Some(op)
    case OfEnvironment => plan.environment.Some? && op == EnvReplace(plan.environment.value)
  }

  function Rank(origin: Origin): nat {
    match origin
    case OfDirectory(_) => 0
    case OfBackup(_) => 1
    case OfPublication(_) => 2
    case OfPermission(_) => 3
    case OfEnvironment => 4
  }

  /** Origins come in order, each at most once. */
  ghost predicate InOrder(a: Origin, b: Origin) {
    Rank(a) < Rank(b)
    || (Rank(a) == Rank(b)
        && match a
           case OfDirectory(m) => m.path != b.m.path && |m.path| <= |b.m.path|
           case OfEnvironment => false
           case _ => a.name != b.name)
  }

  lemma OriginOf(plan: Preparation, base: Tree, values: string -> nat, i: nat) returns (origin: Origin)
    requires i < |PlannedOperations(StepsFor(plan, base, values))|
    ensures ComesFrom(plan, base, PlannedOperations(StepsFor(plan, base, values))[i], origin)
    ensures var steps := StepsFor(plan, base, values);
            var d, b, p, c := |steps.directories|, |steps.backups|, |steps.publications|, |steps.permissions|;
            Rank(origin) == if i < d then 0 else if i < d + b then 1 else if i < d + b + p then 2
                else if i < d + b + p + c then 3 else 4
  {
    var steps := StepsFor(plan, base, values);
    var d, b, p, c := |steps.directories|, |steps.backups|, |steps.publications|, |steps.permissions|;
    if i < d {
      var k := CollectOrigin(plan.directories, m => DirectoryStep(plan, m), i);
      origin := OfDirectory(plan.directories[k]);
    } else if i < d + b {
      var k := CollectOrigin(plan.publish, name => BackupStep(plan, base, name), i - d);
      origin := OfBackup(plan.publish[k]);
    } else if i < d + b + p {
      var k := CollectOrigin(plan.publish, name => PublishStep(plan, name), i - d - b);
      origin := OfPublication(plan.publish[k]);
    } else if i < d + b + p + c {
      var k := CollectOrigin(MANAGED, name => PermissionStep(plan, base, name), i - d - b - p);
      origin := OfPermission(MANAGED[k]);
    } else {
      origin := OfEnvironment;
    }
  }

  lemma TwoDirectories(plan: Preparation, base: Tree, values: string -> nat, i: nat, j: nat)
    returns (a: Origin, b: Origin)
    requires ByDepth(plan.directories) && i < j < |StepsFor(plan, base, values).directories|
    ensures var list := StepsFor(plan, base, values).directories;
            ComesFrom(plan, base, list[i], a) && ComesFrom(plan, base, list[j], b) && InOrder(a, b)
            && Rank(a) == Rank(b) == 0
  {
    var k, l := CollectOrigins(plan.directories, m => DirectoryStep(plan, m), i, j);
    a, b := OfDirectory(plan.directories[k]), OfDirectory(plan.directories[l]);
  }

  /** Two operations of one kind, each for a secret of its own. */
  lemma TwoSecrets(plan: Preparation, base: Tree, names: seq<string>, step: string -> Option<Operation>, i: nat, j: nat)
    returns (m: string, n: string)
    requires (forall k, l :: 0 <= k < l < |names| ==> names[k] != names[l]) && i < j < |Collect(names, step)|
    ensures m in names && n in names && m != n
    ensures step(m) == Some(Collect(names, step)[i]) && step(n) == Some(Collect(names, step)[j])
  {
    var k, l := CollectOrigins(names, step, i, j);
    m, n := names[k], names[l];
  }

  lemma OriginsOf(plan: Preparation, base: Tree, values: string -> nat, i: nat, j: nat) returns (a: Origin, b: Origin)
    requires ByDepth(plan.directories)
             && (forall k, l :: 0 <= k < l < |plan.publish| ==> plan.publish[k] != plan.publish[l])
    requires i < j < |PlannedOperations(StepsFor(plan, base, values))|
    ensures var ops := PlannedOperations(StepsFor(plan, base, values));
            ComesFrom(plan, base, ops[i], a) && ComesFrom(plan, base, ops[j], b) && InOrder(a, b)
  {
    hide ByDepth, DirectoryStep, BackupStep, PublishStep, PermissionStep, Collect;
    var steps := StepsFor(plan, base, values);
    var d, s, p, c := |steps.directories|, |steps.backups|, |steps.publications|, |steps.permissions|;
    a := OriginOf(plan, base, values, i);
    b := OriginOf(plan, base, values, j);
    if j < d {
      a, b := TwoDirectories(plan, base, values, i, j);
    } else if d <= i && j < d + s {
      var m, n := TwoSecrets(plan, base, plan.publish, name => BackupStep(plan, base, name), i - d, j - d);
      a, b := OfBackup(m), OfBackup(n);
    } else if d + s <= i && j < d + s + p {
      var m, n := TwoSecrets(plan, base, plan.publish, name => PublishStep(plan, name), i - d - s, j - d - s);
      a, b := OfPublication(m), OfPublication(n);
    } else if d + s + p <= i && j < d + s + p + c {
      ManagedDiffer();
      var m, n := TwoSecrets(plan, base, MANAGED, name => PermissionStep(plan, base, name), i - d - s - p,
          j - d - s - p);
      a, b := OfPermission(m), OfPermission(n);
    }
  }

  lemma ManagedDiffer()
    ensures forall k, l :: 0 <= k < l < |MANAGED| ==> MANAGED[k] != MANAGED[l]
  {
    assert |POSTGRES[0]| == 17 && |POSTGRES[1]| == 12 && |CLICKHOUSE[0]| == 25 && |CLICKHOUSE[1]| == 26;
  }

  /** Directories to be made or changed lie outside the secret root. */
  lemma DirectoriesOutside(plan: Preparation, t: Tree, targets: seq<Path>, rotate: bool, m: DirectoryMutation)
    requires Made(plan, t, targets, rotate) && m in plan.directories && m.path != plan.layout.secretRoot
    ensures !(plan.layout.secretRoot <= m.path) && m == MutationFor(t, m.path)
  {
    hide PublishNames, ByDepth, Usable;
    assert Needed(t, targets, m.path);
    var k :| 0 <= k < |targets| && (targets[k] == m.path || (m.path !in t && m.path <= targets[k]));
    assert m.path <= targets[k] && !Within(targets[k], plan.layout.secretRoot);
  }

  predicate OfSecret(origin: Origin) {
    !origin.OfDirectory? && !origin.OfEnvironment?
  }

  lemma SecretOperationsApart(plan: Preparation, base: Tree, x: Operation, a: Origin, y: Operation, b: Origin)
    requires ComesFrom(plan, base, x, a) && ComesFrom(plan, base, y, b) && InOrder(a, b) && OfSecret(a) && OfSecret(b)
    ensures Footprint(x) !! Footprint(y) || (a.OfBackup? && b.OfPublication? && a.name == b.name)
  {
    hide DirectoryStep;
    SecretPathsApart(plan.layout, a.name, b.name);
    SecretPathsApart(plan.layout, b.name, a.name);
    hide Layout.Active, Layout.Staging, Layout.Saved;
  }

  lemma SecretsBelow(plan: Preparation, base: Tree, x: Operation, a: Origin)
    requires ComesFrom(plan, base, x, a) && OfSecret(a)
    ensures forall p :: p in Footprint(x) ==> plan.layout.secretRoot <= p
  {
  }

  /** Operations of a plan touch different paths, unless the second publishes
      what the first backed up. */
  lemma OperationsApart(
    plan: Preparation, t: Tree, targets: seq<Path>, rotate: bool, base: Tree, x: Operation, a: Origin, y: Operation,
    b: Origin)
    requires Made(plan, t, targets, rotate) && ComesFrom(plan, base, x, a) && ComesFrom(plan, base, y, b)
             && InOrder(a, b)
    ensures Footprint(x) !! Footprint(y) || (a.OfBackup? && b.OfPublication? && a.name == b.name)
  {
    if a.OfDirectory? { DirectoriesOutside(plan, t, targets, rotate, a.m); }
    if b.OfDirectory? { DirectoriesOutside(plan, t, targets, rotate, b.m); }
    if OfSecret(a) { SecretsBelow(plan, base, x, a); }
    if OfSecret(b) { SecretsBelow(plan, base, y, b); }
    if OfSecret(a) && OfSecret(b) { SecretOperationsApart(plan, base, x, a, y, b); }
    hide Made, BackupStep, PublishStep, PermissionStep;
  }

  // ----- The plan fits ---------------------------------------------------------------------------------

  lemma RotatedIsPaired(plan: Preparation, base: Tree, values: string -> nat, i: nat, name: string)
    requires i < |PlannedOperations(StepsFor(plan, base, values))| && name in plan.publish
             && plan.layout.Active(name) in base
    requires PublishStep(plan, name) == Some(PlannedOperations(StepsFor(plan, base, values))[i])
    ensures var ops := PlannedOperations(StepsFor(plan, base, values));
            exists k :: 0 <= k < |ops| && Paired(ops, k, i)
  {
    var steps := StepsFor(plan, base, values);
    var ops := PlannedOperations(steps);
    var at :| 0 <= at < |plan.publish| && plan.publish[at] == name;
    var k := CollectHas(plan.publish, n => BackupStep(plan, base, n), at);
    var d := |steps.directories|;
    assert ops[d + k] == steps.backups[k];
    SecretPathsApart(plan.layout, name, name);
    var o := OriginOf(plan, base, values, i);
    assert d + k < i;
    assert Paired(ops, d + k, i);
  }

  lemma DirectoryEnabled(
    plan: Preparation, t: Tree, targets: seq<Path>, rotate: bool, start: Tree, op: Operation, m: DirectoryMutation,
    valid: Validator)
    requires Made(plan, t, targets, rotate) && m in plan.directories && DirectoryStep(plan, m) == Some(op)
    requires forall p :: !(plan.layout.secretRoot <= p) ==> Lookup(start, p) == Lookup(t, p)
    ensures Enabled(op, start, valid)
  {
    DirectoriesOutside(plan, t, targets, rotate, m);
    assert Lookup(start, m.path) == Lookup(t, m.path);
    if m.original.Some? {
      assert Needed(t, targets, m.path);
      var k :| 0 <= k < |targets| && targets[k] == m.path;
      assert Usable(t, targets[k], plan.uid, plan.gid);
    }
  }

  lemma SecretEnabled(
    plan: Preparation, base: Tree, start: Tree, values: string -> nat, valid: Validator, op: Operation, origin: Origin)
    requires OfSecret(origin) && ComesFrom(plan, base, op, origin)
    requires Lookup(start, plan.layout.Active(origin.name)) == Lookup(base, plan.layout.Active(origin.name))
    requires plan.layout.Active(origin.name) in base ==> base[plan.layout.Active(origin.name)].kind == Regular
    requires plan.layout.Saved(origin.name) !in start
    requires origin.name in plan.publish ==>
               Lookup(start, plan.layout.Staging(origin.name))
                   == Some(NewSecret(plan, origin.name, values(origin.name)).node)
               && valid(plan.layout.Staging(origin.name), values(origin.name))
                  && valid(plan.layout.Active(origin.name), values(origin.name))
    ensures Enabled(op, if op.Publish? then start - {op.active} else start, valid)
  {
    SecretPathsApart(plan.layout, origin.name, origin.name);
    hide Layout.Active, Layout.Staging, Layout.Saved;
  }

  lemma OriginEnabled(
    plan: Preparation, t: Tree, targets: seq<Path>, rotate: bool, values: string -> nat, env: Option<Node>,
    valid: Validator, op: Operation, origin: Origin)
    requires Made(plan, t, targets, rotate) && Supplied(plan, values, env, valid)
    requires ComesFrom(plan, Bootstrapped(t, plan.layout, plan.uid, plan.gid), op, origin)
    ensures Enabled(op, if op.Publish? then Start(plan, t, values) - {op.active} else Start(plan, t, values), valid)
  {
    var base, start := Bootstrapped(t, plan.layout, plan.uid, plan.gid), Start(plan, t, values);
    StartHas(plan, t, targets, rotate, values);
    match origin
    case OfDirectory(m) =>
      DirectoryEnabled(plan, t, targets, rotate, start, op, m, valid);
    case OfEnvironment =>
    case _ =>
      BootstrapAdds(plan, t, targets, rotate);
      PublishNamesAre(t, plan.layout, rotate);
      hide Start, Bootstrapped, DirectoriesPlanned, Layout.Active, Layout.Staging, Layout.Saved, Enabled, ParentClosed;
      SecretEnabled(plan, base, start, values, valid, op, origin);
  }

  lemma PlanIsSound(
    plan: Preparation, t: Tree, targets: seq<Path>, rotate: bool, values: string -> nat, env: Option<Node>,
    valid: Validator, i: nat)
    requires Made(plan, t, targets, rotate) && Supplied(plan, values, env, valid)
    requires i < |PlannedOperations(StepsFor(plan, Bootstrapped(t, plan.layout, plan.uid, plan.gid), values))|
    ensures Sound(PlannedOperations(StepsFor(plan, Bootstrapped(t, plan.layout, plan.uid, plan.gid), values)), i,
            Start(plan, t, values), valid)
  {
    var base, start := Bootstrapped(t, plan.layout, plan.uid, plan.gid), Start(plan, t, values);
    var ops := PlannedOperations(StepsFor(plan, base, values));
    hide PlannedOperations, StepsFor, DirectoriesPlanned, Enabled, Supplied;
    var origin := OriginOf(plan, base, values, i);
    OriginEnabled(plan, t, targets, rotate, values, env, valid, ops[i], origin);
    if origin.OfPublication? {
      if plan.layout.Active(origin.name) in base {
        RotatedIsPaired(plan, base, values, i, origin.name);
      } else {
        PublishNamesAre(t, plan.layout, rotate);
        BootstrapAdds(plan, t, targets, rotate);
        StartHas(plan, t, targets, rotate, values);
        assert start - {ops[i].active} == start;
      }
    }
  }

  /** Two operations, the earlier first, do not get in each other's way. */
  predicate Tidy(ops: seq<Operation>, i: nat, j: nat)
    requires i < |ops| && j < |ops|
  {
    (Footprint(ops[i]) !! Footprint(ops[j]) || Paired(ops, i, j)) && !Nested(ops[j], ops[i])
    && !(ops[i].EnvReplace? && ops[j].EnvReplace?)
  }

  lemma ShapeInParts(ops: seq<Operation>, base: Tree, valid: Validator)
    requires ParentClosed(base) && forall i :: 0 <= i < |ops| ==> Sound(ops, i, base, valid)
    requires forall i {:trigger Rooted(ops, i, base)} :: 0 <= i < |ops| && ops[i].Mkdir? ==> Rooted(ops, i, base)
    requires forall i, j :: 0 <= i < j < |ops| ==> Tidy(ops, i, j)
    requires forall i, j :: 0 <= i < |ops| && 0 <= j < |ops| ==> NotMovedInto(ops[i], ops[j])
    ensures Shape(ops, base, valid)
  {
    hide Sound, Rooted, Footprint, NotMovedInto;
    forall i, j | 0 <= i < |ops| && 0 <= j < |ops| && Nested(ops[i], ops[j])
      ensures i < j
    {
      assert i != j;
      assert j < i ==> Tidy(ops, j, i);
    }
    forall i, j | 0 <= i < j < |ops|
      ensures Footprint(ops[i]) !! Footprint(ops[j]) || Paired(ops, i, j)
      ensures !(ops[i].EnvReplace? && ops[j].EnvReplace?)
    {
      assert Tidy(ops, i, j);
    }
  }

  /** Every operation of the plan can run, on paths of its own, parents first. */
  lemma PlanHasShape(
    plan: Preparation, t: Tree, targets: seq<Path>, rotate: bool, values: string -> nat, env: Option<Node>,
    valid: Validator)
    requires Made(plan, t, targets, rotate) && Supplied(plan, values, env, valid)
    ensures Shape(PlannedOperations(StepsFor(plan, Bootstrapped(t, plan.layout, plan.uid, plan.gid), values)),
            Start(plan, t, values), valid)
  {
    var base, start := Bootstrapped(t, plan.layout, plan.uid, plan.gid), Start(plan, t, values);
    var ops := PlannedOperations(StepsFor(plan, base, values));
    StartHas(plan, t, targets, rotate, values);
    hide Made, Supplied, Start, Bootstrapped, StepsFor, PlannedOperations, Sound, Rooted, Tidy, NotMovedInto, Shape,
         Layout.Active, Layout.Saved, Layout.Staging;
    forall i | 0 <= i < |ops|
      ensures Sound(ops, i, start, valid)
    {
      PlanIsSound(plan, t, targets, rotate, values, env, valid, i);
    }
    forall i {:trigger Rooted(ops, i, start)} | 0 <= i < |ops| && ops[i].Mkdir?
      ensures Rooted(ops, i, start)
    {
      PlanIsRooted(plan, t, targets, rotate, values, i);
    }
    forall i, j | 0 <= i < j < |ops|
      ensures Tidy(ops, i, j)
    {
      PlanInOrder(plan, t, targets, rotate, base, values, i, j);
    }
    forall i, j | 0 <= i < |ops| && 0 <= j < |ops|
      ensures NotMovedInto(ops[i], ops[j])
    {
      PlanMovesOutside(plan, t, targets, rotate, base, values, i, j);
    }
    ShapeInParts(ops, start, valid);
  }

  lemma OriginsTidy(plan: Preparation, base: Tree, x: Operation, a: Origin, y: Operation, b: Origin)
    requires ComesFrom(plan, base, x, a) && ComesFrom(plan, base, y, b) && InOrder(a, b)
    ensures !Nested(y, x) && !(x.EnvReplace? && y.EnvReplace?)
    ensures a.OfBackup? && b.OfPublication? && a.name == b.name ==>
              x.Backup? && y.Publish? && x.active == y.active && x.backup != y.staging
  {
    if a.OfBackup? { SecretPathsApart(plan.layout, a.name, a.name); }
    hide Layout.Active, Layout.Staging, Layout.Saved;
  }

  lemma PlanInOrder(
    plan: Preparation, t: Tree, targets: seq<Path>, rotate: bool, base: Tree, values: string -> nat, i: nat, j: nat)
    requires Made(plan, t, targets, rotate) && i < j < |PlannedOperations(StepsFor(plan, base, values))|
    ensures Tidy(PlannedOperations(StepsFor(plan, base, values)), i, j)
  {
    var ops := PlannedOperations(StepsFor(plan, base, values));
    PublishNamesAre(t, plan.layout, rotate);
    assert ByDepth(plan.directories);
    hide PlannedOperations, StepsFor, ByDepth, DirectoriesPlanned, ComesFrom, InOrder, Nested, Footprint;
    var a, b := OriginsOf(plan, base, values, i, j);
    OperationsApart(plan, t, targets, rotate, base, ops[i], a, ops[j], b);
    OriginsTidy(plan, base, ops[i], a, ops[j], b);
  }

  predicate IsPathOf(layout: Layout, name: string, p: Path) {
    p == layout.Active(name) || p == layout.Staging(name) || p == layout.Saved(name)
  }

  lemma MkdirIsForDirectory(plan: Preparation, base: Tree, op: Operation, origin: Origin)
    requires ComesFrom(plan, base, op, origin) && op.Mkdir?
    ensures origin.OfDirectory? && origin.m in plan.directories && op.path == origin.m.path
            && op.path != plan.layout.secretRoot
  {
  }

  lemma MovesAreForSecrets(plan: Preparation, base: Tree, op: Operation, origin: Origin)
    requires ComesFrom(plan, base, op, origin) && IsMove(op)
    ensures OfSecret(origin) && IsPathOf(plan.layout, origin.name, Source(op))
            && IsPathOf(plan.layout, origin.name, Target(op))
  {
  }

  /** Nothing is moved directly into a directory the plan creates. */
  lemma PlanMovesOutside(
    plan: Preparation, t: Tree, targets: seq<Path>, rotate: bool, base: Tree, values: string -> nat, i: nat, j: nat)
    requires Made(plan, t, targets, rotate)
    requires i < |PlannedOperations(StepsFor(plan, base, values))|
             && j < |PlannedOperations(StepsFor(plan, base, values))|
    ensures var ops := PlannedOperations(StepsFor(plan, base, values)); NotMovedInto(ops[i], ops[j])
  {
    hide StepsFor, PlannedOperations, Made, DirectoryStep;
    var ops := PlannedOperations(StepsFor(plan, base, values));
    var a := OriginOf(plan, base, values, i);
    var b := OriginOf(plan, base, values, j);
    if ops[i].Mkdir? && IsMove(ops[j]) {
      MkdirIsForDirectory(plan, base, ops[i], a);
      DirectoriesOutside(plan, t, targets, rotate, a.m);
      MovesAreForSecrets(plan, base, ops[j], b);
      SecretsDeeper(plan.layout, b.name);
    }
  }

  lemma SecretsDeeper(layout: Layout, name: string)
    ensures forall p :: IsPathOf(layout, name, p) ==> p != [] && layout.secretRoot <= Parent(p)
  {
    assert Parent(layout.Active(name)) == layout.secretRoot;
    assert Parent(layout.Staging(name)) == layout.StagingDirectory()
        && Parent(layout.Saved(name)) == layout.BackupDirectory();
  }

  lemma CreatedByPlan(plan: Preparation, base: Tree, values: string -> nat, k: nat) returns (l: nat)
    requires k < |plan.directories| && plan.directories[k].original.None?
             && plan.directories[k].path != plan.layout.secretRoot
    ensures var ops := PlannedOperations(StepsFor(plan, base, values));
            l < |ops| && ops[l].Mkdir? && ops[l].path == plan.directories[k].path
  {
    var steps := StepsFor(plan, base, values);
    l := CollectHas(plan.directories, m => DirectoryStep(plan, m), k);
    assert PlannedOperations(steps)[l] == steps.directories[l];
  }

  /** The parent of a directory to be created is there or in the plan as well. */
  lemma ParentOf(plan: Preparation, t: Tree, targets: seq<Path>, rotate: bool, m: DirectoryMutation)
    requires Made(plan, t, targets, rotate) && m in plan.directories && m.original.None?
             && m.path != plan.layout.secretRoot
    ensures m.path != [] && !(plan.layout.secretRoot <= Parent(m.path))
    ensures IsDirectory(t, Parent(m.path))
            || exists k :: 0 <= k < |plan.directories| && plan.directories[k] == DirectoryMutation(Parent(m.path), None)
  {
    DirectoriesOutside(plan, t, targets, rotate, m);
    var at :| 0 <= at < |plan.directories| && plan.directories[at] == m;
    ParentsComeFirst(t, targets, plan.uid, plan.gid, plan.directories, at);
    assert Parent(m.path) <= m.path;
  }

  lemma PlanIsRooted(plan: Preparation, t: Tree, targets: seq<Path>, rotate: bool, values: string -> nat, i: nat)
    requires Made(plan, t, targets, rotate)
    requires i < |PlannedOperations(StepsFor(plan, Bootstrapped(t, plan.layout, plan.uid, plan.gid), values))|
    requires PlannedOperations(StepsFor(plan, Bootstrapped(t, plan.layout, plan.uid, plan.gid), values))[i].Mkdir?
    ensures Rooted(PlannedOperations(StepsFor(plan, Bootstrapped(t, plan.layout, plan.uid, plan.gid), values)), i,
            Start(plan, t, values))
  {
    var base, start := Bootstrapped(t, plan.layout, plan.uid, plan.gid), Start(plan, t, values);
    var ops := PlannedOperations(StepsFor(plan, base, values));
    hide Made, Start, Bootstrapped, StepsFor, PlannedOperations;
    var origin := OriginOf(plan, base, values, i);
    ParentOf(plan, t, targets, rotate, origin.m);
    var parent := Parent(origin.m.path);
    StartElsewhere(plan, t, targets, rotate, values, parent);
    if !IsDirectory(t, parent) {
      var k :| 0 <= k < |plan.directories| && plan.directories[k] == DirectoryMutation(parent, None);
      var l := CreatedByPlan(plan, base, values, k);
      assert Nested(ops[l], ops[i]);
    }
  }

  lemma StartElsewhere(plan: Preparation, t: Tree, targets: seq<Path>, rotate: bool, values: string -> nat, p: Path)
    requires Made(plan, t, targets, rotate) && !(plan.layout.secretRoot <= p)
    ensures Lookup(Start(plan, t, values), p) == Lookup(t, p)
  {
    StartHas(plan, t, targets, rotate, values);
  }

  /** Every preparation plan comes to steps a transaction can be trusted with:
      whatever interrupts it, what the whole-run theorems promise holds of it. */
  lemma PlanFits(
    plan: Preparation, t: Tree, targets: seq<Path>, rotate: bool, values: string -> nat, env: Option<Node>,
    valid: Validator)
    requires Made(plan, t, targets, rotate) && Supplied(plan, values, env, valid)
    ensures var base := Bootstrapped(t, plan.layout, plan.uid, plan.gid);
            Fits(StepsFor(plan, base, values), base, env, plan.layout.Companion(), valid)
  {
    var base := Bootstrapped(t, plan.layout, plan.uid, plan.gid);
    var steps := StepsFor(plan, base, values);
    hide Made, Shape, PlannedOperations, Bootstrapped, OnlyTree, StagedInto, StepsFor;
    PlanHasShape(plan, t, targets, rotate, values, env, valid);
    StagedFits(plan, t, targets, rotate, values);
    PlanOnlyTree(plan, base, values);
    assert Start(plan, t, values) == WithStaged(base, steps.staged)
        && steps.environment == plan.environment by { StepsAre(plan, base, values); }
  }

  lemma StepsAre(plan: Preparation, base: Tree, values: string -> nat)
    ensures StepsFor(plan, base, values).environment == plan.environment
  {
  }

  lemma StagedFits(plan: Preparation, t: Tree, targets: seq<Path>, rotate: bool, values: string -> nat)
    requires Made(plan, t, targets, rotate)
    ensures var base := Bootstrapped(t, plan.layout, plan.uid, plan.gid); var staged :=
            StepsFor(plan, base, values).staged;
            forall k :: 0 <= k < |staged| ==>
                StagedInto(staged[k], plan.layout.Companion()) && Parent(staged[k].path) in base
  {
    var base := Bootstrapped(t, plan.layout, plan.uid, plan.gid);
    var staged := StepsFor(plan, base, values).staged;
    BootstrapAdds(plan, t, targets, rotate);
    hide Made, Bootstrapped;
    forall k | 0 <= k < |staged|
      ensures StagedInto(staged[k], plan.layout.Companion()) && Parent(staged[k].path) in base
    {
      assert Parent(staged[k].path) == plan.layout.StagingDirectory();
    }
  }

  lemma CollectOnlyTree<T>(xs: seq<T>, step: T -> Option<Operation>)
    requires forall x :: x in xs && step(x).Some? ==> !step(x).value.EnvReplace?
    ensures NoEnvironment(Collect(xs, step))
  {
    forall i | 0 <= i < |Collect(xs, step)|
      ensures !Collect(xs, step)[i].EnvReplace?
    {
      var k := CollectOrigin(xs, step, i);
    }
  }

  lemma PlanOnlyTree(plan: Preparation, base: Tree, values: string -> nat)
    ensures OnlyTree(StepsFor(plan, base, values))
  {
    CollectOnlyTree(plan.directories, m => DirectoryStep(plan, m));
    CollectOnlyTree(plan.publish, name => BackupStep(plan, base, name));
    CollectOnlyTree(plan.publish, name => PublishStep(plan, name));
    CollectOnlyTree(MANAGED, name => PermissionStep(plan, base, name));
    hide Collect, NoEnvironment;
  }

  /** Without rotation nothing is backed up, so nothing stands in the way of
      recovery but an unfinished publication. */
  lemma PlanIsPlain(plan: Preparation, t: Tree, targets: seq<Path>, values: string -> nat)
    requires Made(plan, t, targets, false)
    ensures var base := Bootstrapped(t, plan.layout, plan.uid, plan.gid);
            PlainPlan(PlannedOperations(StepsFor(plan, base, values)), base, plan.layout.Companion())
  {
    var base := Bootstrapped(t, plan.layout, plan.uid, plan.gid);
    var ops := PlannedOperations(StepsFor(plan, base, values));
    hide Made, Bootstrapped, StepsFor, PlannedOperations, CompanionPrivate, CompanionBoundary;
    CompanionStartsPrivate(plan, t, targets, false);
    PlanKeepsBoundary(plan, t, targets, false, base, values);
    forall i | 0 <= i < |ops|
      ensures !ops[i].Backup? && !ops[i].Unlink?
    {
      var origin := OriginOf(plan, base, values, i);
      NotABackup(plan, t, targets, base, ops[i], origin);
    }
  }

  lemma NotABackup(plan: Preparation, t: Tree, targets: seq<Path>, base: Tree, op: Operation, origin: Origin)
    requires Made(plan, t, targets, false) && base == Bootstrapped(t, plan.layout, plan.uid, plan.gid)
             && ComesFrom(plan, base, op, origin)
    ensures !op.Backup? && !op.Unlink?
  {
    BootstrapAdds(plan, t, targets, false);
    PublishNamesAre(t, plan.layout, false);
    hide Made, Bootstrapped, Layout.Active;
    assert origin.OfBackup? ==>
        Lookup(base, plan.layout.Active(origin.name)) == Lookup(t, plan.layout.Active(origin.name));
  }

  /** Secrets enter and leave the companion only where a backup or a publication
      moves them. */
  lemma PlanKeepsBoundary(
    plan: Preparation, t: Tree, targets: seq<Path>, rotate: bool, base: Tree, values: string -> nat)
    requires Made(plan, t, targets, rotate)
    ensures CompanionBoundary(PlannedOperations(StepsFor(plan, base, values)), plan.layout.Companion())
  {
    var ops := PlannedOperations(StepsFor(plan, base, values));
    hide StepsFor, PlannedOperations;
    forall i | 0 <= i < |ops|
      ensures var c := plan.layout.Companion();
              match ops[i]
              case Mkdir(p, _) => !Within(p, c)
              case Chmod(p, _, _, _, _, _) => !Within(p, c)
              case Backup(a, b, _) => !Within(a, c) && Within(b, c)
              case Publish(s, a, _) => Within(s, c) && !Within(a, c)
              case Unlink(p, b, _) => !Within(p, c) && Within(b, c)
              case EnvReplace(_) => true
    {
      var origin := OriginOf(plan, base, values, i);
      if origin.OfDirectory? {
        DirectoriesOutside(plan, t, targets, rotate, origin.m);
        WithinIsBelow(plan.layout, origin.m.path);
      }
    }
  }

  lemma WithinIsBelow(layout: Layout, p: Path)
    ensures Within(p, layout.Companion()) ==> layout.secretRoot <= p
  {
    assert layout.secretRoot <= layout.Companion();
  }
}
