/** What a refused rotation means for the plans that rotate. */
module Rotations {
  import opened Wrappers
  import opened Disk
  import opened Operations
  import opened Environment
  import opened Journal
  import opened Transaction
  import opened Recovery
  import opened Directories
  import opened Plan
  import FinalTree
  import Windows

  /** The last backup of a plan, and whose it is. */
  lemma LastBackup(plan: Preparation, t: Tree, targets: seq<Path>, values: string -> nat, name: string)
    returns (b: nat, last: string)
    requires Made(plan, t, targets, true) && name in plan.publish && plan.layout.Active(name) in t
    ensures var base := Bootstrapped(t, plan.layout, plan.uid, plan.gid);
            var ops := PlannedOperations(StepsFor(plan, base, values));
            && b < |ops| && last in plan.publish && BackupStep(plan, base, last) == Some(ops[b])
            && forall c :: 0 <= c < |ops| && ops[c].Backup? ==> c <= b
  {
    var base := Bootstrapped(t, plan.layout, plan.uid, plan.gid);
    var steps := StepsFor(plan, base, values);
    var ops, d := PlannedOperations(steps), |steps.directories|;
    FinalTree.SecretBefore(plan, t, targets, true, values, name);
    hide Made, Bootstrapped, StepsFor, PlannedOperations, PublishStep, PermissionStep, DirectoryStep;
    var first := FinalTree.BackupAt(plan, base, values, name);
    var one := OriginOf(plan, base, values, first);
    BackupsAreOfSecrets(plan, base, ops[first], one);
    b := d + |steps.backups| - 1;
    forall c | 0 <= c < |ops| && ops[c].Backup?
      ensures d <= c <= b
    {
      var origin := OriginOf(plan, base, values, c);
      BackupsAreOfSecrets(plan, base, ops[c], origin);
    }
    PlannedLength(steps);
    var origin := OriginOf(plan, base, values, b);
    last := origin.name;
  }

  lemma BackupsAreOfSecrets(plan: Preparation, base: Tree, op: Operation, origin: Origin)
    requires ComesFrom(plan, base, op, origin) && op.Backup?
    ensures origin.OfBackup?
  {
  }

  lemma PlannedLength(steps: Steps)
    ensures |PlannedOperations(steps)| >= |steps.directories| + |steps.backups|
  {
  }

  /** Every plan that rotates secrets runs into the window: a second crash right
      after the first old secret has come back leaves it refused for good, with
      another old secret missing from its place and only in the companion. */
  lemma EveryRotationHasTheWindow(
    plan: Preparation, t: Tree, targets: seq<Path>, values: string -> nat, env: Option<Node>, valid: Validator)
    returns (j: Journal, e: EnvState, back: string, missing: string)
    requires Made(plan, t, targets, true) && Supplied(plan, values, env, valid)
    requires plan.layout.Active(POSTGRES[0]) in t || plan.layout.Active(CLICKHOUSE[0]) in t
    ensures Recoverable(j, e, valid) && RotationWindow(j) && Blocked(j, e, plan.layout.Companion())
    ensures j.ops == PlannedOperations(StepsFor(plan, Bootstrapped(t, plan.layout, plan.uid, plan.gid), values))
    ensures back in plan.publish && plan.layout.Active(back) in t
            && Lookup(j.tree, plan.layout.Active(back)) == Some(t[plan.layout.Active(back)])
    ensures missing in plan.publish && plan.layout.Active(missing) in t && plan.layout.Active(missing) !in j.tree
            && Lookup(j.tree, plan.layout.Saved(missing)) == Some(t[plan.layout.Active(missing)])
  {
    hide Made, Supplied, Bootstrapped, StepsFor, PlannedOperations, Start, Shape, Layout.Active, Layout.Saved,
         Layout.Staging, Recoverable, Blocked, RotationWindow, Windows.Still, Image, CompanionPrivate, BeforeState,
         Paired;
    var base, start := Bootstrapped(t, plan.layout, plan.uid, plan.gid), Start(plan, t, values);
    var ops := PlannedOperations(StepsFor(plan, base, values));
    var m, n := TwoToReplace(plan, t, targets);
    PlanHasShape(plan, t, targets, true, values, env, valid);
    ReplacementFits(plan, base, values, env, valid);
    var b, last := LastBackup(plan, t, targets, values, m);
    var i := FinalTree.PublicationAt(plan, base, values, last);
    LastIsPaired(plan, base, values, b, i, last);
    FinalTree.SecretBefore(plan, t, targets, true, values, last);
    Windows.SecondCrashStopsARotation(ops, start, env, plan.layout.Companion(), b, i, valid);
    j, e, back := Windows.ComeTo(ops, start, env, b, true), Windows.Still(env), last;
    missing := if last == m then n else m;
    FinalTree.SecretBefore(plan, t, targets, true, values, missing);
    var c := FinalTree.BackupAt(plan, base, values, missing);
    SecretPathsApart(plan.layout, last, missing);
  }

  /** Secrets exist in pairs, so at least two are replaced. */
  lemma TwoToReplace(plan: Preparation, t: Tree, targets: seq<Path>) returns (m: string, n: string)
    requires Made(plan, t, targets, true)
    requires plan.layout.Active(POSTGRES[0]) in t || plan.layout.Active(CLICKHOUSE[0]) in t
    ensures m != n && m in plan.publish && n in plan.publish && plan.layout.Active(m) in t && plan.layout.Active(n) in t
  {
    ManagedDiffer();
    if plan.layout.Active(POSTGRES[0]) in t {
      m, n := POSTGRES[0], POSTGRES[1];
    } else {
      m, n := CLICKHOUSE[0], CLICKHOUSE[1];
    }
    assert m in plan.publish && n in plan.publish && m != n by { RotationTakesAll(plan, t, targets); }
  }

  lemma RotationTakesAll(plan: Preparation, t: Tree, targets: seq<Path>)
    requires Made(plan, t, targets, true)
    ensures plan.publish == POSTGRES + CLICKHOUSE
    ensures POSTGRES[0] != POSTGRES[1] && CLICKHOUSE[0] != CLICKHOUSE[1]
    ensures POSTGRES[0] in plan.publish && POSTGRES[1] in plan.publish && CLICKHOUSE[0] in plan.publish
            && CLICKHOUSE[1] in plan.publish
  {
    assert |POSTGRES[0]| == 17 && |POSTGRES[1]| == 12 && |CLICKHOUSE[0]| == 25 && |CLICKHOUSE[1]| == 26;
    var all := POSTGRES + CLICKHOUSE;
    assert all[0] == POSTGRES[0] && all[1] == POSTGRES[1] && all[2] == CLICKHOUSE[0] && all[3] == CLICKHOUSE[1];
  }

  lemma ReplacementFits(plan: Preparation, base: Tree, values: string -> nat, env: Option<Node>, valid: Validator)
    requires Supplied(plan, values, env, valid)
    ensures var ops := PlannedOperations(StepsFor(plan, base, values));
            forall c :: 0 <= c < |ops| && ops[c].EnvReplace? ==>
              BeforeState(env, ops[c].change) && BeforeDigest(ops[c].change) != Some(ops[c].change.after.digest)
  {
    var ops := PlannedOperations(StepsFor(plan, base, values));
    hide StepsFor, PlannedOperations;
    forall c | 0 <= c < |ops| && ops[c].EnvReplace?
      ensures Some(ops[c].change) == plan.environment
    {
      var origin := OriginOf(plan, base, values, c);
    }
  }

  lemma LastIsPaired(plan: Preparation, base: Tree, values: string -> nat, b: nat, i: nat, name: string)
    requires var ops := PlannedOperations(StepsFor(plan, base, values));
             b < |ops| && i < |ops| && BackupStep(plan, base, name) == Some(ops[b])
             && PublishStep(plan, name) == Some(ops[i])
    ensures Paired(PlannedOperations(StepsFor(plan, base, values)), b, i)
  {
    hide StepsFor, PlannedOperations;
    SecretPathsApart(plan.layout, name, name);
    var x := OriginOf(plan, base, values, b);
    var y := OriginOf(plan, base, values, i);
  }

  // ----- An input --------------------------------------------------------------------------------

  const LAYOUT: Layout := Layout(["secrets"], "t")

  /** A deployment with its first pair of secrets, which are private. */
  function Inspected(): Tree {
    var d := Node(1, Directory, 0, Authority(PRIVATE_DIR, 0, 0));
    map[[] := d, ["secrets"] := d,
        LAYOUT.Active(POSTGRES[0]) := Node(2, Regular, 2, Authority(PRIVATE_FILE, 0, 0)),
        LAYOUT.Active(POSTGRES[1]) := Node(3, Regular, 3, Authority(PRIVATE_FILE, 0, 0))]
  }

  /** A plan for which all of the above holds. */
  lemma RotationOfAPair()
    ensures var plan := Preparation(LAYOUT, [], MANAGED, 0, 0, None);
            Made(plan, Inspected(), [], true) && Supplied(plan, n => 4, None, (p, d) => true)
            && LAYOUT.Active(POSTGRES[0]) in Inspected()
  {
    var t := Inspected();
    ManagedDiffer();
    assert Parent(["secrets"]) == [];
    assert LAYOUT.Active(POSTGRES[0]) == ["secrets", POSTGRES[0]]
        && LAYOUT.Active(POSTGRES[1]) == ["secrets", POSTGRES[1]];
    assert Parent(["secrets", POSTGRES[0]]) == Parent(["secrets", POSTGRES[1]]) == ["secrets"];
    assert ParentClosed(t);
    forall k | 0 <= k < |CLICKHOUSE|
      ensures LAYOUT.Active(CLICKHOUSE[k]) !in t
    {
      assert LAYOUT.Active(CLICKHOUSE[k])[1] == CLICKHOUSE[k];
    }
    assert |LAYOUT.Companion()| == 3;
  }
}
