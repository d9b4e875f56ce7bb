/** Where the secrets are, in every state a deployment can be found in. */
module Secrets {
  import opened Wrappers
  import opened Disk
  import opened Operations
  import opened Environment
  import opened Journal
  import opened Transaction

  /** A backed-up path is empty, or holds the secret published over it. */
  lemma VacatedPath(ops: seq<Operation>, base: Tree, E: set<nat>, b: nat, valid: Validator)
    requires Shape(ops, base, valid) && Closed(ops, E) && b in E && b < |ops| && ops[b].Backup?
    ensures var t := Image(ops, base, E, |ops|);
            ops[b].active in t ==>
                exists i :: i in E && i < |ops| && Paired(ops, b, i)
                    && Lookup(base, ops[i].staging) == Some(t[ops[b].active])
  {
    var p, n := ops[b].active, |ops|;
    if i :| i in E && i < n && Paired(ops, b, i) {
      MovedFile(ops, base, E, i, valid);
    } else {
      assert Image(ops, base, E, b + 1) == Apply(ops[b], Image(ops, base, E, b));
      assert Sound(ops, b, base, valid);
      VacatedUntil(ops, base, E, b, n, valid);
    }
  }

  lemma {:induction false} VacatedUntil(ops: seq<Operation>, base: Tree, E: set<nat>, b: nat, n: nat, valid: Validator)
    requires Shape(ops, base, valid) && b in E && b < n <= |ops| && ops[b].Backup?
    requires forall i :: i in E && i < |ops| ==> !Paired(ops, b, i)
    ensures ops[b].active !in Image(ops, base, E, n)
  {
    assert Sound(ops, b, base, valid);
    if n > b + 1 {
      VacatedUntil(ops, base, E, b, n - 1, valid);
    }
  }

  /** Before a publication runs, only the secret it is to replace can be at its
      active path. */
  lemma ReservedPath(ops: seq<Operation>, base: Tree, E: set<nat>, i: nat, valid: Validator)
    requires Shape(ops, base, valid) && Closed(ops, E) && i !in E && i < |ops| && ops[i].Publish?
    ensures ops[i].active in Image(ops, base, E, |ops|) ==> exists b :: 0 <= b < i && b !in E && Paired(ops, b, i)
  {
    var p, t := ops[i].active, Image(ops, base, E, |ops|);
    assert Sound(ops, i, base, valid);
    if b :| 0 <= b < |ops| && Paired(ops, b, i) {
      if b in E { VacatedPath(ops, base, E, b, valid); }
    } else {
      ImageFrame(ops, base, E, |ops|, p);
    }
  }

  /** Every old secret is at exactly one of its active and backup paths, and
      every new one at exactly one of its staging and active paths, whatever
      the run has been through: crashes, restarts and refusals included. */
  lemma SecretsConserved(j: Journal, e: EnvState, i: nat, valid: Validator)
    requires Undoing(j, e, valid) && i < |j.ops|
    ensures match j.ops[i]
            case Backup(active, backup, _) =>
              active in j.base
              && (if i in j.executed then
                    Lookup(j.tree, backup) == Some(j.base[active])
                    && (active in j.tree ==>
                          exists k :: k in j.executed && k < |j.ops| && Paired(j.ops, i, k)
                                      && Lookup(j.base, j.ops[k].staging) == Some(j.tree[active]))
                  else Lookup(j.tree, active) == Some(j.base[active]) && backup !in j.tree)
            case Publish(staging, active, _) =>
              staging in j.base
              && (if i in j.executed then Lookup(j.tree, active) == Some(j.base[staging]) && staging !in j.tree
                  else Lookup(j.tree, staging) == Some(j.base[staging])
                       && (active in j.tree ==> exists b :: 0 <= b < i && b !in j.executed && Paired(j.ops, b, i)))
            case _ => true
  {
    if j.ops[i].Backup? || j.ops[i].Publish? {
      if i in j.executed {
        MovedFile(j.ops, j.base, j.executed, i, valid);
        if j.ops[i].Backup? { VacatedPath(j.ops, j.base, j.executed, i, valid); }
      } else {
        WaitingFile(j.ops, j.base, j.executed, i, |j.ops|, valid);
        if j.ops[i].Publish? { ReservedPath(j.ops, j.base, j.executed, i, valid); }
      }
    }
  }

  function Below(n: nat): (r: set<nat>)
    ensures forall i :: i in r <==> 0 <= i < n
  {
    if n == 0 then {} else Below(n - 1) + {n - 1}
  }

  lemma {:induction false} AllApplied(ops: seq<Operation>, base: Tree, E: set<nat>, n: nat)
    requires n <= |ops| && forall i: nat :: i < n ==> i in E
    ensures ApplyAll(ops[..n], base) == Image(ops, base, E, n)
  {
    if n > 0 {
      assert ops[..n][..n - 1] == ops[..n - 1];
      AllApplied(ops, base, E, n - 1);
    }
  }

  /** Deleting the companion loses no secret that is needed: once rolled back,
      every old one is outside it, and once everything is deployed, every new one. */
  lemma CompanionIsExpendable(ops: seq<Operation>, base: Tree, i: nat, companion: Path, valid: Validator)
    requires Shape(ops, base, valid) && CompanionBoundary(ops, companion) && i < |ops|
    ensures ops[i].Backup? ==>
            ops[i].active in base && Lookup(Outside(base, companion), ops[i].active) == Some(base[ops[i].active])
    ensures ops[i].Publish? ==>
              ops[i].staging in base
              && Lookup(Outside(ApplyAll(ops, base), companion), ops[i].active) == Some(base[ops[i].staging])
  {
    assert Sound(ops, i, base, valid);
    if ops[i].Publish? {
      assert Closed(ops, Below(|ops|));
      MovedFile(ops, base, Below(|ops|), i, valid);
      AllApplied(ops, base, Below(|ops|), |ops|);
      assert ops[..|ops|] == ops;
    }
  }
}
