/** Journalled operations: what each does to the tree, how recovery recognises
    from the disk alone whether it ran, and how it is undone. */
module Operations {
  import opened Wrappers
  import opened Disk

  /** Replacement of the environment file, as recorded before it happens.
      `before` is absent when there was no file. */
  datatype EnvChange = EnvChange(before: Option<EnvContent>, after: EnvContent)
  datatype EnvContent = EnvContent(digest: nat, auth: Authority)

  datatype Operation =
    | Mkdir(path: Path, auth: Authority)
    | Chmod(path: Path, kind: Kind, before: nat, after: nat, uid: nat, gid: nat)
    | Backup(active: Path, backup: Path, auth: Authority)
    | Publish(staging: Path, active: Path, auth: Authority)
    | Unlink(path: Path, backup: Path, auth: Authority)
    | EnvReplace(change: EnvChange)

  /** Judges a secret file from its path and content. */
  type Validator = (Path, nat) -> bool

  datatype Classification = NotExecuted | Executed | Ambiguous

  // ----- The effect of an operation -------------------------------------------

  predicate IsMove(op: Operation) { op.Backup? || op.Publish? || op.Unlink? }

  function Source(op: Operation): Path
    requires IsMove(op)
  {
    match op
    case Backup(a, _, _) => a
    case Publish(s, _, _) => s
    case Unlink(p, _, _) => p
  }

  function Target(op: Operation): Path
    requires IsMove(op)
  {
    match op
    case Backup(_, b, _) => b
    case Publish(_, a, _) => a
    case Unlink(_, b, _) => b
  }

  /** The identity of a created directory is never consulted again. */
  function NewDirectory(auth: Authority): Node { Node(0, Directory, 0, auth) }

  function Rename(t: Tree, from: Path, to: Path): Tree {
    if from in t then (t - {from})[to := t[from]] else t
  }

  function SetMode(t: Tree, p: Path, mode: nat): Tree {
    if p in t then t[p := t[p].(auth := t[p].auth.(mode := mode))] else t
  }

  function Apply(op: Operation, t: Tree): Tree {
    match op
    case Mkdir(p, auth) => t[p := NewDirectory(auth)]
    case Chmod(p, _, _, after, _, _) => SetMode(t, p, after)
    case EnvReplace(_) => t
    case _ => Rename(t, Source(op), Target(op))
  }

  // ----- What recovery observes --------------------------------------------------

  predicate Matches(n: Node, kind: Kind, auth: Authority) {
    n.kind == kind && n.auth == auth
  }

  /** Classification from the disk, never from the durable status alone. */
  function Classify(op: Operation, t: Tree, env: Option<Node>, valid: Validator): Classification {
    match op
    case Mkdir(p, auth) =>
      if p !in t then NotExecuted
      else if Matches(t[p], Directory, auth) && EmptyDirectory(t, p) then Executed
      else Ambiguous
    case Chmod(p, kind, before, after, uid, gid) =>
      if p !in t || t[p].kind != kind || t[p].auth.uid != uid || t[p].auth.gid != gid || before == after then
        Ambiguous
      else if t[p].auth.mode == before then NotExecuted
      else if t[p].auth.mode == after then Executed
      else Ambiguous
    case Unlink(p, _, auth) =>
      if p !in t then Executed
      else if Matches(t[p], Regular, auth) then NotExecuted
      else Ambiguous
    case EnvReplace(change) => ClassifyEnv(change, env)
    case _ =>
      var from, to := Source(op), Target(op);
      if from == to then Ambiguous
      else if from in t && !Matches(t[from], Regular, op.auth) then Ambiguous
      else if to in t && !Matches(t[to], Regular, op.auth) then Ambiguous
      else if from in t && to !in t then
        if op.Publish? && !valid(from, t[from].digest) then Ambiguous else NotExecuted
      else if from !in t && to in t then
        if op.Publish? && !valid(to, t[to].digest) then Ambiguous else Executed
      else Ambiguous
  }

  function ClassifyEnv(change: EnvChange, env: Option<Node>): Classification {
    if change.before.Some? && change.before.value.digest == change.after.digest then Ambiguous
    else
      match env
      case None => if change.before.None? then NotExecuted else Ambiguous
      case Some(n) =>
        if n.kind != Regular then Ambiguous
        else if change.before.Some? && n.digest == change.before.value.digest then
          if n.auth == change.before.value.auth then NotExecuted else Ambiguous
        else if n.digest == change.after.digest then
          if n.auth == change.after.auth then Executed else Ambiguous
        else Ambiguous
  }

  /** Whether an operation whose undo is on record may be passed over. */
  predicate ReverseStateSafe(op: Operation, t: Tree, env: Option<Node>, valid: Validator) {
    if op.Publish? then
      op.active !in t && op.staging in t
      && Matches(t[op.staging], Regular, op.auth) && valid(op.staging, t[op.staging].digest)
    else Classify(op, t, env, valid) == NotExecuted
  }

  /** The undo of an operation on the tree; `None` is a conflict.
      (The environment file is restored by its own protocol.) */
  function Reverse(op: Operation, t: Tree, valid: Validator): Option<Tree>
    requires !op.EnvReplace?
  {
    if Classify(op, t, None, valid) != Executed then None
    else
      match op
      case Mkdir(p, _) => Some(t - {p})
      case Chmod(p, _, before, _, _, _) => Some(SetMode(t, p, before))
      case Unlink(p, b, auth) =>
        if b in t && Matches(t[b], Regular, auth) then Some(Rename(t, b, p)) else None
      case Backup(a, b, _) => Some(Rename(t, b, a))
      case Publish(s, a, _) => Some(Rename(t, a, s))
  }

  // ----- On any tree, whoever has changed it ------------------------------------------

  /** The path holds just the regular file that was recorded. */
  ghost predicate HoldsFile(t: Tree, p: Path, auth: Authority) {
    && p in t && t[p].kind == Regular
    && t[p].auth.mode == auth.mode && t[p].auth.uid == auth.uid && t[p].auth.gid == auth.gid
  }

  /** The disk shows the operation's effect, with everything as it was recorded. */
  ghost predicate Ran(op: Operation, t: Tree, valid: Validator) {
    match op
    case Mkdir(p, auth) =>
      && p in t && t[p].kind == Directory
      && t[p].auth.mode == auth.mode && t[p].auth.uid == auth.uid && t[p].auth.gid == auth.gid
      && forall q :: q in t && |q| > 0 ==> q[..|q| - 1] != p
    case Chmod(p, kind, before, after, uid, gid) =>
      before != after && p in t && t[p].kind == kind && t[p].auth == Authority(after, uid, gid)
    case Backup(a, b, auth) => a != b && a !in t && HoldsFile(t, b, auth)
    case Publish(s, a, auth) => s != a && s !in t && HoldsFile(t, a, auth) && valid(a, t[a].digest)
    case Unlink(p, b, auth) => p !in t && HoldsFile(t, b, auth)
    case EnvReplace(_) => false
  }

  /** The disk shows what was there before the operation. */
  ghost predicate Waits(op: Operation, t: Tree, valid: Validator) {
    match op
    case Mkdir(p, _) => p !in t
    case Chmod(p, kind, before, after, uid, gid) =>
      before != after && p in t && t[p].kind == kind && t[p].auth == Authority(before, uid, gid)
    case Backup(a, b, auth) => a != b && b !in t && HoldsFile(t, a, auth)
    case Publish(s, a, auth) => s != a && a !in t && HoldsFile(t, s, auth) && valid(s, t[s].digest)
    case Unlink(p, _, auth) => HoldsFile(t, p, auth)
    case EnvReplace(_) => false
  }

  /** Nothing is reversed that is not just what the record says, and nothing is
      passed over unless it is as it was before. */
  lemma ReversesExactly(op: Operation, t: Tree, env: Option<Node>, valid: Validator)
    requires !op.EnvReplace?
    ensures Reverse(op, t, valid).Some? <==> Ran(op, t, valid)
    ensures Classify(op, t, env, valid) == NotExecuted <==> Waits(op, t, valid)
    ensures ReverseStateSafe(op, t, env, valid) <==> Waits(op, t, valid)
  {
    if op.Mkdir? {
      assert forall q :: ChildOf(q, op.path) <==> |q| > 0 && q[..|q| - 1] == op.path;
    }
  }

  /** Reversing touches the operation's own paths only, takes back just what the
      operation did (a directory comes with a new identity), and is never done twice. */
  lemma ReversalTakesBack(op: Operation, t: Tree, valid: Validator)
    requires !op.EnvReplace? && Ran(op, t, valid)
    ensures var u := Reverse(op, t, valid).value;
            && (forall q :: q !in Footprint(op) ==> Lookup(u, q) == Lookup(t, q))
            && (if op.Mkdir? then u == t - {op.path} else Apply(op, u) == t)
            && Reverse(op, u, valid).None?
  {
    ReversesExactly(op, t, None, valid);
    if op.Chmod? {
      assert t[op.path].auth.(mode := op.after) == t[op.path].auth;
    }
  }

  ghost predicate HoldsEnvironment(env: Option<Node>, content: EnvContent) {
    && env.Some? && env.value.kind == Regular && env.value.digest == content.digest
    && env.value.auth.mode == content.auth.mode
    && env.value.auth.uid == content.auth.uid && env.value.auth.gid == content.auth.gid
  }

  /** The environment file is taken for the earlier or the new one exactly if it
      is that one, content and permissions. */
  lemma EnvironmentExactly(change: EnvChange, env: Option<Node>)
    requires change.before.Some? ==> change.before.value.digest != change.after.digest
    ensures ClassifyEnv(change, env) == Executed <==> HoldsEnvironment(env, change.after)
    ensures ClassifyEnv(change, env) == NotExecuted <==>
            if change.before.None? then env.None? else HoldsEnvironment(env, change.before.value)
  {
  }

  // ----- The tree after a set of operations has run --------------------------------

  /** `base` with the operations numbered in `E` below `n` applied in order. */
  ghost function Image(ops: seq<Operation>, base: Tree, E: set<nat>, n: nat): Tree
    requires n <= |ops|
  {
    if n == 0 then base
    else
      var t := Image(ops, base, E, n - 1);
      if n - 1 in E then Apply(ops[n - 1], t) else t
  }

  function Footprint(op: Operation): set<Path> {
    match op
    case Mkdir(p, _) => {p}
    case Chmod(p, _, _, _, _, _) => {p}
    case EnvReplace(_) => {}
    case _ => {Source(op), Target(op)}
  }

  /** The same secret backed up first and published later: rotation. */
  predicate Paired(ops: seq<Operation>, i: nat, j: nat)
    requires i < |ops| && j < |ops|
  {
    i < j && ops[i].Backup? && ops[j].Publish? && ops[i].active == ops[j].active
    && ops[i].backup != ops[j].staging
  }

  /** An operation that can run, leaving a state in which it is recognised as run. */
  predicate Enabled(op: Operation, t: Tree, valid: Validator) {
    match op
    case Mkdir(p, _) => p !in t
    case Chmod(p, kind, before, after, uid, gid) =>
      before != after && p in t && Matches(t[p], kind, Authority(before, uid, gid))
    case EnvReplace(change) => change.before.Some? ==> change.before.value.digest != change.after.digest
    case _ =>
      Source(op) != Target(op) && Source(op) in t && Target(op) !in t
      && Matches(t[Source(op)], Regular, op.auth)
      && (op.Publish? ==> valid(Source(op), t[Source(op)].digest) && valid(Target(op), t[Source(op)].digest))
  }

  /** What the preparation plan guarantees of its journal: against the tree it
      started from every operation could run on its own, except that a rotated
      secret is only published over a path backed up before; operations touch
      disjoint paths, except for such a pair; nothing is moved directly into a
      directory the journal creates; and a directory is only created inside one
      that is there or was created before. */
  ghost predicate Shape(ops: seq<Operation>, base: Tree, valid: Validator) {
    && ParentClosed(base)
    && (forall i :: 0 <= i < |ops| ==> Sound(ops, i, base, valid))
    && (forall i, j :: 0 <= i < j < |ops| ==> Footprint(ops[i]) !! Footprint(ops[j]) || Paired(ops, i, j))
    && (forall i, j :: 0 <= i < |ops| && 0 <= j < |ops| ==> NotMovedInto(ops[i], ops[j]))
    && (forall i, j :: 0 <= i < |ops| && 0 <= j < |ops| && Nested(ops[i], ops[j]) ==> i < j)
    && (forall i {:trigger Rooted(ops, i, base)} :: 0 <= i < |ops| && ops[i].Mkdir? ==> Rooted(ops, i, base))
    && (forall i, j :: 0 <= i < j < |ops| ==> !(ops[i].EnvReplace? && ops[j].EnvReplace?))
  }

  ghost predicate Sound(ops: seq<Operation>, i: nat, base: Tree, valid: Validator)
    requires i < |ops|
  {
    if exists k :: 0 <= k < |ops| && Paired(ops, k, i) then
      Enabled(ops[i], base - {ops[i].active}, valid)
    else Enabled(ops[i], base, valid)
  }

  /** The parent of a created directory is there or created as well. */
  ghost predicate Rooted(ops: seq<Operation>, i: nat, base: Tree)
    requires i < |ops| && ops[i].Mkdir?
  {
    var p := ops[i].path;
    p != [] && (IsDirectory(base, Parent(p)) || exists k :: 0 <= k < |ops| && Nested(ops[k], ops[i]))
  }

  /** `child` is created directly inside `parent`. */
  predicate Nested(parent: Operation, child: Operation) {
    parent.Mkdir? && child.Mkdir? && ChildOf(child.path, parent.path)
  }

  predicate NotMovedInto(dir: Operation, op: Operation) {
    dir.Mkdir? && IsMove(op) ==> !ChildOf(Source(op), dir.path) && !ChildOf(Target(op), dir.path)
  }

  /** Sets of executed operations that a run can produce: a publication over a
      backed-up path only after the backup, a nested directory only inside its
      parent. */
  ghost predicate Closed(ops: seq<Operation>, E: set<nat>) {
    && (forall i :: i in E ==> i < |ops|)
    && (forall i, j :: 0 <= i < |ops| && j in E && j < |ops| && (Paired(ops, i, j) || Nested(ops[i], ops[j])) ==>
       i in E)
  }

  // ----- Lemmas --------------------------------------------------------------------

  lemma ApplyCommutes(a: Operation, b: Operation, t: Tree)
    requires Footprint(a) !! Footprint(b)
    ensures Apply(a, Apply(b, t)) == Apply(b, Apply(a, t))
  {
    forall p
      ensures Lookup(Apply(a, Apply(b, t)), p) == Lookup(Apply(b, Apply(a, t)), p)
    {
      ApplyAt(a, Apply(b, t), t, p);
      ApplyAt(b, Apply(a, t), t, p);
    }
    var x, y := Apply(a, Apply(b, t)), Apply(b, Apply(a, t));
    assert forall p :: p in x ==> Lookup(x, p) == Lookup(y, p);
    assert forall p :: p in y ==> Lookup(x, p) == Lookup(y, p);
  }

  /** An operation changes its own paths only, and looks at nothing else. */
  lemma ApplyAt(a: Operation, t: Tree, u: Tree, p: Path)
    ensures p !in Footprint(a) ==> Lookup(Apply(a, t), p) == Lookup(t, p)
    ensures p in Footprint(a) && (forall q :: q in Footprint(a) ==> Lookup(t, q) == Lookup(u, q)) ==>
              Lookup(Apply(a, t), p) == Lookup(Apply(a, u), p)
  {
  }

  /** An executed operation that no later executed one overlaps can be seen as
      the last to have run. */
  lemma {:induction false} ImageLast(ops: seq<Operation>, base: Tree, E: set<nat>, n: nat, e: nat)
    requires e < n <= |ops| && e in E
    requires forall j :: e < j < n && j in E ==> Footprint(ops[e]) !! Footprint(ops[j])
    ensures Image(ops, base, E, n) == Apply(ops[e], Image(ops, base, E - {e}, n))
  {
    if n - 1 == e {
      ImageAgree(ops, base, E, E - {e}, e);
    } else {
      ImageLast(ops, base, E, n - 1, e);
      if n - 1 in E {
        ApplyCommutes(ops[n - 1], ops[e], Image(ops, base, E - {e}, n - 1));
      }
    }
  }

  lemma {:induction false} ImageAgree(ops: seq<Operation>, base: Tree, E: set<nat>, F: set<nat>, n: nat)
    requires n <= |ops|
    requires forall i: nat :: i < n ==> (i in E <==> i in F)
    ensures Image(ops, base, E, n) == Image(ops, base, F, n)
  {
    if n > 0 { ImageAgree(ops, base, E, F, n - 1); }
  }

  lemma {:induction false} ImageFrame(ops: seq<Operation>, base: Tree, E: set<nat>, n: nat, p: Path)
    requires n <= |ops|
    requires forall j: nat :: j < n && j in E ==> p !in Footprint(ops[j])
    ensures Lookup(Image(ops, base, E, n), p) == Lookup(base, p)
  {
    if n > 0 { ImageFrame(ops, base, E, n - 1, p); }
  }

  lemma {:induction false} ImageKeys(ops: seq<Operation>, base: Tree, E: set<nat>, n: nat, q: Path)
    requires n <= |ops| && q in Image(ops, base, E, n)
    ensures q in base || exists j: nat :: j < n && j in E
                           && ((ops[j].Mkdir? && ops[j].path == q) || (IsMove(ops[j]) && Target(ops[j]) == q))
  {
    if n > 0 && q !in base {
      if q in Image(ops, base, E, n - 1) {
        ImageKeys(ops, base, E, n - 1, q);
        var j: nat :| j < n - 1 && j in E
          && ((ops[j].Mkdir? && ops[j].path == q) || (IsMove(ops[j]) && Target(ops[j]) == q));
      }
    }
  }

  /** An operation that has not run can run next, whatever else has, as soon as
      the backup it is paired with (if any) has. */
  lemma EnabledInImage(ops: seq<Operation>, base: Tree, E: set<nat>, e: nat, valid: Validator)
    requires Shape(ops, base, valid) && Closed(ops, E) && e < |ops| && e !in E
    requires forall i :: 0 <= i < |ops| && Paired(ops, i, e) ==> i in E
    ensures Enabled(ops[e], Image(ops, base, E, |ops|), valid)
    decreases e
  {
    var n := |ops|;
    assert Sound(ops, e, base, valid);
    if i :| 0 <= i < n && Paired(ops, i, e) {
      PairIsUnique(ops, base, E, i, e, valid);
      ImageLast(ops, base, E, n, i);
      EnabledInImage(ops, base, E - {i}, i, valid);
      ImageFrame(ops, base, E, n, ops[e].staging);
    } else {
      EnabledAlone(ops, base, E, e, valid);
    }
  }

  lemma EnabledAlone(ops: seq<Operation>, base: Tree, E: set<nat>, e: nat, valid: Validator)
    requires Shape(ops, base, valid) && e < |ops| && e !in E && forall i :: 0 <= i < |ops| ==> !Paired(ops, i, e)
    requires forall i: nat :: i in E && i < |ops| ==> !Paired(ops, e, i)
    ensures Enabled(ops[e], Image(ops, base, E, |ops|), valid)
  {
    var t := Image(ops, base, E, |ops|);
    assert Sound(ops, e, base, valid);
    forall p | p in Footprint(ops[e])
      ensures Lookup(t, p) == Lookup(base, p)
    {
      ImageFrame(ops, base, E, |ops|, p);
    }
    assert ops[e].Mkdir? || ops[e].Chmod? ==> ops[e].path in Footprint(ops[e]);
    assert IsMove(ops[e]) ==> Source(ops[e]) in Footprint(ops[e]) && Target(ops[e]) in Footprint(ops[e]);
  }

  lemma PairIsUnique(ops: seq<Operation>, base: Tree, E: set<nat>, i: nat, e: nat, valid: Validator)
    requires Shape(ops, base, valid) && i < |ops| && e < |ops| && Paired(ops, i, e)
    ensures forall j :: 0 <= j < |ops| && j != i && j != e ==>
                          Footprint(ops[i]) !! Footprint(ops[j]) && Footprint(ops[e]) !! Footprint(ops[j])
  {
    var a := ops[e].active;
    assert a in Footprint(ops[i]) && a in Footprint(ops[e]);
    forall j | 0 <= j < |ops| && j != i && j != e
      ensures Footprint(ops[i]) !! Footprint(ops[j]) && Footprint(ops[e]) !! Footprint(ops[j])
    {
      assert IsMove(ops[j]) ==> Source(ops[j]) in Footprint(ops[j]) && Target(ops[j]) in Footprint(ops[j]);
    }
  }

  /** A created directory is empty once no directory created inside it is left. */
  lemma CreatedDirectoryEmpty(ops: seq<Operation>, base: Tree, E: set<nat>, e: nat, valid: Validator)
    requires Shape(ops, base, valid) && e < |ops| && ops[e].Mkdir?
    requires forall j :: j in E && j < |ops| ==> !Nested(ops[e], ops[j])
    ensures EmptyDirectory(Image(ops, base, E, |ops|), ops[e].path)
  {
    var t := Image(ops, base, E, |ops|);
    assert Sound(ops, e, base, valid);
    forall q | q in t
      ensures !ChildOf(q, ops[e].path)
    {
      ImageKeys(ops, base, E, |ops|, q);
      if q !in base {
        var j: nat :| j < |ops| && j in E
          && ((ops[j].Mkdir? && ops[j].path == q) || (IsMove(ops[j]) && Target(ops[j]) == q));
        assert NotMovedInto(ops[e], ops[j]);
      }
    }
  }

  /** Undo of one executed operation: recognised as executed, and reversing it
      gives the tree in which it never ran. */
  lemma UndoStep(ops: seq<Operation>, base: Tree, E: set<nat>, e: nat, valid: Validator)
    requires Shape(ops, base, valid) && Closed(ops, E) && e in E && !ops[e].EnvReplace?
    requires forall j :: j in E && j < |ops| ==> !Paired(ops, e, j) && !Nested(ops[e], ops[j])
    ensures Classify(ops[e], Image(ops, base, E, |ops|), None, valid) == Executed
    ensures Reverse(ops[e], Image(ops, base, E, |ops|), valid) == Some(Image(ops, base, E - {e}, |ops|))
    ensures Closed(ops, E - {e})
  {
    var t, u := Image(ops, base, E, |ops|), Image(ops, base, E - {e}, |ops|);
    ImageLast(ops, base, E, |ops|, e);
    assert Closed(ops, E - {e});
    EnabledInImage(ops, base, E - {e}, e, valid);
    if ops[e].Mkdir? {
      CreatedDirectoryEmpty(ops, base, E, e, valid);
      assert t - {ops[e].path} == u;
    } else if ops[e].Chmod? {
      var p := ops[e].path;
      assert u[p].auth == Authority(ops[e].before, ops[e].uid, ops[e].gid);
      assert SetMode(t, p, ops[e].before) == u;
    } else {
      assert Rename(t, Target(ops[e]), Source(ops[e])) == u;
    }
  }

  /** An operation that has not run is recognised as such. */
  lemma NotRunIsSafe(ops: seq<Operation>, base: Tree, E: set<nat>, e: nat, valid: Validator)
    requires Shape(ops, base, valid) && Closed(ops, E) && e < |ops| && e !in E && !ops[e].EnvReplace?
    requires forall i :: 0 <= i < |ops| && Paired(ops, i, e) ==> i in E
    ensures Classify(ops[e], Image(ops, base, E, |ops|), None, valid) == NotExecuted
    ensures ReverseStateSafe(ops[e], Image(ops, base, E, |ops|), None, valid)
  {
    EnabledInImage(ops, base, E, e, valid);
  }

  // ----- Rollback order --------------------------------------------------------------

  function Priority(op: Operation): nat {
    match op
    case EnvReplace(_) => 0
    case Publish(_, _, _) => 1
    case Backup(_, _, _) => 2
    case Unlink(_, _, _) => 2
    case Chmod(_, _, _, _, _, _) => 3
    case Mkdir(_, _) => 4
  }

  function Depth(op: Operation): int {
    if op.Mkdir? then -|op.path| else 0
  }

  /** By kind, then deepest directory first, then latest first. */
  predicate Before(ops: seq<Operation>, i: nat, j: nat)
    requires i < |ops| && j < |ops|
  {
    var a, b := ops[i], ops[j];
    Priority(a) < Priority(b)
    || (Priority(a) == Priority(b) && (Depth(a) < Depth(b) || (Depth(a) == Depth(b) && i > j)))
  }

  /** Lists every operation below `n` exactly once. */
  ghost predicate Enumerates(order: seq<nat>, n: nat) {
    && (forall k :: 0 <= k < |order| ==> order[k] < n)
    && (forall k, l :: 0 <= k < l < |order| ==> order[k] != order[l])
    && (forall i: nat :: i < n ==> i in order)
  }

  ghost predicate OrderedForRollback(ops: seq<Operation>, order: seq<nat>) {
    && Enumerates(order, |ops|)
    && (forall k, l :: 0 <= k < l < |order| ==> Before(ops, order[k], order[l]))
  }

  /** Sorting the journal for rollback, by insertion. */
  method RollbackOrder(ops: seq<Operation>) returns (order: seq<nat>)
    ensures OrderedForRollback(ops, order)
  {
    order := [];
    for n := 0 to |ops|
      invariant Enumerates(order, n)
      invariant forall k, l :: 0 <= k < l < |order| ==> Before(ops, order[k], order[l])
    {
      var at := 0;
      while at < |order| && Before(ops, order[at], n)
        invariant 0 <= at <= |order|
        invariant forall k :: 0 <= k < at ==> Before(ops, order[k], n)
      {
        at := at + 1;
      }
      InsertionEnumerates(order, at, n);
      InsertionKeepsOrder(ops, order, at, n);
      order := order[..at] + [n] + order[at..];
    }
  }

  lemma InsertionEnumerates(order: seq<nat>, at: nat, n: nat)
    requires Enumerates(order, n) && at <= |order|
    ensures Enumerates(order[..at] + [n] + order[at..], n + 1)
  {
    var longer := order[..at] + [n] + order[at..];
    forall i: nat | i < n + 1
      ensures i in longer
    {
      if i < n {
        assert i in order;
        var k :| 0 <= k < |order| && order[k] == i;
        assert longer[if k < at then k else k + 1] == i;
      } else {
        assert longer[at] == n;
      }
    }
  }

  lemma InsertionKeepsOrder(ops: seq<Operation>, order: seq<nat>, at: nat, n: nat)
    requires Enumerates(order, n) && at <= |order| && n < |ops|
    requires forall k, l :: 0 <= k < l < |order| ==> Before(ops, order[k], order[l])
    requires forall k :: 0 <= k < at ==> Before(ops, order[k], n)
    requires at < |order| ==> !Before(ops, order[at], n)
    ensures var longer := order[..at] + [n] + order[at..];
            Enumerates(longer, n + 1) && forall k, l :: 0 <= k < l < |longer| ==> Before(ops, longer[k], longer[l])
  {
    InsertionEnumerates(order, at, n);
    forall k | at <= k < |order|
      ensures Before(ops, n, order[k])
    {
      assert k == at || Before(ops, order[at], order[k]);
    }
  }

  /** In every list sorted for rollback, whatever depends on an operation comes
      before it. */
  ghost predicate DependentsFirst(ops: seq<Operation>, order: seq<nat>)
    requires forall k :: 0 <= k < |order| ==> order[k] < |ops|
  {
    forall k, l :: 0 <= k < l < |order| ==>
      !Paired(ops, order[k], order[l]) && !Nested(ops[order[k]], ops[order[l]])
  }

  lemma RollbackOrderIsSafe(ops: seq<Operation>, order: seq<nat>)
    requires OrderedForRollback(ops, order)
    ensures DependentsFirst(ops, order)
  {
    forall k, l | 0 <= k < l < |order|
      ensures !Paired(ops, order[k], order[l]) && !Nested(ops[order[k]], ops[order[l]])
    {
      assert Before(ops, order[k], order[l]);
    }
  }

  /** Undoing, in the given order, those of the listed operations that ran;
      `None` as soon as one of them is not recognised as executed. */
  ghost function UndoAll(ops: seq<Operation>, t: Tree, order: seq<nat>, E: set<nat>, valid: Validator): Option<Tree>
    requires forall k :: 0 <= k < |order| ==> order[k] < |ops|
    decreases |order|
  {
    if order == [] then Some(t)
    else
      var e := order[0];
      if e !in E || ops[e].EnvReplace? then UndoAll(ops, t, order[1..], E, valid)
      else
        match Reverse(ops[e], t, valid)
        case None => None
        case Some(u) => UndoAll(ops, u, order[1..], E, valid)
  }

  lemma {:induction false} ImageOfNone(ops: seq<Operation>, base: Tree, E: set<nat>, n: nat)
    requires n <= |ops|
    requires forall i: nat :: i < n && i in E ==> ops[i].EnvReplace?
    ensures Image(ops, base, E, n) == base
  {
    if n > 0 { ImageOfNone(ops, base, E, n - 1); }
  }

  /** Any order that undoes dependents first gives back the tree the journal
      started from, without a conflict. */
  lemma {:induction false} UndoAllRestores(
    ops: seq<Operation>, base: Tree, order: seq<nat>, E: set<nat>, valid: Validator)
    requires Shape(ops, base, valid) && Closed(ops, E)
    requires forall k :: 0 <= k < |order| ==> order[k] < |ops|
    requires DependentsFirst(ops, order)
    requires forall k, l :: 0 <= k < l < |order| ==> order[k] != order[l]
    requires forall i :: i in E ==> i in order
    ensures UndoAll(ops, Image(ops, base, E, |ops|), order, E, valid) == Some(base)
    decreases |order|
  {
    if order == [] {
      ImageOfNone(ops, base, E, |ops|);
    } else {
      var e, rest, t := order[0], order[1..], Image(ops, base, E, |ops|);
      if e !in E {
        UndoAllRestores(ops, base, rest, E, valid);
      } else {
        forall j | j in E && j < |ops|
          ensures !Paired(ops, e, j) && !Nested(ops[e], ops[j])
        {
          var l :| 0 <= l < |order| && order[l] == j;
          assert l == 0 || (!Paired(ops, order[0], order[l]) && !Nested(ops[order[0]], ops[order[l]]));
        }
        if ops[e].EnvReplace? {
          ImageWithoutEnv(ops, base, E, |ops|, e);
        } else {
          UndoStep(ops, base, E, e, valid);
        }
        UndoAllRestores(ops, base, rest, E - {e}, valid);
        UndoAllIgnores(ops, Image(ops, base, E - {e}, |ops|), rest, E, e, valid);
      }
    }
  }

  lemma {:induction false} ImageWithoutEnv(ops: seq<Operation>, base: Tree, E: set<nat>, n: nat, e: nat)
    requires e < |ops| && n <= |ops| && ops[e].EnvReplace?
    ensures Image(ops, base, E, n) == Image(ops, base, E - {e}, n)
  {
    if n > 0 { ImageWithoutEnv(ops, base, E, n - 1, e); }
  }

  lemma {:induction false} UndoAllIgnores(
    ops: seq<Operation>, t: Tree, order: seq<nat>, E: set<nat>, e: nat, valid: Validator)
    requires forall k :: 0 <= k < |order| ==> order[k] < |ops|
    requires e !in order
    ensures UndoAll(ops, t, order, E, valid) == UndoAll(ops, t, order, E - {e}, valid)
    decreases |order|
  {
    if order != [] {
      var f := order[0];
      assert f != e;
      if f !in E || ops[f].EnvReplace? {
        UndoAllIgnores(ops, t, order[1..], E, e, valid);
      } else if Reverse(ops[f], t, valid).Some? {
        UndoAllIgnores(ops, Reverse(ops[f], t, valid).value, order[1..], E, e, valid);
      }
    }
  }

  function ReverseSequence(n: nat): (order: seq<nat>)
    ensures |order| == n && forall k :: 0 <= k < n ==> order[k] == n - 1 - k
  {
    seq(n, k requires 0 <= k < n => n - 1 - k)
  }

  /** Undoing by kind and undoing latest first end in the same tree, the one the
      journal started from, whichever of its operations had run. */
  lemma KindOrderEqualsReverseSequence(
    ops: seq<Operation>, base: Tree, order: seq<nat>, E: set<nat>, valid: Validator)
    requires Shape(ops, base, valid) && Closed(ops, E) && OrderedForRollback(ops, order)
    ensures UndoAll(ops, Image(ops, base, E, |ops|), order, E, valid)
         == UndoAll(ops, Image(ops, base, E, |ops|), ReverseSequence(|ops|), E, valid)
         == Some(base)
  {
    RollbackOrderIsSafe(ops, order);
    UndoAllRestores(ops, base, order, E, valid);
    var backwards := ReverseSequence(|ops|);
    forall i | i in E
      ensures i in backwards
    {
      assert backwards[|ops| - 1 - i] == i;
    }
    UndoAllRestores(ops, base, backwards, E, valid);
  }

  // ----- Growing a journal ---------------------------------------------------------------

  lemma ShapePrefix(ops: seq<Operation>, n: nat, base: Tree, valid: Validator)
    requires Shape(ops, base, valid) && n <= |ops|
    ensures Shape(ops[..n], base, valid)
  {
    var p := ops[..n];
    forall i, j | 0 <= i < n && 0 <= j < n
      ensures Paired(p, i, j) == Paired(ops, i, j)
    {
    }
    forall i | 0 <= i < n && p[i].Mkdir?
      ensures Rooted(p, i, base)
    {
      assert Rooted(ops, i, base);
      if k :| 0 <= k < |ops| && Nested(ops[k], ops[i]) {
        assert Nested(p[k], p[i]);
      }
    }
    forall i | 0 <= i < n
      ensures Sound(p, i, base, valid)
    {
      assert Sound(ops, i, base, valid);
      if k :| 0 <= k < |ops| && Paired(ops, k, i) {
        assert Paired(p, k, i);
      }
    }
  }

  /** Putting one more intent on record changes nothing yet; running it then
      applies it to the tree as it stands. */
  lemma JournalGrows(ops: seq<Operation>, op: Operation, base: Tree, E: set<nat>, valid: Validator)
    requires Shape(ops + [op], base, valid) && Closed(ops, E)
    requires forall i: nat :: i < |ops| ==> i in E
    ensures Closed(ops + [op], E) && Closed(ops + [op], E + {|ops|})
    ensures Image(ops + [op], base, E, |ops| + 1) == Image(ops, base, E, |ops|)
    ensures Image(ops + [op], base, E + {|ops|}, |ops| + 1) == Apply(op, Image(ops, base, E, |ops|))
    ensures Enabled(op, Image(ops, base, E, |ops|), valid)
  {
    var all, n := ops + [op], |ops|;
    assert all[n] == op;
    assert all[..n] == ops;
    ImagePrefixes(all, n, base, E, n);
    ImageAgree(all, base, E, E + {n}, n);
    EnabledInImage(all, base, E, n, valid);
  }

  /** Directories of the starting tree stay. */
  lemma {:induction false} DirectoryStands(
    ops: seq<Operation>, base: Tree, E: set<nat>, n: nat, p: Path, valid: Validator)
    requires Shape(ops, base, valid) && n <= |ops| && IsDirectory(base, p)
    ensures IsDirectory(Image(ops, base, E, n), p)
  {
    if n > 0 {
      DirectoryStands(ops, base, E, n - 1, p, valid);
      var last := n - 1;
      assert Sound(ops, last, base, valid);
      if k :| 0 <= k < |ops| && Paired(ops, k, last) {
        assert Sound(ops, k, base, valid);
      }
    }
  }

  /** A created directory stays. */
  lemma CreatedStands(ops: seq<Operation>, base: Tree, E: set<nat>, k: nat, n: nat, valid: Validator)
    requires Shape(ops, base, valid) && k < n <= |ops| && ops[k].Mkdir? && k in E
    ensures IsDirectory(Image(ops, base, E, n), ops[k].path)
  {
    assert Image(ops, base, E, k + 1) == Apply(ops[k], Image(ops, base, E, k));
    forall j: nat | k < j < n
      ensures ops[k].path !in Footprint(ops[j])
    {
    }
    ImageFrameFrom(ops, base, E, k + 1, n, ops[k].path);
  }

  /** The parent of the next directory to be created is there. */
  lemma ParentStands(ops: seq<Operation>, op: Operation, base: Tree, E: set<nat>, valid: Validator)
    requires Shape(ops + [op], base, valid) && op.Mkdir?
    requires forall i: nat :: i < |ops| ==> i in E
    ensures op.path != [] && IsDirectory(Image(ops, base, E, |ops|), Parent(op.path))
  {
    var all, n := ops + [op], |ops|;
    assert all[n] == op && all[..n] == ops && Rooted(all, n, base);
    ImagePrefixes(all, n, base, E, n);
    if IsDirectory(base, Parent(op.path)) {
      DirectoryStands(all, base, E, n, Parent(op.path), valid);
    } else {
      var k :| 0 <= k < |all| && Nested(all[k], all[n]);
      CreatedStands(all, base, E, k, n, valid);
    }
  }

  // ----- The private companion directory -----------------------------------------------------

  predicate Within(p: Path, dir: Path) {
    |dir| < |p| && p[..|dir|] == dir
  }

  /** What opening a private directory, and deleting it, insist on. */
  predicate IsPrivate(n: Node) {
    n.auth.mode == if n.kind == Directory then PRIVATE_DIR else PRIVATE_FILE
  }

  /** Everything in the companion has its private mode, as reopening demands. */
  predicate CompanionPrivate(t: Tree, companion: Path) {
    forall p | p in t :: Within(p, companion) ==> IsPrivate(t[p])
  }

  /** Files leave for, and come back from, the companion only by backups,
      publications and unlinks; nothing else touches it. */
  ghost predicate CompanionBoundary(ops: seq<Operation>, companion: Path) {
    forall i :: 0 <= i < |ops| ==>
      match ops[i]
      case Mkdir(p, _) => !Within(p, companion)
      case Chmod(p, _, _, _, _, _) => !Within(p, companion)
      case Backup(a, b, _) => !Within(a, companion) && Within(b, companion)
      case Publish(s, a, _) => Within(s, companion) && !Within(a, companion)
      case Unlink(p, b, _) => !Within(p, companion) && Within(b, companion)
      case EnvReplace(_) => true
  }

  /** A tree in the middle of a run can be reopened exactly when every secret
      moved into the companion so far had the private mode. */
  lemma ReopenableWhenPrivate(ops: seq<Operation>, base: Tree, E: set<nat>, companion: Path, valid: Validator)
    requires Shape(ops, base, valid) && Closed(ops, E) && CompanionBoundary(ops, companion)
    requires CompanionPrivate(base, companion)
    ensures CompanionPrivate(Image(ops, base, E, |ops|), companion)
       <==> forall e :: e in E && e < |ops| && (ops[e].Backup? || ops[e].Unlink?) ==> ops[e].auth.mode == PRIVATE_FILE
  {
    var t := Image(ops, base, E, |ops|);
    forall e | e in E && e < |ops| && (ops[e].Backup? || ops[e].Unlink?)
      ensures Target(ops[e]) in t && Matches(t[Target(ops[e])], Regular, ops[e].auth)
    {
      MovedFile(ops, base, E, e, valid);
    }
    forall p | p in t && Within(p, companion)
      ensures (p in base && t[p] == base[p])
           || exists e :: e in E && e < |ops| && (ops[e].Backup? || ops[e].Unlink?) && Target(ops[e]) == p
    {
      if forall e :: e in E && e < |ops| && (ops[e].Backup? || ops[e].Unlink?) ==> Target(ops[e]) != p {
        ImageKeys(ops, base, E, |ops|, p);
        assert p in base;
        StillThere(ops, base, E, |ops|, p, companion);
      }
    }
  }

  /** What an operation moves is where the run found it until the operation runs. */
  lemma WaitingFile(ops: seq<Operation>, base: Tree, E: set<nat>, e: nat, n: nat, valid: Validator)
    requires Shape(ops, base, valid) && Closed(ops, E) && e < |ops| && IsMove(ops[e])
    requires n <= |ops| && (e in E ==> n <= e)
    ensures Source(ops[e]) in base && Source(ops[e]) != Target(ops[e])
            && Matches(base[Source(ops[e])], Regular, ops[e].auth)
    ensures Lookup(Image(ops, base, E, n), Source(ops[e])) == Some(base[Source(ops[e])])
    ensures !ops[e].Publish? ==> Target(ops[e]) !in Image(ops, base, E, n)
  {
    assert Sound(ops, e, base, valid);
    forall j: nat | j < n && j in E
      ensures Source(ops[e]) !in Footprint(ops[j]) && (!ops[e].Publish? ==> Target(ops[e]) !in Footprint(ops[j]))
    {
      assert j != e;
      if Paired(ops, j, e) { assert Sound(ops, j, base, valid); }
    }
    ImageFrame(ops, base, E, n, Source(ops[e]));
    if !ops[e].Publish? { ImageFrame(ops, base, E, n, Target(ops[e])); }
  }

  /** Once it ran, the file stays at its target, and nothing returns to a
      staging path. */
  lemma MovedFile(ops: seq<Operation>, base: Tree, E: set<nat>, e: nat, valid: Validator)
    requires Shape(ops, base, valid) && Closed(ops, E) && e < |ops| && IsMove(ops[e]) && e in E
    ensures var t := Image(ops, base, E, |ops|);
            Source(ops[e]) in base && Lookup(t, Target(ops[e])) == Some(base[Source(ops[e])])
            && (ops[e].Publish? ==> ops[e].staging !in t)
    ensures Matches(base[Source(ops[e])], Regular, ops[e].auth)
  {
    WaitingFile(ops, base, E, e, e, valid);
    assert Image(ops, base, E, e + 1) == Apply(ops[e], Image(ops, base, E, e));
    forall j: nat | e < j < |ops|
      ensures Target(ops[e]) !in Footprint(ops[j]) && (ops[e].Publish? ==> Source(ops[e]) !in Footprint(ops[j]))
    {
    }
    ImageFrameFrom(ops, base, E, e + 1, |ops|, Target(ops[e]));
    if ops[e].Publish? { ImageFrameFrom(ops, base, E, e + 1, |ops|, Source(ops[e])); }
  }

  /** The effect of an operation on a single path stays, as nothing else
      touches that path. */
  lemma EffectStays(ops: seq<Operation>, base: Tree, E: set<nat>, e: nat, p: Path, valid: Validator)
    requires Shape(ops, base, valid) && e < |ops| && e in E && Footprint(ops[e]) == {p} && !IsMove(ops[e])
    ensures Lookup(Image(ops, base, E, |ops|), p) == Lookup(Apply(ops[e], base), p)
  {
    forall j: nat | j < |ops| && j != e
      ensures p !in Footprint(ops[j])
    {
      assert p in Footprint(ops[e]);
    }
    ImageFrame(ops, base, E, e, p);
    ApplyAt(ops[e], Image(ops, base, E, e), base, p);
    assert Image(ops, base, E, e + 1) == Apply(ops[e], Image(ops, base, E, e));
    ImageFrameFrom(ops, base, E, e + 1, |ops|, p);
  }

  /** The tree is the starting one exactly while nothing but the environment
      file's replacement counts as executed. */
  lemma StartingTree(ops: seq<Operation>, base: Tree, E: set<nat>, valid: Validator)
    requires Shape(ops, base, valid) && Closed(ops, E)
    ensures Image(ops, base, E, |ops|) == base <==> forall e :: e in E && e < |ops| ==> ops[e].EnvReplace?
  {
    if forall e :: e in E && e < |ops| ==> ops[e].EnvReplace? {
      ImageOfNone(ops, base, E, |ops|);
    } else {
      var e :| e in E && e < |ops| && !ops[e].EnvReplace?;
      EffectShows(ops, base, E, e, valid);
    }
  }

  /** An executed operation has left its mark on the tree. */
  lemma EffectShows(ops: seq<Operation>, base: Tree, E: set<nat>, e: nat, valid: Validator)
    requires Shape(ops, base, valid) && Closed(ops, E) && e in E && e < |ops| && !ops[e].EnvReplace?
    ensures Image(ops, base, E, |ops|) != base
  {
    var t := Image(ops, base, E, |ops|);
    assert Sound(ops, e, base, valid);
    match ops[e]
    case Mkdir(p, _) =>
      CreatedStands(ops, base, E, e, |ops|, valid);
    case Chmod(p, _, _, _, _, _) =>
      EffectStays(ops, base, E, e, p, valid);
      assert Lookup(t, p) != Lookup(base, p);
    case _ =>
      MovedFile(ops, base, E, e, valid);
  }

  lemma {:induction false} ImagePrefixes(ops: seq<Operation>, m: nat, base: Tree, E: set<nat>, n: nat)
    requires n <= m <= |ops|
    ensures Image(ops[..m], base, E, n) == Image(ops, base, E, n)
  {
    if n > 0 { ImagePrefixes(ops, m, base, E, n - 1); }
  }

  lemma {:induction false} ImageFrameFrom(ops: seq<Operation>, base: Tree, E: set<nat>, m: nat, n: nat, p: Path)
    requires m <= n <= |ops|
    requires forall j: nat :: m <= j < n ==> p !in Footprint(ops[j])
    ensures Lookup(Image(ops, base, E, n), p) == Lookup(Image(ops, base, E, m), p)
  {
    if n > m { ImageFrameFrom(ops, base, E, m, n - 1, p); }
  }

  lemma {:induction false} StillThere(ops: seq<Operation>, base: Tree, E: set<nat>, n: nat, p: Path, companion: Path)
    requires n <= |ops| && CompanionBoundary(ops, companion) && Within(p, companion)
    requires p in base && p in Image(ops, base, E, n)
    requires forall e :: e in E && e < |ops| && (ops[e].Backup? || ops[e].Unlink?) ==> Target(ops[e]) != p
    ensures Image(ops, base, E, n)[p] == base[p]
  {
    if n > 0 {
      if p in Image(ops, base, E, n - 1) {
        StillThere(ops, base, E, n - 1, p, companion);
      }
    }
  }

  ghost function ApplyAll(ops: seq<Operation>, t: Tree): Tree {
    if ops == [] then t else Apply(ops[|ops| - 1], ApplyAll(ops[..|ops| - 1], t))
  }

  /** What of the tree lies outside the companion. */
  ghost function Outside(t: Tree, companion: Path): Tree {
    map p | p in t && !Within(p, companion) :: t[p]
  }

  /** The next operation of a list, within a longer journal. */
  lemma NextOfList(
    all: seq<Operation>, before: seq<Operation>, list: seq<Operation>, k: nat, base: Tree, valid: Validator)
    requires Shape(all, base, valid) && before + list <= all && k < |list|
    ensures Shape(before + list[..k] + [list[k]], base, valid)
    ensures before + list[..k] + [list[k]] == before + list[..k + 1] <= before + list
    ensures ApplyAll(before + list[..k] + [list[k]], base) == Apply(list[k], ApplyAll(before + list[..k], base))
  {
    var grown := before + list[..k] + [list[k]];
    assert all[..|before| + k + 1] == grown;
    ShapePrefix(all, |grown|, base, valid);
    assert grown[..|grown| - 1] == before + list[..k];
  }
}
