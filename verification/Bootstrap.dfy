/** The two directories a transaction may have to create, or make private, before
    it has a place of its own: the secret root and the companion's parent.  A
    record written first says how to give them back. */
module Bootstrap {
  import opened Wrappers
  import opened Disk

  /** One directory: as it was found, the identity it has since it exists, and
      how far preparing and cleaning it have come. */
  datatype Entry = Entry(existed: bool, original: Option<Authority>, id: Option<nat>, prepared: bool, cleaned: bool)

  datatype State = Preparing | Ready | CleanupInProgress | CleanupComplete

  datatype Record = Record(state: State, entries: seq<Entry>)

  /** Index 0 is the secret root, index 1 the companion's parent inside it.
      `others` says where something else lies, `original` what was found. */
  datatype Site = Site(
    record: Option<Record>, dirs: seq<Option<Node>>, companion: bool, others: seq<bool>, nextId: nat,
    uid: nat, gid: nat, original: seq<Option<Node>>)

  function EntryFor(d: Option<Node>): Entry {
    match d
    case None => Entry(false, None, None, false, false)
    case Some(n) => Entry(true, Some(n.auth), Some(n.id), false, false)
  }

  function MadePrivate(n: Node): Node {
    n.(auth := n.auth.(mode := PRIVATE_DIR))
  }

  /** Whether a directory is the recorded one, as it was or as prepared.  A
      missing identity matches anything. */
  predicate EntryMatches(e: Entry, d: Node, auth: Authority) {
    d.kind == Directory && (e.id.Some? ==> d.id == e.id.value) && d.auth == auth
  }

  /** A record may say so much and no more: prepared from the first on, cleaned
      from the last on. */
  predicate WellFormed(r: Record) {
    && |r.entries| == 2
    && (r.state.Preparing? ==> r.entries[1].prepared ==> r.entries[0].prepared)
    && (r.state.Ready? ==> r.entries[0].prepared && r.entries[1].prepared)
    && (r.state.Preparing? || r.state.Ready? ==> !r.entries[0].cleaned && !r.entries[1].cleaned)
    && (r.state.CleanupComplete? ==> r.entries[0].cleaned && r.entries[1].cleaned)
    && (r.entries[0].cleaned ==> r.entries[1].cleaned)
    && (forall i :: 0 <= i < 2 && !r.entries[i].existed && r.entries[i].prepared ==> r.entries[i].id.Some?)
  }

  /** What planning checks of the two directories. */
  predicate Plannable(s: Site) {
    && |s.original| == 2 && |s.others| == 2
    && (s.original[1].Some? ==> s.original[0].Some? && s.original[1].value.auth.mode == PRIVATE_DIR)
    && (forall i :: 0 <= i < 2 && s.original[i].Some? ==>
          s.original[i].value.kind == Directory && s.original[i].value.auth.uid == s.uid
          && s.original[i].value.auth.gid == s.gid
          && s.original[i].value.id < s.nextId)
  }

  /** A directory not yet cleaned up after: as found or as prepared. */
  predicate Standing(s: Site, i: nat)
    requires i < 2 && |s.original| == 2 && |s.dirs| == 2 && s.record.Some? && |s.record.value.entries| == 2
  {
    var e, now := s.record.value.entries[i], s.dirs[i];
    !e.cleaned
    && match s.original[i]
       case Some(was) =>
         e == Entry(true, Some(was.auth), Some(was.id), e.prepared, false)
         && (now == Some(was) || now == Some(MadePrivate(was)))
       case None =>
         !e.existed && e.original.None?
         && (now.Some? ==>
               EntryMatches(e, now.value, Authority(PRIVATE_DIR, s.uid, s.gid)) && now.value.id < s.nextId)
  }

  predicate Cleaned(s: Site, i: nat)
    requires i < 2 && |s.original| == 2 && |s.dirs| == 2 && s.record.Some? && |s.record.value.entries| == 2
  {
    s.record.value.entries[i].cleaned && s.dirs[i] == s.original[i]
    && s.record.value.entries[i].existed == s.original[i].Some?
    && (s.original[i].Some? ==>
          s.record.value.entries[i].original == Some(s.original[i].value.auth)
          && s.record.value.entries[i].id == Some(s.original[i].value.id))
  }

  /** Every state between two atomic steps of preparing or cleaning up. */
  predicate Valid(s: Site) {
    && Plannable(s) && |s.dirs| == 2
    && match s.record
       case None => s.dirs == s.original && !s.companion
       case Some(r) =>
         && WellFormed(r)
         && (forall i :: 0 <= i < 2 ==> if r.entries[i].cleaned then Cleaned(s, i) else Standing(s, i))
         && (!r.entries[0].prepared && !r.entries[1].cleaned ==>
               s.dirs[1] == s.original[1] && r.entries[1] == EntryFor(s.original[1]))
         && (s.dirs[1].Some? ==> s.dirs[0].Some?)
         && (s.companion ==>
            r.entries[0].prepared && r.entries[1].prepared && s.dirs[1].Some? && (r.state.Preparing? || r.state.Ready?))
  }

  /** Exactly what a cleanup refuses: a directory that was created but never
      recorded, or one to be removed in which something else lies. */
  predicate Stuck(s: Site)
    requires Valid(s) && s.record.Some?
  {
    exists i | 0 <= i < 2 :: s.original[i].None? && s.dirs[i].Some?
        && (s.record.value.entries[i].id.None? || s.others[i])
  }

  /** Both directories are as they were found. */
  predicate GivenBack(s: Site) {
    Valid(s) && s.dirs == s.original
    && (s.record.None? || s.record.value.state.CleanupComplete?)
  }

  function InState(s: Site, state: State): Site
    requires s.record.Some?
  {
    s.(record := Some(s.record.value.(state := state)))
  }

  lemma CleanupBegins(s: Site)
    requires Valid(s) && s.record.Some? && !s.record.value.state.CleanupComplete? && !s.companion
    ensures var t := InState(s, CleanupInProgress); WellFormed(t.record.value) && Valid(t) && Stuck(t) == Stuck(s)
  {
  }

  lemma CleanupEnds(s: Site)
    requires Valid(s) && s.record.Some? && s.record.value.entries[0].cleaned && s.record.value.entries[1].cleaned
             && !s.companion
    ensures var t := InState(s, CleanupComplete);
            WellFormed(t.record.value) && GivenBack(t) && Stuck(t) == Stuck(s) == false
  {
  }

  /** What stands in the way of one entry's cleanup. */
  predicate StuckAt(s: Site, i: nat)
    requires Valid(s) && s.record.Some? && i < 2
  {
    s.original[i].None? && s.dirs[i].Some? && (s.record.value.entries[i].id.None? || s.others[i])
  }

  lemma StuckSomewhere(s: Site)
    requires Valid(s) && s.record.Some?
    ensures Stuck(s) == (StuckAt(s, 0) || StuckAt(s, 1))
  {
    if StuckAt(s, 0) {
    } else if StuckAt(s, 1) {
    }
  }

  function Given(s: Site, i: nat): Site
    requires i < 2 && |s.original| == 2 && |s.dirs| == 2
  {
    s.(dirs := s.dirs[i := s.original[i]])
  }

  function Marked(s: Site, i: nat): Site
    requires s.record.Some? && i < |s.record.value.entries|
  {
    var r := s.record.value;
    s.(record := Some(r.(entries := r.entries[i := r.entries[i].(cleaned := true)])))
  }

  /** Giving one directory back, and recording that, from the last on. */
  lemma EntryCleaned(s: Site, i: nat)
    requires Valid(s) && s.record.Some? && s.record.value.state.CleanupInProgress? && !s.companion && i < 2
    requires !s.record.value.entries[i].cleaned && (i == 0 ==> s.record.value.entries[1].cleaned) && !StuckAt(s, i)
    ensures var t, u := Given(s, i), Marked(Given(s, i), i);
            Valid(t) && Valid(u) && WellFormed(u.record.value)
            && Stuck(t) == Stuck(u) == Stuck(s) && !StuckAt(t, i) && !StuckAt(u, i)
  {
    var t, u := Given(s, i), Marked(Given(s, i), i);
    assert Valid(t);
    assert Valid(u);
    StuckSomewhere(s);
    StuckSomewhere(t);
    StuckSomewhere(u);
  }

  /** A directory as preparing makes it: created, or made private. */
  function PreparedNode(s: Site, i: nat): Node
    requires i < |s.dirs|
  {
    match s.dirs[i]
    case None => Node(s.nextId, Directory, 0, Authority(PRIVATE_DIR, s.uid, s.gid))
    case Some(n) => if n.auth.mode == PRIVATE_DIR then n else MadePrivate(n)
  }

  /** Making one directory, and recording which it is, from the first on. */
  lemma EntryPrepared(s: Site, i: nat)
    requires Valid(s) && s.record.Some? && s.record.value.state.Preparing? && !s.companion && i < 2
    requires |s.record.value.entries| == 2 && s.record.value.entries[i] == EntryFor(s.dirs[i])
             && s.dirs[i] == s.original[i]
    requires if i == 0 then !s.record.value.entries[1].prepared
             else s.record.value.entries[0].prepared && s.dirs[0].Some?
    ensures var n, r := PreparedNode(s, i), s.record.value;
            var t := s.(dirs := s.dirs[i := Some(n)], nextId := if s.dirs[i].None? then s.nextId + 1 else s.nextId);
            var entry := r.entries[i].(id := Some(n.id), prepared := true);
            var u := t.(record := Some(r.(entries := r.entries[i := entry])));
            && |r.entries| == 2 && n.auth.mode == PRIVATE_DIR && Valid(t) && Valid(u) && WellFormed(u.record.value)
            && (s.dirs[i].Some? && s.dirs[i].value.auth.mode == PRIVATE_DIR ==> t == s)
  {
    var n := PreparedNode(s, i);
    if s.dirs[i].Some? && s.dirs[i].value.auth.mode == PRIVATE_DIR {
      assert s.dirs[i := Some(n)] == s.dirs;
    }
  }

  /** A secret root created a moment before power was lost: nobody can tell
      whose it is, so it stays and cleanup stops. */
  lemma UnrecordedDirectoryIsStuck()
    ensures var s := Site(Some(Record(Preparing, [EntryFor(None), EntryFor(None)])),
                          [Some(Node(0, Directory, 0, Authority(PRIVATE_DIR, 1, 1))), None], false, [false, false], 1,
                              1, 1, [None, None]);
            Valid(s) && Stuck(s)
  {
    var s := Site(Some(Record(Preparing, [EntryFor(None), EntryFor(None)])),
                  [Some(Node(0, Directory, 0, Authority(PRIVATE_DIR, 1, 1))), None], false, [false, false], 1, 1, 1,
                      [None, None]);
    assert Standing(s, 0) && Standing(s, 1);
    StuckSomewhere(s);
  }

  class BootstrapDirectories {
    const power: Power
    const uid: nat
    const gid: nat
    const others: seq<bool>
    var record: Option<Record>
    var dirs: seq<Option<Node>>
    var companion: bool
    /** How many of the companion's own two directories have been made. */
    var rooms: nat
    var nextId: nat
    ghost var original: seq<Option<Node>>

    constructor (power: Power, uid: nat, gid: nat, others: seq<bool>, dirs: seq<Option<Node>>, nextId: nat)
      requires Plannable(Site(None, dirs, false, others, nextId, uid, gid, dirs))
      ensures State() == Site(None, dirs, false, others, nextId, uid, gid, dirs) && Valid(State())
              && this.power == power && rooms == 0
    {
      rooms := 0;
      this.power, this.uid, this.gid, this.others, this.dirs, this.nextId := power, uid, gid, others, dirs, nextId;
      record, companion, original := None, false, dirs;
    }

    ghost function State(): Site
      reads this
    { Site(record, dirs, companion, others, nextId, uid, gid, original) }

    method Write(r: Record) returns (o: Outcome)
      modifies this`record, power
      ensures o.Conflict? <==> !WellFormed(r)
      ensures if o.Pass? then record == Some(r) else record == old(record)
      ensures old(power.left) == None ==> power.left == None && !o.Crash?
    {
      if !WellFormed(r) {
        return Conflict;
      }
      :- power.Tick();
      record := Some(r);
      return Pass;
    }

    // ----- Preparing --------------------------------------------------------------------

    /** Creates the directory, or makes it private, then puts its identity on record. */
    method PrepareEntry(i: nat) returns (o: Outcome)
      requires Valid(State()) && record.Some? && record.value.state.Preparing? && !companion
      requires i < 2 && record.value.entries[i] == EntryFor(dirs[i]) && dirs[i] == original[i]
      requires if i == 0 then !record.value.entries[1].prepared else record.value.entries[0].prepared && dirs[0].Some?
      modifies this`record, this`dirs, this`nextId, power
      ensures Valid(State()) && !o.Conflict? && record.Some? && record.value.state.Preparing?
      ensures old(power.left) == None ==> power.left == None && !o.Crash?
      ensures o.Pass? ==> record.value.entries[i].prepared && dirs[i].Some? && dirs[1 - i] == old(dirs)[1 - i]
                          && dirs[i].value.auth.mode == PRIVATE_DIR
                          && record.value.entries[1 - i] == old(record.value.entries)[1 - i]
    {
      EntryPrepared(State(), i);
      hide Valid, WellFormed, Standing, Cleaned, Plannable;
      var entry := record.value.entries[i];
      if !entry.existed {
        :- power.Tick();
        dirs, nextId := dirs[i := Some(Node(nextId, Directory, 0, Authority(PRIVATE_DIR, uid, gid)))], nextId + 1;
      } else if entry.original.value.mode != PRIVATE_DIR {
        :- power.Tick();
        dirs := dirs[i := Some(MadePrivate(dirs[i].value))];
      }
      entry := entry.(id := Some(dirs[i].value.id), prepared := true);
      o := Write(record.value.(entries := record.value.entries[i := entry]));
    }

    /** Both directories are there and private. */
    predicate Private()
      reads this
    {
      |dirs| == 2 && forall i | 0 <= i < 2 :: dirs[i].Some? && dirs[i].value.auth.mode == PRIVATE_DIR
    }

    /** The record comes first. */
    method Announce() returns (o: Outcome)
      requires Valid(State()) && record.None?
      modifies this`record, power
      ensures Valid(State()) && !o.Conflict?
      ensures old(power.left) == None ==> power.left == None && !o.Crash?
      ensures o.Pass? ==>
              dirs == original && !companion
              && record == Some(Record(Preparing, [EntryFor(dirs[0]), EntryFor(dirs[1])]))
    {
      o := Write(Record(Preparing, [EntryFor(dirs[0]), EntryFor(dirs[1])]));
    }

    /** The companion, the two directories in it, and the record that everything
        is there. */
    method Finish() returns (o: Outcome)
      requires Valid(State()) && record.Some? && record.value.state.Preparing? && !companion && Private()
      requires record.value.entries[0].prepared && record.value.entries[1].prepared
      requires rooms == 0
      modifies this`record, this`companion, this`rooms, power
      ensures Valid(State()) && !o.Conflict? && (rooms > 0 ==> companion)
      ensures old(power.left) == None ==> power.left == None && !o.Crash?
      ensures o.Pass? ==> companion && rooms == 2 && record.Some? && record.value.state.Ready?
      ensures old(power.left) == Some(0) ==> o.Crash? && State() == old(State()) && rooms == 0
    {
      o := power.Tick();
      if !o.Pass? {
        return;
      }
      companion := true;
      ghost var s := State();
      while rooms < 2
        invariant rooms <= 2 && State() == s
        invariant old(power.left) == None ==> power.left == None
      {
        :- power.Tick();
        rooms := rooms + 1;
      }
      o := Write(record.value.(state := Ready));
    }

    /** From nothing to a companion in place. */
    method Create() returns (o: Outcome)
      requires Valid(State()) && record.None? && rooms == 0
      modifies this, power
      ensures Valid(State()) && !o.Conflict? && original == old(original) && (rooms > 0 ==> companion)
      ensures old(power.left) == None ==> power.left == None && !o.Crash?
      ensures o.Pass? ==> companion && rooms == 2 && record.Some? && record.value.state.Ready? && Private()
    {
      hide Standing, Cleaned, WellFormed, Plannable;
      o := Announce();
      if o.Pass? { o := PrepareEntry(0); }
      if o.Pass? { o := PrepareEntry(1); }
      if o.Pass? { o := Finish(); }
    }

    // ----- Cleaning up --------------------------------------------------------------------

    predicate Empty(i: nat)
      requires i < 2 && |dirs| == 2 && |others| == 2
      reads this
    {
      !others[i] && if i == 0 then dirs[1].None? else !companion
    }

    /** The directory itself: its mode, or its absence. */
    method GiveBack(i: nat) returns (o: Outcome)
      requires Valid(State()) && record.Some? && record.value.state.CleanupInProgress? && !companion
      requires i < 2 && (i == 0 ==> record.value.entries[1].cleaned) && !record.value.entries[i].cleaned
      modifies this`dirs, power
      ensures o.Conflict? <==> old(StuckAt(State(), i))
      ensures State() == if o.Pass? then Given(old(State()), i) else old(State())
      ensures old(power.left) == None ==> power.left == None && !o.Crash?
      ensures old(dirs)[i].Some? && dirs[i].None? ==> record.value.entries[i].id == Some(old(dirs)[i].value.id)
    {
      var entry, now := record.value.entries[i], dirs[i];
      if entry.existed {
        if now.None? {
          return Conflict;
        }
        if !EntryMatches(entry, now.value, entry.original.value) {
          if !EntryMatches(entry, now.value, Authority(PRIVATE_DIR, uid, gid)) {
            return Conflict;
          }
          :- power.Tick();
          dirs := dirs[i := Some(now.value.(auth := entry.original.value))];
        }
      } else if now.Some? {
        if !EntryMatches(entry, now.value, Authority(PRIVATE_DIR, uid, gid)) {
          return Conflict;
        }
        if entry.id.None? || !Empty(i) {
          return Conflict;
        }
        :- power.Tick();
        dirs := dirs[i := None];
      }
      return Pass;
    }

    /** A cleaned entry still has to be as it was found. */
    method CheckCleaned(i: nat) returns (o: Outcome)
      requires Valid(State()) && record.Some? && i < 2 && record.value.entries[i].cleaned
      ensures o.Pass? && !StuckAt(State(), i)
    {
      var entry, now := record.value.entries[i], dirs[i];
      if entry.existed {
        if now.None? || !EntryMatches(entry, now.value, entry.original.value) {
          return Conflict;
        }
      } else if now.Some? {
        return Conflict;
      }
      return Pass;
    }

    /** One directory, then the record that it is done. */
    method CleanEntry(i: nat) returns (o: Outcome)
      requires Valid(State()) && record.Some? && record.value.state.CleanupInProgress? && !companion
      requires i < 2 && (i == 0 ==> record.value.entries[1].cleaned)
      modifies this`record, this`dirs, power
      ensures Valid(State()) && record.Some? && record.value.state.CleanupInProgress?
      ensures old(power.left) == None ==> power.left == None && !o.Crash?
      ensures o.Pass? ==> record.value.entries[i].cleaned
      ensures o.Conflict? <==> old(StuckAt(State(), i))
      ensures Stuck(State()) == old(Stuck(State()))
      ensures dirs[1 - i] == old(dirs)[1 - i] && record.value.entries[1 - i] == old(record.value.entries)[1 - i]
      ensures old(dirs)[i].Some? && dirs[i].None? ==> old(record.value.entries)[i].id == Some(old(dirs)[i].value.id)
    {
      if record.value.entries[i].cleaned {
        o := CheckCleaned(i);
        return;
      }
      ghost var s := State();
      if !StuckAt(s, i) { EntryCleaned(s, i); }
      hide WellFormed, Standing, Cleaned, Stuck, Plannable;
      :- GiveBack(i);
      o := Write(record.value.(entries := record.value.entries[i := record.value.entries[i].(cleaned := true)]));
    }

    /** Both entries, the last first. */
    method CleanEntries() returns (o: Outcome)
      requires Valid(State()) && record.Some? && record.value.state.CleanupInProgress? && !companion
      modifies this`record, this`dirs, power
      ensures Valid(State()) && record.Some? && record.value.state.CleanupInProgress?
      ensures old(power.left) == None ==> power.left == None && !o.Crash?
      ensures o.Pass? ==> record.value.entries[0].cleaned && record.value.entries[1].cleaned
      ensures !o.Crash? ==> (o.Conflict? <==> old(Stuck(State())))
      ensures Stuck(State()) == old(Stuck(State()))
      ensures forall i :: 0 <= i < 2 && old(dirs)[i].Some? && dirs[i].None? ==>
                old(record).value.entries[i].id == Some(old(dirs)[i].value.id)
    {
      ghost var s := State();
      StuckSomewhere(s);
      hide WellFormed, Standing, Cleaned, Stuck, Plannable;
      o := CleanEntry(1);
      if o.Pass? {
        ghost var t := State();
        StuckSomewhere(t);
        assert StuckAt(t, 0) == StuckAt(s, 0);
        o := CleanEntry(0);
      }
    }

    /** Gives both directories back, from whatever preparing or an earlier
        cleanup left, or stops where it must; no directory without a recorded
        identity is ever removed. */
    method FinishCleanup() returns (o: Outcome)
      requires Valid(State()) && !companion
      modifies this`record, this`dirs, power
      ensures Valid(State()) && record.Some? == old(record).Some?
      ensures old(power.left) == None ==> power.left == None && !o.Crash?
      ensures o.Pass? ==> GivenBack(State())
      ensures !o.Crash? ==> (o.Conflict? <==> old(record.Some? && Stuck(State())))
      ensures record.Some? ==> Stuck(State()) == old(Stuck(State()))
      ensures forall i :: 0 <= i < 2 && old(dirs)[i].Some? && dirs[i].None? ==>
                old(record).Some? && old(record).value.entries[i].id == Some(old(dirs)[i].value.id)
    {
      if record.None? || record.value.state.CleanupComplete? {
        return Pass;
      }
      CleanupBegins(State());
      hide WellFormed, Standing, Cleaned, Plannable, GivenBack, Stuck;
      o := Write(record.value.(state := CleanupInProgress));
      if o.Pass? { o := CleanEntries(); }
      if o.Pass? {
        CleanupEnds(State());
        o := Write(record.value.(state := CleanupComplete));
      }
    }
  }
}
