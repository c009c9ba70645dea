/** Exactly when the release of the record store's lock is safe (evidence/store.py:357-403 against
    evidence/resilience.py:314-328): an unlink that is not harmless lets the identity check of a release be fooled by
    a reused inode number as soon as one more writer can take the lock, and nothing else does. */
module RecordLockReuse {
  import opened RecordStore
  import opened RecordLocks

  // ---------------------------------------------------------------- lock files and artifacts never share an inode

  predicate LockFileName(n: Name) {
    n.LockName? || n.QuarantineName?
  }

  predicate Apart(names: map<Name, Inode>) {
    forall n, m | n in names && m in names && LockFileName(n) && !LockFileName(m) :: names[n] != names[m]
  }

  lemma ApartCreate(s: State, n: Name, i: Inode)
    requires Apart(s.names) && !Live(s, i)
    ensures Apart(s.names[n := i])
  {
    forall m | m in s.names ensures s.names[m] != i {
      assert s.names[m] in s.names.Values;
    }
  }

  lemma ApartAlias(names: map<Name, Inode>, n: Name, m: Name)
    requires Apart(names) && m in names && LockFileName(n) == LockFileName(m)
    ensures Apart(names[n := names[m]])
  {
  }

  lemma ApartMaterialize(c: Config, s: State, a: Action, target: Artifact, stage: Stage)
    requires Apart(s.names) && a.WriterStep? && a.writer in s.writers
    requires stage.Link? ==> Names(s, TempName(stage.tag), stage.inode)
    ensures Apart(MaterializeNext(c, s, a, target, stage).names)
  {
    match stage
    case Create => if !Live(s, a.inode) { ApartCreate(s, TempName(a.tag), a.inode); }
    case Link(tag, inode) => ApartAlias(s.names, ArtifactName(target), TempName(tag));
    case _ =>
  }

  /** Looking and releasing add no name, and end no writer's turn before it has begun. */
  ghost predicate Quiet(s: State, t: State, id: nat) {
    && (t.names == s.names || t.names == s.names - {LockName})
    && id in t.writers && !t.writers[id].phase.Ready?
  }

  lemma LookIsQuiet(c: Config, s: State, a: Action)
    requires a.WriterStep? && a.writer in s.writers
    requires var p := s.writers[a.writer].phase; p.ProbePayload? || p.ProbeManifest? || p.Compare?
    ensures Quiet(s, WriterNext(c, s, a), a.writer)
  {
  }

  lemma ReleaseIsQuiet(c: Config, s: State, a: Action)
    requires a.WriterStep? && a.writer in s.writers
    requires var p := s.writers[a.writer].phase; p.ReleaseOpen? || p.ReleaseClose? || p.ReleaseUnlink?
    ensures Quiet(s, WriterNext(c, s, a), a.writer)
  {
  }

  lemma SpentIsQuiet(c: Config, s: State, a: Action)
    requires a.WriterStep? && a.writer in s.writers
    requires s.writers[a.writer].phase.Done? || s.writers[a.writer].phase.Crashed?
    ensures Quiet(s, WriterNext(c, s, a), a.writer)
  {
  }

  /** Every step of a writer that neither begins nor materializes. */
  lemma WriterIsQuiet(c: Config, s: State, a: Action)
    requires a.WriterStep? && a.writer in s.writers
    requires !s.writers[a.writer].phase.Ready? && !s.writers[a.writer].phase.Materialize?
    ensures Quiet(s, WriterNext(c, s, a), a.writer)
  {
    var p := s.writers[a.writer].phase;
    if p.ProbePayload? || p.ProbeManifest? || p.Compare? {
      LookIsQuiet(c, s, a);
    } else if p.Done? || p.Crashed? {
      SpentIsQuiet(c, s, a);
    } else {
      ReleaseIsQuiet(c, s, a);
    }
  }

  lemma ApartAcquire(c: Config, s: State, a: Action)
    requires Apart(s.names) && a.WriterStep? && a.writer in s.writers && s.writers[a.writer].phase.Ready?
    ensures Apart(WriterNext(c, s, a).names)
  {
    if !Live(s, a.inode) { ApartCreate(s, LockName, a.inode); }
  }

  lemma ApartWriter(c: Config, s: State, a: Action)
    requires Inv(c, s) && Apart(s.names) && a.WriterStep? && a.writer in s.writers
    ensures Apart(WriterNext(c, s, a).names)
  {
    var p := s.writers[a.writer].phase;
    if p.Materialize? {
      LinksItsTemporary(c, s, a.writer);
      ApartMaterialize(c, s, a, p.target, p.stage);
    } else if p.Ready? {
      ApartAcquire(c, s, a);
    } else {
      WriterIsQuiet(c, s, a);
    }
  }

  lemma LinksItsTemporary(c: Config, s: State, id: nat)
    requires Inv(c, s) && id in s.writers && s.writers[id].phase.Materialize?
    ensures var stage := s.writers[id].phase.stage; stage.Link? ==> Names(s, TempName(stage.tag), stage.inode)
  {
    assert WriterOk(c, s, id, s.writers[id]);
  }

  lemma ApartOperator(s: State, id: nat)
    requires Apart(s.names) && id in s.operators
    ensures Apart(OperatorNext(s, id).names)
  {
    match s.operators[id]
    case LinkAway(i, stamp) => if LockName in s.names { ApartAlias(s.names, QuarantineName(i, stamp), LockName); }
    case _ =>
  }

  lemma {:induction false} ApartRun(c: Config, s: State, actions: seq<Action>)
    requires Faithful(c) && Initial(c, s)
    ensures Apart(Run(c, s, actions).names)
    decreases |actions|
  {
    if actions != [] {
      var before := actions[..|actions| - 1];
      ApartRun(c, s, before);
      Reachable(c, s, before, []);
      var t := Run(c, s, before);
      match actions[|actions| - 1]
      case WriterStep(id, _, _, _, _, _, _) => if id in t.writers { ApartWriter(c, t, actions[|actions| - 1]); }
      case OperatorStep(id) => if id in t.operators { ApartOperator(t, id); }
      case _ =>
    }
  }

  // ---------------------------------------------------------------- who can take the lock

  /** A writer that has not begun and whose payload is within the ceiling. */
  predicate Taker(c: Config, w: Writer) {
    w.phase.Ready? && |c.encodeEvidence(w.evidence)| <= c.maxPayload
  }

  ghost predicate Takers(c: Config, s: State) {
    exists id | id in s.writers :: Taker(c, s.writers[id])
  }

  ghost predicate LockGone(c: Config, s: State) {
    LockName !in s.names && !Takers(c, s)
  }

  lemma MaterializeIsNotReady(c: Config, s: State, a: Action, target: Artifact, stage: Stage)
    requires a.WriterStep? && a.writer in s.writers && s.writers[a.writer].phase == Materialize(target, stage)
    ensures var t := MaterializeNext(c, s, a, target, stage);
            a.writer in t.writers && !t.writers[a.writer].phase.Ready?
  {
    match stage
    case Check =>
    case Create =>
    case Append(_, _, _) =>
    case Link(_, _) =>
    case Cleanup(_, _) =>
  }

  lemma RefusedIsQuiet(c: Config, s: State, a: Action)
    requires a.WriterStep? && a.writer in s.writers && LockName !in s.names
    requires s.writers[a.writer].phase.Ready? && !Taker(c, s.writers[a.writer])
    ensures Quiet(s, WriterNext(c, s, a), a.writer)
  {
  }

  lemma WriterTakesNoLock(c: Config, s: State, a: Action)
    requires a.WriterStep? && a.writer in s.writers && LockName !in s.names && !Taker(c, s.writers[a.writer])
    ensures var t := WriterNext(c, s, a);
            LockName !in t.names && a.writer in t.writers && !Taker(c, t.writers[a.writer])
  {
    var p := s.writers[a.writer].phase;
    if p.Materialize? {
      MaterializeKeepsLockName(c, s, a, p.target, p.stage);
      MaterializeIsNotReady(c, s, a, p.target, p.stage);
    } else if p.Ready? {
      RefusedIsQuiet(c, s, a);
    } else {
      WriterIsQuiet(c, s, a);
    }
  }

  lemma OperatorTakesNoLock(s: State, id: nat)
    requires id in s.operators && LockName !in s.names
    ensures LockName !in OperatorNext(s, id).names
  {
    match s.operators[id]
    case Unlink(_, _) =>
    case _ =>
  }

  lemma LockStaysGone(c: Config, s: State, a: Action)
    requires LockGone(c, s)
    ensures LockGone(c, Next(c, s, a))
  {
    match a
    case WriterStep(id, _, _, _, _, _, _) =>
      if id in s.writers {
        WriterTakesNoLock(c, s, a);
        WriterEffect(c, s, a);
      }
    case OperatorStep(id) =>
      if id in s.operators {
        OperatorTakesNoLock(s, id);
        OperatorKeepsWriters(s, id);
      }
    case _ =>
  }

  lemma {:induction false} GoneForGood(c: Config, s: State, actions: seq<Action>)
    requires LockGone(c, s)
    ensures LockGone(c, Run(c, s, actions))
    decreases |actions|
  {
    if actions != [] {
      var before := actions[..|actions| - 1];
      GoneForGood(c, s, before);
      LockStaysGone(c, Run(c, s, before), actions[|actions| - 1]);
    }
  }

  // ---------------------------------------------------------------- what an unlink can lead to

  /** From here on, with harmless unlinks only, some release removes a lock that another writer created. */
  ghost predicate Endangered(c: Config, s: State) {
    exists more, last :: HarmlessRun(c, s, more) && RemovesForeign(c, Run(c, s, more), last)
  }

  /** Releases stay safe for as long as unlinks are harmless, from any state in which they are. */
  lemma {:induction false} SafeFrom(c: Config, s: State, actions: seq<Action>)
    requires Faithful(c) && Inv(c, s) && LockInv(s) && HarmlessRun(c, s, actions)
    ensures LockInv(Run(c, s, actions))
    decreases |actions|
  {
    if actions != [] {
      var before := actions[..|actions| - 1];
      SafeFrom(c, s, before);
      RunPreserves(c, s, before);
      InvLinks(c, Run(c, s, before));
      LockStep(c, Run(c, s, before), actions[|actions| - 1]);
    }
  }

  lemma SafeIsNotEndangered(c: Config, s: State)
    requires Faithful(c) && Inv(c, s) && LockInv(s)
    ensures !Endangered(c, s)
  {
    forall more, last | HarmlessRun(c, s, more) ensures !RemovesForeign(c, Run(c, s, more), last) {
      SafeFrom(c, s, more);
      RemovesOwn(c, Run(c, s, more), last);
    }
  }

  lemma RemovesOwn(c: Config, s: State, a: Action)
    requires LockInv(s)
    ensures !RemovesForeign(c, s, a)
  {
    if a.WriterStep? && RemovesLock(c, s, a) {
      OnlyReleaseRemovesLock(c, s, a);
      assert HandleOk(s, s.writers[a.writer]);
    }
  }

  lemma GoneIsNotEndangered(c: Config, s: State)
    requires LockGone(c, s)
    ensures !Endangered(c, s)
  {
    forall more, last ensures !RemovesForeign(c, Run(c, s, more), last) {
      GoneForGood(c, s, more);
    }
  }

  /** The lock is gone and its inode number i free, but for the release of writer k, which is past its check. */
  ghost predicate Freed(s: State, i: Inode, k: nat) {
    && LockName !in s.names && i !in s.names.Values
    && k in s.writers && PastCheck(s.writers[k]) && s.writers[k].lock.inode == i
    && s.writers[k].lock.serial < s.serials
    && (s.writers[k].phase.ReleaseUnlink? ==> s.writers[k].lock.Closed?)
    && forall j | j in s.writers && j != k :: !(LockOpen(s.writers[j]) && s.writers[j].lock.inode == i)
  }

  /** Only the lock names have its inode number, and only one writer can hold it open. */
  lemma UnlinkFrees(s: State, id: nat, k: nat)
    requires LockInv(s) && Apart(s.names) && id in s.operators && s.operators[id].Unlink? && LockName in s.names
    requires !Quarantined(s, s.names[LockName])
    requires k in s.writers && PastCheck(s.writers[k]) && s.writers[k].lock.inode == s.names[LockName]
    ensures Freed(OperatorNext(s, id), s.names[LockName], k)
  {
    var i := s.names[LockName];
    forall n | n in s.names && n != LockName ensures s.names[n] != i {
      if n.QuarantineName? { assert !Names(s, QuarantineName(n.inode, n.stamp), i); }
    }
    assert HandleOk(s, s.writers[k]);
    forall j | j in s.writers && j != k ensures !(LockOpen(s.writers[j]) && s.writers[j].lock.inode == i) {
      assert HandleOk(s, s.writers[j]);
    }
  }

  function W(id: nat, inode: Inode): Action { WriterStep(id, inode, 0, 0, 0, false, Sound) }

  lemma CloseStaysFreed(c: Config, s: State, i: Inode, k: nat)
    requires Freed(s, i, k) && s.writers[k].phase.ReleaseClose?
    ensures var t := Next(c, s, W(k, 0));
            && Freed(t, i, k) && t.writers[k].phase.ReleaseUnlink? && t.writers == s.writers[k := t.writers[k]]
  {
  }

  /** A new writer is handed the number, and the release takes its lock for its own. */
  lemma ReuseFoolsRelease(c: Config, s: State, i: Inode, k: nat, q: nat)
    requires Freed(s, i, k) && s.writers[k].phase.ReleaseUnlink? && q in s.writers && Taker(c, s.writers[q])
    ensures RemovesForeign(c, Next(c, s, W(q, i)), W(k, 0))
  {
    TakesFreed(c, s, i, k, q);
    RemovesTaken(c, Next(c, s, W(q, i)), i, k);
  }

  lemma TakesFreed(c: Config, s: State, i: Inode, k: nat, q: nat)
    requires Freed(s, i, k) && s.writers[k].phase.ReleaseUnlink? && q in s.writers && Taker(c, s.writers[q])
    ensures var t := Next(c, s, W(q, i));
            && Names(t, LockName, i) && i in t.disk && t.disk[i].serial == s.serials
            && k in t.writers && t.writers[k] == s.writers[k]
  {
    assert !Live(s, i);
  }

  lemma RemovesTaken(c: Config, s: State, i: Inode, k: nat)
    requires Names(s, LockName, i) && i in s.disk && k in s.writers && s.writers[k].phase.ReleaseUnlink?
    requires s.writers[k].lock.Closed? && s.writers[k].lock.inode == i && s.disk[i].serial != s.writers[k].lock.serial
    ensures RemovesForeign(c, s, W(k, 0))
  {
  }

  lemma HarmlessSnoc(c: Config, s: State, actions: seq<Action>, a: Action)
    requires HarmlessRun(c, s, actions) && Harmless(Run(c, s, actions), a)
    ensures HarmlessRun(c, s, actions + [a]) && Run(c, s, actions + [a]) == Next(c, Run(c, s, actions), a)
  {
    RunSnoc(c, s, actions, a);
    assert (actions + [a])[..|actions|] == actions;
  }

  lemma ReuseEndangers(c: Config, s: State, more: seq<Action>, i: Inode, k: nat, q: nat)
    requires HarmlessRun(c, s, more)
    requires var t := Run(c, s, more);
             Freed(t, i, k) && t.writers[k].phase.ReleaseUnlink? && q in t.writers && Taker(c, t.writers[q])
    ensures Endangered(c, s)
  {
    ReuseFoolsRelease(c, Run(c, s, more), i, k, q);
    HarmlessSnoc(c, s, more, W(q, i));
    assert RemovesForeign(c, Run(c, s, more + [W(q, i)]), W(k, 0));
  }

  lemma FreedIsEndangered(c: Config, s: State, i: Inode, k: nat, q: nat)
    requires Freed(s, i, k) && q in s.writers && Taker(c, s.writers[q])
    ensures Endangered(c, s)
  {
    assert HarmlessRun(c, s, []) && Run(c, s, []) == s;
    if s.writers[k].phase.ReleaseClose? {
      CloseStaysFreed(c, s, i, k);
      HarmlessSnoc(c, s, [], W(k, 0));
      ReuseEndangers(c, s, [] + [W(k, 0)], i, k, q);
    } else {
      ReuseEndangers(c, s, [], i, k, q);
    }
  }

  lemma HarmlessIsSafe(c: Config, s: State, actions: seq<Action>, a: Action)
    requires Faithful(c) && Initial(c, s) && HarmlessRun(c, s, actions) && Harmless(Run(c, s, actions), a)
    ensures !Endangered(c, Next(c, Run(c, s, actions), a))
  {
    var t := Run(c, s, actions);
    LockRun(c, s, actions);
    Reachable(c, s, actions, []);
    InvLinks(c, t);
    LockStep(c, t, a);
    StepPreserves(c, t, a);
    SafeIsNotEndangered(c, Next(c, t, a));
  }

  lemma NoTakerIsSafe(c: Config, s: State, a: Action)
    requires Unlinks(s, a) && !Takers(c, s)
    ensures !Endangered(c, Next(c, s, a))
  {
    OperatorKeepsWriters(s, a.operator);
    assert LockGone(c, OperatorNext(s, a.operator));
    GoneIsNotEndangered(c, OperatorNext(s, a.operator));
  }

  lemma HarmEndangers(c: Config, s: State, a: Action)
    requires LockInv(s) && Apart(s.names) && !Harmless(s, a) && Takers(c, s)
    ensures Endangered(c, Next(c, s, a))
  {
    var k :| k in s.writers && PastCheck(s.writers[k]) && s.writers[k].lock.inode == s.names[LockName];
    var q :| q in s.writers && Taker(c, s.writers[q]);
    UnlinkFrees(s, a.operator, k);
    OperatorKeepsWriters(s, a.operator);
    FreedIsEndangered(c, OperatorNext(s, a.operator), s.names[LockName], k, q);
  }

  /** After a run whose unlinks were all harmless, the next action puts later releases at risk exactly when it is an
      unlink that is not harmless and some writer can still take the lock. */
  lemma HarmlessIsExact(c: Config, s: State, actions: seq<Action>, a: Action)
    requires Faithful(c) && Initial(c, s) && HarmlessRun(c, s, actions)
    ensures var t := Run(c, s, actions);
            Endangered(c, Next(c, t, a)) <==> !Harmless(t, a) && Takers(c, t)
  {
    var t := Run(c, s, actions);
    if Harmless(t, a) {
      HarmlessIsSafe(c, s, actions, a);
    } else if !Takers(c, t) {
      NoTakerIsSafe(c, t, a);
    } else {
      LockRun(c, s, actions);
      ApartRun(c, s, actions);
      HarmEndangers(c, t, a);
    }
  }

  // ---------------------------------------------------------------- a run on which a release is fooled

  /** A state that some run with harmless unlinks leads to. */
  ghost predicate Reaches(c: Config, s: State, t: State) {
    exists actions :: HarmlessRun(c, s, actions) && Run(c, s, actions) == t
  }

  lemma ReachStep(c: Config, s: State, t: State, a: Action)
    requires Reaches(c, s, t) && !Unlinks(t, a)
    ensures Reaches(c, s, Next(c, t, a))
  {
    var actions :| HarmlessRun(c, s, actions) && Run(c, s, actions) == t;
    HarmlessSnoc(c, s, actions, a);
  }

  lemma ReachBy(c: Config, s: State, t: State, a: Action, u: State)
    requires Reaches(c, s, t) && !Unlinks(t, a) && Next(c, t, a) == u
    ensures Reaches(c, s, u)
  {
    ReachStep(c, s, t, a);
  }

  lemma ReachSelf(c: Config, s: State)
    ensures Reaches(c, s, s)
  {
    assert HarmlessRun(c, s, []) && Run(c, s, []) == s;
  }

  /** Evidence for the key that a writer takes the lock for. */
  predicate Admitted(c: Config, e: Evidence) {
    KeyOf(c, e) == c.key && |c.encodeEvidence(e)| <= c.maxPayload
  }

  const FAILED: Outcome := Raised(Io)

  predicate Idle(s: State, id: nat, e: Evidence) {
    id in s.writers && s.writers[id] == Writer(e, NoLock, Ready)
  }

  function WithWriter(s: State, id: nat, e: Evidence, l: LockHandle, p: Phase): State {
    SetWriter(s, id, Writer(e, l, p))
  }

  predicate HasWriter(s: State, id: nat, e: Evidence, l: LockHandle, p: Phase) {
    id in s.writers && s.writers[id] == Writer(e, l, p)
  }

  lemma Rewritten(s: State, id: nat, e: Evidence, l: LockHandle, p: Phase, m: LockHandle, q: Phase)
    ensures WithWriter(WithWriter(s, id, e, l, p), id, e, m, q) == WithWriter(s, id, e, m, q)
  {
  }

  lemma NextFault(c: Config, s: State, id: nat, e: Evidence, l: LockHandle)
    ensures Next(c, WithWriter(s, id, e, l, ProbePayload), WriterStep(id, 0, 0, 0, 0, true, Sound))
         == WithWriter(s, id, e, l, ReleaseOpen(FAILED))
  {
    Rewritten(s, id, e, l, ProbePayload, l, ReleaseOpen(FAILED));
  }

  lemma NextChecked(c: Config, s: State, id: nat, e: Evidence, l: LockHandle)
    requires HasWriter(s, id, e, l, ReleaseOpen(FAILED)) && l.Open? && Names(s, LockName, l.inode)
    ensures Next(c, s, W(id, 0)) == WithWriter(s, id, e, l, ReleaseClose(FAILED))
  {
  }

  lemma NextClosed(c: Config, s: State, id: nat, e: Evidence, i: Inode, serial: nat)
    ensures Next(c, WithWriter(s, id, e, Open(i, serial), ReleaseClose(FAILED)), W(id, 0))
         == WithWriter(s, id, e, Closed(i, serial), ReleaseUnlink(FAILED))
  {
    Rewritten(s, id, e, Open(i, serial), ReleaseClose(FAILED), Closed(i, serial), ReleaseUnlink(FAILED));
  }

  lemma NextUnlocked(c: Config, s: State, id: nat, e: Evidence, i: Inode, serial: nat)
    requires Names(s, LockName, i)
    ensures Next(c, WithWriter(s, id, e, Closed(i, serial), ReleaseUnlink(FAILED)), W(id, 0))
         == WithWriter(Unlocked(s), id, e, Closed(i, serial), Done(FAILED))
  {
    Rewritten(Unlocked(s), id, e, Closed(i, serial), ReleaseUnlink(FAILED), Closed(i, serial), Done(FAILED));
  }

  lemma ReachAcquire(c: Config, s0: State, s: State, id: nat, e: Evidence, i: Inode)
    requires Reaches(c, s0, s) && Admitted(c, e) && Idle(s, id, e) && LockName !in s.names && !Live(s, i)
    ensures Reaches(c, s0, WithWriter(CreateFile(s, LockName, i, 0), id, e, Open(i, s.serials), ProbePayload))
  {
    ReachStep(c, s0, s, W(id, i));
  }

  /** A writer takes the lock, cannot look for the record, and goes to release it. */
  lemma ReachTaken(c: Config, s0: State, s: State, id: nat, e: Evidence, i: Inode) returns (t: State)
    requires Reaches(c, s0, s) && Admitted(c, e) && Idle(s, id, e) && LockName !in s.names && !Live(s, i)
    ensures Reaches(c, s0, t)
    ensures t == WithWriter(CreateFile(s, LockName, i, 0), id, e, Open(i, s.serials), ReleaseOpen(FAILED))
  {
    var u, l := CreateFile(s, LockName, i, 0), Open(i, s.serials);
    t := WithWriter(u, id, e, l, ReleaseOpen(FAILED));
    ReachAcquire(c, s0, s, id, e, i);
    NextFault(c, u, id, e, l);
    ReachBy(c, s0, WithWriter(u, id, e, l, ProbePayload), WriterStep(id, 0, 0, 0, 0, true, Sound), t);
  }

  lemma ReachReleased(c: Config, s0: State, s: State, id: nat, e: Evidence, i: Inode, serial: nat)
    requires Reaches(c, s0, s) && HasWriter(s, id, e, Open(i, serial), ReleaseOpen(FAILED)) && Names(s, LockName, i)
    ensures Reaches(c, s0, WithWriter(Unlocked(s), id, e, Closed(i, serial), Done(FAILED)))
  {
    var s1 := WithWriter(s, id, e, Open(i, serial), ReleaseClose(FAILED));
    var s2 := WithWriter(s, id, e, Closed(i, serial), ReleaseUnlink(FAILED));
    NextChecked(c, s, id, e, Open(i, serial));
    ReachBy(c, s0, s, W(id, 0), s1);
    NextClosed(c, s, id, e, i, serial);
    ReachBy(c, s0, s1, W(id, 0), s2);
    NextUnlocked(c, s, id, e, i, serial);
    ReachBy(c, s0, s2, W(id, 0), WithWriter(Unlocked(s), id, e, Closed(i, serial), Done(FAILED)));
  }

  lemma ReachOperator(c: Config, s0: State, s: State)
    requires Reaches(c, s0, s) && 0 in s.operators && !s.operators[0].Unlink?
    ensures Reaches(c, s0, OperatorNext(s, 0))
  {
    ReachStep(c, s0, s, OperatorStep(0));
  }

  lemma OperatorLinks(s: State, i: Inode)
    requires 0 in s.operators && s.operators[0].Inspect? && LockObserved(s, i, 0) && QuarantineName(i, 0) !in s.names
    ensures var s1 := SetOperator(s, 0, Confirm(i, 0));
            var s2 := SetOperator(s1, 0, LinkAway(i, 0));
            && OperatorNext(s, 0) == s1 && OperatorNext(s1, 0) == s2
            && OperatorNext(s2, 0) == SetOperator(s2.(names := s.names[QuarantineName(i, 0) := i]), 0, Verify(i, 0))
  {
  }

  lemma ReachLinked(c: Config, s0: State, s: State, i: Inode) returns (t: State)
    requires Reaches(c, s0, s) && 0 in s.operators && s.operators[0].Inspect?
    requires LockObserved(s, i, 0) && QuarantineName(i, 0) !in s.names
    ensures Reaches(c, s0, t) && t == s.(names := s.names[QuarantineName(i, 0) := i], operators := t.operators)
    ensures 0 in t.operators && t.operators[0] == Verify(i, 0)
  {
    OperatorLinks(s, i);
    var s1 := SetOperator(s, 0, Confirm(i, 0));
    var s2 := SetOperator(s1, 0, LinkAway(i, 0));
    ReachOperator(c, s0, s);
    ReachOperator(c, s0, s1);
    ReachOperator(c, s0, s2);
    t := SetOperator(s2.(names := s.names[QuarantineName(i, 0) := i]), 0, Verify(i, 0));
  }

  lemma ReachQuarantined(c: Config, s0: State, s: State, i: Inode) returns (t: State)
    requires Reaches(c, s0, s) && 0 in s.operators && s.operators[0].Inspect?
    requires LockObserved(s, i, 0) && QuarantineName(i, 0) !in s.names
    ensures Reaches(c, s0, t) && t == s.(names := s.names[QuarantineName(i, 0) := i], operators := t.operators)
    ensures 0 in t.operators && t.operators[0] == OperatorPhase.Unlink(i, 0)
  {
    var u := ReachLinked(c, s0, s, i);
    ReachOperator(c, s0, u);
    t := SetOperator(u, 0, OperatorPhase.Unlink(i, 0));
  }

  /** Writer 0's lock (inode 5) has been quarantined and released; the operator's unlink is still to come. */
  predicate Waiting(s: State, e: Evidence) {
    && s.names == map[QuarantineName(5, 0) := 5] && s.serials == 1
    && Idle(s, 1, e) && Idle(s, 2, e)
    && (forall id | id in s.writers :: !LockOpen(s.writers[id]))
    && 0 in s.operators && s.operators[0] == OperatorPhase.Unlink(5, 0)
  }

  lemma FirstIsWaiting(e: Evidence, s: State, t: State)
    requires var w := Writer(e, NoLock, Ready);
             s.serials == 0 && s.names == map[] && s.writers == map[0 := w, 1 := w, 2 := w]
    requires var u := WithWriter(CreateFile(s, LockName, 5, 0), 0, e, Open(5, 0), ReleaseOpen(FAILED));
             t == u.(names := u.names[QuarantineName(5, 0) := 5], operators := t.operators)
    requires 0 in t.operators && t.operators[0] == OperatorPhase.Unlink(5, 0)
    ensures Waiting(WithWriter(Unlocked(t), 0, e, Closed(5, 0), Done(FAILED)), e)
    ensures HasWriter(t, 0, e, Open(5, 0), ReleaseOpen(FAILED)) && Names(t, LockName, 5)
  {
    assert Unlocked(t).names == map[QuarantineName(5, 0) := 5];
  }

  lemma ReachWaiting(c: Config, e: Evidence, s: State) returns (t: State)
    requires Admitted(c, e)
    requires var w := Writer(e, NoLock, Ready);
             s == State(map[], map[], 0, map[], map[0 := w, 1 := w, 2 := w], map[], map[0 := Inspect])
    ensures Reaches(c, s, t) && Waiting(t, e)
  {
    ReachSelf(c, s);
    var s1 := ReachTaken(c, s, s, 0, e, 5);
    var s2 := ReachQuarantined(c, s, s1, 5);
    FirstIsWaiting(e, s, s2);
    ReachReleased(c, s, s2, 0, e, 5, 0);
    t := WithWriter(Unlocked(s2), 0, e, Closed(5, 0), Done(FAILED));
  }

  /** The delayed unlink is to come after writer 1 holds the lock (inode 6) and has passed its identity check. */
  predicate Overtaken(s: State, e: Evidence) {
    && s.names == map[LockName := 6, QuarantineName(5, 0) := 5] && Idle(s, 2, e)
    && 1 in s.writers && s.writers[1].phase.ReleaseClose? && s.writers[1].lock == Open(6, 1)
    && 0 in s.operators && s.operators[0] == OperatorPhase.Unlink(5, 0)
  }

  lemma WaitingIsFree(s: State, e: Evidence)
    requires Waiting(s, e)
    ensures LockName !in s.names && !Live(s, 6) && s.serials == 1
  {
  }

  lemma SecondIsOvertaken(s: State, e: Evidence)
    requires Waiting(s, e)
    ensures var u := WithWriter(CreateFile(s, LockName, 6, 0), 1, e, Open(6, 1), ReleaseOpen(FAILED));
            && HasWriter(u, 1, e, Open(6, 1), ReleaseOpen(FAILED)) && Names(u, LockName, 6)
            && Overtaken(WithWriter(u, 1, e, Open(6, 1), ReleaseClose(FAILED)), e)
  {
    assert s.names[LockName := 6] == map[LockName := 6, QuarantineName(5, 0) := 5];
  }

  lemma ReachOvertaken(c: Config, e: Evidence, s0: State, s: State) returns (t: State)
    requires Admitted(c, e) && Waiting(s, e) && Reaches(c, s0, s)
    ensures Reaches(c, s0, t) && Overtaken(t, e)
  {
    WaitingIsFree(s, e);
    SecondIsOvertaken(s, e);
    var u := ReachTaken(c, s0, s, 1, e, 6);
    NextChecked(c, u, 1, e, Open(6, 1));
    t := WithWriter(u, 1, e, Open(6, 1), ReleaseClose(FAILED));
    ReachBy(c, s0, u, W(1, 0), t);
  }

  lemma OvertakenIsUnsafe(c: Config, e: Evidence, s: State)
    requires Overtaken(s, e) && Admitted(c, e)
    ensures !Harmless(s, OperatorStep(0)) && Takers(c, s)
  {
    assert Names(s, LockName, 6) && PastCheck(s.writers[1]) && Taker(c, s.writers[2]);
  }

  /** Some run of a store with this configuration has a release that removes another writer's lock. */
  ghost predicate CanBreak(c: Config) {
    exists s: State, actions, a :: Initial(c, s) && RemovesForeign(c, Run(c, s, actions), a)
  }

  lemma EndangeredBreaks(c: Config, s: State, actions: seq<Action>)
    requires Initial(c, s) && Endangered(c, Run(c, s, actions))
    ensures CanBreak(c)
  {
    var more, last :| HarmlessRun(c, Run(c, s, actions), more)
        && RemovesForeign(c, Run(c, Run(c, s, actions), more), last);
    RunSplit(c, s, actions, more);
    assert RemovesForeign(c, Run(c, s, actions + more), last);
  }

  lemma OvertakenBreaks(c: Config, e: Evidence, s: State, t: State)
    requires Faithful(c) && Admitted(c, e) && Initial(c, s) && Reaches(c, s, t) && Overtaken(t, e)
    ensures CanBreak(c)
  {
    OvertakenIsUnsafe(c, e, t);
    var actions :| HarmlessRun(c, s, actions) && Run(c, s, actions) == t;
    HarmlessIsExact(c, s, actions, OperatorStep(0));
    RunSnoc(c, s, actions, OperatorStep(0));
    EndangeredBreaks(c, s, actions + [OperatorStep(0)]);
  }

  /** The operator's unlink, long delayed, removes the lock of a writer past its check; the next writer is handed the
      inode number, and its lock is removed by that release. */
  lemma StaleUnlinkBreaksRelease(c: Config, e: Evidence)
    requires Faithful(c) && Admitted(c, e)
    ensures CanBreak(c)
  {
    var w := Writer(e, NoLock, Ready);
    var s := State(map[], map[], 0, map[], map[0 := w, 1 := w, 2 := w], map[], map[0 := Inspect]);
    var waiting := ReachWaiting(c, e, s);
    var t := ReachOvertaken(c, e, s, waiting);
    OvertakenBreaks(c, e, s, t);
  }

  /** The store can be brought to remove a foreign lock under every configuration that lets anybody write at all. */
  lemma ReleaseCanBreak(c: Config)
    requires Faithful(c)
    ensures CanBreak(c) <==> exists e :: Admitted(c, e)
  {
    if e :| Admitted(c, e) {
      StaleUnlinkBreaksRelease(c, e);
    } else {
      forall s: State, actions, a | Initial(c, s) ensures !RemovesForeign(c, Run(c, s, actions), a) {
        forall id | id in s.writers ensures !Taker(c, s.writers[id]) {
          assert !Admitted(c, s.writers[id].evidence);
        }
        GoneForGood(c, s, actions);
      }
    }
  }
}
