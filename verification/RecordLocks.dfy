/** Releasing the lock of the record store (evidence/store.py:357-403): while operators' unlinks are harmless, a
    release removes only the lock file that its writer created. */
module RecordLocks {
  import opened RecordStore

  // ---------------------------------------------------------------- releasing the lock

  ghost predicate Quarantined(s: State, i: Inode) {
    exists j, stamp :: Names(s, QuarantineName(j, stamp), i)
  }

  /** The inode still has a name that keeps its number from being handed out again. */
  ghost predicate Pinned(s: State, i: Inode) {
    Names(s, LockName, i) || Quarantined(s, i)
  }

  predicate SameLockFile(s: State, l: LockHandle) {
    !l.NoLock? && l.inode in s.disk && s.disk[l.inode].serial == l.serial
  }

  /** From acquiring the lock until closing its descriptor. */
  predicate Critical(p: Phase) {
    !p.Ready? && !p.ReleaseUnlink? && !p.Done? && !p.Crashed?
  }

  ghost predicate HandleOk(s: State, w: Writer) {
    && (!w.lock.NoLock? ==> w.lock.serial < s.serials)
    && (LockOpen(w) ==> SameLockFile(s, w.lock))
    && (Critical(w.phase) ==> w.lock.Open?)
    && (w.phase.ReleaseClose? || w.phase.ReleaseUnlink? ==> SameLockFile(s, w.lock) && Pinned(s, w.lock.inode))
    && (w.phase.ReleaseUnlink? ==> w.lock.Closed?)
  }

  ghost predicate LockInv(s: State) {
    && (forall i | i in s.disk :: s.disk[i].serial < s.serials)
    && (forall n | n in s.names :: s.names[n] in s.disk)
    && (forall id | id in s.writers :: HandleOk(s, s.writers[id]))
    && (forall i, j | i in s.writers && j in s.writers && i != j && !s.writers[i].lock.NoLock?
       && !s.writers[j].lock.NoLock? ::
          s.writers[i].lock.serial != s.writers[j].lock.serial)
  }

  /** A step that leaves pinned inodes pinned and every file that matters to a lock handle in place. */
  ghost predicate LockKept(s: State, t: State) {
    && s.serials <= t.serials
    && (forall i | i in t.disk :: t.disk[i].serial < t.serials)
    && (forall n | n in t.names :: t.names[n] in t.disk)
    && (forall i | Pinned(s, i) && i in s.disk :: Pinned(t, i))
    && (forall i | i in s.disk && Live(s, i) :: i in t.disk && t.disk[i].serial == s.disk[i].serial)
  }

  lemma PinnedIsLive(s: State, i: Inode)
    requires Pinned(s, i)
    ensures Live(s, i)
  {
    if Names(s, LockName, i) {
      assert i in s.names.Values;
    } else {
      var j, stamp :| Names(s, QuarantineName(j, stamp), i);
      assert s.names[QuarantineName(j, stamp)] in s.names.Values;
    }
  }

  lemma HandleFrame(s: State, t: State, id: nat)
    requires LockInv(s) && LockKept(s, t) && id in s.writers
    ensures HandleOk(t, s.writers[id])
  {
    var w := s.writers[id];
    assert HandleOk(s, w);
    if !w.lock.NoLock? && Pinned(s, w.lock.inode) { PinnedIsLive(s, w.lock.inode); }
  }

  lemma LockMove(s: State, u: State, id: nat, w: Writer)
    requires LockInv(s) && LockKept(s, u) && u.writers == s.writers && id in s.writers && HandleOk(u, w)
    requires !w.lock.NoLock? ==>
               w.lock.serial >= s.serials || (!s.writers[id].lock.NoLock? && w.lock.serial == s.writers[id].lock.serial)
    ensures LockInv(SetWriter(u, id, w))
  {
    var t := SetWriter(u, id, w);
    forall j | j in t.writers ensures HandleOk(t, t.writers[j]) {
      if j != id { HandleFrame(s, u, j); }
      assert HandleOk(u, t.writers[j]);
      SamePins(u, t);
    }
    forall j | j in s.writers && !s.writers[j].lock.NoLock? ensures s.writers[j].lock.serial < s.serials {
      assert HandleOk(s, s.writers[j]);
    }
  }

  lemma SamePins(u: State, t: State)
    requires u.names == t.names
    ensures forall i :: Pinned(u, i) == Pinned(t, i)
  {
  }

  lemma CreateKeepsLocks(s: State, n: Name, i: Inode, stamp: nat)
    requires LockInv(s) && n !in s.names && !Live(s, i)
    ensures LockKept(s, CreateFile(s, n, i, stamp))
  {
    var t := CreateFile(s, n, i, stamp);
    forall k | Pinned(s, k) ensures Pinned(t, k) {
      if !Names(s, LockName, k) {
        var j, st :| Names(s, QuarantineName(j, st), k);
        assert Names(t, QuarantineName(j, st), k);
      }
    }
  }

  /** Changing names other than the lock's and the quarantine's, or adding to them, unpins nothing. */
  lemma RenameKeepsLocks(s: State, t: State)
    requires LockInv(s) && t.disk == s.disk && t.serials == s.serials && t.writers == s.writers
    requires forall n | n in t.names :: t.names[n] in t.disk
    requires forall n | n in s.names && (n.LockName? || n.QuarantineName?) :: Names(t, n, s.names[n])
    ensures LockKept(s, t)
  {
    forall k | Pinned(s, k) ensures Pinned(t, k) {
      if !Names(s, LockName, k) {
        var j, st :| Names(s, QuarantineName(j, st), k);
        assert Names(t, QuarantineName(j, st), k);
      }
    }
  }

  lemma SerialsKept(s: State, t: State)
    requires LockInv(s) && t.names == s.names && t.serials == s.serials && t.disk.Keys == s.disk.Keys
    requires forall i | i in s.disk :: t.disk[i].serial == s.disk[i].serial
    ensures LockKept(s, t)
  {
    SamePins(s, t);
  }

  lemma LockSetWriter(s: State, u: State, id: nat, p: Phase)
    requires LockInv(s) && LockKept(s, u) && u.writers == s.writers && id in s.writers
    requires s.writers[id].phase.Materialize? && (p.Materialize? || p.ReleaseOpen?)
    ensures LockInv(SetWriter(u, id, s.writers[id].(phase := p)))
  {
    HandleFrame(s, u, id);
    LockMove(s, u, id, s.writers[id].(phase := p));
  }

  /** Materializing an artifact touches no lock. */
  lemma LockMaterialize(c: Config, s: State, a: Action, target: Artifact, stage: Stage)
    requires LockInv(s) && a.WriterStep? && a.writer in s.writers
    requires s.writers[a.writer].phase == Materialize(target, stage)
    requires stage.Link? ==> stage.inode in s.disk
    ensures LockInv(MaterializeNext(c, s, a, target, stage))
  {
    var id := a.writer;
    SerialsKept(s, s);
    match stage
    case Create => LockCreate(c, s, a, target);
    case Append(tag, inode, offset) => LockAppend(c, s, a, target, tag, inode, offset);
    case Check => LockSetWriter(s, s, id, MaterializeNext(c, s, a, target, stage).writers[id].phase);
    case Link(tag, inode) => LockLink(c, s, a, target, tag, inode);
    case Cleanup(tag, failure) =>
      var u := s.(names := s.names - {TempName(tag)});
      RenameKeepsLocks(s, u);
      LockSetWriter(s, u, id, MaterializeNext(c, s, a, target, stage).writers[id].phase);
  }

  lemma LockCreate(c: Config, s: State, a: Action, target: Artifact)
    requires LockInv(s) && a.WriterStep? && a.writer in s.writers
    requires s.writers[a.writer].phase == Materialize(target, Create)
    ensures LockInv(MaterializeNext(c, s, a, target, Create))
  {
    if a.fault {
      SerialsKept(s, s);
      LockSetWriter(s, s, a.writer, ReleaseOpen(Raised(Io)));
    } else if TempName(a.tag) !in s.names && !Live(s, a.inode) {
      CreateKeepsLocks(s, TempName(a.tag), a.inode, a.stamp);
      LockSetWriter(s, CreateFile(s, TempName(a.tag), a.inode, a.stamp), a.writer,
                    Materialize(target, Append(a.tag, a.inode, 0)));
    }
  }

  lemma AppendSerials(s: State, inode: Inode, content: Bytes)
    requires LockInv(s) && inode in s.disk
    ensures LockKept(s, s.(disk := s.disk[inode := s.disk[inode].(content := content)]))
  {
    SerialsKept(s, s.(disk := s.disk[inode := s.disk[inode].(content := content)]));
  }

  lemma LockAppendStops(c: Config, s: State, a: Action, target: Artifact, tag: nat, inode: Inode, offset: nat)
    requires LockInv(s) && a.WriterStep? && a.writer in s.writers
    requires s.writers[a.writer].phase == Materialize(target, Append(tag, inode, offset))
    requires var size := |ArtifactBytes(c, s.writers[a.writer].evidence, target)|;
             a.fault || (a.chunk == 0 && offset < size) || inode !in s.disk || offset >= size
    ensures LockInv(MaterializeNext(c, s, a, target, Append(tag, inode, offset)))
  {
    SerialsKept(s, s);
    LockSetWriter(s, s, a.writer, MaterializeNext(c, s, a, target, Append(tag, inode, offset)).writers[a.writer].phase);
  }

  lemma LockAppend(c: Config, s: State, a: Action, target: Artifact, tag: nat, inode: Inode, offset: nat)
    requires LockInv(s) && a.WriterStep? && a.writer in s.writers
    requires s.writers[a.writer].phase == Materialize(target, Append(tag, inode, offset))
    ensures LockInv(MaterializeNext(c, s, a, target, Append(tag, inode, offset)))
  {
    var content := ArtifactBytes(c, s.writers[a.writer].evidence, target);
    if a.fault || (a.chunk == 0 && offset < |content|) || inode !in s.disk || offset >= |content| {
      LockAppendStops(c, s, a, target, tag, inode, offset);
    } else if offset + a.chunk <= |content| {
      var t := MaterializeNext(c, s, a, target, Append(tag, inode, offset));
      AppendSerials(s, inode, t.disk[inode].content);
      LockSetWriter(s, s.(disk := t.disk), a.writer, t.writers[a.writer].phase);
    }
  }

  lemma LockLink(c: Config, s: State, a: Action, target: Artifact, tag: nat, inode: Inode)
    requires LockInv(s) && a.WriterStep? && a.writer in s.writers && inode in s.disk
    requires s.writers[a.writer].phase == Materialize(target, Link(tag, inode))
    ensures LockInv(MaterializeNext(c, s, a, target, Link(tag, inode)))
  {
    var t := MaterializeNext(c, s, a, target, Link(tag, inode));
    var u := s.(names := t.names, publisher := t.publisher);
    RenameKeepsLocks(s, u);
    LockSetWriter(s, u, a.writer, t.writers[a.writer].phase);
  }

  lemma LockAcquire(c: Config, s: State, a: Action)
    requires LockInv(s) && a.WriterStep? && a.writer in s.writers && s.writers[a.writer].phase.Ready?
    ensures LockInv(WriterNext(c, s, a))
  {
    var id := a.writer;
    var w := s.writers[id];
    assert HandleOk(s, w);
    if |c.encodeEvidence(w.evidence)| > c.maxPayload || LockName in s.names {
      SerialsKept(s, s);
      LockMove(s, s, id, WriterNext(c, s, a).writers[id]);
    } else if !Live(s, a.inode) {
      CreateKeepsLocks(s, LockName, a.inode, a.stamp);
      LockMove(s, CreateFile(s, LockName, a.inode, a.stamp), id, WriterNext(c, s, a).writers[id]);
    }
  }

  /** The heart of the matter: a writer past its first identity check only ever removes its own lock. */
  lemma LockRelease(c: Config, s: State, a: Action)
    requires LockInv(s) && a.WriterStep? && a.writer in s.writers
    requires var p := s.writers[a.writer].phase; p.ReleaseOpen? || p.ReleaseClose? || p.ReleaseUnlink?
    ensures LockInv(WriterNext(c, s, a))
  {
    var id := a.writer;
    var w := s.writers[id];
    var t := WriterNext(c, s, a);
    assert HandleOk(s, w);
    SerialsKept(s, s);
    if w.phase.ReleaseUnlink? && OwnsLockName(s, w.lock) {
      UnlinkOwnLock(s, id);
    } else {
      LockMove(s, s, id, t.writers[id]);
    }
  }

  /** Distinct writers hold distinct lock files, so removing one's own lock name unpins nobody else. */
  lemma UnlinkOwnLock(s: State, id: nat)
    requires LockInv(s) && id in s.writers && s.writers[id].phase.ReleaseUnlink? && OwnsLockName(s, s.writers[id].lock)
    ensures LockInv(SetWriter(s.(names := s.names - {LockName}), id,
                              s.writers[id].(phase := Done(s.writers[id].phase.outcome))))
  {
    var w := s.writers[id];
    var t := SetWriter(s.(names := s.names - {LockName}), id, w.(phase := Done(w.phase.outcome)));
    assert HandleOk(s, w);
    forall j | j in t.writers ensures HandleOk(t, t.writers[j]) {
      var v := s.writers[j];
      assert HandleOk(s, v);
      if j != id && (v.phase.ReleaseClose? || v.phase.ReleaseUnlink?) {
        assert v.lock.inode != w.lock.inode;
        var k, st :| Names(s, QuarantineName(k, st), v.lock.inode);
        assert Names(t, QuarantineName(k, st), v.lock.inode);
      }
    }
  }

  /** A release that has passed its first identity check and will go by the inode number it remembers. */
  predicate PastCheck(w: Writer) {
    !w.lock.NoLock? && (w.phase.ReleaseClose? || w.phase.ReleaseUnlink?)
  }

  /** No release past its check goes by the number of the present lock, or that number is kept taken by a link in
      quarantine. */
  ghost predicate Replaceable(s: State) {
    LockName in s.names ==>
      || Quarantined(s, s.names[LockName])
      || forall k | k in s.writers && PastCheck(s.writers[k]) :: s.writers[k].lock.inode != s.names[LockName]
  }

  predicate Unlinks(s: State, a: Action) {
    a.OperatorStep? && a.operator in s.operators && s.operators[a.operator].Unlink?
  }

  /** An operator's unlink is harmless if the lock it removes is replaceable. */
  ghost predicate Harmless(s: State, a: Action) {
    Unlinks(s, a) ==> Replaceable(s)
  }

  function Unlocked(s: State): State { s.(names := s.names - {LockName}) }

  lemma LockUnlinked(s: State)
    requires LockInv(s) && Replaceable(s)
    ensures LockInv(Unlocked(s))
  {
    var t := Unlocked(s);
    forall j | j in t.writers ensures HandleOk(t, t.writers[j]) {
      var w := s.writers[j];
      assert HandleOk(s, w);
      if PastCheck(w) {
        var k, stamp :| Names(s, QuarantineName(k, stamp), w.lock.inode);
        assert Names(t, QuarantineName(k, stamp), w.lock.inode);
      }
    }
  }

  lemma LockSetOperator(s: State, id: nat, p: OperatorPhase)
    requires LockInv(s)
    ensures LockInv(SetOperator(s, id, p))
  {
    SerialsKept(s, SetOperator(s, id, p));
    LockBystander(s, SetOperator(s, id, p));
  }

  lemma LockUnlink(s: State, id: nat)
    requires LockInv(s) && id in s.operators && s.operators[id].Unlink? && Replaceable(s)
    ensures LockInv(OperatorNext(s, id))
  {
    LockUnlinked(s);
    LockSetOperator(Unlocked(s), id, Finished);
  }

  lemma LockRename(s: State, id: nat, i: Inode, stamp: nat)
    requires LockInv(s) && id in s.operators && s.operators[id] == LinkAway(i, stamp)
    ensures LockInv(OperatorNext(s, id))
  {
    if LockName !in s.names || QuarantineName(i, stamp) in s.names {
      LockSetOperator(s, id, Finished);
    } else {
      var u := s.(names := s.names[QuarantineName(i, stamp) := s.names[LockName]]);
      RenameKeepsLocks(s, u);
      LockBystander(s, u);
      LockSetOperator(u, id, Verify(i, stamp));
    }
  }

  lemma LockInspect(s: State, id: nat)
    requires LockInv(s) && id in s.operators && s.operators[id].Inspect?
    ensures LockInv(OperatorNext(s, id))
  {
    if LockName in s.names && s.names[LockName] in s.disk {
      LockSetOperator(s, id, Confirm(s.names[LockName], s.disk[s.names[LockName]].stamp));
    } else {
      LockSetOperator(s, id, Finished);
    }
  }

  lemma LockOperator(s: State, id: nat)
    requires LockInv(s) && id in s.operators && Harmless(s, OperatorStep(id))
    ensures LockInv(OperatorNext(s, id))
  {
    match s.operators[id]
    case Inspect => LockInspect(s, id);
    case Confirm(i, stamp) =>
      LockSetOperator(s, id, if LockObserved(s, i, stamp) then LinkAway(i, stamp) else Finished);
    case LinkAway(i, stamp) => LockRename(s, id, i, stamp);
    case Verify(i, stamp) =>
      LockSetOperator(s, id, if Names(s, LockName, i) && Names(s, QuarantineName(i, stamp), i)
                             then OperatorPhase.Unlink(i, stamp) else Finished);
    case Unlink(_, _) => LockUnlink(s, id);
    case Finished =>
  }

  lemma LockBystander(s: State, t: State)
    requires LockInv(s) && LockKept(s, t) && t.writers == s.writers
    ensures LockInv(t)
  {
    forall j | j in t.writers ensures HandleOk(t, t.writers[j]) {
      HandleFrame(s, t, j);
    }
  }

  ghost predicate LinksExist(s: State) {
    forall id | id in s.writers ::
      var p := s.writers[id].phase;
      p.Materialize? && p.stage.Link? ==> p.stage.inode in s.disk
  }

  lemma LockStep(c: Config, s: State, a: Action)
    requires LockInv(s) && LinksExist(s) && Harmless(s, a)
    ensures LockInv(Next(c, s, a))
  {
    match a
    case WriterStep(id, _, _, _, _, _, _) =>
      if id in s.writers {
        var p := s.writers[id].phase;
        if p.Materialize? {
          LockMaterialize(c, s, a, p.target, p.stage);
        } else if p.Ready? {
          LockAcquire(c, s, a);
        } else if p.ReleaseOpen? || p.ReleaseClose? || p.ReleaseUnlink? {
          LockRelease(c, s, a);
        } else if !p.Done? && !p.Crashed? {
          LockIdle(c, s, a);
        }
      }
    case WriterCrash(id) =>
      if id in s.writers {
        SerialsKept(s, s);
        assert HandleOk(s, s.writers[id]);
        LockMove(s, s, id, s.writers[id].(phase := Crashed));
      }
    case ReaderStep(_, _) =>
      SerialsKept(s, Next(c, s, a));
      LockBystander(s, Next(c, s, a));
    case OperatorStep(id) => if id in s.operators { LockOperator(s, id); }
  }

  /** A look moves only the writer's phase. */
  lemma LookMoves(c: Config, s: State, a: Action) returns (p: Phase)
    requires a.WriterStep? && a.writer in s.writers
    requires var q := s.writers[a.writer].phase; q.ProbePayload? || q.ProbeManifest? || q.Compare?
    ensures Critical(p) && !p.ReleaseClose?
    ensures WriterNext(c, s, a) == SetWriter(s, a.writer, s.writers[a.writer].(phase := p))
  {
    match s.writers[a.writer].phase
    case ProbePayload =>
      p := if a.fault then ReleaseOpen(Raised(Io)) else ProbeManifest(ArtifactName(Payload) in s.names);
    case ProbeManifest(payloadSeen) =>
      p := if a.fault then ReleaseOpen(Raised(Io))
           else AfterPresence(c, s.writers[a.writer].evidence, payloadSeen, ArtifactName(Commit) in s.names);
    case Compare(read) =>
      p := CompareMoves(c, s, a, read);
  }

  lemma CompareMoves(c: Config, s: State, a: Action, read: ReadPhase) returns (p: Phase)
    requires a.WriterStep? && a.writer in s.writers && s.writers[a.writer].phase == Compare(read)
    ensures Critical(p) && !p.ReleaseClose?
    ensures WriterNext(c, s, a) == SetWriter(s, a.writer, s.writers[a.writer].(phase := p))
  {
    match read
    case ReadDone(result) => p := ReleaseOpen(CompareOutcome(c, s.writers[a.writer].evidence, result));
    case ReadBroken(error) => p := ReleaseOpen(Raised(error));
    case _ => p := Compare(ReadNext(c, s, read, a.readFault));
  }

  lemma LockIdle(c: Config, s: State, a: Action)
    requires LockInv(s) && a.WriterStep? && a.writer in s.writers
    requires var p := s.writers[a.writer].phase; p.ProbePayload? || p.ProbeManifest? || p.Compare?
    ensures LockInv(WriterNext(c, s, a))
  {
    var p := LookMoves(c, s, a);
    LockPhase(s, a.writer, p);
  }

  lemma LockPhase(s: State, id: nat, p: Phase)
    requires LockInv(s) && id in s.writers && Critical(s.writers[id].phase) && Critical(p) && !p.ReleaseClose?
    ensures LockInv(SetWriter(s, id, s.writers[id].(phase := p)))
  {
    SerialsKept(s, s);
    assert HandleOk(s, s.writers[id]);
    LockMove(s, s, id, s.writers[id].(phase := p));
  }

  ghost predicate HarmlessRun(c: Config, s: State, actions: seq<Action>)
    decreases |actions|
  {
    actions != [] ==>
      var before := actions[..|actions| - 1];
      HarmlessRun(c, s, before) && Harmless(Run(c, s, before), actions[|actions| - 1])
  }

  lemma {:induction false} LockRun(c: Config, s: State, actions: seq<Action>)
    requires Faithful(c) && Initial(c, s) && HarmlessRun(c, s, actions)
    ensures LockInv(Run(c, s, actions))
    decreases |actions|
  {
    if actions != [] {
      var before := actions[..|actions| - 1];
      LockRun(c, s, before);
      Reachable(c, s, before, []);
      InvLinks(c, Run(c, s, before));
      LockStep(c, Run(c, s, before), actions[|actions| - 1]);
    }
  }

  lemma InvLinks(c: Config, s: State)
    requires Inv(c, s)
    ensures LinksExist(s)
  {
    forall id | id in s.writers
      ensures var p := s.writers[id].phase; p.Materialize? && p.stage.Link? ==> p.stage.inode in s.disk
    {
      assert WriterOk(c, s, id, s.writers[id]);
    }
  }

  predicate RemovesLock(c: Config, s: State, a: Action) {
    LockName in s.names && LockName !in Next(c, s, a).names
  }

  /** A release removes a lock file that another writer created. */
  predicate RemovesForeign(c: Config, s: State, a: Action) {
    && a.WriterStep? && RemovesLock(c, s, a)
    && a.writer in s.writers && !SameLockFile(s, s.writers[a.writer].lock)
  }

  /** While the operators' unlinks are harmless, whenever a writer's release removes the lock name, the file behind
      it is the one that very writer created: no reuse of inode numbers can fool the identity check. */
  lemma ReleaseRemovesOwnLock(c: Config, s: State, actions: seq<Action>, a: Action)
    requires Faithful(c) && Initial(c, s) && HarmlessRun(c, s, actions) && a.WriterStep?
    requires RemovesLock(c, Run(c, s, actions), a)
    ensures var t := Run(c, s, actions);
            a.writer in t.writers && SameLockFile(t, t.writers[a.writer].lock)
            && t.names[LockName] == t.writers[a.writer].lock.inode
  {
    LockRun(c, s, actions);
    var t := Run(c, s, actions);
    OnlyReleaseRemovesLock(c, t, a);
    assert HandleOk(t, t.writers[a.writer]);
  }

  lemma OnlyReleaseRemovesLock(c: Config, s: State, a: Action)
    requires a.WriterStep? && RemovesLock(c, s, a)
    ensures a.writer in s.writers && s.writers[a.writer].phase.ReleaseUnlink?
        && OwnsLockName(s, s.writers[a.writer].lock)
  {
    var p := s.writers[a.writer].phase;
    if p.Materialize? {
      MaterializeKeepsLockName(c, s, a, p.target, p.stage);
    }
  }

  lemma MaterializeKeepsLockName(c: Config, s: State, a: Action, target: Artifact, stage: Stage)
    requires a.WriterStep? && a.writer in s.writers
    ensures LockName in MaterializeNext(c, s, a, target, stage).names <==> LockName in s.names
  {
    match stage
    case Check =>
    case Create =>
    case Append(_, _, _) =>
    case Link(_, _) =>
    case Cleanup(_, _) =>
  }
}
