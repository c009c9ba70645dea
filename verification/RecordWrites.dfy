/** When a write of the record store must succeed and when it must fail (evidence/store.py:150-200): what a writer
    that meets no fault of its own reports, in every run. */
module RecordWrites {
  import opened Wrappers
  import opened RecordStore

  // ---------------------------------------------------------------- one writer among others

  /** A step of the writer on which the operating system fails it, or its death. */
  predicate FaultyWrite(a: Action, id: nat) {
    || (a.WriterStep? && a.writer == id && (a.fault || !a.readFault.Sound?))
    || (a.WriterCrash? && a.writer == id)
  }

  ghost predicate Undisturbed(actions: seq<Action>, id: nat) {
    forall i | 0 <= i < |actions| :: !FaultyWrite(actions[i], id)
  }

  /** The writer is at one of its identity checks, and the lock name is not its own. */
  predicate LockLost(s: State, id: nat) {
    && id in s.writers && (s.writers[id].phase.ReleaseOpen? || s.writers[id].phase.ReleaseUnlink?)
    && !OwnsLockName(s, s.writers[id].lock)
  }

  /** In the run, the writer fails an identity check of its release. */
  ghost predicate LosesLock(c: Config, s: State, actions: seq<Action>, id: nat) {
    exists i | 0 <= i < |actions| ::
      actions[i].WriterStep? && actions[i].writer == id && LockLost(Run(c, s, actions[..i]), id)
  }

  /** A step of another process leaves a writer where it is. */
  lemma OthersKeepWriter(c: Config, s: State, id: nat, a: Action)
    requires id in s.writers && !(a.WriterStep? && a.writer == id) && !FaultyWrite(a, id)
    ensures id in Next(c, s, a).writers && Next(c, s, a).writers[id] == s.writers[id]
  {
    match a
    case WriterStep(j, _, _, _, _, _, _) => if j in s.writers { WriterEffect(c, s, a); }
    case OperatorStep(j) => if j in s.operators { OperatorKeepsWriters(s, j); }
    case _ =>
  }

  // ---------------------------------------------------------------- a write that finds the record there

  /** The record is complete and holds the evidence e. */
  ghost predicate Holds(s: State, e: Evidence) {
    && Complete(s) && Payload in s.publisher && s.publisher[Payload] in s.writers
    && s.writers[s.publisher[Payload]].evidence == e
  }

  /** The writer has taken the lock and is on its way to this outcome, or to an error of its release. */
  ghost predicate Heading(s: State, id: nat, o: Outcome) {
    && id in s.writers
    && match s.writers[id].phase
       case ReleaseOpen(p) => p == o
       case ReleaseClose(p) => p == o
       case ReleaseUnlink(p) => p == o
       case Done(p) => p == o || p == Raised(Integrity)
       case _ => false
  }

  /** It is still looking at the record that holds e. */
  ghost predicate Looking(c: Config, s: State, id: nat, e: Evidence) {
    && id in s.writers
    && match s.writers[id].phase
       case ProbePayload => true
       case ProbeManifest(payloadSeen) => payloadSeen
       case Compare(ReadDone(result)) => result == Success((ManifestFor(c, e), e))
       case Compare(ReadBroken(_)) => false
       case Compare(_) => true
       case _ => false
  }

  /** What a write of `own` must report when the record holds e. */
  function Expected(c: Config, own: Evidence, e: Evidence): Outcome {
    if own == e then Returned(ManifestFor(c, own)) else Raised(Conflict)
  }

  lemma HoldsKept(s: State, t: State, e: Evidence)
    requires Holds(s, e) && Keeps(s, t)
    ensures Holds(t, e)
  {
  }

  /** One step of the look at a complete record. */
  lemma LookStep(c: Config, s: State, a: Action, e: Evidence)
    requires Faithful(c) && Inv(c, s) && Holds(s, e) && a.WriterStep? && Looking(c, s, a.writer, e)
    requires !FaultyWrite(a, a.writer)
    ensures var t := WriterNext(c, s, a);
            || Looking(c, t, a.writer, e)
            || (a.writer in t.writers && t.writers[a.writer].phase
                  == ReleaseOpen(Expected(c, s.writers[a.writer].evidence, e)))
  {
    var w := s.writers[a.writer];
    assert WriterOk(c, s, a.writer, w);
    if w.phase.Compare? && !w.phase.read.ReadDone? {
      CompareStep(c, s, a, e);
    }
  }

  lemma CompareStep(c: Config, s: State, a: Action, e: Evidence)
    requires Faithful(c) && Inv(c, s) && Holds(s, e) && a.WriterStep? && Looking(c, s, a.writer, e)
    requires s.writers[a.writer].phase.Compare? && !s.writers[a.writer].phase.read.ReadDone? && a.readFault.Sound?
    ensures Looking(c, WriterNext(c, s, a), a.writer, e)
  {
    assert WriterOk(c, s, a.writer, s.writers[a.writer]);
    ReadStepOk(c, s, s.writers[a.writer].phase.read, true, Sound);
  }

  /** One step of a release: the outcome stays, unless an identity check fails. */
  lemma ReleaseStep(c: Config, s: State, a: Action, o: Outcome)
    requires a.WriterStep? && Heading(s, a.writer, o)
    ensures Heading(WriterNext(c, s, a), a.writer, o)
    ensures WriterNext(c, s, a).writers[a.writer].phase == Done(Raised(Integrity)) && o != Raised(Integrity)
            && s.writers[a.writer].phase != Done(Raised(Integrity))
       ==> LockLost(s, a.writer)
  {
  }

  lemma LosesLockSnoc(c: Config, s: State, actions: seq<Action>, a: Action, id: nat)
    ensures LosesLock(c, s, actions, id) ==> LosesLock(c, s, actions + [a], id)
    ensures a.WriterStep? && a.writer == id && LockLost(Run(c, s, actions), id) ==> LosesLock(c, s, actions + [a], id)
  {
    var longer := actions + [a];
    assert longer[|actions|] == a && longer[..|actions|] == actions;
    if LosesLock(c, s, actions, id) {
      var i :| 0 <= i < |actions| && actions[i].WriterStep? && actions[i].writer == id
          && LockLost(Run(c, s, actions[..i]), id);
      assert longer[i] == actions[i] && longer[..i] == actions[..i];
    }
  }

  lemma UndisturbedSnoc(actions: seq<Action>, a: Action, id: nat)
    requires Undisturbed(actions + [a], id)
    ensures Undisturbed(actions, id) && !FaultyWrite(a, id)
  {
    var longer := actions + [a];
    assert longer[|actions|] == a && forall i | 0 <= i < |actions| :: longer[i] == actions[i];
  }

  /** The writer's way to an outcome, and whether it lost the lock on it. */
  ghost predicate OnTheWay(c: Config, s: State, actions: seq<Action>, id: nat, o: Outcome) {
    var t := Run(c, s, actions);
    Heading(t, id, o) && (t.writers[id].phase == Done(Raised(Integrity)) ==> LosesLock(c, s, actions, id))
  }

  lemma OnTheWaySnoc(c: Config, s: State, actions: seq<Action>, a: Action, id: nat, o: Outcome)
    requires OnTheWay(c, s, actions, id, o) && o != Raised(Integrity) && !FaultyWrite(a, id)
    ensures OnTheWay(c, s, actions + [a], id, o)
  {
    var t := Run(c, s, actions);
    RunSnoc(c, s, actions, a);
    LosesLockSnoc(c, s, actions, a, id);
    if a.WriterStep? && a.writer == id {
      ReleaseStep(c, t, a, o);
    } else {
      OthersKeepWriter(c, t, id, a);
    }
  }

  /** A writer that starts its look keeps looking, or is on the way to what the record demands. */
  lemma {:induction false} FollowWrite(c: Config, s: State, actions: seq<Action>, id: nat, e: Evidence)
    requires Faithful(c) && Inv(c, s) && Holds(s, e) && Looking(c, s, id, e) && Undisturbed(actions, id)
    ensures Inv(c, Run(c, s, actions)) && Keeps(s, Run(c, s, actions)) && Holds(Run(c, s, actions), e)
    ensures || Looking(c, Run(c, s, actions), id, e)
            || OnTheWay(c, s, actions, id, Expected(c, s.writers[id].evidence, e))
    decreases |actions|
  {
    RunPreserves(c, s, actions);
    HoldsKept(s, Run(c, s, actions), e);
    if actions != [] {
      var before, a := actions[..|actions| - 1], actions[|actions| - 1];
      assert actions == before + [a];
      UndisturbedSnoc(before, a, id);
      FollowWrite(c, s, before, id, e);
      FollowStep(c, s, before, a, id, e);
    }
  }

  lemma LookingStep(c: Config, t: State, a: Action, id: nat, e: Evidence, own: Evidence)
    requires Faithful(c) && Inv(c, t) && Holds(t, e) && Looking(c, t, id, e) && !FaultyWrite(a, id)
    requires t.writers[id].evidence == own
    ensures var u := Next(c, t, a);
            || Looking(c, u, id, e)
            || (Heading(u, id, Expected(c, own, e)) && u.writers[id].phase != Done(Raised(Integrity)))
  {
    if a.WriterStep? && a.writer == id {
      LookStep(c, t, a, e);
    } else {
      OthersKeepWriter(c, t, id, a);
    }
  }

  lemma FollowStep(c: Config, s: State, before: seq<Action>, a: Action, id: nat, e: Evidence)
    requires Faithful(c) && id in s.writers && !FaultyWrite(a, id)
    requires Inv(c, Run(c, s, before)) && Keeps(s, Run(c, s, before)) && Holds(Run(c, s, before), e)
    requires || Looking(c, Run(c, s, before), id, e)
             || OnTheWay(c, s, before, id, Expected(c, s.writers[id].evidence, e))
    ensures || Looking(c, Run(c, s, before + [a]), id, e)
            || OnTheWay(c, s, before + [a], id, Expected(c, s.writers[id].evidence, e))
  {
    RunSnoc(c, s, before, a);
    if Looking(c, Run(c, s, before), id, e) {
      LookingStep(c, Run(c, s, before), a, id, e, s.writers[id].evidence);
    } else {
      OnTheWaySnoc(c, s, before, a, id, Expected(c, s.writers[id].evidence, e));
    }
  }

  /** A write that takes the lock when the record is complete, and meets no fault of its own, ends by returning the
      manifest of its evidence if that is what the record holds, and with a conflict if it is not; only a failed
      identity check of its release can replace this outcome. */
  lemma WriteOfCompleteRecord(c: Config, s: State, before: seq<Action>, after: seq<Action>, id: nat, o: Outcome)
    requires Faithful(c) && Initial(c, s) && Complete(Run(c, s, before)) && Undisturbed(after, id)
    requires id in s.writers
    requires id in Run(c, s, before).writers && Run(c, s, before).writers[id].phase.ProbePayload?
    requires var u := Run(c, s, before + after); id in u.writers && u.writers[id].phase == Done(o)
    requires !LosesLock(c, Run(c, s, before), after, id)
    ensures var own := s.writers[id].evidence;
            var recorded := Content(Run(c, s, before), ArtifactName(Payload));
            o == if recorded == Some(c.encodeEvidence(own)) then Returned(ManifestFor(c, own)) else Raised(Conflict)
  {
    var t := Run(c, s, before);
    Reachable(c, s, before, after);
    RunSplit(c, s, before, after);
    assert PublishedOk(c, t, Payload);
    var e := t.writers[t.publisher[Payload]].evidence;
    FollowWrite(c, t, after, id, e);
    assert c.decodeEvidence(c.encodeEvidence(e)) == Some(e);
    assert c.decodeEvidence(c.encodeEvidence(s.writers[id].evidence)) == Some(s.writers[id].evidence);
  }

  // ---------------------------------------------------------------- a write that finds half a record

  /** The writer has not looked further than the payload. */
  ghost predicate AtPayload(s: State, id: nat) {
    id in s.writers && (s.writers[id].phase.ProbePayload? || s.writers[id].phase == ProbeManifest(true))
  }

  lemma PartialStep(c: Config, s: State, a: Action)
    requires Stranded(s) && a.WriterStep? && AtPayload(s, a.writer) && !FaultyWrite(a, a.writer)
    ensures AtPayload(WriterNext(c, s, a), a.writer) || Heading(WriterNext(c, s, a), a.writer, Raised(Incomplete))
  {
  }

  lemma {:induction false} FollowPartial(c: Config, s: State, actions: seq<Action>, id: nat)
    requires Faithful(c) && Inv(c, s) && Stranded(s) && AtPayload(s, id) && Undisturbed(actions, id)
    ensures AtPayload(Run(c, s, actions), id) || OnTheWay(c, s, actions, id, Raised(Incomplete))
    decreases |actions|
  {
    if actions != [] {
      var before, a := actions[..|actions| - 1], actions[|actions| - 1];
      assert actions == before + [a];
      UndisturbedSnoc(before, a, id);
      FollowPartial(c, s, before, id);
      StrandedRun(c, s, before);
      RunSnoc(c, s, before, a);
      var t := Run(c, s, before);
      if !AtPayload(t, id) {
        OnTheWaySnoc(c, s, before, a, id, Raised(Incomplete));
      } else if a.WriterStep? && a.writer == id {
        PartialStep(c, t, a);
      } else {
        OthersKeepWriter(c, t, id, a);
      }
    }
  }

  /** A write that takes the lock on a partial record whose publisher is gone refuses it as incomplete. */
  lemma WriteOfStrandedRecord(c: Config, s: State, before: seq<Action>, after: seq<Action>, id: nat, o: Outcome)
    requires Faithful(c) && Initial(c, s) && Stranded(Run(c, s, before)) && Undisturbed(after, id)
    requires id in Run(c, s, before).writers && Run(c, s, before).writers[id].phase.ProbePayload?
    requires var u := Run(c, s, before + after); id in u.writers && u.writers[id].phase == Done(o)
    requires !LosesLock(c, Run(c, s, before), after, id)
    ensures o == Raised(Incomplete)
  {
    Reachable(c, s, before, after);
    RunSplit(c, s, before, after);
    FollowPartial(c, Run(c, s, before), after, id);
  }

  // ---------------------------------------------------------------- a write on its own

  /** Only this writer acts, and no call fails it: a write accepts at least one byte. */
  ghost predicate Solo(actions: seq<Action>, id: nat) {
    forall i | 0 <= i < |actions| :: SoloAction(actions[i], id)
  }

  predicate SoloAction(a: Action, id: nat) {
    a.WriterStep? && a.writer == id && !a.fault && a.readFault.Sound? && a.chunk > 0
  }

  predicate HasPayload(s: State) { ArtifactName(Payload) in s.names }

  predicate HasCommit(s: State) { ArtifactName(Commit) in s.names }

  /** The only writer, on a record that only it has touched. */
  ghost predicate Alone(c: Config, s: State, id: nat, e: Evidence) {
    && id in s.writers && s.writers[id].evidence == e
    && |c.encodeEvidence(e)| <= c.maxPayload && |c.encodeManifest(ManifestFor(c, e))| <= c.maxManifest
    && var w := s.writers[id];
       match w.phase
       case Ready => s.names == map[] && w.lock.NoLock?
       case ProbePayload => OwnsLockName(s, w.lock) && !HasPayload(s) && !HasCommit(s)
       case ProbeManifest(seen) => OwnsLockName(s, w.lock) && !seen && !HasPayload(s) && !HasCommit(s)
       case Materialize(target, stage) => OwnsLockName(s, w.lock) && AloneStage(s, target, stage)
       case ReleaseOpen(o) => OwnsLockName(s, w.lock) && Complete(s) && o == Returned(ManifestFor(c, e))
       case ReleaseClose(o) => OwnsLockName(s, w.lock) && Complete(s) && o == Returned(ManifestFor(c, e))
       case ReleaseUnlink(o) => OwnsLockName(s, w.lock) && Complete(s) && o == Returned(ManifestFor(c, e))
       case Done(o) => Complete(s) && LockName !in s.names && o == Returned(ManifestFor(c, e))
       case _ => false
  }

  /** The artifact is missing until it is linked. */
  predicate AloneStage(s: State, target: Artifact, stage: Stage) {
    && (target.Payload? ==> !HasCommit(s)) && (target.Commit? ==> HasPayload(s))
    && match stage
       case Cleanup(_, failure) => failure.None? && ArtifactName(target) in s.names
       case _ => ArtifactName(target) !in s.names
  }

  lemma AloneBegins(c: Config, s: State, a: Action, e: Evidence)
    requires a.WriterStep? && Inv(c, s) && Alone(c, s, a.writer, e) && SoloAction(a, a.writer)
    requires var p := s.writers[a.writer].phase; p.Ready? || p.ProbePayload? || p.ProbeManifest?
    ensures Alone(c, WriterNext(c, s, a), a.writer, e)
  {
  }

  lemma AloneCreates(c: Config, s: State, a: Action, e: Evidence)
    requires a.WriterStep? && Inv(c, s) && Alone(c, s, a.writer, e) && SoloAction(a, a.writer)
    requires var p := s.writers[a.writer].phase; p.Materialize? && (p.stage.Check? || p.stage.Create?)
    ensures Alone(c, WriterNext(c, s, a), a.writer, e)
  {
  }

  lemma AloneAppends(c: Config, s: State, a: Action, e: Evidence)
    requires a.WriterStep? && Inv(c, s) && Alone(c, s, a.writer, e) && SoloAction(a, a.writer)
    requires s.writers[a.writer].phase.Materialize? && s.writers[a.writer].phase.stage.Append?
    ensures Alone(c, WriterNext(c, s, a), a.writer, e)
  {
    assert WriterOk(c, s, a.writer, s.writers[a.writer]);
  }

  lemma AloneLinks(c: Config, s: State, a: Action, e: Evidence)
    requires a.WriterStep? && Inv(c, s) && Alone(c, s, a.writer, e) && SoloAction(a, a.writer)
    requires s.writers[a.writer].phase.Materialize? && s.writers[a.writer].phase.stage.Link?
    ensures Alone(c, WriterNext(c, s, a), a.writer, e)
  {
  }

  lemma AloneCleansUp(c: Config, s: State, a: Action, e: Evidence)
    requires a.WriterStep? && Inv(c, s) && Alone(c, s, a.writer, e) && SoloAction(a, a.writer)
    requires s.writers[a.writer].phase.Materialize? && s.writers[a.writer].phase.stage.Cleanup?
    ensures Alone(c, WriterNext(c, s, a), a.writer, e)
  {
  }

  lemma AloneReleases(c: Config, s: State, a: Action, e: Evidence)
    requires a.WriterStep? && Alone(c, s, a.writer, e) && SoloAction(a, a.writer)
    requires var p := s.writers[a.writer].phase; p.ReleaseOpen? || p.ReleaseClose? || p.ReleaseUnlink? || p.Done?
    ensures Alone(c, WriterNext(c, s, a), a.writer, e)
  {
  }

  lemma AloneStep(c: Config, s: State, a: Action, id: nat, e: Evidence)
    requires Inv(c, s) && Alone(c, s, id, e) && SoloAction(a, id)
    ensures Alone(c, Next(c, s, a), id, e)
  {
    var p := s.writers[id].phase;
    if p.Ready? || p.ProbePayload? || p.ProbeManifest? {
      AloneBegins(c, s, a, e);
    } else if p.Materialize? && (p.stage.Check? || p.stage.Create?) {
      AloneCreates(c, s, a, e);
    } else if p.Materialize? && p.stage.Append? {
      AloneAppends(c, s, a, e);
    } else if p.Materialize? && p.stage.Link? {
      AloneLinks(c, s, a, e);
    } else if p.Materialize? {
      AloneCleansUp(c, s, a, e);
    } else {
      AloneReleases(c, s, a, e);
    }
  }

  lemma {:induction false} AloneRun(c: Config, s: State, actions: seq<Action>, id: nat, e: Evidence)
    requires Faithful(c) && Inv(c, s) && Alone(c, s, id, e) && Solo(actions, id)
    ensures Inv(c, Run(c, s, actions)) && Alone(c, Run(c, s, actions), id, e)
    decreases |actions|
  {
    if actions != [] {
      var before, a := actions[..|actions| - 1], actions[|actions| - 1];
      AloneRun(c, s, before, id, e);
      assert SoloAction(a, id);
      RunPreserves(c, s, actions);
      AloneStep(c, Run(c, s, before), a, id, e);
    }
  }

  lemma InitialIsAlone(c: Config, s: State, id: nat)
    requires Initial(c, s) && id in s.writers && |c.encodeEvidence(s.writers[id].evidence)| <= c.maxPayload
    requires |c.encodeManifest(ManifestFor(c, s.writers[id].evidence))| <= c.maxManifest
    ensures Alone(c, s, id, s.writers[id].evidence)
  {
  }

  /** A write within the ceilings that acts alone on an empty store can only end by returning the manifest of its
      evidence, with the record complete and the lock released. */
  lemma SoloWriteReturns(c: Config, s: State, actions: seq<Action>, id: nat, o: Outcome)
    requires Faithful(c) && Initial(c, s) && Solo(actions, id) && id in s.writers
    requires |c.encodeEvidence(s.writers[id].evidence)| <= c.maxPayload
    requires |c.encodeManifest(ManifestFor(c, s.writers[id].evidence))| <= c.maxManifest
    requires var t := Run(c, s, actions); id in t.writers && t.writers[id].phase == Done(o)
    ensures o == Returned(ManifestFor(c, s.writers[id].evidence))
    ensures Complete(Run(c, s, actions)) && LockName !in Run(c, s, actions).names
  {
    InitialInv(c, s);
    InitialIsAlone(c, s, id);
    AloneRun(c, s, actions, id, s.writers[id].evidence);
  }

  // ---------------------------------------------------------------- and it does end

  lemma {:induction false} Above(numbers: set<nat>) returns (n: nat)
    ensures forall k | k in numbers :: k < n
  {
    if numbers == {} {
      n := 0;
    } else {
      var k :| k in numbers;
      var m := Above(numbers - {k});
      n := if m <= k then k + 1 else m;
      forall j | j in numbers ensures j < n {
        if j != k { assert j in numbers - {k}; }
      }
    }
  }

  lemma FreeInode(s: State) returns (i: Inode)
    ensures !Live(s, i)
  {
    var open := set id | id in s.writers && LockOpen(s.writers[id]) :: s.writers[id].lock.inode;
    i := Above(s.names.Values + open);
    forall id | id in s.writers && LockOpen(s.writers[id]) ensures s.writers[id].lock.inode != i {
      assert s.writers[id].lock.inode in open;
    }
  }

  lemma FreeTag(s: State) returns (tag: nat)
    ensures TempName(tag) !in s.names
  {
    var tags := set n | n in s.names && n.TempName? :: n.tag;
    tag := Above(tags);
    assert forall n | n in s.names && n.TempName? :: n.tag in tags;
  }

  function StageRank(stage: Stage, size: nat): nat {
    match stage
    case Check => 6
    case Create => 5
    case Append(_, _, offset) => if offset < size then 4 else 3
    case Link(_, _) => 2
    case Cleanup(_, _) => 1
  }

  /** How many steps a write still has to take when each write accepts everything. */
  function Rank(c: Config, w: Writer): nat {
    match w.phase
    case Ready => 18
    case ProbePayload => 17
    case ProbeManifest(_) => 16
    case Materialize(target, stage) =>
      StageRank(stage, |ArtifactBytes(c, w.evidence, target)|) + if target.Payload? then 9 else 3
    case ReleaseOpen(_) => 3
    case ReleaseClose(_) => 2
    case ReleaseUnlink(_) => 1
    case _ => 0
  }

  /** What the operating system hands out when it is well: a free inode and name, and whole writes. */
  predicate Generous(c: Config, s: State, a: Action, id: nat) {
    && SoloAction(a, id) && !Live(s, a.inode) && TempName(a.tag) !in s.names && id in s.writers
    && var p := s.writers[id].phase;
       p.Materialize? && p.stage.Append? ==>
         var size := |ArtifactBytes(c, s.writers[id].evidence, p.target)|;
         p.stage.offset < size ==> p.stage.offset + a.chunk == size
  }

  lemma GenerousAction(c: Config, s: State, id: nat) returns (a: Action)
    requires id in s.writers
    ensures Generous(c, s, a, id)
  {
    var i := FreeInode(s);
    var tag := FreeTag(s);
    var p := s.writers[id].phase;
    var chunk := 1;
    if p.Materialize? && p.stage.Append? {
      var size := |ArtifactBytes(c, s.writers[id].evidence, p.target)|;
      if p.stage.offset < size {
        chunk := size - p.stage.offset;
      }
    }
    a := WriterStep(id, i, tag, 0, chunk, false, Sound);
  }

  lemma MaterializeProgress(c: Config, s: State, a: Action, id: nat, e: Evidence)
    requires Inv(c, s) && Alone(c, s, id, e) && Generous(c, s, a, id) && s.writers[id].phase.Materialize?
    ensures var t := Next(c, s, a); id in t.writers && Rank(c, t.writers[id]) < Rank(c, s.writers[id])
  {
    assert WriterOk(c, s, id, s.writers[id]);
    match s.writers[id].phase.stage
    case Check =>
    case Create =>
    case Append(_, _, _) =>
    case Link(_, _) =>
    case Cleanup(_, _) =>
  }

  lemma BeginProgress(c: Config, s: State, a: Action, id: nat, e: Evidence)
    requires Inv(c, s) && Alone(c, s, id, e) && Generous(c, s, a, id)
    requires var p := s.writers[id].phase; p.Ready? || p.ProbePayload? || p.ProbeManifest?
    ensures var t := Next(c, s, a); id in t.writers && Rank(c, t.writers[id]) < Rank(c, s.writers[id])
  {
  }

  lemma ReleaseProgress(c: Config, s: State, a: Action, id: nat, e: Evidence)
    requires Alone(c, s, id, e) && Generous(c, s, a, id)
    requires var p := s.writers[id].phase; p.ReleaseOpen? || p.ReleaseClose? || p.ReleaseUnlink?
    ensures var t := Next(c, s, a); id in t.writers && Rank(c, t.writers[id]) < Rank(c, s.writers[id])
  {
  }

  lemma Progress(c: Config, s: State, id: nat, e: Evidence) returns (a: Action)
    requires Faithful(c) && Inv(c, s) && Alone(c, s, id, e) && !s.writers[id].phase.Done?
    ensures SoloAction(a, id)
    ensures var t := Next(c, s, a); Inv(c, t) && Alone(c, t, id, e) && Rank(c, t.writers[id]) < Rank(c, s.writers[id])
  {
    a := GenerousAction(c, s, id);
    var p := s.writers[id].phase;
    if p.Materialize? {
      MaterializeProgress(c, s, a, id, e);
    } else if p.ReleaseOpen? || p.ReleaseClose? || p.ReleaseUnlink? {
      ReleaseProgress(c, s, a, id, e);
    } else {
      BeginProgress(c, s, a, id, e);
    }
    AloneStep(c, s, a, id, e);
    StepPreserves(c, s, a);
  }

  /** A write on its own can always be carried to its end. */
  lemma {:induction false} SoloFinishes(c: Config, s: State, id: nat, e: Evidence) returns (actions: seq<Action>)
    requires Faithful(c) && Inv(c, s) && Alone(c, s, id, e)
    ensures Solo(actions, id) && id in Run(c, s, actions).writers && Run(c, s, actions).writers[id].phase.Done?
    decreases Rank(c, s.writers[id])
  {
    if s.writers[id].phase.Done? {
      actions := [];
    } else {
      var a := Progress(c, s, id, e);
      var rest := SoloFinishes(c, Next(c, s, a), id, e);
      actions := [a] + rest;
      OneStep(c, s, a);
      RunSplit(c, s, [a], rest);
    }
  }

  lemma OneStep(c: Config, s: State, a: Action)
    ensures Run(c, s, [a]) == Next(c, s, a)
  {
    assert [a][..0] == [];
  }

  /** Every evidence within the ceilings can be written to an empty store. */
  lemma EmptyStoreAccepts(c: Config, s: State, id: nat) returns (actions: seq<Action>)
    requires Faithful(c) && Initial(c, s) && id in s.writers
    requires |c.encodeEvidence(s.writers[id].evidence)| <= c.maxPayload
    requires |c.encodeManifest(ManifestFor(c, s.writers[id].evidence))| <= c.maxManifest
    ensures Solo(actions, id)
    ensures var t := Run(c, s, actions);
            id in t.writers && t.writers[id].phase == Done(Returned(ManifestFor(c, s.writers[id].evidence)))
  {
    InitialInv(c, s);
    InitialIsAlone(c, s, id);
    actions := SoloFinishes(c, s, id, s.writers[id].evidence);
    SoloWriteReturns(c, s, actions, id, Run(c, s, actions).writers[id].phase.outcome);
  }
}
