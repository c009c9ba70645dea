/** What reads and quarantines of the record store achieve by themselves: a read ends after a few steps of its own, and
    a quarantine that is not interfered with moves the lock file away (evidence/store.py:202-265,
    evidence/resilience.py:229-335). */
module RecordProgress {
  import opened RecordStore

  // ---------------------------------------------------------------- reads end

  /** The steps that a read takes itself. */
  function OwnSteps(actions: seq<Action>, id: nat): nat {
    if actions == [] then 0
    else
      var last := actions[|actions| - 1];
      OwnSteps(actions[..|actions| - 1], id) + if last.ReaderStep? && last.reader == id then 1 else 0
  }

  function Remaining(p: ReadPhase): nat {
    match p
    case SeekPayload => 4
    case SeekManifest => 3
    case LoadManifest => 2
    case LoadPayload(_) => 1
    case _ => 0
  }

  lemma ReadApproachesEnd(c: Config, s: State, a: Action, id: nat)
    requires id in s.readers
    ensures id in Next(c, s, a).readers
    ensures var before, after := Remaining(s.readers[id].phase), Remaining(Next(c, s, a).readers[id].phase);
            if a.ReaderStep? && a.reader == id && before > 0 then after < before else after == before
  {
    if !(a.ReaderStep? && a.reader == id) {
      OthersKeepReaders(c, s, id, a);
    }
  }

  lemma {:induction false} StepsTaken(c: Config, s: State, actions: seq<Action>, id: nat)
    requires id in s.readers
    ensures id in Run(c, s, actions).readers
    ensures var left := Remaining(Run(c, s, actions).readers[id].phase);
            left == 0 || left + OwnSteps(actions, id) <= Remaining(s.readers[id].phase)
    decreases |actions|
  {
    if actions != [] {
      StepsTaken(c, s, actions[..|actions| - 1], id);
      ReadApproachesEnd(c, Run(c, s, actions[..|actions| - 1]), actions[|actions| - 1], id);
    }
  }

  /** A read ends after at most four steps of its own, whatever the writers and operators do meanwhile. */
  lemma ReadEnds(c: Config, s: State, actions: seq<Action>, id: nat)
    requires Initial(c, s) && id in s.readers && OwnSteps(actions, id) >= 4
    ensures Ended(Run(c, s, actions), id)
  {
    StepsTaken(c, s, actions, id);
  }

  // ---------------------------------------------------------------- the quarantine

  lemma RunOnce(c: Config, s: State, actions: seq<Action>, a: Action, t: State, u: State)
    requires Run(c, s, actions) == t && Next(c, t, a) == u
    ensures Run(c, s, actions + [a]) == u
  {
    RunSnoc(c, s, actions, a);
  }

  lemma FiveSteps(c: Config, s: State, a: Action, s1: State, s2: State, s3: State, s4: State, s5: State)
    requires Next(c, s, a) == s1 && Next(c, s1, a) == s2 && Next(c, s2, a) == s3 && Next(c, s3, a) == s4
    requires Next(c, s4, a) == s5
    ensures Run(c, s, [a, a, a, a, a]) == s5
  {
    RunOnce(c, s, [], a, s, s1);
    RunOnce(c, s, [] + [a], a, s1, s2);
    RunOnce(c, s, [] + [a] + [a], a, s2, s3);
    RunOnce(c, s, [] + [a] + [a] + [a], a, s3, s4);
    RunOnce(c, s, [] + [a] + [a] + [a] + [a], a, s4, s5);
    assert [] + [a] + [a] + [a] + [a] + [a] == [a, a, a, a, a];
  }

  /** A step of an operator in the given phase. */
  lemma OperatorSteps(c: Config, s: State, id: nat, t: State)
    requires id in s.operators && OperatorNext(s, id) == t
    ensures Next(c, s, OperatorStep(id)) == t
  {
  }

  function Quarantined(s: State, i: Inode, stamp: nat): State {
    s.(names := s.names[QuarantineName(i, stamp) := i])
  }

  /** From the inspection of the lock file to the decision to link it away. */
  lemma Inspected(c: Config, s: State, id: nat, i: Inode, stamp: nat)
    requires id in s.operators && s.operators[id].Inspect? && LockObserved(s, i, stamp)
    ensures Next(c, s, OperatorStep(id)) == SetOperator(s, id, Confirm(i, stamp))
    ensures Next(c, SetOperator(s, id, Confirm(i, stamp)), OperatorStep(id)) == SetOperator(s, id, LinkAway(i, stamp))
  {
    OperatorSteps(c, s, id, SetOperator(s, id, Confirm(i, stamp)));
    OperatorSteps(c, SetOperator(s, id, Confirm(i, stamp)), id, SetOperator(s, id, LinkAway(i, stamp)));
  }

  /** From there to the end. */
  lemma LinkedAway(c: Config, s: State, id: nat, i: Inode, stamp: nat)
    requires id in s.operators && Names(s, LockName, i) && QuarantineName(i, stamp) !in s.names
    ensures var a, linked := OperatorStep(id), Quarantined(s, i, stamp);
            && Next(c, SetOperator(s, id, LinkAway(i, stamp)), a) == SetOperator(linked, id, Verify(i, stamp))
            && Next(c, SetOperator(linked, id, Verify(i, stamp)), a) == SetOperator(linked, id, Unlink(i, stamp))
            && Next(c, SetOperator(linked, id, Unlink(i, stamp)), a)
                 == SetOperator(linked.(names := linked.names - {LockName}), id, Finished)
  {
    var linked := Quarantined(s, i, stamp);
    OperatorSteps(c, SetOperator(s, id, LinkAway(i, stamp)), id, SetOperator(linked, id, Verify(i, stamp)));
    OperatorSteps(c, SetOperator(linked, id, Verify(i, stamp)), id, SetOperator(linked, id, Unlink(i, stamp)));
    OperatorSteps(c, SetOperator(linked, id, Unlink(i, stamp)), id,
                  SetOperator(linked.(names := linked.names - {LockName}), id, Finished));
  }

  /** An operator that nobody interferes with has, after five steps, moved the lock file: it has its quarantine name
      and no longer the name of the lock, and nothing else has changed. */
  lemma QuarantineTakesLock(c: Config, s: State, id: nat, i: Inode, stamp: nat)
    requires id in s.operators && s.operators[id].Inspect? && LockObserved(s, i, stamp)
    requires QuarantineName(i, stamp) !in s.names
    ensures var a := OperatorStep(id);
            Run(c, s, [a, a, a, a, a])
            == s.(names := s.names[QuarantineName(i, stamp) := i] - {LockName},
                  operators := s.operators[id := Finished])
  {
    var linked := Quarantined(s, i, stamp);
    Inspected(c, s, id, i, stamp);
    LinkedAway(c, s, id, i, stamp);
    FiveSteps(c, s, OperatorStep(id), SetOperator(s, id, Confirm(i, stamp)), SetOperator(s, id, LinkAway(i, stamp)),
              SetOperator(linked, id, Verify(i, stamp)), SetOperator(linked, id, Unlink(i, stamp)),
              SetOperator(linked.(names := linked.names - {LockName}), id, Finished));
  }
}
