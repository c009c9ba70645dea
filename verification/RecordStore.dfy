/** The immutable record store of evidence/store.py and the operator steps of evidence/resilience.py, as a
    state machine over one record key.

    The file system maps names to inode numbers and inode numbers to files. An inode number whose file has
    no name and no open descriptor may be handed out again. Every system call of a writer, a reader or an
    operator is one step, except that opening and reading an artifact are one step, and so are the last check
    and the unlink of a release. A writer may crash at any step, and looking for, reading, creating, writing and
    linking files may fail with an I/O error. A run is any sequence of actions by any number of processes. */
module RecordStore {
  import opened Wrappers

  type byte = b: int | 0 <= b < 256
  type Bytes = seq<byte>
  type Digest = string

  /** `body` stands for the events and terminal facts of a trial. */
  datatype Evidence = Evidence(trialId: string, subject: string, scenario: string, body: Bytes)

  datatype Manifest = Manifest(recordKey: Digest, trialId: string, subject: string, scenario: string,
                               evidenceRoot: Digest, payloadSha: Digest, payloadBytes: nat)

  /** The store's configuration. SHA-256 and canonical JSON are arbitrary functions here: no theorem below
      assumes that digests do not collide. */
  datatype Config = Config(
    key: Digest,
    encodeEvidence: Evidence -> Bytes, decodeEvidence: Bytes -> Option<Evidence>,
    encodeManifest: Manifest -> Bytes, decodeManifest: Bytes -> Option<Manifest>,
    sha: Bytes -> Digest, root: Evidence -> Digest, recordKey: (string, string, string) -> Digest,
    maxPayload: nat, maxManifest: nat)

  /** Strict decoding and validation give back the value that was encoded. */
  ghost predicate Faithful(c: Config) {
    && (forall e :: c.decodeEvidence(c.encodeEvidence(e)) == Some(e))
    && (forall m :: c.decodeManifest(c.encodeManifest(m)) == Some(m))
  }

  function KeyOf(c: Config, e: Evidence): Digest {
    c.recordKey(e.trialId, e.subject, e.scenario)
  }

  function ManifestFor(c: Config, e: Evidence): Manifest {
    var payload := c.encodeEvidence(e);
    Manifest(KeyOf(c, e), e.trialId, e.subject, e.scenario, c.root(e), c.sha(payload), |payload|)
  }

  // ---------------------------------------------------------------- the file system

  type Inode = nat

  datatype Artifact = Payload | Commit

  datatype Name =
    | LockName
    | ArtifactName(artifact: Artifact)
    | TempName(tag: nat)
    | QuarantineName(inode: Inode, stamp: nat)

  /** `serial` tells apart two files that were given the same inode number at different times. */
  datatype File = File(serial: nat, stamp: nat, content: Bytes)

  datatype LockHandle = NoLock | Open(inode: Inode, serial: nat) | Closed(inode: Inode, serial: nat)

  datatype Error = Busy | Resource | Incomplete | Conflict | Integrity | Io

  datatype Outcome = Returned(manifest: Manifest) | Raised(error: Error)

  datatype Stage =
    | Check
    | Create
    | Append(tag: nat, inode: Inode, offset: nat)
    | Link(tag: nat, inode: Inode)
    | Cleanup(tag: nat, failure: Option<Error>)

  datatype ReadPhase =
    | SeekPayload
    | SeekManifest
    | LoadManifest
    | LoadPayload(manifestBytes: Bytes)
    | ReadDone(result: Result<(Manifest, Evidence), Error>)
    | ReadBroken(error: Error)

  datatype Phase =
    | Ready
    | ProbePayload
    | ProbeManifest(payloadSeen: bool)
    | Compare(read: ReadPhase)
    | Materialize(target: Artifact, stage: Stage)
    | ReleaseOpen(outcome: Outcome)
    | ReleaseClose(outcome: Outcome)
    | ReleaseUnlink(outcome: Outcome)
    | Done(outcome: Outcome)
    | Crashed

  datatype Writer = Writer(evidence: Evidence, lock: LockHandle, phase: Phase)

  /** `sawComplete` records whether the record was complete when the read began. */
  datatype Reader = Reader(phase: ReadPhase, sawComplete: bool)

  datatype OperatorPhase =
    | Inspect
    | Confirm(inode: Inode, stamp: nat)
    | LinkAway(inode: Inode, stamp: nat)
    | Verify(inode: Inode, stamp: nat)
    | Unlink(inode: Inode, stamp: nat)
    | Finished

  datatype State = State(
    names: map<Name, Inode>,
    disk: map<Inode, File>,
    serials: nat,
    publisher: map<Artifact, nat>,
    writers: map<nat, Writer>,
    readers: map<nat, Reader>,
    operators: map<nat, OperatorPhase>)

  /** Whether a call of a read goes well, cannot open the file, or fails otherwise. */
  datatype ReadFault = Sound | CannotOpen | CallFails

  /** The arguments are the choices of the operating system: the inode number, temporary name and time stamp
      it hands out, how many bytes a write accepts, and whether the call fails. */
  datatype Action =
    | WriterStep(writer: nat, inode: Inode, tag: nat, stamp: nat, chunk: nat, fault: bool, readFault: ReadFault)
    | WriterCrash(writer: nat)
    | ReaderStep(reader: nat, readFault: ReadFault)
    | OperatorStep(operator: nat)

  predicate LockOpen(w: Writer) {
    w.lock.Open? && !w.phase.Crashed?
  }

  predicate Live(s: State, i: Inode) {
    || i in s.names.Values
    || exists id | id in s.writers :: LockOpen(s.writers[id]) && s.writers[id].lock.inode == i
  }

  function ArtifactBytes(c: Config, e: Evidence, a: Artifact): Bytes {
    match a
    case Payload => c.encodeEvidence(e)
    case Commit => c.encodeManifest(ManifestFor(c, e))
  }

  // ---------------------------------------------------------------- reading

  /** The checks of LocalEvidenceStore.read on the two byte strings. */
  function Validate(c: Config, manifestBytes: Bytes, payload: Bytes): Result<(Manifest, Evidence), Error> {
    if |manifestBytes| > c.maxManifest || |payload| > c.maxPayload then Failure(Resource)
    else match c.decodeManifest(manifestBytes)
      case None => Failure(Integrity)
      case Some(m) =>
        if m.recordKey != c.key then Failure(Integrity)
        else if c.recordKey(m.trialId, m.subject, m.scenario) != c.key then Failure(Integrity)
        else if m.payloadBytes != |payload| then Failure(Integrity)
        else if m.payloadSha != c.sha(payload) then Failure(Integrity)
        else match c.decodeEvidence(payload)
          case None => Failure(Integrity)
          case Some(e) =>
            if e.trialId != m.trialId || e.subject != m.subject || e.scenario != m.scenario then Failure(Integrity)
            else if c.root(e) != m.evidenceRoot then Failure(Integrity)
            else Success((m, e))
  }

  /** One step of a read. A file that cannot be opened reads as an integrity error; other faults are raised as they
      are. */
  function ReadNext(c: Config, s: State, p: ReadPhase, fault: ReadFault): ReadPhase {
    if !fault.Sound? && !p.ReadDone? && !p.ReadBroken? then
      ReadBroken(if fault.CannotOpen? && (p.LoadManifest? || p.LoadPayload?) then Integrity else Io)
    else match p
    case SeekPayload =>
      if ArtifactName(Payload) in s.names then SeekManifest else ReadDone(Failure(Incomplete))
    case SeekManifest =>
      if ArtifactName(Commit) in s.names then LoadManifest else ReadDone(Failure(Incomplete))
    case LoadManifest =>
      (match Content(s, ArtifactName(Commit))
       case None => ReadDone(Failure(Integrity))
       case Some(bytes) => LoadPayload(bytes))
    case LoadPayload(manifestBytes) =>
      (match Content(s, ArtifactName(Payload))
       case None => ReadDone(Failure(Integrity))
       case Some(bytes) => ReadDone(Validate(c, manifestBytes, bytes)))
    case ReadDone(_) => p
    case ReadBroken(_) => p
  }

  function Content(s: State, n: Name): Option<Bytes> {
    if n in s.names && s.names[n] in s.disk then Some(s.disk[s.names[n]].content) else None
  }

  // ---------------------------------------------------------------- writer steps

  function SetWriter(s: State, id: nat, w: Writer): State {
    s.(writers := s.writers[id := w])
  }

  /** O_CREAT | O_EXCL: a new, empty file under a name that must not exist. */
  function CreateFile(s: State, n: Name, i: Inode, stamp: nat): State {
    s.(names := s.names[n := i], disk := s.disk[i := File(s.serials, stamp, [])], serials := s.serials + 1)
  }

  function Next(c: Config, s: State, a: Action): State {
    match a
    case WriterStep(id, _, _, _, _, _, _) =>
      if id in s.writers then WriterNext(c, s, a) else s
    case WriterCrash(id) =>
      if id in s.writers && !s.writers[id].phase.Done? then SetWriter(s, id, s.writers[id].(phase := Crashed)) else s
    case ReaderStep(id, fault) =>
      if id in s.readers then
        var r := s.readers[id];
        var saw := if r.phase.SeekPayload? then ArtifactName(Commit) in s.names else r.sawComplete;
        s.(readers := s.readers[id := Reader(ReadNext(c, s, r.phase, fault), saw)])
      else s
    case OperatorStep(id) =>
      if id in s.operators then OperatorNext(s, id) else s
  }

  function WriterNext(c: Config, s: State, a: Action): State
    requires a.WriterStep? && a.writer in s.writers
  {
    var id := a.writer;
    var w := s.writers[id];
    match w.phase
    case Ready =>
      if |c.encodeEvidence(w.evidence)| > c.maxPayload then SetWriter(s, id, w.(phase := Done(Raised(Resource))))
      else if LockName in s.names then SetWriter(s, id, w.(phase := Done(Raised(Busy))))
      else if Live(s, a.inode) then s
      else SetWriter(CreateFile(s, LockName, a.inode, a.stamp), id,
                     w.(lock := Open(a.inode, s.serials), phase := ProbePayload))
    case ProbePayload =>
      SetWriter(s, id, w.(phase := if a.fault then ReleaseOpen(Raised(Io))
                                   else ProbeManifest(ArtifactName(Payload) in s.names)))
    case ProbeManifest(payloadSeen) =>
      SetWriter(s, id, w.(phase := if a.fault then ReleaseOpen(Raised(Io))
                                   else AfterPresence(c, w.evidence, payloadSeen, ArtifactName(Commit) in s.names)))
    case Compare(ReadDone(result)) =>
      SetWriter(s, id, w.(phase := ReleaseOpen(CompareOutcome(c, w.evidence, result))))
    case Compare(ReadBroken(error)) =>
      SetWriter(s, id, w.(phase := ReleaseOpen(Raised(error))))
    case Compare(read) =>
      SetWriter(s, id, w.(phase := Compare(ReadNext(c, s, read, a.readFault))))
    case Materialize(target, stage) => MaterializeNext(c, s, a, target, stage)
    case ReleaseOpen(outcome) =>
      SetWriter(s, id, if OwnsLockName(s, w.lock) then w.(phase := ReleaseClose(outcome))
                       else w.(lock := CloseHandle(w.lock), phase := Done(Raised(Integrity))))
    case ReleaseClose(outcome) =>
      SetWriter(s, id, w.(lock := CloseHandle(w.lock), phase := ReleaseUnlink(outcome)))
    case ReleaseUnlink(outcome) =>
      if OwnsLockName(s, w.lock)
      then SetWriter(s.(names := s.names - {LockName}), id, w.(phase := Done(outcome)))
      else SetWriter(s, id, w.(phase := Done(Raised(Integrity))))
    case Done(_) => s
    case Crashed => s
  }

  function CloseHandle(l: LockHandle): LockHandle {
    if l.Open? then Closed(l.inode, l.serial) else l
  }

  /** _verify_lock_identity compares inode numbers; the file's serial is not observable. */
  predicate OwnsLockName(s: State, l: LockHandle) {
    LockName in s.names && !l.NoLock? && s.names[LockName] == l.inode
  }

  function AfterPresence(c: Config, e: Evidence, payload: bool, manifest: bool): Phase {
    if payload && manifest then Compare(SeekPayload)
    else if payload || manifest then ReleaseOpen(Raised(Incomplete))
    else if |c.encodeManifest(ManifestFor(c, e))| > c.maxManifest then ReleaseOpen(Raised(Resource))
    else Materialize(Payload, Check)
  }

  function CompareOutcome(c: Config, e: Evidence, read: Result<(Manifest, Evidence), Error>): Outcome {
    match read
    case Failure(error) => Raised(error)
    case Success((m, existing)) =>
      if m.payloadSha == c.sha(c.encodeEvidence(e)) && m.evidenceRoot == c.root(e) && existing == e
      then Returned(m) else Raised(Conflict)
  }

  /** _atomic_materialize: write a private temporary file, hard-link it to its final name, drop the temporary. */
  function MaterializeNext(c: Config, s: State, a: Action, target: Artifact, stage: Stage): State
    requires a.WriterStep? && a.writer in s.writers
  {
    var id := a.writer;
    var w := s.writers[id];
    var content := ArtifactBytes(c, w.evidence, target);
    match stage
    case Check =>
      SetWriter(s, id, w.(phase := if ArtifactName(target) in s.names then ReleaseOpen(Raised(Conflict))
                                   else Materialize(target, Create)))
    case Create =>
      if a.fault then SetWriter(s, id, w.(phase := ReleaseOpen(Raised(Io))))
      else if TempName(a.tag) in s.names || Live(s, a.inode) then s
      else SetWriter(CreateFile(s, TempName(a.tag), a.inode, a.stamp), id,
                     w.(phase := Materialize(target, Append(a.tag, a.inode, 0))))
    case Append(tag, inode, offset) =>
      if a.fault || (a.chunk == 0 && offset < |content|) || inode !in s.disk
      then SetWriter(s, id, w.(phase := Materialize(target, Cleanup(tag, Some(Io)))))
      else if offset >= |content| then SetWriter(s, id, w.(phase := Materialize(target, Link(tag, inode))))
      else if offset + a.chunk > |content| then s
      else
        var file := s.disk[inode];
        SetWriter(s.(disk := s.disk[inode := file.(content := file.content + content[offset..offset + a.chunk])]),
                  id, w.(phase := Materialize(target, Append(tag, inode, offset + a.chunk))))
    case Link(tag, inode) =>
      if ArtifactName(target) in s.names
      then SetWriter(s, id, w.(phase := Materialize(target, Cleanup(tag, Some(Conflict)))))
      else if a.fault then SetWriter(s, id, w.(phase := Materialize(target, Cleanup(tag, Some(Io)))))
      else SetWriter(s.(names := s.names[ArtifactName(target) := inode], publisher := s.publisher[target := id]),
                     id, w.(phase := Materialize(target, Cleanup(tag, None))))
    case Cleanup(tag, failure) =>
      var error := if failure.Some? then failure else if a.fault then Some(Io) else None;
      SetWriter(s.(names := s.names - {TempName(tag)}), id, w.(phase :=
        match error
        case Some(e) => ReleaseOpen(Raised(e))
        case None => if target.Payload? then Materialize(Commit, Check)
                     else ReleaseOpen(Returned(ManifestFor(c, w.evidence)))))
  }

  // ---------------------------------------------------------------- operator steps

  function SetOperator(s: State, id: nat, p: OperatorPhase): State {
    s.(operators := s.operators[id := p])
  }

  predicate Names(s: State, n: Name, i: Inode) {
    n in s.names && s.names[n] == i
  }

  predicate LockObserved(s: State, i: Inode, stamp: nat) {
    Names(s, LockName, i) && i in s.disk && s.disk[i].stamp == stamp
  }

  function OperatorNext(s: State, id: nat): State
    requires id in s.operators
  {
    match s.operators[id]
    case Inspect =>
      if LockName in s.names && s.names[LockName] in s.disk
      then SetOperator(s, id, Confirm(s.names[LockName], s.disk[s.names[LockName]].stamp))
      else SetOperator(s, id, Finished)
    case Confirm(i, stamp) =>
      SetOperator(s, id, if LockObserved(s, i, stamp) then LinkAway(i, stamp) else Finished)
    case LinkAway(i, stamp) =>
      if LockName !in s.names || QuarantineName(i, stamp) in s.names then SetOperator(s, id, Finished)
      else SetOperator(s.(names := s.names[QuarantineName(i, stamp) := s.names[LockName]]), id, Verify(i, stamp))
    case Verify(i, stamp) =>
      SetOperator(s, id, if Names(s, LockName, i) && Names(s, QuarantineName(i, stamp), i)
                         then Unlink(i, stamp) else Finished)
    case Unlink(i, stamp) =>
      SetOperator(s.(names := s.names - {LockName}), id, Finished)
    case Finished => s
  }

  // ---------------------------------------------------------------- runs

  function Run(c: Config, s: State, actions: seq<Action>): State
    decreases |actions|
  {
    if actions == [] then s else Next(c, Run(c, s, actions[..|actions| - 1]), actions[|actions| - 1])
  }

  ghost predicate Initial(c: Config, s: State) {
    && s.names == map[] && s.disk == map[] && s.publisher == map[]
    && (forall id | id in s.writers ::
          var w := s.writers[id]; w.phase.Ready? && w.lock.NoLock? && KeyOf(c, w.evidence) == c.key)
    && (forall id | id in s.readers :: s.readers[id] == Reader(SeekPayload, false))
    && (forall id | id in s.operators :: s.operators[id].Inspect?)
  }

  // ---------------------------------------------------------------- the invariant

  predicate Complete(s: State) {
    ArtifactName(Payload) in s.names && ArtifactName(Commit) in s.names
  }

  /** A published artifact is the whole of what its publisher prepared. */
  ghost predicate PublishedOk(c: Config, s: State, a: Artifact) {
    && (ArtifactName(a) in s.names <==> a in s.publisher)
    && (a in s.publisher ==>
          && s.publisher[a] in s.writers
          && Content(s, ArtifactName(a)) == Some(ArtifactBytes(c, s.writers[s.publisher[a]].evidence, a))
          && |ArtifactBytes(c, s.writers[s.publisher[a]].evidence, a)|
             <= (if a.Payload? then c.maxPayload else c.maxManifest))
  }

  ghost predicate FilesOk(c: Config, s: State) {
    && (forall n | n in s.names :: s.names[n] in s.disk)
    && PublishedOk(c, s, Payload) && PublishedOk(c, s, Commit)
    && (Commit in s.publisher ==> Payload in s.publisher && s.publisher[Payload] == s.publisher[Commit])
  }

  function TagOf(w: Writer): Option<nat> {
    if w.phase.Materialize? then
      match w.phase.stage
      case Append(tag, _, _) => Some(tag)
      case Link(tag, _) => Some(tag)
      case Cleanup(tag, _) => Some(tag)
      case _ => None
    else None
  }

  /** The temporary file has one name only, and holds a prefix of the artifact. */
  ghost predicate PrivateFile(s: State, tag: nat, inode: Inode, content: Bytes) {
    && Content(s, TempName(tag)) == Some(content) && s.names[TempName(tag)] == inode
    && forall n | n in s.names && s.names[n] == inode :: n == TempName(tag)
  }

  predicate PublishedBy(s: State, a: Artifact, id: nat) {
    a in s.publisher && s.publisher[a] == id
  }

  ghost predicate StageOk(c: Config, s: State, id: nat, w: Writer, target: Artifact, stage: Stage) {
    var content := ArtifactBytes(c, w.evidence, target);
    && |ArtifactBytes(c, w.evidence, Payload)| <= c.maxPayload
    && |ArtifactBytes(c, w.evidence, Commit)| <= c.maxManifest
    && (target.Commit? ==> PublishedBy(s, Payload, id))
    && match stage
       case Append(tag, inode, offset) => offset <= |content| && PrivateFile(s, tag, inode, content[..offset])
       case Link(tag, inode) => PrivateFile(s, tag, inode, content)
       case Cleanup(tag, failure) => TempName(tag) in s.names && (failure.None? ==> PublishedBy(s, target, id))
       case _ => true
  }

  ghost predicate OutcomeOk(c: Config, s: State, w: Writer, o: Outcome) {
    o.Returned? ==>
      && Complete(s) && o.manifest == ManifestFor(c, w.evidence)
      && Payload in s.publisher && s.publisher[Payload] in s.writers
      && s.writers[s.publisher[Payload]].evidence == w.evidence
  }

  ghost predicate ReadOk(c: Config, s: State, p: ReadPhase, sawComplete: bool) {
    && (sawComplete ==> Complete(s))
    && match p
       case SeekPayload => !sawComplete
       case SeekManifest => true
       case LoadManifest => Complete(s)
       case LoadPayload(bytes) => Complete(s) && Content(s, ArtifactName(Commit)) == Some(bytes)
       case ReadBroken(_) => true
       case ReadDone(Failure(error)) => error == Incomplete && !sawComplete
       case ReadDone(Success((m, e))) => Complete(s) && Accepted(c, s, m, e)
  }

  /** The record's evidence is the publisher's. */
  ghost predicate Accepted(c: Config, s: State, m: Manifest, e: Evidence) {
    && Payload in s.publisher && s.publisher[Payload] in s.writers
    && e == s.writers[s.publisher[Payload]].evidence && m == ManifestFor(c, e)
  }

  ghost predicate WriterOk(c: Config, s: State, id: nat, w: Writer) {
    && KeyOf(c, w.evidence) == c.key
    && match w.phase
       case ProbeManifest(_) => |ArtifactBytes(c, w.evidence, Payload)| <= c.maxPayload
       case ProbePayload => |ArtifactBytes(c, w.evidence, Payload)| <= c.maxPayload
       case Compare(SeekPayload) => Complete(s)
       case Compare(read) => ReadOk(c, s, read, true)
       case Materialize(target, stage) => StageOk(c, s, id, w, target, stage)
       case ReleaseOpen(o) => OutcomeOk(c, s, w, o)
       case ReleaseClose(o) => OutcomeOk(c, s, w, o)
       case ReleaseUnlink(o) => OutcomeOk(c, s, w, o)
       case Done(o) => OutcomeOk(c, s, w, o)
       case _ => true
  }

  ghost predicate DistinctTags(s: State) {
    forall i, j | i in s.writers && j in s.writers && i != j && TagOf(s.writers[i]).Some? ::
      TagOf(s.writers[i]) != TagOf(s.writers[j])
  }

  ghost predicate Inv(c: Config, s: State) {
    && FilesOk(c, s) && DistinctTags(s)
    && (forall id | id in s.writers :: WriterOk(c, s, id, s.writers[id]))
    && (forall id | id in s.readers :: ReadOk(c, s, s.readers[id].phase, s.readers[id].sawComplete))
  }

  // ---------------------------------------------------------------- what every step keeps

  /** Published artifacts, and who wrote what, survive. */
  ghost predicate Keeps(s: State, t: State) {
    && s.writers.Keys == t.writers.Keys
    && (forall id | id in s.writers :: s.writers[id].evidence == t.writers[id].evidence)
    && (forall a | a in s.publisher :: a in t.publisher && t.publisher[a] == s.publisher[a])
    && (forall a | ArtifactName(a) in s.names ::
          Names(t, ArtifactName(a), s.names[ArtifactName(a)])
              && Content(t, ArtifactName(a)) == Content(s, ArtifactName(a)))
  }

  ghost predicate PrivateKept(s: State, t: State, except: Option<nat>) {
    && (forall tag: nat, inode, content | PrivateFile(s, tag, inode, content) && except != Some(tag) ::
          PrivateFile(t, tag, inode, content))
    && (forall tag: nat | TempName(tag) in s.names && except != Some(tag) :: TempName(tag) in t.names)
  }

  lemma KeepsTransitive(s: State, t: State, u: State)
    requires Keeps(s, t) && Keeps(t, u)
    ensures Keeps(s, u)
  {
  }

  lemma ReadFrame(c: Config, s: State, t: State, p: ReadPhase, saw: bool)
    requires ReadOk(c, s, p, saw) && Keeps(s, t)
    ensures ReadOk(c, t, p, saw)
  {
  }

  lemma WriterFrame(c: Config, s: State, t: State, id: nat, w: Writer, except: Option<nat>)
    requires WriterOk(c, s, id, w) && Keeps(s, t) && PrivateKept(s, t, except)
    requires except.Some? ==> TagOf(w) != except
    ensures WriterOk(c, t, id, w)
  {
    match w.phase
    case Compare(read) => if !read.SeekPayload? { ReadFrame(c, s, t, read, true); }
    case _ =>
  }

  /** One reading step, given that the record on disk is well formed. */
  lemma ReadStepOk(c: Config, s: State, p: ReadPhase, saw: bool, fault: ReadFault)
    requires Faithful(c) && Inv(c, s)
    requires p.SeekPayload? || ReadOk(c, s, p, saw)
    requires saw ==> Complete(s)
    ensures ReadOk(c, s, ReadNext(c, s, p, fault), saw)
  {
    match p
    case LoadPayload(bytes) =>
      var e := s.writers[s.publisher[Payload]].evidence;
      assert WriterOk(c, s, s.publisher[Payload], s.writers[s.publisher[Payload]]);
      assert Validate(c, bytes, c.encodeEvidence(e)) == Success((ManifestFor(c, e), e));
    case _ =>
  }

  // ---------------------------------------------------------------- file operations

  /** A step that only moves one writer forward. */
  lemma MoveWriter(c: Config, s: State, id: nat, w: Writer)
    requires Inv(c, s) && id in s.writers && w.evidence == s.writers[id].evidence
    requires TagOf(w).Some? ==> TagOf(w) == TagOf(s.writers[id])
    requires WriterOk(c, s, id, w)
    ensures Inv(c, SetWriter(s, id, w)) && Keeps(s, SetWriter(s, id, w))
  {
    Acted(c, s, s, id, w, None);
  }

  /** Everyone but the acting writer is untouched by a step that keeps published and private files. */
  lemma AllFramed(c: Config, s: State, t: State, id: nat, except: Option<nat>)
    requires Inv(c, s) && Keeps(s, t) && PrivateKept(s, t, except)
    requires except.Some? ==> forall j | j in s.writers && j != id :: TagOf(s.writers[j]) != except
    requires forall j | j in s.writers && j != id :: t.writers[j] == s.writers[j]
    ensures forall j | j in t.writers && j != id :: WriterOk(c, t, j, t.writers[j])
    ensures forall j | j in s.readers :: ReadOk(c, t, s.readers[j].phase, s.readers[j].sawComplete)
  {
    forall j | j in t.writers && j != id ensures WriterOk(c, t, j, t.writers[j]) {
      WriterFrame(c, s, t, j, s.writers[j], except);
    }
    forall j | j in s.readers ensures ReadOk(c, t, s.readers[j].phase, s.readers[j].sawComplete) {
      ReadFrame(c, s, t, s.readers[j].phase, s.readers[j].sawComplete);
    }
  }

  lemma CreateFiles(c: Config, s: State, n: Name, i: Inode, stamp: nat)
    requires FilesOk(c, s) && n !in s.names && i !in s.names.Values && !n.ArtifactName?
    ensures FilesOk(c, CreateFile(s, n, i, stamp))
  {
    assert forall m | m in s.names :: s.names[m] in s.names.Values;
    assert Payload in s.publisher ==> ArtifactName(Payload) in s.names;
    assert Commit in s.publisher ==> ArtifactName(Commit) in s.names;
  }

  lemma CreateKeeps(c: Config, s: State, n: Name, i: Inode, stamp: nat)
    requires FilesOk(c, s) && n !in s.names && i !in s.names.Values && !n.ArtifactName?
    ensures var t := CreateFile(s, n, i, stamp);
            FilesOk(c, t) && Keeps(s, t) && PrivateKept(s, t, None)
            && (n.TempName? ==> PrivateFile(t, n.tag, i, []))
  {
    CreateFiles(c, s, n, i, stamp);
    assert forall m | m in s.names :: s.names[m] in s.names.Values;
  }

  lemma DropKeeps(c: Config, s: State, n: Name)
    requires FilesOk(c, s) && !n.ArtifactName?
    ensures var t := s.(names := s.names - {n});
            && FilesOk(c, t) && Keeps(s, t)
            && PrivateKept(s, t, if n.TempName? then Some(n.tag) else None)
  {
  }

  lemma AppendKeeps(c: Config, s: State, tag: nat, i: Inode, content: Bytes, more: Bytes)
    requires FilesOk(c, s) && PrivateFile(s, tag, i, content)
    ensures var t := s.(disk := s.disk[i := s.disk[i].(content := content + more)]);
            && FilesOk(c, t) && Keeps(s, t) && PrivateKept(s, t, Some(tag))
            && PrivateFile(t, tag, i, content + more)
  {
    assert ArtifactName(Payload) in s.names ==> s.names[ArtifactName(Payload)] != i;
    assert ArtifactName(Commit) in s.names ==> s.names[ArtifactName(Commit)] != i;
  }

  lemma PublishKeeps(c: Config, s: State, id: nat, tag: nat, i: Inode, a: Artifact)
    requires FilesOk(c, s) && id in s.writers && ArtifactName(a) !in s.names
    requires PrivateFile(s, tag, i, ArtifactBytes(c, s.writers[id].evidence, a))
    requires |ArtifactBytes(c, s.writers[id].evidence, a)| <= (if a.Payload? then c.maxPayload else c.maxManifest)
    requires a.Commit? ==> PublishedBy(s, Payload, id)
    ensures var t := s.(names := s.names[ArtifactName(a) := i], publisher := s.publisher[a := id]);
            FilesOk(c, t) && Keeps(s, t) && PrivateKept(s, t, Some(tag))
  {
  }

  lemma QuarantineKeeps(c: Config, s: State, i: Inode, stamp: nat)
    requires FilesOk(c, s) && LockName in s.names && QuarantineName(i, stamp) !in s.names
    ensures var t := s.(names := s.names[QuarantineName(i, stamp) := s.names[LockName]]);
            FilesOk(c, t) && Keeps(s, t) && PrivateKept(s, t, None)
  {
  }

  // ---------------------------------------------------------------- preservation

  lemma UnusedTag(c: Config, s: State, tag: nat)
    requires Inv(c, s) && TempName(tag) !in s.names
    ensures FreshTag(s, tag)
  {
    forall j | j in s.writers ensures TagOf(s.writers[j]) != Some(tag) {
      assert WriterOk(c, s, j, s.writers[j]);
    }
  }

  lemma CreatedWriter(c: Config, s: State, u: State, id: nat, w: Writer, target: Artifact, tag: nat, inode: Inode)
    requires WriterOk(c, s, id, w) && w.phase == Materialize(target, Create) && Keeps(s, u)
        && PrivateFile(u, tag, inode, [])
    ensures WriterOk(c, u, id, w.(phase := Materialize(target, Append(tag, inode, 0))))
  {
    assert ArtifactBytes(c, w.evidence, target)[..0] == [];
  }

  lemma CreatePreserves(c: Config, s: State, a: Action, target: Artifact)
    requires Inv(c, s) && a.WriterStep? && a.writer in s.writers
    requires s.writers[a.writer].phase == Materialize(target, Create)
    ensures Inv(c, MaterializeNext(c, s, a, target, Create)) && Keeps(s, MaterializeNext(c, s, a, target, Create))
  {
    var id := a.writer;
    var t := MaterializeNext(c, s, a, target, Create);
    assert WriterOk(c, s, id, s.writers[id]);
    if a.fault {
      MoveWriter(c, s, id, t.writers[id]);
    } else if TempName(a.tag) !in s.names && !Live(s, a.inode) {
      var u := CreateFile(s, TempName(a.tag), a.inode, a.stamp);
      CreateKeeps(c, s, TempName(a.tag), a.inode, a.stamp);
      UnusedTag(c, s, a.tag);
      CreatedWriter(c, s, u, id, s.writers[id], target, a.tag, a.inode);
      Acted(c, s, u, id, t.writers[id], None);
    }
  }

  /** The file with more bytes at its end. */
  function WithMore(s: State, inode: Inode, more: Bytes): State
    requires inode in s.disk
  {
    s.(disk := s.disk[inode := s.disk[inode].(content := s.disk[inode].content + more)])
  }

  lemma AppendNext(c: Config, s: State, a: Action, target: Artifact, tag: nat, inode: Inode, offset: nat)
    requires a.WriterStep? && a.writer in s.writers && !a.fault && a.chunk > 0 && inode in s.disk
    requires offset + a.chunk <= |ArtifactBytes(c, s.writers[a.writer].evidence, target)|
    ensures MaterializeNext(c, s, a, target, Append(tag, inode, offset))
         == SetWriter(WithMore(s, inode,
             ArtifactBytes(c, s.writers[a.writer].evidence, target)[offset..offset + a.chunk]), a.writer,
                      s.writers[a.writer].(phase := Materialize(target, Append(tag, inode, offset + a.chunk))))
  {
  }

  /** A writer that has appended more is justified in the state with the longer file. */
  lemma AppendedWriter(c: Config, s: State, id: nat, w: Writer, target: Artifact, tag: nat, inode: Inode, offset: nat,
      next: nat)
    requires FilesOk(c, s) && WriterOk(c, s, id, w) && w.phase == Materialize(target, Append(tag, inode, offset))
    requires offset <= next <= |ArtifactBytes(c, w.evidence, target)|
    ensures inode in s.disk
    ensures var u := WithMore(s, inode, ArtifactBytes(c, w.evidence, target)[offset..next]);
            && FilesOk(c, u) && Keeps(s, u) && PrivateKept(s, u, Some(tag))
            && WriterOk(c, u, id, w.(phase := Materialize(target, Append(tag, inode, next))))
  {
    var content := ArtifactBytes(c, w.evidence, target);
    assert content[..offset] + content[offset..next] == content[..next];
    AppendKeeps(c, s, tag, inode, content[..offset], content[offset..next]);
  }

  lemma AppendWrites(c: Config, s: State, a: Action, target: Artifact, tag: nat, inode: Inode, offset: nat)
    requires Inv(c, s) && a.WriterStep? && a.writer in s.writers && !a.fault && a.chunk > 0
    requires s.writers[a.writer].phase == Materialize(target, Append(tag, inode, offset))
    requires offset + a.chunk <= |ArtifactBytes(c, s.writers[a.writer].evidence, target)|
    ensures var t := MaterializeNext(c, s, a, target, Append(tag, inode, offset)); Inv(c, t) && Keeps(s, t)
  {
    var id, next := a.writer, offset + a.chunk;
    var w := s.writers[id];
    var w' := w.(phase := Materialize(target, Append(tag, inode, next)));
    var more := ArtifactBytes(c, w.evidence, target)[offset..next];
    assert inode in s.disk && FilesOk(c, WithMore(s, inode, more)) && Keeps(s, WithMore(s, inode, more))
        && PrivateKept(s, WithMore(s, inode, more), Some(tag)) && WriterOk(c, WithMore(s, inode, more), id, w') by {
      assert WriterOk(c, s, id, w);
      AppendedWriter(c, s, id, w, target, tag, inode, offset, next);
    }
    var u := WithMore(s, inode, more);
    assert MaterializeNext(c, s, a, target, Append(tag, inode, offset)) == SetWriter(u, id, w') by {
      AppendNext(c, s, a, target, tag, inode, offset);
    }
    Acted(c, s, u, id, w', Some(tag));
  }

  /** Writing stops: on a fault, or when everything is written. */
  lemma AppendStops(c: Config, s: State, a: Action, target: Artifact, tag: nat, inode: Inode, offset: nat)
    requires Inv(c, s) && a.WriterStep? && a.writer in s.writers
    requires s.writers[a.writer].phase == Materialize(target, Append(tag, inode, offset))
    requires var size := |ArtifactBytes(c, s.writers[a.writer].evidence, target)|;
             a.fault || (a.chunk == 0 && offset < size) || offset >= size
    ensures var t := MaterializeNext(c, s, a, target, Append(tag, inode, offset)); Inv(c, t) && Keeps(s, t)
  {
    var content := ArtifactBytes(c, s.writers[a.writer].evidence, target);
    assert WriterOk(c, s, a.writer, s.writers[a.writer]);
    assert content[..|content|] == content;
    MoveWriter(c, s, a.writer, MaterializeNext(c, s, a, target, Append(tag, inode, offset)).writers[a.writer]);
  }

  lemma AppendPreserves(c: Config, s: State, a: Action, target: Artifact, tag: nat, inode: Inode, offset: nat)
    requires Inv(c, s) && a.WriterStep? && a.writer in s.writers
    requires s.writers[a.writer].phase == Materialize(target, Append(tag, inode, offset))
    ensures var t := MaterializeNext(c, s, a, target, Append(tag, inode, offset)); Inv(c, t) && Keeps(s, t)
  {
    var size := |ArtifactBytes(c, s.writers[a.writer].evidence, target)|;
    if a.fault || (a.chunk == 0 && offset < size) || offset >= size {
      AppendStops(c, s, a, target, tag, inode, offset);
    } else if offset + a.chunk <= size {
      AppendWrites(c, s, a, target, tag, inode, offset);
    } else {
      AppendWaits(c, s, a, target, tag, inode, offset);
    }
  }

  /** A write never accepts more than it is given. */
  lemma AppendWaits(c: Config, s: State, a: Action, target: Artifact, tag: nat, inode: Inode, offset: nat)
    requires Inv(c, s) && a.WriterStep? && a.writer in s.writers && !a.fault && a.chunk > 0
    requires s.writers[a.writer].phase == Materialize(target, Append(tag, inode, offset))
    requires var size := |ArtifactBytes(c, s.writers[a.writer].evidence, target)|; offset < size < offset + a.chunk
    ensures var t := MaterializeNext(c, s, a, target, Append(tag, inode, offset)); Inv(c, t) && Keeps(s, t)
  {
    assert WriterOk(c, s, a.writer, s.writers[a.writer]);
  }

  lemma LinkPreserves(c: Config, s: State, a: Action, target: Artifact, tag: nat, inode: Inode)
    requires Inv(c, s) && a.WriterStep? && a.writer in s.writers
    requires s.writers[a.writer].phase == Materialize(target, Link(tag, inode))
    ensures var t := MaterializeNext(c, s, a, target, Link(tag, inode)); Inv(c, t) && Keeps(s, t)
  {
    var id := a.writer;
    var t := MaterializeNext(c, s, a, target, Link(tag, inode));
    assert WriterOk(c, s, id, s.writers[id]);
    if ArtifactName(target) in s.names || a.fault {
      MoveWriter(c, s, id, t.writers[id]);
    } else {
      PublishKeeps(c, s, id, tag, inode, target);
      Acted(c, s, s.(names := t.names, publisher := t.publisher), id, t.writers[id], Some(tag));
    }
  }

  lemma CleanupPreserves(c: Config, s: State, a: Action, target: Artifact, tag: nat, failure: Option<Error>)
    requires Inv(c, s) && a.WriterStep? && a.writer in s.writers
    requires s.writers[a.writer].phase == Materialize(target, Cleanup(tag, failure))
    ensures var t := MaterializeNext(c, s, a, target, Cleanup(tag, failure)); Inv(c, t) && Keeps(s, t)
  {
    var id := a.writer;
    var t := MaterializeNext(c, s, a, target, Cleanup(tag, failure));
    assert WriterOk(c, s, id, s.writers[id]);
    DropKeeps(c, s, TempName(tag));
    Acted(c, s, s.(names := t.names), id, t.writers[id], Some(tag));
  }

  lemma MaterializePreserves(c: Config, s: State, a: Action, target: Artifact, stage: Stage)
    requires Inv(c, s) && a.WriterStep? && a.writer in s.writers
    requires s.writers[a.writer].phase == Materialize(target, stage)
    ensures Inv(c, MaterializeNext(c, s, a, target, stage)) && Keeps(s, MaterializeNext(c, s, a, target, stage))
  {
    match stage
    case Check =>
      assert WriterOk(c, s, a.writer, s.writers[a.writer]);
      MoveWriter(c, s, a.writer, MaterializeNext(c, s, a, target, stage).writers[a.writer]);
    case Create => CreatePreserves(c, s, a, target);
    case Append(tag, inode, offset) => AppendPreserves(c, s, a, target, tag, inode, offset);
    case Link(tag, inode) => LinkPreserves(c, s, a, target, tag, inode);
    case Cleanup(tag, failure) => CleanupPreserves(c, s, a, target, tag, failure);
  }

  /** The acting writer's new record is justified after its file operation u. */
  lemma Acted(c: Config, s: State, u: State, id: nat, w: Writer, except: Option<nat>)
    requires Inv(c, s) && id in s.writers && w.evidence == s.writers[id].evidence
    requires u.writers == s.writers && u.readers == s.readers
    requires FilesOk(c, u) && Keeps(s, u) && PrivateKept(s, u, except)
    requires except.Some? ==> except == TagOf(s.writers[id])
    requires TagOf(w).Some? ==> TagOf(w) == TagOf(s.writers[id]) || FreshTag(s, TagOf(w).value)
    requires WriterOk(c, u, id, w)
    ensures Inv(c, SetWriter(u, id, w)) && Keeps(s, SetWriter(u, id, w))
  {
    var t := SetWriter(u, id, w);
    SetWriterFiles(c, u, id, w);
    KeepsTransitive(s, u, t);
    assert PrivateKept(s, t, except);
    assert WriterOk(c, t, id, w) by { WriterFrame(c, u, t, id, w, None); }
    AllFramed(c, s, t, id, except);
    TagsStayDistinct(s, t, id);
  }

  lemma SetWriterFiles(c: Config, u: State, id: nat, w: Writer)
    requires FilesOk(c, u) && id in u.writers && w.evidence == u.writers[id].evidence
    ensures var t := SetWriter(u, id, w); FilesOk(c, t) && Keeps(u, t) && PrivateKept(u, t, None)
  {
  }

  lemma TagsStayDistinct(s: State, t: State, id: nat)
    requires DistinctTags(s) && id in s.writers && t.writers.Keys == s.writers.Keys
    requires forall j | j in s.writers && j != id :: t.writers[j] == s.writers[j]
    requires var w := t.writers[id];
             TagOf(w).Some? ==> TagOf(w) == TagOf(s.writers[id]) || FreshTag(s, TagOf(w).value)
    ensures DistinctTags(t)
  {
  }

  ghost predicate FreshTag(s: State, tag: nat) {
    forall id | id in s.writers :: TagOf(s.writers[id]) != Some(tag)
  }

  lemma AcquirePreserves(c: Config, s: State, a: Action)
    requires Inv(c, s) && a.WriterStep? && a.writer in s.writers && s.writers[a.writer].phase.Ready?
    ensures Inv(c, WriterNext(c, s, a)) && Keeps(s, WriterNext(c, s, a))
  {
    var id := a.writer;
    var w := s.writers[id];
    var t := WriterNext(c, s, a);
    assert WriterOk(c, s, id, w);
    if |c.encodeEvidence(w.evidence)| > c.maxPayload || LockName in s.names {
      MoveWriter(c, s, id, t.writers[id]);
    } else if !Live(s, a.inode) {
      CreateKeeps(c, s, LockName, a.inode, a.stamp);
      Acted(c, s, CreateFile(s, LockName, a.inode, a.stamp), id, t.writers[id], None);
    }
  }

  lemma ProbePreserves(c: Config, s: State, a: Action)
    requires Inv(c, s) && a.WriterStep? && a.writer in s.writers
    requires s.writers[a.writer].phase.ProbePayload? || s.writers[a.writer].phase.ProbeManifest?
    ensures Inv(c, WriterNext(c, s, a)) && Keeps(s, WriterNext(c, s, a))
  {
    assert WriterOk(c, s, a.writer, s.writers[a.writer]);
    MoveWriter(c, s, a.writer, WriterNext(c, s, a).writers[a.writer]);
  }

  lemma UnlinkPreserves(c: Config, s: State, a: Action, outcome: Outcome)
    requires Inv(c, s) && a.WriterStep? && a.writer in s.writers
    requires s.writers[a.writer].phase == ReleaseUnlink(outcome) && OwnsLockName(s, s.writers[a.writer].lock)
    ensures Inv(c, WriterNext(c, s, a)) && Keeps(s, WriterNext(c, s, a))
  {
    assert WriterOk(c, s, a.writer, s.writers[a.writer]);
    DropKeeps(c, s, LockName);
    Acted(c, s, s.(names := s.names - {LockName}), a.writer, WriterNext(c, s, a).writers[a.writer], None);
  }

  lemma ReleasePreserves(c: Config, s: State, a: Action, outcome: Outcome)
    requires Inv(c, s) && a.WriterStep? && a.writer in s.writers
    requires s.writers[a.writer].phase in {ReleaseOpen(outcome), ReleaseClose(outcome), ReleaseUnlink(outcome)}
    ensures Inv(c, WriterNext(c, s, a)) && Keeps(s, WriterNext(c, s, a))
  {
    var w := s.writers[a.writer];
    if w.phase.ReleaseUnlink? && OwnsLockName(s, w.lock) {
      UnlinkPreserves(c, s, a, outcome);
    } else {
      assert WriterOk(c, s, a.writer, w);
      MoveWriter(c, s, a.writer, WriterNext(c, s, a).writers[a.writer]);
    }
  }

  lemma WriterPreserves(c: Config, s: State, a: Action)
    requires Faithful(c) && Inv(c, s) && a.WriterStep? && a.writer in s.writers
    ensures Inv(c, WriterNext(c, s, a)) && Keeps(s, WriterNext(c, s, a))
  {
    match s.writers[a.writer].phase
    case Ready => AcquirePreserves(c, s, a);
    case ProbePayload => ProbePreserves(c, s, a);
    case ProbeManifest(_) => ProbePreserves(c, s, a);
    case Compare(read) => ComparePreserves(c, s, a, read);
    case Materialize(target, stage) => MaterializePreserves(c, s, a, target, stage);
    case ReleaseOpen(outcome) => ReleasePreserves(c, s, a, outcome);
    case ReleaseClose(outcome) => ReleasePreserves(c, s, a, outcome);
    case ReleaseUnlink(outcome) => ReleasePreserves(c, s, a, outcome);
    case Done(_) =>
    case Crashed =>
  }

  lemma ComparePreserves(c: Config, s: State, a: Action, read: ReadPhase)
    requires Faithful(c) && Inv(c, s) && a.WriterStep? && a.writer in s.writers
    requires s.writers[a.writer].phase == Compare(read)
    ensures Inv(c, WriterNext(c, s, a)) && Keeps(s, WriterNext(c, s, a))
  {
    var id := a.writer;
    var w := s.writers[id];
    assert WriterOk(c, s, id, w);
    if !read.ReadDone? && !read.ReadBroken? {
      ReadStepOk(c, s, read, true, a.readFault);
    }
    MoveWriter(c, s, id, WriterNext(c, s, a).writers[id]);
  }

  lemma OperatorBystands(s: State, id: nat)
    requires id in s.operators
    ensures OperatorNext(s, id).writers == s.writers && OperatorNext(s, id).readers == s.readers
  {
    match s.operators[id]
    case Inspect =>
    case Confirm(_, _) =>
    case LinkAway(_, _) =>
    case Verify(_, _) =>
    case Unlink(_, _) =>
    case Finished =>
  }

  lemma OperatorPreserves(c: Config, s: State, id: nat)
    requires Inv(c, s) && id in s.operators
    ensures Inv(c, OperatorNext(s, id)) && Keeps(s, OperatorNext(s, id))
  {
    OperatorBystands(s, id);
    OperatorFiles(c, s, id);
    BystanderPreserves(c, s, OperatorNext(s, id));
  }

  lemma OperatorLinks(c: Config, s: State, id: nat, i: Inode, stamp: nat)
    requires FilesOk(c, s) && id in s.operators && s.operators[id] == LinkAway(i, stamp)
    ensures var t := OperatorNext(s, id); FilesOk(c, t) && Keeps(s, t) && PrivateKept(s, t, None)
  {
    var t := OperatorNext(s, id);
    if LockName in s.names && QuarantineName(i, stamp) !in s.names {
      QuarantineKeeps(c, s, i, stamp);
    }
    OperatorFrame(c, s.(names := t.names), t);
  }

  lemma OperatorUnlinks(c: Config, s: State, id: nat)
    requires FilesOk(c, s) && id in s.operators && s.operators[id].Unlink?
    ensures var t := OperatorNext(s, id); FilesOk(c, t) && Keeps(s, t) && PrivateKept(s, t, None)
  {
    var t := OperatorNext(s, id);
    DropKeeps(c, s, LockName);
    OperatorFrame(c, s.(names := t.names), t);
  }

  lemma OperatorFiles(c: Config, s: State, id: nat)
    requires FilesOk(c, s) && id in s.operators
    ensures var t := OperatorNext(s, id); FilesOk(c, t) && Keeps(s, t) && PrivateKept(s, t, None)
  {
    match s.operators[id]
    case LinkAway(i, stamp) => OperatorLinks(c, s, id, i, stamp);
    case Unlink(_, _) => OperatorUnlinks(c, s, id);
    case _ => OperatorFrame(c, s, OperatorNext(s, id));
  }

  lemma OperatorFrame(c: Config, u: State, t: State)
    requires FilesOk(c, u) && t == u.(operators := t.operators)
    ensures FilesOk(c, t) && Keeps(u, t) && PrivateKept(u, t, None)
  {
  }

  /** A step by nobody who holds a temporary file. */
  lemma BystanderPreserves(c: Config, s: State, t: State)
    requires Inv(c, s) && FilesOk(c, t) && Keeps(s, t) && PrivateKept(s, t, None)
    requires t.writers == s.writers
    requires t.readers.Keys == s.readers.Keys
    requires forall j | j in t.readers ::
               t.readers[j] == s.readers[j] || ReadOk(c, t, t.readers[j].phase, t.readers[j].sawComplete)
    ensures Inv(c, t)
  {
    forall j | j in t.writers ensures WriterOk(c, t, j, t.writers[j]) {
      WriterFrame(c, s, t, j, s.writers[j], None);
    }
    forall j | j in t.readers ensures ReadOk(c, t, t.readers[j].phase, t.readers[j].sawComplete) {
      if t.readers[j] == s.readers[j] {
        ReadFrame(c, s, t, s.readers[j].phase, s.readers[j].sawComplete);
      }
    }
  }

  lemma ReaderPreserves(c: Config, s: State, id: nat, fault: ReadFault)
    requires Faithful(c) && Inv(c, s) && id in s.readers
    ensures var t := Next(c, s, ReaderStep(id, fault)); Inv(c, t) && Keeps(s, t)
  {
    var t := Next(c, s, ReaderStep(id, fault));
    ReadStepOk(c, s, s.readers[id].phase, t.readers[id].sawComplete, fault);
    ReadFrame(c, s, t, t.readers[id].phase, t.readers[id].sawComplete);
    BystanderPreserves(c, s, t);
  }

  /** Every step of every process keeps the invariant and everything already published. */
  lemma StepPreserves(c: Config, s: State, a: Action)
    requires Faithful(c) && Inv(c, s)
    ensures Inv(c, Next(c, s, a)) && Keeps(s, Next(c, s, a))
  {
    match a
    case WriterStep(id, _, _, _, _, _, _) => if id in s.writers { WriterPreserves(c, s, a); }
    case WriterCrash(id) =>
      if id in s.writers && !s.writers[id].phase.Done? {
        assert WriterOk(c, s, id, s.writers[id]);
        MoveWriter(c, s, id, s.writers[id].(phase := Crashed));
      }
    case ReaderStep(id, fault) => if id in s.readers { ReaderPreserves(c, s, id, fault); }
    case OperatorStep(id) => if id in s.operators { OperatorPreserves(c, s, id); }
  }

  lemma {:induction false} RunPreserves(c: Config, s: State, actions: seq<Action>)
    requires Faithful(c) && Inv(c, s)
    ensures Inv(c, Run(c, s, actions)) && Keeps(s, Run(c, s, actions))
    decreases |actions|
  {
    if actions != [] {
      var before := actions[..|actions| - 1];
      RunPreserves(c, s, before);
      StepPreserves(c, Run(c, s, before), actions[|actions| - 1]);
      KeepsTransitive(s, Run(c, s, before), Run(c, s, actions));
    }
  }

  // ---------------------------------------------------------------- main results

  lemma InitialInv(c: Config, s: State)
    requires Initial(c, s)
    ensures Inv(c, s)
  {
  }

  lemma RunSnoc(c: Config, s: State, actions: seq<Action>, a: Action)
    ensures Run(c, s, actions + [a]) == Next(c, Run(c, s, actions), a)
  {
    assert (actions + [a])[..|actions|] == actions;
  }

  lemma {:induction false} RunSplit(c: Config, s: State, before: seq<Action>, after: seq<Action>)
    ensures Run(c, s, before + after) == Run(c, Run(c, s, before), after)
    decreases |after|
  {
    if after == [] {
      assert before + after == before;
    } else {
      var front, a := after[..|after| - 1], after[|after| - 1];
      RunSplit(c, s, before, front);
      RunSnoc(c, s, before + front, a);
      RunSnoc(c, Run(c, s, before), front, a);
      assert front + [a] == after && before + front + [a] == before + after;
    }
  }

  /** In every reachable state a commit marker implies a whole payload of the same writer, and the marker
      binds that payload. */
  lemma CommitBindsPayload(c: Config, s: State, actions: seq<Action>)
    requires Faithful(c) && Initial(c, s)
    ensures var t := Run(c, s, actions);
            ArtifactName(Commit) in t.names ==>
              exists id | id in s.writers ::
                var e := s.writers[id].evidence;
                && KeyOf(c, e) == c.key
                && Content(t, ArtifactName(Payload)) == Some(c.encodeEvidence(e))
                && Content(t, ArtifactName(Commit)) == Some(c.encodeManifest(ManifestFor(c, e)))
                && Validate(c, c.encodeManifest(ManifestFor(c, e)), c.encodeEvidence(e))
                   == Success((ManifestFor(c, e), e))
  {
    InitialInv(c, s);
    RunPreserves(c, s, actions);
    var t := Run(c, s, actions);
    if ArtifactName(Commit) in t.names {
      var id := t.publisher[Commit];
      assert WriterOk(c, t, id, t.writers[id]);
      assert t.writers[id].evidence == s.writers[id].evidence;
    }
  }

  lemma Reachable(c: Config, s: State, before: seq<Action>, after: seq<Action>)
    requires Faithful(c) && Initial(c, s)
    ensures Inv(c, Run(c, s, before)) && Inv(c, Run(c, s, before + after))
    ensures Keeps(s, Run(c, s, before)) && Keeps(Run(c, s, before), Run(c, s, before + after))
  {
    InitialInv(c, s);
    RunPreserves(c, s, before);
    RunSplit(c, s, before, after);
    RunPreserves(c, Run(c, s, before), after);
  }

  predicate SameFile(t: State, u: State, n: Name) {
    n in t.names && Names(u, n, t.names[n]) && Content(u, n) == Content(t, n)
  }

  /** Once complete, a record keeps its files and their bytes in every later state. */
  lemma CompleteRecordImmutable(c: Config, s: State, before: seq<Action>, after: seq<Action>)
    requires Faithful(c) && Initial(c, s) && Complete(Run(c, s, before))
    ensures SameFile(Run(c, s, before), Run(c, s, before + after), ArtifactName(Payload))
    ensures SameFile(Run(c, s, before), Run(c, s, before + after), ArtifactName(Commit))
  {
    Reachable(c, s, before, after);
  }

  /** A writer that will publish nothing more: crashed, failed, releasing or finished. */
  predicate Spent(w: Writer) {
    match w.phase
    case Crashed => true
    case Done(_) => true
    case ReleaseOpen(_) => true
    case ReleaseClose(_) => true
    case ReleaseUnlink(_) => true
    case Materialize(_, Cleanup(_, Some(_))) => true
    case _ => false
  }

  /** The payload is published, the commit marker is not, and the payload's publisher is spent. */
  ghost predicate Stranded(s: State) {
    && ArtifactName(Payload) in s.names && ArtifactName(Commit) !in s.names
    && Payload in s.publisher && s.publisher[Payload] in s.writers && Spent(s.writers[s.publisher[Payload]])
  }

  /** Only the link step of the commit marker publishes it, and a spent writer stays spent. */
  ghost predicate Effect(s: State, t: State, id: nat) {
    && id in s.writers && id in t.writers
    && t.writers == s.writers[id := t.writers[id]]
    && (Spent(s.writers[id]) ==> Spent(t.writers[id]))
    && (ArtifactName(Commit) !in s.names && ArtifactName(Commit) in t.names ==>
          var p := s.writers[id].phase;
          p.Materialize? && p.target.Commit? && p.stage.Link?)
  }

  lemma SetEffect(s: State, u: State, id: nat, w: Writer)
    requires id in s.writers && u.writers == s.writers && (Spent(s.writers[id]) ==> Spent(w))
    requires ArtifactName(Commit) in u.names ==> ArtifactName(Commit) in s.names
    ensures Effect(s, SetWriter(u, id, w), id)
  {
  }

  lemma CreateEffect(c: Config, s: State, a: Action, target: Artifact)
    requires a.WriterStep? && a.writer in s.writers && s.writers[a.writer].phase == Materialize(target, Create)
    ensures Effect(s, MaterializeNext(c, s, a, target, Create), a.writer)
  {
  }

  lemma AppendEffect(c: Config, s: State, a: Action, target: Artifact, tag: nat, inode: Inode, offset: nat)
    requires a.WriterStep? && a.writer in s.writers
    requires s.writers[a.writer].phase == Materialize(target, Append(tag, inode, offset))
    ensures Effect(s, MaterializeNext(c, s, a, target, Append(tag, inode, offset)), a.writer)
  {
  }

  lemma LinkEffect(c: Config, s: State, a: Action, target: Artifact, tag: nat, inode: Inode)
    requires a.WriterStep? && a.writer in s.writers
    requires s.writers[a.writer].phase == Materialize(target, Link(tag, inode))
    ensures Effect(s, MaterializeNext(c, s, a, target, Link(tag, inode)), a.writer)
  {
  }

  lemma CleanupEffect(c: Config, s: State, a: Action, target: Artifact, tag: nat, failure: Option<Error>)
    requires a.WriterStep? && a.writer in s.writers
    requires s.writers[a.writer].phase == Materialize(target, Cleanup(tag, failure))
    ensures Effect(s, MaterializeNext(c, s, a, target, Cleanup(tag, failure)), a.writer)
  {
  }

  lemma MaterializeEffect(c: Config, s: State, a: Action, target: Artifact, stage: Stage)
    requires a.WriterStep? && a.writer in s.writers && s.writers[a.writer].phase == Materialize(target, stage)
    ensures Effect(s, MaterializeNext(c, s, a, target, stage), a.writer)
  {
    match stage
    case Check =>
    case Create => CreateEffect(c, s, a, target);
    case Append(tag, inode, offset) => AppendEffect(c, s, a, target, tag, inode, offset);
    case Link(tag, inode) => LinkEffect(c, s, a, target, tag, inode);
    case Cleanup(tag, failure) => CleanupEffect(c, s, a, target, tag, failure);
  }

  lemma AcquireEffect(c: Config, s: State, a: Action)
    requires a.WriterStep? && a.writer in s.writers && s.writers[a.writer].phase.Ready?
    ensures Effect(s, WriterNext(c, s, a), a.writer)
  {
    var w := s.writers[a.writer];
    if |c.encodeEvidence(w.evidence)| > c.maxPayload || LockName in s.names {
      SetEffect(s, s, a.writer, WriterNext(c, s, a).writers[a.writer]);
    } else if !Live(s, a.inode) {
      SetEffect(s, CreateFile(s, LockName, a.inode, a.stamp), a.writer, WriterNext(c, s, a).writers[a.writer]);
    }
  }

  lemma CompareEffect(c: Config, s: State, a: Action)
    requires a.WriterStep? && a.writer in s.writers && s.writers[a.writer].phase.Compare?
    ensures Effect(s, WriterNext(c, s, a), a.writer)
  {
    SetEffect(s, s, a.writer, WriterNext(c, s, a).writers[a.writer]);
  }

  lemma ReleaseEffect(c: Config, s: State, a: Action)
    requires a.WriterStep? && a.writer in s.writers
    requires var p := s.writers[a.writer].phase; p.ReleaseOpen? || p.ReleaseClose? || p.ReleaseUnlink?
    ensures Effect(s, WriterNext(c, s, a), a.writer)
  {
    SetEffect(s, s.(names := WriterNext(c, s, a).names), a.writer, WriterNext(c, s, a).writers[a.writer]);
  }

  lemma WriterEffect(c: Config, s: State, a: Action)
    requires a.WriterStep? && a.writer in s.writers
    ensures Effect(s, WriterNext(c, s, a), a.writer)
  {
    match s.writers[a.writer].phase
    case Materialize(target, stage) => MaterializeEffect(c, s, a, target, stage);
    case Ready => AcquireEffect(c, s, a);
    case Compare(_) => CompareEffect(c, s, a);
    case ProbePayload => SetEffect(s, s, a.writer, WriterNext(c, s, a).writers[a.writer]);
    case ProbeManifest(_) => SetEffect(s, s, a.writer, WriterNext(c, s, a).writers[a.writer]);
    case ReleaseOpen(_) => ReleaseEffect(c, s, a);
    case ReleaseClose(_) => ReleaseEffect(c, s, a);
    case ReleaseUnlink(_) => ReleaseEffect(c, s, a);
    case Done(_) =>
    case Crashed =>
  }

  lemma SpentStaysSpent(c: Config, s: State, id: nat, a: Action)
    requires id in s.writers && Spent(s.writers[id])
    ensures id in Next(c, s, a).writers && Spent(Next(c, s, a).writers[id])
  {
    match a
    case WriterStep(j, _, _, _, _, _, _) => if j in s.writers { WriterEffect(c, s, a); }
    case OperatorStep(j) => if j in s.operators { OperatorKeepsWriters(s, j); }
    case _ =>
  }

  lemma OperatorPublishesNothing(s: State, id: nat)
    requires id in s.operators && ArtifactName(Commit) !in s.names
    ensures ArtifactName(Commit) !in OperatorNext(s, id).names
  {
    match s.operators[id]
    case LinkAway(_, _) =>
    case _ =>
  }

  lemma CommitOnlyByLink(c: Config, s: State, a: Action)
    requires ArtifactName(Commit) !in s.names && ArtifactName(Commit) in Next(c, s, a).names
    ensures a.WriterStep? && a.writer in s.writers && s.writers[a.writer].phase.Materialize?
    ensures s.writers[a.writer].phase.target.Commit? && s.writers[a.writer].phase.stage.Link?
  {
    match a
    case WriterStep(j, _, _, _, _, _, _) => WriterEffect(c, s, a);
    case OperatorStep(j) => if j in s.operators { OperatorPublishesNothing(s, j); }
    case _ =>
  }

  lemma OperatorKeepsWriters(s: State, id: nat)
    requires id in s.operators
    ensures OperatorNext(s, id).writers == s.writers
  {
    OperatorBystands(s, id);
  }

  lemma CommitterPublished(c: Config, s: State, id: nat)
    requires Inv(c, s) && id in s.writers
    requires s.writers[id].phase.Materialize? && s.writers[id].phase.target.Commit?
    ensures PublishedBy(s, Payload, id)
  {
    assert WriterOk(c, s, id, s.writers[id]);
  }

  /** In every run, the writer that is about to publish a manifest, and no other, published the payload. */
  lemma LinkerOwnsPayload(c: Config, s: State, actions: seq<Action>, a: Action)
    requires Faithful(c) && Initial(c, s)
    requires ArtifactName(Commit) !in Run(c, s, actions).names
    requires ArtifactName(Commit) in Next(c, Run(c, s, actions), a).names
    ensures a.WriterStep? && PublishedBy(Run(c, s, actions), Payload, a.writer)
    ensures Content(Run(c, s, actions), ArtifactName(Payload))
         == Some(c.encodeEvidence(Run(c, s, actions).writers[a.writer].evidence))
  {
    var t := Run(c, s, actions);
    Reachable(c, s, actions, []);
    CommitOnlyByLink(c, t, a);
    CommitterPublished(c, t, a.writer);
    assert PublishedOk(c, t, Payload);
  }

  lemma StrandedStep(c: Config, s: State, a: Action)
    requires Faithful(c) && Inv(c, s) && Stranded(s)
    ensures Stranded(Next(c, s, a))
  {
    StepPreserves(c, s, a);
    SpentStaysSpent(c, s, s.publisher[Payload], a);
    if ArtifactName(Commit) in Next(c, s, a).names {
      CommitOnlyByLink(c, s, a);
      CommitterPublished(c, s, a.writer);
    }
  }

  lemma {:induction false} StrandedRun(c: Config, s: State, actions: seq<Action>)
    requires Faithful(c) && Inv(c, s) && Stranded(s)
    ensures Stranded(Run(c, s, actions))
    decreases |actions|
  {
    if actions != [] {
      var before := actions[..|actions| - 1];
      StrandedRun(c, s, before);
      RunPreserves(c, s, before);
      StrandedStep(c, Run(c, s, before), actions[|actions| - 1]);
    }
  }

  /** No other writer ever completes a partial record whose publisher has crashed or failed. */
  lemma PartialNeverCompleted(c: Config, s: State, before: seq<Action>, after: seq<Action>)
    requires Faithful(c) && Initial(c, s) && Stranded(Run(c, s, before))
    ensures Stranded(Run(c, s, before + after))
  {
    Reachable(c, s, before, after);
    RunSplit(c, s, before, after);
    StrandedRun(c, Run(c, s, before), after);
  }

  /** What a finished process learned about the record, if it succeeded. */
  ghost predicate Learned(s: State, e: Evidence) {
    || (exists id | id in s.writers ::
          s.writers[id].phase.Done? && s.writers[id].phase.outcome.Returned? && s.writers[id].evidence == e)
    || (exists id | id in s.readers ::
          && s.readers[id].phase.ReadDone? && s.readers[id].phase.result.Success?
          && s.readers[id].phase.result.value.1 == e)
  }

  lemma LearnedFromPublisher(c: Config, t: State, e: Evidence)
    requires Inv(c, t) && Learned(t, e)
    ensures Payload in t.publisher && t.publisher[Payload] in t.writers && t.writers[t.publisher[Payload]].evidence == e
  {
    if id :| && id in t.writers && t.writers[id].phase.Done? && t.writers[id].phase.outcome.Returned?
             && t.writers[id].evidence == e {
      assert WriterOk(c, t, id, t.writers[id]);
    } else {
      var id :| id in t.readers && t.readers[id].phase.ReadDone? && t.readers[id].phase.result.Success?
          && t.readers[id].phase.result.value.1 == e;
      assert ReadOk(c, t, t.readers[id].phase, t.readers[id].sawComplete);
    }
  }

  /** All successful writes and reads of one key agree, and what they agree on is on disk. */
  lemma SuccessesAgree(c: Config, s: State, actions: seq<Action>, e: Evidence, f: Evidence)
    requires Faithful(c) && Initial(c, s)
    requires Learned(Run(c, s, actions), e) && Learned(Run(c, s, actions), f)
    ensures e == f && Content(Run(c, s, actions), ArtifactName(Payload)) == Some(c.encodeEvidence(e))
  {
    Reachable(c, s, actions, []);
    LearnedFromPublisher(c, Run(c, s, actions), e);
    LearnedFromPublisher(c, Run(c, s, actions), f);
  }

  ghost predicate AwaitingRead(s: State, id: nat) {
    id in s.readers && s.readers[id].phase.SeekPayload?
  }

  ghost predicate SawRecord(s: State, id: nat) {
    id in s.readers && s.readers[id].sawComplete && !s.readers[id].phase.SeekPayload?
  }

  lemma MaterializeKeepsReaders(c: Config, s: State, a: Action, target: Artifact, stage: Stage)
    requires a.WriterStep? && a.writer in s.writers
    ensures MaterializeNext(c, s, a, target, stage).readers == s.readers
  {
    match stage
    case Check =>
    case Create =>
    case Append(_, _, _) =>
    case Link(_, _) =>
    case Cleanup(_, _) =>
  }

  lemma WriterKeepsReaders(c: Config, s: State, a: Action)
    requires a.WriterStep? && a.writer in s.writers
    ensures WriterNext(c, s, a).readers == s.readers
  {
    if s.writers[a.writer].phase.Materialize? {
      MaterializeKeepsReaders(c, s, a, s.writers[a.writer].phase.target, s.writers[a.writer].phase.stage);
    }
  }

  /** The step of another process leaves a reader where it is. */
  lemma OthersKeepReaders(c: Config, s: State, id: nat, a: Action)
    requires !(a.ReaderStep? && a.reader == id)
    ensures var t := Next(c, s, a);
            if id in s.readers then id in t.readers && t.readers[id] == s.readers[id] else id !in t.readers
  {
    match a
    case WriterStep(w, _, _, _, _, _, _) => if w in s.writers { WriterKeepsReaders(c, s, a); }
    case OperatorStep(o) => if o in s.operators { OperatorBystands(s, o); }
    case _ =>
  }

  lemma OwnReadProgress(c: Config, s: State, id: nat, fault: ReadFault)
    requires Complete(s) && (AwaitingRead(s, id) || SawRecord(s, id))
    ensures SawRecord(Next(c, s, ReaderStep(id, fault)), id)
  {
  }

  lemma ReadProgress(c: Config, s: State, id: nat, a: Action)
    requires Complete(s) && (AwaitingRead(s, id) || SawRecord(s, id))
    ensures AwaitingRead(Next(c, s, a), id) || SawRecord(Next(c, s, a), id)
  {
    if a.ReaderStep? && a.reader == id {
      OwnReadProgress(c, s, id, a.readFault);
    } else {
      OthersKeepReaders(c, s, id, a);
    }
  }

  lemma {:induction false} ReadsSeeCompletion(c: Config, s: State, actions: seq<Action>, id: nat)
    requires Faithful(c) && Inv(c, s) && Complete(s) && AwaitingRead(s, id)
    ensures Complete(Run(c, s, actions))
    ensures AwaitingRead(Run(c, s, actions), id) || SawRecord(Run(c, s, actions), id)
    decreases |actions|
  {
    if actions != [] {
      var before := actions[..|actions| - 1];
      ReadsSeeCompletion(c, s, before, id);
      RunPreserves(c, s, before);
      StepPreserves(c, Run(c, s, before), actions[|actions| - 1]);
      ReadProgress(c, Run(c, s, before), id, actions[|actions| - 1]);
    }
  }

  ghost predicate Broken(s: State, id: nat) {
    id in s.readers && s.readers[id].phase.ReadBroken?
  }

  /** A read has ended, with a result or on a fault. */
  ghost predicate Ended(s: State, id: nat) {
    Broken(s, id) || (id in s.readers && s.readers[id].phase.ReadDone?)
  }

  predicate FaultyStep(a: Action, id: nat) {
    a.ReaderStep? && a.reader == id && !a.readFault.Sound?
  }

  /** The operating system failed some call of a read. */
  ghost predicate MeetsFault(actions: seq<Action>, id: nat) {
    exists i | 0 <= i < |actions| :: FaultyStep(actions[i], id)
  }

  lemma BreaksOnFault(c: Config, s: State, id: nat, a: Action)
    requires !Broken(s, id) && !FaultyStep(a, id)
    ensures !Broken(Next(c, s, a), id)
  {
    if !(a.ReaderStep? && a.reader == id) {
      OthersKeepReaders(c, s, id, a);
    }
  }

  /** A read breaks only on a fault of its own. */
  lemma {:induction false} BrokenByFault(c: Config, s: State, actions: seq<Action>, id: nat)
    requires !Broken(s, id) && !MeetsFault(actions, id)
    ensures !Broken(Run(c, s, actions), id)
    decreases |actions|
  {
    if actions != [] {
      var n := |actions| - 1;
      assert !MeetsFault(actions[..n], id) by {
        assert forall i | 0 <= i < n :: actions[..n][i] == actions[i];
      }
      BrokenByFault(c, s, actions[..n], id);
      assert !FaultyStep(actions[n], id);
      BreaksOnFault(c, Run(c, s, actions[..n]), id, actions[n]);
    }
  }

  /** A read that begins on a complete record never fails but for a fault that it meets itself: it returns the
      evidence of that record. */
  lemma LaterReadsReturnTheRecord(c: Config, s: State, before: seq<Action>, after: seq<Action>, id: nat)
    requires Faithful(c) && Initial(c, s) && Complete(Run(c, s, before)) && AwaitingRead(Run(c, s, before), id)
    requires Ended(Run(c, s, before + after), id)
    ensures Broken(Run(c, s, before + after), id) ==> MeetsFault(after, id)
    ensures !Broken(Run(c, s, before + after), id) ==>
              exists e ::
                && Run(c, s, before + after).readers[id].phase == ReadDone(Success((ManifestFor(c, e), e)))
                && Content(Run(c, s, before), ArtifactName(Payload)) == Some(c.encodeEvidence(e))
  {
    Reachable(c, s, before, after);
    RunSplit(c, s, before, after);
    ReadsSeeCompletion(c, Run(c, s, before), after, id);
    CompleteRecordImmutable(c, s, before, after);
    if !MeetsFault(after, id) {
      BrokenByFault(c, Run(c, s, before), after, id);
    }
    if !Broken(Run(c, s, before + after), id) {
      FinishedRead(c, Run(c, s, before + after), id);
    }
  }

  lemma FinishedRead(c: Config, s: State, id: nat)
    requires Inv(c, s) && Ended(s, id) && !Broken(s, id)
    ensures var r := s.readers[id].phase.result;
            if r.Failure? then r.error == Incomplete && !s.readers[id].sawComplete
            else r.value.0 == ManifestFor(c, r.value.1) && KeyOf(c, r.value.1) == c.key
                 && Content(s, ArtifactName(Payload)) == Some(c.encodeEvidence(r.value.1))
  {
    assert ReadOk(c, s, s.readers[id].phase, s.readers[id].sawComplete);
    if s.readers[id].phase.result.Success? {
      assert WriterOk(c, s, s.publisher[Payload], s.writers[s.publisher[Payload]]);
    }
  }

  /** No read, whenever it begins, reports corruption or evidence nobody wrote, but for a fault that it meets itself:
      it returns the record or finds it incomplete. */
  lemma ReadsNeverReportCorruption(c: Config, s: State, actions: seq<Action>, id: nat)
    requires Faithful(c) && Initial(c, s) && Ended(Run(c, s, actions), id)
    ensures Broken(Run(c, s, actions), id) ==> MeetsFault(actions, id)
    ensures !Broken(Run(c, s, actions), id) ==>
              var r := Run(c, s, actions).readers[id].phase.result;
              || r == Failure(Incomplete)
              || (r.Success? && r.value.0 == ManifestFor(c, r.value.1) && KeyOf(c, r.value.1) == c.key)
  {
    Reachable(c, s, actions, []);
    if !MeetsFault(actions, id) {
      BrokenByFault(c, s, actions, id);
    }
    if !Broken(Run(c, s, actions), id) {
      FinishedRead(c, Run(c, s, actions), id);
    }
  }
}
