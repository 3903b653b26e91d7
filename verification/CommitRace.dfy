/**
Workers committing findings concurrently (app/services/assessment.py, `_run_single_once`,
`_commit_finding`, `_retry_on_locked`): read the idempotency record, check the key again,
store the evidence artifact, commit the rows in one atomic step, and look the winner up when a
constraint was violated. Any step may fail, a failed worker may start over, and any amount of
time may pass before a step.
*/
module CommitRace {
  import opened Common
  import IdemKey

  type Key = string

  /** An idealised digest: equal digests mean equal content. */
  datatype Digest = Sha(content: string)

  /** A finding that was there before, or the one a worker makes in one of its attempts. */
  datatype FindingId = Old(key: Key) | New(worker: nat, attempt: nat)

  /** The evidence id a worker draws in one of its attempts. */
  datatype EvidenceId = Evidence(worker: nat, attempt: nat)

  /**
  What a worker is asked to record: the key and whether the caller named it, and what each of
  its attempts collects (None when it records that nothing could be collected).
  */
  datatype Job = Job(key: Key, explicit: bool, telemetry: nat -> Option<string>)

  /** A read that found the record stale: when it happened, and the finding it saw. */
  datatype Reading = Reading(step: nat, clock: int, seen: FindingId)

  datatype Stage =
    | Begin(attempt: nat)
    | Check(attempt: nat)
    | Store(attempt: nat, renew: Option<Reading>)
    | Commit(attempt: nat, renew: Option<Reading>)
    | Lookup(attempt: nat, keyTaken: bool)
    | Failed(attempt: nat)
    | Done(finding: FindingId)

  /** A finding's key, the stale read that led to it if one did, and when it was committed. */
  datatype Row = Row(key: Key, renew: Option<Reading>, step: nat, at: int)

  datatype Record = Record(finding: FindingId, created: int)

  datatype State = State(
    step: nat,
    clock: int,
    idem: map<Key, Record>,
    findings: map<FindingId, Row>,
    evidence: map<EvidenceId, Digest>,
    store: map<EvidenceId, string>,
    stages: seq<Stage>)

  datatype Action =
    | ReadRecord       // is the record missing, binding or stale?
    | CheckKey         // read the idempotency record again, just before committing
    | StoreArtifact    // the artifact is written
    | CommitRows       // the savepoint is released
    | KeyTaken         // the insert of the idempotency record violates its primary key
    | OtherViolation   // some other constraint is violated
    | LookUpWinner     // the handler reads the idempotency record again
    | Fail             // any step raises
    | FailAfterStoring // the artifact lands, but the store reports an error
    | Retry            // start over

  /** Worker `i` may take `a` now. */
  predicate Enabled(jobs: seq<Job>, s: State, i: nat, a: Action)
    requires i < |jobs| == |s.stages|
  {
    var stage, key := s.stages[i], jobs[i].key;
    match a
    case ReadRecord => stage.Begin?
    case CheckKey => stage.Check?
    case StoreArtifact => stage.Store?
    case FailAfterStoring => stage.Store?
    case CommitRows => stage.Commit? && (stage.renew.Some? || key !in s.idem)
    case KeyTaken => stage.Commit? && stage.renew.None? && key in s.idem
    case OtherViolation => stage.Commit?
    case LookUpWinner => stage.Lookup?
    case Fail => !stage.Done? && !stage.Failed?
    case Retry => stage.Failed?
  }

  /** The record exists, no caller named its key, and it is older than the window. */
  predicate Stale(job: Job, s: State) {
    !job.explicit && job.key in s.idem && s.clock - s.idem[job.key].created > IdemKey.WINDOW
  }

  function AttemptOf(stage: Stage): nat
    requires !stage.Done?
  {
    stage.attempt
  }

  function To(s: State, i: nat, stage: Stage): State
    requires i < |s.stages|
  {
    s.(stages := s.stages[i := stage])
  }

  function WithArtifact(jobs: seq<Job>, s: State, i: nat, n: nat): State
    requires i < |jobs|
  {
    if jobs[i].telemetry(n).Some? then s.(store := s.store[Evidence(i, n) := jobs[i].telemetry(n).value]) else s
  }

  /** All rows of one commit: evidence, finding and idempotency record. */
  function WithRows(jobs: seq<Job>, s: State, i: nat, n: nat, renew: Option<Reading>): State
    requires i < |jobs|
  {
    s.(findings := s.findings[New(i, n) := Row(jobs[i].key, renew, s.step, s.clock)],
       idem := s.idem[jobs[i].key := Record(New(i, n), s.clock)],
       evidence := if jobs[i].telemetry(n).Some? then s.evidence[Evidence(i, n) := Sha(jobs[i].telemetry(n).value)]
           else s.evidence)
  }

  /** The next step begins, `elapsed` later. */
  function Later(s: State, elapsed: nat): State {
    s.(step := s.step + 1, clock := s.clock + elapsed)
  }

  function Step(jobs: seq<Job>, s: State, i: nat, a: Action): State
    requires i < |jobs| == |s.stages| && Enabled(jobs, s, i, a)
  {
    var stage, key := s.stages[i], jobs[i].key;
    var n := AttemptOf(stage);
    match a
    case ReadRecord =>
      if Stale(jobs[i], s) then To(s, i, Store(n, Some(Reading(s.step, s.clock, s.idem[key].finding))))
      else if key in s.idem then To(s, i, Done(s.idem[key].finding))
      else To(s, i, Check(n))
    case CheckKey =>
      if key in s.idem then To(s, i, Done(s.idem[key].finding)) else To(s, i, Store(n, None))
    case StoreArtifact => To(WithArtifact(jobs, s, i, n), i, Commit(n, stage.renew))
    case FailAfterStoring => To(WithArtifact(jobs, s, i, n), i, Failed(n))
    case CommitRows => To(WithRows(jobs, s, i, n, stage.renew), i, Done(New(i, n)))
    case KeyTaken => To(s, i, Lookup(n, true))
    case OtherViolation => To(s, i, Lookup(n, false))
    case LookUpWinner => if key in s.idem then To(s, i, Done(s.idem[key].finding)) else To(s, i, Failed(n))
    case Fail => To(s, i, Failed(n))
    case Retry => To(s, i, Begin(n + 1))
  }

  // ---------- runs ----------

  /** The tables hold one earlier finding for each of `keys`, and no worker has begun. */
  ghost predicate Initial(jobs: seq<Job>, keys: set<Key>, s: State) {
    && s.step == 0 && s.idem.Keys == keys
    && s.findings.Keys == (set k | k in keys :: Old(k))
    && (forall k :: k in keys ==>
          s.idem[k] == Record(Old(k), s.idem[k].created) && s.idem[k].created <= s.clock
          && s.findings[Old(k)] == Row(k, None, 0, s.idem[k].created))
    && s.evidence == map[] && s.store == map[]
    && s.stages == seq(|jobs|, i => Begin(0))
  }

  /** Any interleaving of the workers' steps, newest last, each `elapsed` after the one before. */
  datatype Run = Start(initial: State) | Then(earlier: Run, elapsed: nat, worker: nat, action: Action)

  ghost predicate Possible(jobs: seq<Job>, keys: set<Key>, run: Run) {
    match run
    case Start(s) => Initial(jobs, keys, s)
    case Then(earlier, elapsed, i, a) =>
      && Possible(jobs, keys, earlier) && i < |jobs| == |After(jobs, earlier).stages|
      && Enabled(jobs, Later(After(jobs, earlier), elapsed), i, a)
  }

  /** The state a run leads to; a step that is not possible changes nothing. */
  function After(jobs: seq<Job>, run: Run): State {
    match run
    case Start(s) => s
    case Then(earlier, elapsed, i, a) =>
      var s := Later(After(jobs, earlier), elapsed);
      if i < |jobs| == |s.stages| && Enabled(jobs, s, i, a) then Step(jobs, s, i, a) else After(jobs, earlier)
  }

  // ---------- the invariant ----------

  ghost predicate FindingsKnown(jobs: seq<Job>, s: State) {
    && (forall f :: f in s.findings ==>
          s.findings[f].key in s.idem && s.findings[f].step <= s.step && s.findings[f].at <= s.clock)
    && (forall f :: f in s.findings && f.New? ==>
          f.worker < |jobs| == |s.stages| && s.stages[f.worker] == Done(f) && s.findings[f].key == jobs[f.worker].key)
  }

  /** A record has the newest finding of its key and that finding's time. */
  ghost predicate RecordsNewest(s: State) {
    && (forall k :: k in s.idem ==>
          s.idem[k].finding in s.findings && s.findings[s.idem[k].finding].key == k
          && s.findings[s.idem[k].finding].at == s.idem[k].created)
    && (forall f :: f in s.findings && s.findings[f].key in s.idem ==>
        s.findings[f].at <= s.idem[s.findings[f].key].created)
  }

  /** Of two findings under one key the later one followed a stale read. */
  ghost predicate LaterRenewed(s: State) {
    forall f, g :: f in s.findings && g in s.findings ==> Follows(s, f, g)
  }

  ghost predicate Follows(s: State, f: FindingId, g: FindingId)
    requires f in s.findings && g in s.findings
  {
    f != g && s.findings[f].key == s.findings[g].key && s.findings[f].step <= s.findings[g].step ==>
      s.findings[g].renew.Some? && s.findings[f].step < s.findings[g].step
  }

  /** A stale read saw a finding of its key that was over a window old, and the newest one committed by then. */
  ghost predicate ReadingSound(s: State, key: Key, r: Reading) {
    && r.step <= s.step && r.clock <= s.clock
    && r.seen in s.findings && s.findings[r.seen].key == key && r.clock - s.findings[r.seen].at > IdemKey.WINDOW
    && forall f :: f in s.findings && s.findings[f].key == key && s.findings[f].step <= r.step ==>
         s.findings[f].at <= s.findings[r.seen].at
  }

  ghost predicate RenewalsSound(jobs: seq<Job>, s: State) {
    forall f :: f in s.findings && s.findings[f].renew.Some? ==> RenewalSound(jobs, s, f)
  }

  ghost predicate RenewalSound(jobs: seq<Job>, s: State, f: FindingId)
    requires f in s.findings && s.findings[f].renew.Some?
  {
    && f.New? && f.worker < |jobs| && !jobs[f.worker].explicit
    && ReadingSound(s, s.findings[f].key, s.findings[f].renew.value)
    && s.findings[f].renew.value.clock <= s.findings[f].at && s.findings[f].renew.value.step < s.findings[f].step
  }

  ghost predicate StagesSound(jobs: seq<Job>, s: State) {
    |s.stages| == |jobs| && forall i :: 0 <= i < |jobs| ==> StageSound(jobs, s, i)
  }

  /** The worker may go on to renew. */
  ghost predicate MayRenew(jobs: seq<Job>, s: State, i: nat, renew: Option<Reading>)
    requires i < |jobs|
  {
    renew.Some? ==> !jobs[i].explicit && ReadingSound(s, jobs[i].key, renew.value)
  }

  ghost predicate StageSound(jobs: seq<Job>, s: State, i: nat)
    requires i < |jobs| == |s.stages|
  {
    var stage, key := s.stages[i], jobs[i].key;
    match stage
    case Begin(_) => true
    case Check(_) => true
    case Store(_, renew) => MayRenew(jobs, s, i, renew)
    case Commit(n, renew) => MayRenew(jobs, s, i, renew) && (jobs[i].telemetry(n).Some? ==> Evidence(i, n) in s.store)
    case Lookup(_, keyTaken) => keyTaken ==> key in s.idem
    case Failed(_) => true
    case Done(f) => f in s.findings && s.findings[f].key == key
  }

  /** Every artifact in the store is what its attempt collected. */
  ghost predicate StoreHonest(jobs: seq<Job>, s: State) {
    forall e :: e in s.store ==> e.worker < |jobs| && jobs[e.worker].telemetry(e.attempt) == Some(s.store[e])
  }

  /** Every evidence row has its artifact in the store, and the digest is of that artifact. */
  ghost predicate EvidenceBacked(s: State) {
    forall e :: e in s.evidence ==> e in s.store && s.evidence[e] == Sha(s.store[e])
  }

  /** Evidence rows and findings that collected something come in pairs. */
  ghost predicate EvidencePaired(jobs: seq<Job>, s: State) {
    forall i: nat, n: nat :: i < |jobs| ==>
      (Evidence(i, n) in s.evidence <==> New(i, n) in s.findings && jobs[i].telemetry(n).Some?)
  }

  ghost predicate Inv(jobs: seq<Job>, s: State) {
    && StagesSound(jobs, s) && FindingsKnown(jobs, s) && RecordsNewest(s) && LaterRenewed(s) && RenewalsSound(jobs, s)
    && StoreHonest(jobs, s) && EvidenceBacked(s) && EvidencePaired(jobs, s)
  }

  // ---------- every step keeps it ----------

  lemma {:induction false} InitialInv(jobs: seq<Job>, keys: set<Key>, s: State)
    requires Initial(jobs, keys, s)
    ensures Inv(jobs, s)
  {
    forall f | f in s.findings
      ensures f.Old? && f.key in keys
    {
    }
  }

  /** Time passing disturbs nothing. */
  lemma {:induction false} LaterInv(jobs: seq<Job>, s: State, elapsed: nat)
    requires Inv(jobs, s)
    ensures Inv(jobs, Later(s, elapsed))
  {
    var t := Later(s, elapsed);
    forall i | 0 <= i < |jobs|
      ensures StageSound(jobs, t, i)
    {
      assert StageSound(jobs, s, i);
    }
    forall f | f in t.findings && t.findings[f].renew.Some?
      ensures RenewalSound(jobs, t, f)
    {
      assert RenewalSound(jobs, s, f);
    }
    forall f, g | f in t.findings && g in t.findings
      ensures Follows(t, f, g)
    {
      assert Follows(s, f, g);
    }
  }

  /** Only the artifacts and a worker's stage differ. */
  ghost predicate SameRows(s: State, t: State) {
    t.step == s.step && t.clock == s.clock && t.idem == s.idem && t.findings == s.findings && t.evidence == s.evidence
  }

  lemma {:induction false} SameRowsInv(jobs: seq<Job>, s: State, t: State)
    requires SameRows(s, t) && LaterRenewed(s) && RenewalsSound(jobs, s) && RecordsNewest(s)
    ensures LaterRenewed(t) && RenewalsSound(jobs, t) && RecordsNewest(t)
  {
    forall f | f in t.findings && t.findings[f].renew.Some?
      ensures RenewalSound(jobs, t, f)
    {
      assert RenewalSound(jobs, s, f);
    }
    forall f, g | f in t.findings && g in t.findings
      ensures Follows(t, f, g)
    {
      assert Follows(s, f, g);
    }
  }

  /** Moving a worker between stages without touching a table. */
  lemma {:induction false} MoveInv(jobs: seq<Job>, s: State, i: nat, stage: Stage)
    requires Inv(jobs, s) && i < |jobs| && !s.stages[i].Done?
    requires StageSound(jobs, To(s, i, stage), i)
    ensures Inv(jobs, To(s, i, stage))
  {
    var t := To(s, i, stage);
    SameRowsInv(jobs, s, t);
    forall j | 0 <= j < |jobs|
      ensures StageSound(jobs, t, j)
    {
      if j != i { assert StageSound(jobs, s, j); }
    }
  }

  lemma {:induction false} StoreInv(jobs: seq<Job>, s: State, i: nat, n: nat)
    requires Inv(jobs, s) && i < |jobs|
    ensures Inv(jobs, WithArtifact(jobs, s, i, n))
    ensures jobs[i].telemetry(n).Some? ==> Evidence(i, n) in WithArtifact(jobs, s, i, n).store
  {
    var t := WithArtifact(jobs, s, i, n);
    SameRowsInv(jobs, s, t);
    forall j | 0 <= j < |jobs|
      ensures StageSound(jobs, t, j)
    {
      assert StageSound(jobs, s, j);
    }
  }

  /** What holds just before worker `i` commits; the step under way has not committed anything yet. */
  ghost predicate MayCommit(jobs: seq<Job>, s: State, i: nat, n: nat, renew: Option<Reading>) {
    && Inv(jobs, s) && i < |jobs| && s.stages[i] == Commit(n, renew) && (renew.Some? || jobs[i].key !in s.idem)
    && (forall f :: f in s.findings ==> s.findings[f].step < s.step)
    && forall j :: 0 <= j < |jobs| ==> ReadBefore(s.stages[j], s.step)
  }

  /** A stale read under way happened before this step. */
  predicate ReadBefore(stage: Stage, step: nat) {
    (stage.Store? || stage.Commit?) && stage.renew.Some? ==> stage.renew.value.step < step
  }

  function Committed(jobs: seq<Job>, s: State, i: nat, n: nat, renew: Option<Reading>): State
    requires i < |jobs| == |s.stages|
  {
    To(WithRows(jobs, s, i, n, renew), i, Done(New(i, n)))
  }

  /** A finding committed now is none of those that an earlier stale read had to see. */
  lemma {:induction false} ReadingKept(jobs: seq<Job>, s: State, i: nat, n: nat,
      renew: Option<Reading>, key: Key, r: Reading)
    requires MayCommit(jobs, s, i, n, renew) && New(i, n) !in s.findings
    requires ReadingSound(s, key, r) && r.step < s.step
    ensures ReadingSound(Committed(jobs, s, i, n, renew), key, r)
  {
  }

  lemma {:induction false} CommitIsNew(jobs: seq<Job>, s: State, i: nat, n: nat, renew: Option<Reading>)
    requires MayCommit(jobs, s, i, n, renew)
    ensures New(i, n) !in s.findings && MayRenew(jobs, s, i, renew)
    ensures jobs[i].telemetry(n).Some? ==> Evidence(i, n) in s.store && Evidence(i, n) !in s.evidence
  {
    assert StageSound(jobs, s, i);
  }

  lemma {:induction false} CommitStages(jobs: seq<Job>, s: State, i: nat, n: nat, renew: Option<Reading>)
    requires MayCommit(jobs, s, i, n, renew)
    ensures StagesSound(jobs, Committed(jobs, s, i, n, renew))
  {
    var t := Committed(jobs, s, i, n, renew);
    CommitIsNew(jobs, s, i, n, renew);
    forall j | 0 <= j < |jobs|
      ensures StageSound(jobs, t, j)
    {
      assert StageSound(jobs, s, j) && ReadBefore(s.stages[j], s.step);
      var stage := s.stages[j];
      if j != i && (stage.Store? || stage.Commit?) && stage.renew.Some? {
        ReadingKept(jobs, s, i, n, renew, jobs[j].key, stage.renew.value);
      }
    }
  }

  lemma {:induction false} CommitFindings(jobs: seq<Job>, s: State, i: nat, n: nat, renew: Option<Reading>)
    requires MayCommit(jobs, s, i, n, renew)
    ensures FindingsKnown(jobs, Committed(jobs, s, i, n, renew)) && RecordsNewest(Committed(jobs, s, i, n, renew))
  {
    CommitIsNew(jobs, s, i, n, renew);
  }

  lemma {:induction false} CommitFollows(jobs: seq<Job>, s: State, i: nat, n: nat, renew: Option<Reading>)
    requires MayCommit(jobs, s, i, n, renew)
    ensures LaterRenewed(Committed(jobs, s, i, n, renew))
  {
    var t, made := Committed(jobs, s, i, n, renew), New(i, n);
    CommitIsNew(jobs, s, i, n, renew);
    forall f, g | f in t.findings && g in t.findings
      ensures Follows(t, f, g)
    {
      if f != made && g != made { assert Follows(s, f, g); }
    }
  }

  lemma {:induction false} CommitRenewals(jobs: seq<Job>, s: State, i: nat, n: nat, renew: Option<Reading>)
    requires MayCommit(jobs, s, i, n, renew)
    ensures RenewalsSound(jobs, Committed(jobs, s, i, n, renew))
  {
    var t := Committed(jobs, s, i, n, renew);
    CommitIsNew(jobs, s, i, n, renew);
    assert ReadBefore(s.stages[i], s.step);
    forall f | f in t.findings && t.findings[f].renew.Some?
      ensures RenewalSound(jobs, t, f)
    {
      if f == New(i, n) {
        ReadingKept(jobs, s, i, n, renew, jobs[i].key, renew.value);
      } else {
        assert RenewalSound(jobs, s, f);
        ReadingKept(jobs, s, i, n, renew, s.findings[f].key, s.findings[f].renew.value);
      }
    }
  }

  lemma {:induction false} CommitEvidence(jobs: seq<Job>, s: State, i: nat, n: nat, renew: Option<Reading>)
    requires MayCommit(jobs, s, i, n, renew)
    ensures var t := Committed(jobs, s, i, n, renew);
      StoreHonest(jobs, t) && EvidenceBacked(t) && EvidencePaired(jobs, t)
  {
    CommitIsNew(jobs, s, i, n, renew);
  }

  lemma {:induction false} CommitInv(jobs: seq<Job>, s: State, i: nat, n: nat, renew: Option<Reading>)
    requires MayCommit(jobs, s, i, n, renew)
    ensures Inv(jobs, Committed(jobs, s, i, n, renew))
  {
    CommitStages(jobs, s, i, n, renew);
    CommitFindings(jobs, s, i, n, renew);
    CommitFollows(jobs, s, i, n, renew);
    CommitRenewals(jobs, s, i, n, renew);
    CommitEvidence(jobs, s, i, n, renew);
  }

  /** Everything committed or read lies before the step that begins now. */
  lemma {:induction false} CommitIsDue(jobs: seq<Job>, s: State, elapsed: nat, i: nat)
    requires Inv(jobs, s) && i < |jobs| && Enabled(jobs, Later(s, elapsed), i, CommitRows)
    ensures MayCommit(jobs, Later(s, elapsed), i, s.stages[i].attempt, s.stages[i].renew)
  {
    LaterInv(jobs, s, elapsed);
    forall j | 0 <= j < |jobs|
      ensures ReadBefore(s.stages[j], s.step + 1)
    {
      assert StageSound(jobs, s, j);
    }
  }

  /** A record that is stale now makes a sound reading. */
  lemma {:induction false} StaleReading(jobs: seq<Job>, s: State, i: nat)
    requires Inv(jobs, s) && i < |jobs| && Stale(jobs[i], s)
    ensures MayRenew(jobs, s, i, Some(Reading(s.step, s.clock, s.idem[jobs[i].key].finding)))
  {
  }

  lemma {:induction false} MoveStep(jobs: seq<Job>, s: State, i: nat, a: Action)
    requires Inv(jobs, s) && i < |jobs| && Enabled(jobs, s, i, a)
    requires !a.StoreArtifact? && !a.FailAfterStoring? && !a.CommitRows?
    ensures Inv(jobs, Step(jobs, s, i, a))
  {
    assert StageSound(jobs, s, i);
    if a.ReadRecord? && Stale(jobs[i], s) { StaleReading(jobs, s, i); }
    var t := Step(jobs, s, i, a);
    assert t == To(s, i, t.stages[i]);
    assert StageSound(jobs, t, i);
    MoveInv(jobs, s, i, t.stages[i]);
  }

  lemma {:induction false} StoreStep(jobs: seq<Job>, s: State, i: nat, n: nat, renew: Option<Reading>)
    requires Inv(jobs, s) && i < |jobs| && s.stages[i] == Store(n, renew)
    ensures Inv(jobs, To(WithArtifact(jobs, s, i, n), i, Commit(n, renew)))
    ensures Inv(jobs, To(WithArtifact(jobs, s, i, n), i, Failed(n)))
  {
    var t := WithArtifact(jobs, s, i, n);
    StoreInv(jobs, s, i, n);
    assert StageSound(jobs, t, i);
    MoveInv(jobs, t, i, Commit(n, renew));
    MoveInv(jobs, t, i, Failed(n));
  }

  lemma {:induction false} StepInv(jobs: seq<Job>, s: State, elapsed: nat, i: nat, a: Action)
    requires Inv(jobs, s) && i < |jobs| && Enabled(jobs, Later(s, elapsed), i, a)
    ensures Inv(jobs, Step(jobs, Later(s, elapsed), i, a))
  {
    LaterInv(jobs, s, elapsed);
    if a.CommitRows? {
      CommitIsDue(jobs, s, elapsed, i);
      CommitInv(jobs, Later(s, elapsed), i, s.stages[i].attempt, s.stages[i].renew);
    } else if a.StoreArtifact? || a.FailAfterStoring? {
      StoreStep(jobs, Later(s, elapsed), i, s.stages[i].attempt, s.stages[i].renew);
    } else {
      MoveStep(jobs, Later(s, elapsed), i, a);
    }
  }

  /** Every reachable state, under every interleaving and every failure, satisfies the invariant. */
  lemma {:induction false} RunInv(jobs: seq<Job>, keys: set<Key>, run: Run)
    requires Possible(jobs, keys, run)
    ensures Inv(jobs, After(jobs, run))
  {
    match run
    case Start(s) => InitialInv(jobs, keys, s);
    case Then(earlier, elapsed, i, a) =>
      RunInv(jobs, keys, earlier);
      StepInv(jobs, After(jobs, earlier), elapsed, i, a);
  }

  // ---------- one finding per key ----------

  /** Nobody's record of `key` ages: its callers named it. */
  ghost predicate NeverRenewed(jobs: seq<Job>, key: Key) {
    forall i :: 0 <= i < |jobs| && jobs[i].key == key ==> jobs[i].explicit
  }

  /** All that was committed under `key` lies within a window of now. */
  ghost predicate WithinWindow(s: State, key: Key) {
    forall f :: f in s.findings && s.findings[f].key == key ==> s.clock - s.findings[f].at <= IdemKey.WINDOW
  }

  lemma {:induction false} NoneRenewed(jobs: seq<Job>, s: State, key: Key, f: FindingId)
    requires Inv(jobs, s) && (NeverRenewed(jobs, key) || WithinWindow(s, key))
    requires f in s.findings && s.findings[f].key == key
    ensures s.findings[f].renew.None?
  {
    assert s.findings[f].renew.Some? ==> RenewalSound(jobs, s, f);
  }

  lemma {:induction false} OnlyOne(jobs: seq<Job>, s: State, f: FindingId, g: FindingId)
    requires Inv(jobs, s) && f in s.findings && g in s.findings && s.findings[f].key == s.findings[g].key
    requires s.findings[f].renew.None? && s.findings[g].renew.None?
    ensures f == g
  {
    assert Follows(s, f, g) && Follows(s, g, f);
  }

  /**
  At most one finding is ever committed under a key its callers named, and at most one under any
  key while what was committed under it lies within a window; the record points at it.
  */
  lemma {:induction false} OneFindingPerKey(jobs: seq<Job>, keys: set<Key>, run: Run, f: FindingId)
    requires Possible(jobs, keys, run) && f in After(jobs, run).findings
    requires var s := After(jobs, run); NeverRenewed(jobs, s.findings[f].key) || WithinWindow(s, s.findings[f].key)
    ensures var s := After(jobs, run); s.findings[f].key in s.idem && s.idem[s.findings[f].key].finding == f
  {
    RunInv(jobs, keys, run);
    var s := After(jobs, run);
    var g := s.idem[s.findings[f].key].finding;
    NoneRenewed(jobs, s, s.findings[f].key, f);
    NoneRenewed(jobs, s, s.findings[f].key, g);
    OnlyOne(jobs, s, f, g);
  }

  /** Whoever returns under such a key returns the same finding, which is in the table. */
  lemma {:induction false} EveryoneGetsTheWinner(jobs: seq<Job>, keys: set<Key>, run: Run, i: nat, j: nat)
    requires Possible(jobs, keys, run) && i < |jobs| == |After(jobs, run).stages| && j < |jobs|
    requires jobs[i].key == jobs[j].key
    requires NeverRenewed(jobs, jobs[i].key) || WithinWindow(After(jobs, run), jobs[i].key)
    requires After(jobs, run).stages[i].Done? && After(jobs, run).stages[j].Done?
    ensures After(jobs, run).stages[i] == After(jobs, run).stages[j]
    ensures After(jobs, run).stages[i].finding in After(jobs, run).findings
  {
    RunInv(jobs, keys, run);
    var s := After(jobs, run);
    assert StageSound(jobs, s, i) && StageSound(jobs, s, j);
    OneFindingPerKey(jobs, keys, run, s.stages[i].finding);
    OneFindingPerKey(jobs, keys, run, s.stages[j].finding);
  }

  /**
  Two findings of one key committed inside one window: the later one's worker found the record
  stale before the earlier one was committed, so the two were at work at the same time.
  */
  lemma {:induction false} DuplicateNeedsRace(jobs: seq<Job>, keys: set<Key>, run: Run, f: FindingId, g: FindingId)
    requires Possible(jobs, keys, run) && f in After(jobs, run).findings && g in After(jobs, run).findings && f != g
    requires var rows := After(jobs, run).findings;
      rows[f].key == rows[g].key && rows[f].step <= rows[g].step && rows[g].at - rows[f].at <= IdemKey.WINDOW
    ensures var rows := After(jobs, run).findings;
      && g.New? && g.worker < |jobs| && !jobs[g.worker].explicit
      && rows[g].renew.Some? && rows[g].renew.value.step < rows[f].step < rows[g].step
  {
    RunInv(jobs, keys, run);
    var s := After(jobs, run);
    assert Follows(s, f, g);
    assert RenewalSound(jobs, s, g);
  }

  /** A start with a record for each of `keys`. */
  function Fresh(jobs: seq<Job>, keys: set<Key>): State {
    State(0, 0, map k | k in keys :: Record(Old(k), 0),
        map f | f in (set k | k in keys :: Old(k)) :: Row(f.key, None, 0, 0),
          map[], map[], seq(|jobs|, _ => Begin(0)))
  }

  /** The step of worker `w` is possible after `run`. */
  ghost predicate CanStep(jobs: seq<Job>, keys: set<Key>, run: Run, elapsed: nat, w: nat, a: Action) {
    && Possible(jobs, keys, run) && w < |jobs| == |After(jobs, run).stages|
    && Enabled(jobs, Later(After(jobs, run), elapsed), w, a)
  }

  /** Both workers read the record once it is stale. */
  function BothRead(jobs: seq<Job>, keys: set<Key>, i: nat, j: nat): Run {
    Then(Then(Start(Fresh(jobs, keys)), IdemKey.WINDOW + 1, i, ReadRecord), 0, j, ReadRecord)
  }

  /** And then store and commit, one after the other. */
  function BothCommit(jobs: seq<Job>, keys: set<Key>, i: nat, j: nat): Run {
    Then(Then(Then(Then(BothRead(jobs, keys, i, j), 0, i, StoreArtifact), 0, j, StoreArtifact), 0, i, CommitRows), 0,
        j, CommitRows)
  }

  /** Two workers at work on one key that no caller named. */
  ghost predicate SameDerivedKey(jobs: seq<Job>, keys: set<Key>, i: nat, j: nat) {
    i < |jobs| && j < |jobs| && i != j && jobs[i].key == jobs[j].key && jobs[i].key in keys && !jobs[i].explicit
        && !jobs[j].explicit
  }

  lemma {:induction false} BothReadStale(jobs: seq<Job>, keys: set<Key>, i: nat, j: nat)
    requires SameDerivedKey(jobs, keys, i, j)
    ensures Possible(jobs, keys, BothRead(jobs, keys, i, j))
    ensures var s := After(jobs, BothRead(jobs, keys, i, j));
      && |s.stages| == |jobs| && s.stages[i].Store? && s.stages[j].Store? && s.stages[i].attempt == 0
          && s.stages[j].attempt == 0
      && s.stages[i].renew.Some? && s.stages[j].renew.Some?
  {
    var start := Fresh(jobs, keys);
    assert Initial(jobs, keys, start);
    var one := Then(Start(start), IdemKey.WINDOW + 1, i, ReadRecord);
    assert CanStep(jobs, keys, Start(start), IdemKey.WINDOW + 1, i, ReadRecord);
    var s := After(jobs, one);
    assert s.stages[i].Store? && s.stages[j] == Begin(0) && s.idem == start.idem && s.clock == IdemKey.WINDOW + 1;
    assert CanStep(jobs, keys, one, 0, j, ReadRecord);
  }

  /**
  The documented exception, in general: any two workers on a key with a record that no caller
  named can both find it stale and both commit, at the same moment even.
  */
  lemma {:induction false} RenewersMayDuplicate(jobs: seq<Job>, keys: set<Key>, i: nat, j: nat)
    requires SameDerivedKey(jobs, keys, i, j)
    ensures Possible(jobs, keys, BothCommit(jobs, keys, i, j))
    ensures var rows := After(jobs, BothCommit(jobs, keys, i, j)).findings;
      && New(i, 0) in rows && New(j, 0) in rows && rows[New(i, 0)].key == rows[New(j, 0)].key == jobs[i].key
      && rows[New(i, 0)].at == rows[New(j, 0)].at
  {
    BothReadStale(jobs, keys, i, j);
    var r2 := BothRead(jobs, keys, i, j);
    var r3 := Then(r2, 0, i, StoreArtifact);
    assert CanStep(jobs, keys, r2, 0, i, StoreArtifact);
    var s3 := After(jobs, r3);
    assert s3.stages[i].Commit? && s3.stages[i].attempt == 0 && s3.stages[i].renew.Some?
        && s3.stages[j] == After(jobs, r2).stages[j];
    var r4 := Then(r3, 0, j, StoreArtifact);
    assert CanStep(jobs, keys, r3, 0, j, StoreArtifact);
    var s4 := After(jobs, r4);
    assert s4.stages[j].Commit? && s4.stages[j].attempt == 0 && s4.stages[j].renew.Some?
        && s4.stages[i] == s3.stages[i];
    FirstCommit(jobs, keys, r4, i, j);
  }

  lemma {:induction false} FirstCommit(jobs: seq<Job>, keys: set<Key>, run: Run, i: nat, j: nat)
    requires Possible(jobs, keys, run) && i < |jobs| == |After(jobs, run).stages| && j < |jobs| && i != j
        && jobs[i].key == jobs[j].key
    requires var si, sj := After(jobs, run).stages[i], After(jobs, run).stages[j];
      si.Commit? && sj.Commit? && si.attempt == 0 && sj.attempt == 0 && si.renew.Some? && sj.renew.Some?
    ensures var both := Then(Then(run, 0, i, CommitRows), 0, j, CommitRows); var rows := After(jobs, both).findings;
      && Possible(jobs, keys, both) && New(i, 0) in rows && New(j, 0) in rows
      && rows[New(i, 0)].key == rows[New(j, 0)].key == jobs[i].key && rows[New(i, 0)].at == rows[New(j, 0)].at
  {
    var one := Then(run, 0, i, CommitRows);
    assert CanStep(jobs, keys, run, 0, i, CommitRows);
    var s := After(jobs, one);
    assert s.stages[j] == After(jobs, run).stages[j] && s.clock == After(jobs, run).clock;
    assert New(i, 0) in s.findings && s.findings[New(i, 0)].at == s.clock;
    assert CanStep(jobs, keys, one, 0, j, CommitRows);
  }

  // ---------- the rest of what the protocol promises ----------

  /**
  At every moment an evidence row has its artifact in the store under the digest of what that
  attempt collected, and belongs to a committed finding; a finding that collected something has
  its evidence row.
  */
  lemma {:induction false} EvidenceAlwaysBacked(jobs: seq<Job>, keys: set<Key>, run: Run, i: nat, n: nat)
    requires Possible(jobs, keys, run) && i < |jobs|
    ensures var s := After(jobs, run);
      && (Evidence(i, n) in s.evidence <==> New(i, n) in s.findings && jobs[i].telemetry(n).Some?)
      && (Evidence(i, n) in s.evidence ==>
            Evidence(i, n) in s.store && jobs[i].telemetry(n) == Some(s.store[Evidence(i, n)])
            && s.evidence[Evidence(i, n)] == Sha(s.store[Evidence(i, n)]))
  {
    RunInv(jobs, keys, run);
  }

  /**
  A worker that lost the race for its key finds a winner to return: the handler re-raises only for
  another constraint.
  */
  lemma {:induction false} LoserFindsWinner(jobs: seq<Job>, keys: set<Key>, run: Run, elapsed: nat, i: nat)
    requires Possible(jobs, keys, Then(run, elapsed, i, LookUpWinner)) && After(jobs, run).stages[i].keyTaken
    ensures jobs[i].key in After(jobs, run).idem
    ensures After(jobs, Then(run, elapsed, i, LookUpWinner)).stages[i]
        == Done(After(jobs, run).idem[jobs[i].key].finding)
  {
    RunInv(jobs, keys, run);
    assert StageSound(jobs, After(jobs, run), i);
  }

  /** `later` continues `run`. */
  ghost predicate Continues(run: Run, later: Run) {
    later == run || (later.Then? && Continues(run, later.earlier))
  }

  /** The record of `key` names a finding whose worker had found it stale. */
  ghost predicate Renewed(s: State, key: Key)
    requires key in s.idem
  {
    s.idem[key].finding in s.findings && s.findings[s.idem[key].finding].renew.Some?
  }

  /** `t` still has everything committed in `s`, and a record that differs now names a renewal. */
  ghost predicate Keeps(jobs: seq<Job>, s: State, t: State) {
    && (forall f :: f in s.findings ==> f in t.findings && t.findings[f] == s.findings[f])
    && (forall e :: e in s.evidence ==> e in t.evidence && t.evidence[e] == s.evidence[e])
    && (forall k :: k in s.idem ==> k in t.idem && (t.idem[k] == s.idem[k] || Renewed(t, k)))
    && (forall k :: k in s.idem && NeverRenewed(jobs, k) ==> t.idem[k] == s.idem[k])
  }

  lemma {:induction false} CommitRepoints(jobs: seq<Job>, s: State, i: nat, n: nat, renew: Option<Reading>, k: Key)
    requires MayCommit(jobs, s, i, n, renew) && k in s.idem
    ensures var t := Committed(jobs, s, i, n, renew);
      k in t.idem && (t.idem[k] == s.idem[k] || (Renewed(t, k) && !NeverRenewed(jobs, k)))
  {
    CommitIsNew(jobs, s, i, n, renew);
  }

  lemma {:induction false} CommitKeeps(jobs: seq<Job>, s: State, i: nat, n: nat, renew: Option<Reading>)
    requires MayCommit(jobs, s, i, n, renew)
    ensures Keeps(jobs, s, Committed(jobs, s, i, n, renew))
  {
    var t := Committed(jobs, s, i, n, renew);
    CommitIsNew(jobs, s, i, n, renew);
    assert Evidence(i, n) !in s.evidence;
    forall k | k in s.idem
      ensures k in t.idem && (t.idem[k] == s.idem[k] || (Renewed(t, k) && !NeverRenewed(jobs, k)))
    {
      CommitRepoints(jobs, s, i, n, renew, k);
    }
  }

  lemma {:induction false} StepKeepsRows(jobs: seq<Job>, s: State, i: nat, a: Action)
    requires i < |jobs| == |s.stages| && Enabled(jobs, s, i, a) && !a.CommitRows?
    ensures SameRows(s, Step(jobs, s, i, a))
  {
  }

  lemma {:induction false} StepKeeps(jobs: seq<Job>, s: State, elapsed: nat, i: nat, a: Action)
    requires Inv(jobs, s) && i < |jobs| && Enabled(jobs, Later(s, elapsed), i, a)
    ensures Keeps(jobs, s, Step(jobs, Later(s, elapsed), i, a))
  {
    if a.CommitRows? {
      CommitIsDue(jobs, s, elapsed, i);
      CommitKeeps(jobs, Later(s, elapsed), i, s.stages[i].attempt, s.stages[i].renew);
    } else {
      StepKeepsRows(jobs, Later(s, elapsed), i, a);
    }
  }

  lemma {:induction false} KeepsOn(jobs: seq<Job>, s: State, t: State, u: State)
    requires Keeps(jobs, s, t) && Keeps(jobs, t, u)
    ensures Keeps(jobs, s, u)
  {
    forall k | k in s.idem
      ensures k in u.idem && (u.idem[k] == s.idem[k] || Renewed(u, k))
    {
      assert t.idem[k] == s.idem[k] || Renewed(t, k);
      assert u.idem[k] == t.idem[k] || Renewed(u, k);
    }
  }

  /** Nothing a run has committed is lost or changed later, and only a worker that found it stale repoints a record. */
  lemma {:induction false} CommittedStays(jobs: seq<Job>, keys: set<Key>, run: Run, later: Run)
    requires Possible(jobs, keys, later) && Continues(run, later)
    ensures Keeps(jobs, After(jobs, run), After(jobs, later))
  {
    if later != run {
      CommittedStays(jobs, keys, run, later.earlier);
      RunInv(jobs, keys, later.earlier);
      StepKeeps(jobs, After(jobs, later.earlier), later.elapsed, later.worker, later.action);
      KeepsOn(jobs, After(jobs, run), After(jobs, later.earlier), After(jobs, later));
    }
  }
}
