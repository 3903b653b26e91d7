/**
The sequential assessment write path (app/services/assessment.py, `run_single`,
`record_unverifiable`, `record_external_finding`, `_commit_finding`): findings are appended,
and an idempotency record per key decides whether a request gets an earlier finding back.

Clock readings, connector results and the success of the database commit are inputs. A
finding's id is its position in the table.
*/
module Assessment {
  import opened Common
  import opened IdemKey
  import Posture

  datatype Record = Record(tenant: string, finding: nat, created: int)

  datatype Finding = Finding(key: Key, tenant: string, framework: string, control: string, source: string,
                             asset: Option<string>, status: Posture.Status, severity: Posture.Severity, at: int)

  /** What is assessed. */
  datatype Subject = Subject(tenant: string, framework: string, control: string, source: string, asset: Option<string>)

  datatype Verdict = Verdict(status: Posture.Status, severity: Posture.Severity)

  datatype Db = Db(idem: map<Key, Record>, findings: seq<Finding>, posture: Posture.Tables)

  /** A call into the service: when it checks its key, when it would commit, and whether the commit lands. */
  datatype Timing = Timing(checked: int, committed: int, lands: bool)

  datatype Call =
    | Single(req: Request, collected: Option<Verdict>, timing: Timing)
    | Unverifiable(req: Request, timing: Timing)
    | External(subject: Subject, externalId: Option<string>, verdict: Verdict, timing: Timing)

  /** The finding the caller gets, nothing, or an exception. */
  datatype Answer = Got(finding: nat) | Nothing | Raises

  function SubjectOf(req: Request): Subject {
    Subject(req.tenant, req.framework, req.control, req.source, req.asset)
  }

  function KeyOfCall(call: Call): Key {
    if call.External? then ExternalKey(call.subject.tenant, call.externalId, call.subject.control, call.subject.asset)
    else KeyOf(call.req)
  }

  // ---------- the operations on values ----------

  function Existing(db: Db, key: Key): Option<nat> {
    if key in db.idem && db.idem[key].finding < |db.findings| then Some(db.idem[key].finding) else None
  }

  /** The key has a record that no longer suppresses a new assessment. */
  predicate Stale(db: Db, req: Request, now: int) {
    KeyOf(req) in db.idem && !Explicit(req) && now - db.idem[KeyOf(req)].created > WINDOW
  }

  function NewFinding(key: Key, s: Subject, verdict: Verdict, at: int): Finding {
    Finding(key, s.tenant, s.framework, s.control, Posture.Upper(s.source), s.asset, verdict.status,
      verdict.severity, at)
  }

  /** The rows of one commit; a renewed record is repointed, otherwise one is inserted. */
  function Committed(db: Db, key: Key, s: Subject, verdict: Verdict, renew: bool, at: int): Db {
    var id := |db.findings|;
    var cell := Posture.CellOf(s.tenant, s.control, s.source, s.asset);
    Db(db.idem[key := if renew && key in db.idem then db.idem[key].(finding := id, created := at)
        else Record(s.tenant, id, at)],
       db.findings + [NewFinding(key, s, verdict, at)],
       Posture.Upsert(db.posture, Posture.Assessed(cell, Posture.Verdict(verdict.status, verdict.severity, id), at)))
  }

  function Commit(db: Db, key: Key, s: Subject, verdict: Verdict, renew: bool, timing: Timing): (Db, Answer) {
    if !renew && Existing(db, key).Some? then (db, Got(Existing(db, key).value))
    else if !timing.lands then (db, Raises)
    else (Committed(db, key, s, verdict, renew, timing.committed), Got(|db.findings|))
  }

  const NOT_VERIFIED := Verdict(Posture.Error, Posture.Medium)

  function Step(db: Db, call: Call): (Db, Answer) {
    var key := KeyOfCall(call);
    match call
    case Single(req, collected, timing) =>
      var renew := Stale(db, req, timing.checked);
      if !renew && Existing(db, key).Some? then (db, Got(Existing(db, key).value))
      else if collected.None? then (db, Raises)
      else Commit(db, key, SubjectOf(req), collected.value, renew, timing)
    case Unverifiable(req, timing) =>
      var renew := Stale(db, req, timing.checked);
      if !renew && Existing(db, key).Some? then (db, Nothing)
      else
        var (after, answer) := Commit(db, key, SubjectOf(req), NOT_VERIFIED, renew, timing);
        (after, if answer.Raises? then Nothing else answer)
    case External(subject, _, verdict, timing) =>
      if Existing(db, key).Some? then (db, Nothing)
      else Commit(db, key, subject, verdict, false, timing)
  }

  // ---------- what one call writes ----------

  /** One finding was added, about this subject and with this verdict, and it is what its key and its cell now show. */
  ghost predicate RecordsOne(before: Db, after: Db, key: Key, s: Subject, status: Posture.Status,
                             severity: Posture.Severity, at: int) {
    var n := |before.findings|;
    && |after.findings| == n + 1 && after.findings[..n] == before.findings
    && FindingSays(after.findings[n], key, s, status, severity, at)
    && key in after.idem && after.idem[key].finding == n && after.idem[key].created == at
    && (forall k :: k != key ==> (k in after.idem <==> k in before.idem))
    && (forall k :: k != key && k in before.idem ==> after.idem[k] == before.idem[k])
    && PostureShows(before.posture.posture, after.posture.posture, s, status, severity, n, at)
  }

  predicate FindingSays(f: Finding, key: Key, s: Subject, status: Posture.Status, severity: Posture.Severity, at: int) {
    && f.key == key && f.tenant == s.tenant && f.framework == s.framework && f.control == s.control
    && f.source == Posture.Upper(s.source) && f.asset == s.asset
    && f.status == status && f.severity == severity && f.at == at
  }

  /** The subject's row shows the verdict and the finding, and the other rows are as they were. */
  ghost predicate PostureShows(before: map<Posture.Cell, Posture.Current>, after: map<Posture.Cell, Posture.Current>,
                               s: Subject, status: Posture.Status, severity: Posture.Severity, n: nat, at: int) {
    var assetKey := if s.asset.None? then "" else s.asset.value;
    var cell := Posture.Cell(s.tenant, s.control, Posture.Upper(s.source), assetKey);
    && cell in after && after[cell].status == status && after[cell].severity == severity
    && after[cell].lastFinding == n && after[cell].updatedAt == at
    && after[cell].prevStatus == (if cell in before then Some(before[cell].status) else None)
    && (forall c :: c != cell ==> (c in after <==> c in before))
    && (forall c :: c != cell && c in before ==> after[c] == before[c])
  }

  lemma {:induction false} CommitRecordsOne(db: Db, key: Key, s: Subject, verdict: Verdict, renew: bool, at: int)
    ensures RecordsOne(db, Committed(db, key, s, verdict, renew, at), key, s, verdict.status, verdict.severity, at)
  {
  }

  // ---------- the service ----------

  class AssessmentService {
    var idem: map<Key, Record>
    var findings: seq<Finding>
    const store: Posture.PostureStore

    constructor ()
      ensures fresh(store) && Tables() == Db(map[], [], Posture.Tables(map[], []))
    {
      idem := map[];
      findings := [];
      store := new Posture.PostureStore();
    }

    function Tables(): Db
      reads this, store
    {
      Db(idem, findings, Posture.Tables(store.posture, store.history))
    }

    method Lookup(key: Key) returns (finding: Option<nat>)
      ensures finding == Existing(Tables(), key)
    {
      if key !in idem {
        return None;
      }
      var id := idem[key].finding;
      return if id < |findings| then Some(id) else None;
    }

    method StaleImplicitRecord(req: Request, now: int) returns (stale: bool)
      ensures stale == Stale(Tables(), req, now)
    {
      var key := KeyOf(req);
      if key !in idem || Explicit(req) {
        return false;
      }
      return now - idem[key].created > WINDOW;
    }

    method CommitFinding(key: Key, s: Subject, verdict: Verdict, renew: bool, timing: Timing) returns (answer: Answer)
      requires renew ==> key in idem
      modifies this, store
      ensures (Tables(), answer) == Commit(old(Tables()), key, s, verdict, renew, timing)
    {
      if !renew {
        var existing := Lookup(key);
        if existing.Some? {
          return Got(existing.value);
        }
      }
      if !timing.lands {
        return Raises;
      }
      var id := |findings|;
      findings := findings + [NewFinding(key, s, verdict, timing.committed)];
      if renew {
        idem := idem[key := idem[key].(finding := id, created := timing.committed)];
      } else {
        idem := idem[key := Record(s.tenant, id, timing.committed)];
      }
      store.UpsertPosture(s.tenant, s.control, s.source, s.asset,
                          Posture.Verdict(verdict.status, verdict.severity, id), timing.committed);
      return Got(id);
    }

    method RunSingle(req: Request, collected: Option<Verdict>, timing: Timing) returns (answer: Answer)
      modifies this, store
      ensures (Tables(), answer) == Step(old(Tables()), Single(req, collected, timing))
      ensures Tables() == old(Tables()) || (collected.Some? && answer == Got(old(|findings|))
              && RecordsOne(old(Tables()), Tables(), KeyOf(req), SubjectOf(req), collected.value.status,
                            collected.value.severity, timing.committed))
    {
      var key := KeyOf(req);
      var renew := StaleImplicitRecord(req, timing.checked);
      if !renew {
        var existing := Lookup(key);
        if existing.Some? {
          return Got(existing.value);
        }
      }
      if collected.None? {
        return Raises;
      }
      CommitRecordsOne(Tables(), key, SubjectOf(req), collected.value, renew, timing.committed);
      answer := CommitFinding(key, SubjectOf(req), collected.value, renew, timing);
    }

    method RecordUnverifiable(req: Request, timing: Timing) returns (answer: Answer)
      modifies this, store
      ensures (Tables(), answer) == Step(old(Tables()), Unverifiable(req, timing))
      ensures Tables() == old(Tables()) || (answer == Got(old(|findings|))
              && RecordsOne(old(Tables()), Tables(), KeyOf(req), SubjectOf(req), Posture.Error, Posture.Medium,
                            timing.committed))
    {
      var key := KeyOf(req);
      var renew := StaleImplicitRecord(req, timing.checked);
      var existing := Lookup(key);
      if !renew && existing.Some? {
        return Nothing;
      }
      CommitRecordsOne(Tables(), key, SubjectOf(req), NOT_VERIFIED, renew, timing.committed);
      answer := CommitFinding(key, SubjectOf(req), NOT_VERIFIED, renew, timing);
      if answer.Raises? {
        answer := Nothing;
      }
    }

    method RecordExternalFinding(subject: Subject, externalId: Option<string>, verdict: Verdict, timing: Timing)
      returns (answer: Answer)
      modifies this, store
      ensures (Tables(), answer) == Step(old(Tables()), External(subject, externalId, verdict, timing))
      ensures Tables() == old(Tables()) || (answer == Got(old(|findings|))
              && RecordsOne(old(Tables()), Tables(),
                            ExternalKey(subject.tenant, externalId, subject.control, subject.asset), subject,
                            verdict.status, verdict.severity, timing.committed))
    {
      var key := ExternalKey(subject.tenant, externalId, subject.control, subject.asset);
      var existing := Lookup(key);
      if existing.Some? {
        return Nothing;
      }
      CommitRecordsOne(Tables(), key, subject, verdict, false, timing.committed);
      answer := CommitFinding(key, subject, verdict, false, timing);
    }
  }

  // ---------- runs ----------

  /** Calls one after another, newest last. */
  datatype Run = Start | Then(earlier: Run, call: Call)

  function After(run: Run): Db {
    if run.Start? then Db(map[], [], Posture.Tables(map[], [])) else Step(After(run.earlier), run.call).0
  }

  /** No clock reading of the run is after `now`, and none is before an earlier one. */
  ghost predicate Until(run: Run, now: int) {
    run.Then? ==>
      run.call.timing.checked <= run.call.timing.committed <= now && Until(run.earlier, run.call.timing.checked)
  }

  /**
  Whatever ran before, a request either changes nothing or adds the finding that says what was
  collected, and its cell's row then shows the collected status and severity.
  */
  lemma {:induction false} RequestRecordsWhatWasCollected(run: Run, req: Request, collected: Option<Verdict>,
                                                          t: Timing)
    ensures
      var before, after := After(run), After(Then(run, Single(req, collected, t)));
      after == before
      || (collected.Some? && t.lands
          && RecordsOne(before, after, KeyOf(req),
                        Subject(req.tenant, req.framework, req.control, req.source, req.asset),
                        collected.value.status, collected.value.severity, t.committed))
  {
    if collected.Some? {
      CommitRecordsOne(After(run), KeyOf(req), SubjectOf(req), collected.value, Stale(After(run), req, t.checked),
                       t.committed);
    }
  }

  /** A request that could not be verified adds nothing or a finding with status `Error` and severity `Medium`. */
  lemma {:induction false} UnverifiableIsAnError(run: Run, req: Request, t: Timing)
    ensures
      var before, after := After(run), After(Then(run, Unverifiable(req, t)));
      after == before
      || (t.lands
          && RecordsOne(before, after, KeyOf(req),
                        Subject(req.tenant, req.framework, req.control, req.source, req.asset),
                        Posture.Error, Posture.Medium, t.committed))
  {
    CommitRecordsOne(After(run), KeyOf(req), SubjectOf(req), NOT_VERIFIED, Stale(After(run), req, t.checked),
                     t.committed);
  }

  /** A scanner's finding adds nothing, or a finding with the scanner's own verdict. */
  lemma {:induction false} ExternalKeepsItsVerdict(run: Run, s: Subject, externalId: Option<string>, v: Verdict,
                                                   t: Timing)
    ensures
      var before, after := After(run), After(Then(run, External(s, externalId, v, t)));
      after == before
      || (t.lands
          && RecordsOne(before, after, ExternalKey(s.tenant, externalId, s.control, s.asset), s, v.status, v.severity,
                        t.committed))
  {
    CommitRecordsOne(After(run), ExternalKey(s.tenant, externalId, s.control, s.asset), s, v, false, t.committed);
  }

  // ---------- the invariant ----------

  /** Derived keys are the only ones that age. */
  predicate Ages(key: Key) {
    key.namespace == DERIVED[0]
  }

  /** Each record points at the newest finding of its key, and has its tenant and its time. */
  ghost predicate RecordsPoint(db: Db) {
    forall k :: k in db.idem ==>
      var r := db.idem[k];
      r.finding < |db.findings| && db.findings[r.finding].key == k
      && db.findings[r.finding].tenant == r.tenant && db.findings[r.finding].at == r.created
  }

  ghost predicate FindingsRecorded(db: Db) {
    forall i :: 0 <= i < |db.findings| ==> db.findings[i].key in db.idem && i <= db.idem[db.findings[i].key].finding
  }

  ghost predicate AllBefore(db: Db, now: int) {
    forall i :: 0 <= i < |db.findings| ==> db.findings[i].at <= now
  }

  /** Two findings under one key: the key is derived, and they are more than a window apart. */
  ghost predicate Apart(db: Db) {
    forall i, j :: 0 <= i < j < |db.findings| && db.findings[i].key == db.findings[j].key ==>
      Ages(db.findings[i].key) && db.findings[j].at - db.findings[i].at > WINDOW
  }

  /** The finding is about what the request asks. */
  predicate Answers(f: Finding, req: Request) {
    f.tenant == req.tenant
    && (!Explicit(req) ==> f.framework == req.framework && f.control == req.control && f.asset == req.asset
                           && f.source == Posture.Upper(req.source))
  }

  ghost predicate KeysHonest(db: Db) {
    forall i, req :: 0 <= i < |db.findings| && db.findings[i].key == KeyOf(req) ==> Answers(db.findings[i], req)
  }

  function CellOfFinding(f: Finding): Posture.Cell {
    Posture.Cell(f.tenant, f.control, f.source, if f.asset.None? then "" else f.asset.value)
  }

  /** Current posture is the verdict of each cell's newest finding. */
  ghost predicate PostureCurrent(db: Db) {
    && (forall i :: 0 <= i < |db.findings| ==> CellOfFinding(db.findings[i]) in db.posture.posture)
    && (forall c :: c in db.posture.posture ==> CellCurrent(db.findings, c, db.posture.posture[c]))
  }

  ghost predicate CellCurrent(findings: seq<Finding>, c: Posture.Cell, p: Posture.Current) {
    && 0 <= p.lastFinding < |findings|
    && CellOfFinding(findings[p.lastFinding]) == c
    && findings[p.lastFinding].status == p.status && findings[p.lastFinding].severity == p.severity
    && forall i :: 0 <= i < |findings| && CellOfFinding(findings[i]) == c ==> i <= p.lastFinding
  }

  /** Records and findings fit together, whatever their keys mean. */
  ghost predicate Consistent(db: Db, now: int) {
    RecordsPoint(db) && FindingsRecorded(db) && AllBefore(db, now) && Apart(db) && PostureCurrent(db)
  }

  ghost predicate Inv(db: Db, now: int) {
    Consistent(db, now) && KeysHonest(db)
  }

  // ---------- every call keeps it ----------

  /** A commit is due: the key is new, or it is derived and its newest finding has aged out. */
  ghost predicate Due(db: Db, key: Key, renew: bool, now: int) {
    if renew then key in db.idem && Ages(key) && now - db.idem[key].created > WINDOW else key !in db.idem
  }

  lemma {:induction false} CommitRecords(db: Db, key: Key, s: Subject, verdict: Verdict, renew: bool, at: int)
    requires RecordsPoint(db) && FindingsRecorded(db)
    requires renew ==> key in db.idem && db.idem[key].tenant == s.tenant
    ensures RecordsPoint(Committed(db, key, s, verdict, renew, at))
        && FindingsRecorded(Committed(db, key, s, verdict, renew, at))
  {
  }

  lemma {:induction false} AgedOut(db: Db, key: Key, renew: bool, checked: int, i: nat)
    requires RecordsPoint(db) && FindingsRecorded(db) && Apart(db) && Due(db, key, renew, checked)
    requires i < |db.findings| && db.findings[i].key == key
    ensures Ages(key) && checked - db.findings[i].at > WINDOW
  {
    var last := db.idem[key].finding;
    assert db.findings[last].key == key;
  }

  lemma {:induction false} CommitApart(db: Db, key: Key, s: Subject, verdict: Verdict, renew: bool, checked: int,
      at: int)
    requires RecordsPoint(db) && FindingsRecorded(db) && Apart(db) && AllBefore(db, checked)
    requires Due(db, key, renew, checked) && checked <= at
    ensures Apart(Committed(db, key, s, verdict, renew, at)) && AllBefore(Committed(db, key, s, verdict, renew, at), at)
  {
    var n, after := |db.findings|, Committed(db, key, s, verdict, renew, at);
    forall i | 0 <= i < n && db.findings[i].key == key
      ensures Ages(key) && at - db.findings[i].at > WINDOW
    {
      AgedOut(db, key, renew, checked, i);
    }
    assert forall i :: 0 <= i < n ==> after.findings[i] == db.findings[i];
  }

  /** The new finding answers every request that its key could stand for. */
  ghost predicate Honest(key: Key, s: Subject) {
    forall req :: KeyOf(req) == key ==> s.tenant == req.tenant && (!Explicit(req) ==> s == SubjectOf(req))
  }

  lemma {:induction false} RequestsHonest(req: Request)
    ensures Honest(KeyOf(req), SubjectOf(req))
  {
    forall other | KeyOf(other) == KeyOf(req)
      ensures req.tenant == other.tenant && (!Explicit(other) ==> SubjectOf(req) == SubjectOf(other))
    {
      KeyMeansOneThing(req, other);
    }
  }

  lemma {:induction false} ExternalHonest(s: Subject, externalId: Option<string>)
    ensures Honest(ExternalKey(s.tenant, externalId, s.control, s.asset), s)
  {
    forall req | KeyOf(req) == ExternalKey(s.tenant, externalId, s.control, s.asset)
      ensures false
    {
      ExternalKeysApart(s.tenant, externalId, s.control, s.asset, req, "", None, "", None);
    }
  }

  lemma {:induction false} CommitHonest(db: Db, key: Key, s: Subject, verdict: Verdict, renew: bool, at: int)
    requires KeysHonest(db) && Honest(key, s)
    ensures KeysHonest(Committed(db, key, s, verdict, renew, at))
  {
  }

  lemma {:induction false} OtherCell(findings: seq<Finding>, f: Finding, c: Posture.Cell, p: Posture.Current)
    requires CellCurrent(findings, c, p) && CellOfFinding(f) != c
    ensures CellCurrent(findings + [f], c, p)
  {
  }

  lemma {:induction false} CommitPosture(db: Db, key: Key, s: Subject, verdict: Verdict, renew: bool, at: int)
    requires PostureCurrent(db)
    ensures PostureCurrent(Committed(db, key, s, verdict, renew, at))
  {
    var after, f := Committed(db, key, s, verdict, renew, at), NewFinding(key, s, verdict, at);
    var cell := Posture.CellOf(s.tenant, s.control, s.source, s.asset);
    assert after.findings == db.findings + [f] && CellOfFinding(f) == cell;
    assert after.posture.posture == db.posture.posture[cell := after.posture.posture[cell]];
    forall c | c in after.posture.posture
      ensures CellCurrent(after.findings, c, after.posture.posture[c])
    {
      if c != cell { OtherCell(db.findings, f, c, db.posture.posture[c]); }
    }
  }

  lemma {:induction false} CommitConsistent(db: Db, key: Key, s: Subject, verdict: Verdict, renew: bool, checked: int,
      at: int)
    requires Consistent(db, checked) && Due(db, key, renew, checked) && checked <= at
    requires renew ==> db.idem[key].tenant == s.tenant
    ensures Consistent(Committed(db, key, s, verdict, renew, at), at)
  {
    CommitRecords(db, key, s, verdict, renew, at);
    CommitApart(db, key, s, verdict, renew, checked, at);
    CommitPosture(db, key, s, verdict, renew, at);
  }

  lemma {:induction false} InvLater(db: Db, now: int, later: int)
    requires Inv(db, now) && now <= later
    ensures Inv(db, later)
  {
  }

  lemma {:induction false} KeyKinds(call: Call)
    ensures Ages(KeyOfCall(call)) <==> !call.External? && !Explicit(call.req)
  {
    assert CLIENT[0] == 'c' && DERIVED[0] == 'd' && EXTERNAL[0] == 'e';
  }

  lemma {:induction false} CallInv(db: Db, call: Call)
    requires Inv(db, call.timing.checked) && call.timing.checked <= call.timing.committed
    ensures Inv(Step(db, call).0, call.timing.committed)
  {
    var t, key := call.timing, KeyOfCall(call);
    InvLater(db, t.checked, t.committed);
    KeyKinds(call);
    if call.External? {
      ExternalHonest(call.subject, call.externalId);
      if key !in db.idem {
        CommitConsistent(db, key, call.subject, call.verdict, false, t.checked, t.committed);
        CommitHonest(db, key, call.subject, call.verdict, false, t.committed);
      }
    } else {
      var renew, s := Stale(db, call.req, t.checked), SubjectOf(call.req);
      RequestsHonest(call.req);
      if renew || key !in db.idem {
        var verdict := if call.Single? && call.collected.Some? then call.collected.value else NOT_VERIFIED;
        CommitConsistent(db, key, s, verdict, renew, t.checked, t.committed);
        CommitHonest(db, key, s, verdict, renew, t.committed);
      }
    }
  }

  lemma {:induction false} RunInv(run: Run, now: int)
    requires Until(run, now)
    ensures Inv(After(run), now)
  {
    if run.Then? {
      RunInv(run.earlier, run.call.timing.checked);
      CallInv(After(run.earlier), run.call);
      InvLater(After(run), run.call.timing.committed, now);
    }
  }

  // ---------- what the write path promises ----------

  /** Two findings under one key are more than five minutes apart, and only a derived key has two. */
  lemma {:induction false} OneFindingPerWindow(run: Run, now: int, i: nat, j: nat)
    requires Until(run, now) && i < j < |After(run).findings|
    requires After(run).findings[i].key == After(run).findings[j].key
    ensures Ages(After(run).findings[i].key)
    ensures After(run).findings[j].at - After(run).findings[i].at > 300_000_000
  {
    RunInv(run, now);
  }

  /** Every record points at an existing finding of its tenant: the newest under its key. */
  lemma {:induction false} RecordsPointHome(run: Run, now: int, key: Key, i: nat)
    requires Until(run, now) && key in After(run).idem
    ensures var db, r := After(run), After(run).idem[key];
      r.finding < |db.findings| && db.findings[r.finding].key == key && db.findings[r.finding].tenant == r.tenant
      && (i < |db.findings| && db.findings[i].key == key ==> i <= r.finding)
  {
    RunInv(run, now);
  }

  /** Current posture is the verdict of the newest finding of the cell, and every finding's cell has posture. */
  lemma {:induction false} PostureIsNewestFinding(run: Run, now: int, i: nat)
    requires Until(run, now) && i < |After(run).findings|
    ensures var db := After(run); var cell := CellOfFinding(db.findings[i]);
      cell in db.posture.posture
      && i <= db.posture.posture[cell].lastFinding < |db.findings|
      && CellOfFinding(db.findings[db.posture.posture[cell].lastFinding]) == cell
      && db.findings[db.posture.posture[cell].lastFinding].status == db.posture.posture[cell].status
      && db.findings[db.posture.posture[cell].lastFinding].severity == db.posture.posture[cell].severity
  {
    RunInv(run, now);
  }

  /** A finding that binds a request made now: one under its key, still inside the window if the key ages. */
  predicate Binds(f: Finding, req: Request, now: int) {
    f.key == KeyOf(req) && (Explicit(req) || now - f.at <= WINDOW)
  }

  lemma {:induction false} NewestBinds(db: Db, req: Request, now: int)
    requires RecordsPoint(db) && FindingsRecorded(db) && Apart(db) && KeyOf(req) in db.idem
    ensures (exists i :: 0 <= i < |db.findings| && Binds(db.findings[i], req, now)) <==>
            Binds(db.findings[db.idem[KeyOf(req)].finding], req, now)
  {
    var last := db.idem[KeyOf(req)].finding;
    assert db.findings[last].key == KeyOf(req);
    forall i | 0 <= i < |db.findings| && Binds(db.findings[i], req, now)
      ensures Binds(db.findings[last], req, now)
    {
      assert i == last || db.findings[last].at - db.findings[i].at > WINDOW;
    }
  }

  /** Some finding binds the request. */
  ghost predicate Bound(db: Db, req: Request, now: int) {
    exists i :: 0 <= i < |db.findings| && Binds(db.findings[i], req, now)
  }

  lemma {:induction false} BoundIffNotDue(db: Db, req: Request, now: int)
    requires RecordsPoint(db) && FindingsRecorded(db) && Apart(db)
    ensures Bound(db, req, now) <==> KeyOf(req) in db.idem && !Stale(db, req, now)
  {
    if KeyOf(req) in db.idem { NewestBinds(db, req, now); }
  }

  /** `i` is the newest finding under the request's key, and about its subject. */
  ghost predicate NewestFor(db: Db, req: Request, i: nat) {
    && i < |db.findings| && db.findings[i].key == KeyOf(req) && Answers(db.findings[i], req)
    && forall j :: 0 <= j < |db.findings| && db.findings[j].key == KeyOf(req) ==> j <= i
  }

  lemma {:induction false} RecordedIsNewest(db: Db, req: Request, now: int)
    requires Inv(db, now) && KeyOf(req) in db.idem
    ensures NewestFor(db, req, db.idem[KeyOf(req)].finding)
  {
  }

  /**
  After any run, a request gets an earlier finding back if and only if one binds it; otherwise,
  exactly when its telemetry and its commit succeed, it gets a new one. Either way the finding
  is the newest under its key and of the request's own tenant and subject.
  */
  lemma {:induction false} RequestIsAnswered(run: Run, req: Request, collected: Option<Verdict>, t: Timing)
    requires Until(run, t.checked) && t.checked <= t.committed
    ensures var db := After(run); var (after, answer) := Step(db, Single(req, collected, t));
      && (answer.Got? && answer.finding < |db.findings| <==> Bound(db, req, t.checked))
      && (answer == Got(|db.findings|) <==> collected.Some? && t.lands && !Bound(db, req, t.checked))
      && (answer.Got? ==> NewestFor(after, req, answer.finding))
  {
    var db, call := After(run), Single(req, collected, t);
    RunInv(run, t.checked);
    CallInv(db, call);
    BoundIffNotDue(db, req, t.checked);
    var (after, answer) := Step(db, call);
    if answer.Got? {
      assert KeyOf(req) in after.idem && after.idem[KeyOf(req)].finding == answer.finding;
      RecordedIsNewest(after, req, t.committed);
    }
  }

  /** A finding has this key. */
  ghost predicate HasFinding(db: Db, key: Key) {
    exists i :: 0 <= i < |db.findings| && db.findings[i].key == key
  }

  lemma {:induction false} CommitAdds(db: Db, key: Key, s: Subject, verdict: Verdict, renew: bool, at: int)
    ensures Committed(db, key, s, verdict, renew, at) != db
  {
    assert |Committed(db, key, s, verdict, renew, at).findings| == |db.findings| + 1;
  }

  /** After any run a request adds a finding exactly if there is a verdict, none binds it, and the commit lands. */
  lemma {:induction false} RequestAddsExactly(run: Run, req: Request, collected: Option<Verdict>, t: Timing)
    requires Until(run, t.checked)
    ensures After(Then(run, Single(req, collected, t))) != After(run)
            <==> collected.Some? && t.lands && !Bound(After(run), req, t.checked)
  {
    var db := After(run);
    RunInv(run, t.checked);
    BoundIffNotDue(db, req, t.checked);
    if collected.Some? {
      CommitAdds(db, KeyOf(req), SubjectOf(req), collected.value, Stale(db, req, t.checked), t.committed);
    }
  }

  /** One that could not be verified, exactly if none binds it and the commit lands. */
  lemma {:induction false} UnverifiableAddsExactly(run: Run, req: Request, t: Timing)
    requires Until(run, t.checked)
    ensures After(Then(run, Unverifiable(req, t))) != After(run) <==> t.lands && !Bound(After(run), req, t.checked)
  {
    var db := After(run);
    RunInv(run, t.checked);
    BoundIffNotDue(db, req, t.checked);
    CommitAdds(db, KeyOf(req), SubjectOf(req), NOT_VERIFIED, Stale(db, req, t.checked), t.committed);
  }

  /** A scanner's finding is added exactly if none is under its key and the commit lands. */
  lemma {:induction false} ExternalAddsExactly(run: Run, s: Subject, externalId: Option<string>, v: Verdict, t: Timing)
    requires Until(run, t.checked)
    ensures After(Then(run, External(s, externalId, v, t))) != After(run)
            <==> t.lands && !HasFinding(After(run), ExternalKey(s.tenant, externalId, s.control, s.asset))
  {
    var db, key := After(run), ExternalKey(s.tenant, externalId, s.control, s.asset);
    RunInv(run, t.checked);
    CommitAdds(db, key, s, v, false, t.committed);
    if key in db.idem {
      assert db.findings[db.idem[key].finding].key == key;
    }
  }

  /** `later` continues `run`. */
  ghost predicate Continues(run: Run, later: Run) {
    later == run || (later.Then? && Continues(run, later.earlier))
  }

  /** Findings are only ever appended. */
  lemma {:induction false} FindingsAreKept(run: Run, later: Run)
    requires Continues(run, later)
    ensures After(run).findings <= After(later).findings
  {
    if later != run { FindingsAreKept(run, later.earlier); }
  }

  lemma {:induction false} OnlyFinding(db: Db, key: Key, f: nat)
    requires RecordsPoint(db) && FindingsRecorded(db) && Apart(db)
    requires !Ages(key) && f < |db.findings| && db.findings[f].key == key
    ensures Existing(db, key) == Some(f)
  {
    var g := db.idem[key].finding;
    assert f <= g && db.findings[g].key == key;
  }

  lemma {:induction false} OnlyFindingOfRun(run: Run, now: int, key: Key, f: nat)
    requires Until(run, now) && !Ages(key) && f < |After(run).findings| && After(run).findings[f].key == key
    ensures Existing(After(run), key) == Some(f)
  {
    RunInv(run, now);
    OnlyFinding(After(run), key, f);
  }

  /** Once a caller's own key has been answered with a finding, it is answered with that one for ever. */
  lemma {:induction false} ExplicitKeyForever(run: Run, first: Call, later: Run, again: Call)
    requires first.Single? && again.Single? && Explicit(first.req)
    requires KeyOf(first.req) == KeyOf(again.req)
    requires Until(Then(later, again), again.timing.committed)
    requires Continues(Then(run, first), later) && Step(After(run), first).1.Got?
    ensures Step(After(later), again).1 == Step(After(run), first).1
  {
    KeyMeansOneThing(first.req, again.req);
    var key, f := KeyOf(first.req), Step(After(run), first).1.finding;
    ContinuesInTime(Then(run, first), later, again.timing.checked);
    UntilCommitted(run, first, again.timing.checked);
    AnsweredUnderKey(run, first);
    FindingsAreKept(Then(run, first), later);
    assert After(later).findings[f] == After(Then(run, first)).findings[f];
    KeyKinds(first);
    OnlyFindingOfRun(later, again.timing.checked, key, f);
  }

  lemma {:induction false} AnsweredUnderKey(run: Run, call: Call)
    requires call.Single? && Until(Then(run, call), call.timing.committed) && Step(After(run), call).1.Got?
    ensures var f, db := Step(After(run), call).1.finding, After(Then(run, call));
      f < |db.findings| && db.findings[f].key == KeyOf(call.req)
  {
    RequestIsAnswered(run, call.req, call.collected, call.timing);
  }

  lemma {:induction false} ContinuesInTime(run: Run, later: Run, now: int)
    requires Continues(run, later) && Until(later, now)
    ensures Until(run, now)
  {
    if later != run {
      ContinuesInTime(run, later.earlier, later.call.timing.checked);
      UntilLater(run, later.call.timing.checked, now);
    }
  }

  lemma {:induction false} UntilCommitted(run: Run, call: Call, now: int)
    requires Until(Then(run, call), now)
    ensures Until(Then(run, call), call.timing.committed)
  {
  }

  lemma {:induction false} UntilLater(run: Run, now: int, later: int)
    requires Until(run, now) && now <= later
    ensures Until(run, later)
  {
  }
}
