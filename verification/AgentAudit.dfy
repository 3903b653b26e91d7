/**
The agent-decision log of app/services/agent_audit.py: appends chained by hash under a
signed head, and the verifier. The verifier is proved exact: with a genuinely signed head
it accepts a set of rows if and only if they are, in some order, the records signed for.
*/
module AgentAudit {
  import opened Common

  /** The fields a record's hash protects; `detail` is its canonical text. */
  datatype Payload = Payload(tenant: string, agentId: string, agentName: string, action: string,
                             target: Option<string>, onBehalfOf: Option<string>, confidence: Option<real>,
                             outcome: string, detail: Option<string>, createdAt: int)

  /**
   * A hash column: some text nobody hashed, or the digest of a predecessor and a payload. Equal digests
   * have equal inputs. The digested text is the predecessor, a line break and JSON without line breaks,
   * so where one ends and the other starts is never in doubt.
   */
  datatype Hash = Text(s: string) | Digest(prev: Hash, payload: Payload)

  datatype Row = Row(id: int, payload: Payload, prevHash: Option<Hash>, recordHash: Hash)

  /** A keyed signature over tenant, tip and count, or any other text. */
  datatype Signature = Mac(tenant: string, head: Hash, count: int) | Forged(s: string)

  datatype Head = Head(headHash: Hash, actionCount: int, signature: Option<Signature>)

  const NO_HASH := Text("")

  /** A missing predecessor and an empty one are the same. */
  function Link(prev: Option<Hash>): Hash {
    if prev.None? then NO_HASH else prev.value
  }

  function RecordHash(prev: Option<Hash>, payload: Payload): Hash {
    Digest(Link(prev), payload)
  }

  function HeadSignature(tenant: string, head: Hash, count: int): Signature {
    Mac(tenant, head, count)
  }

  // ---------- appending ----------

  /** One call of `record_action`: the payload, stamped with the time of the call, and the row's id. */
  datatype Action = Action(id: int, payload: Payload)

  function OfTenant(rows: seq<Row>, tenant: string): seq<Row> {
    if rows == [] then []
    else
      var init := OfTenant(rows[..|rows| - 1], tenant);
      if rows[|rows| - 1].payload.tenant == tenant then init + [rows[|rows| - 1]] else init
  }

  predicate Before(a: Row, b: Row) {
    a.payload.createdAt < b.payload.createdAt || (a.payload.createdAt == b.payload.createdAt && a.id < b.id)
  }

  /** The latest row by time, then id. */
  function Latest(rows: seq<Row>): Option<Row> {
    if rows == [] then None
    else
      var last := rows[|rows| - 1];
      match Latest(rows[..|rows| - 1])
      case None => Some(last)
      case Some(best) => Some(if Before(last, best) then best else last)
  }

  class AgentLog {
    var rows: seq<Row>
    var heads: map<string, Head>

    constructor ()
      ensures rows == [] && heads == map[]
    {
      rows := [];
      heads := map[];
    }

    method UpsertHead(tenant: string, headHash: Hash)
      modifies this`heads
      ensures var count := (if tenant in old(heads) then old(heads)[tenant].actionCount else 0) + 1;
        heads == old(heads)[tenant := Head(headHash, count, Some(HeadSignature(tenant, headHash, count)))]
    {
      var count := (if tenant in heads then heads[tenant].actionCount else 0) + 1;
      var sig := HeadSignature(tenant, headHash, count);
      if tenant in heads {
        heads := heads[tenant := heads[tenant].(headHash := headHash, actionCount := count, signature := Some(sig))];
      } else {
        heads := heads[tenant := Head(headHash, count, Some(sig))];
      }
    }

    method RecordAction(a: Action) returns (row: Row)
      modifies this
      ensures Db(rows, heads) == Append(Db(old(rows), old(heads)), a)
      ensures row == rows[|rows| - 1]
    {
      var prev := Latest(OfTenant(rows, a.payload.tenant));
      var prevHash := if prev.None? then None else Some(prev.value.recordHash);
      row := Row(a.id, a.payload, prevHash, RecordHash(prevHash, a.payload));
      rows := rows + [row];
      UpsertHead(a.payload.tenant, row.recordHash);
    }

    /** Reads the tenant's rows and head and reports on them. */
    method VerifyChain(tenant: string) returns (report: Report)
      ensures Reports(report, OfTenant(rows, tenant), tenant, if tenant in heads then Some(heads[tenant]) else None)
    {
      report := Verify(OfTenant(rows, tenant), tenant, if tenant in heads then Some(heads[tenant]) else None);
    }
  }

  // ---------- verifying ----------

  datatype Issue = ForkedChain | HeadSignatureInvalid | TailRemovedOrReplaced | ActionCountMismatch | NoRecordedHead

  datatype Report = Report(ok: bool, actions: int, broken: seq<int>, issues: seq<Issue>, headVerified: bool,
                           expectedActions: Option<int>)

  function Hashes(rows: seq<Row>): set<Hash> {
    set i | 0 <= i < |rows| :: rows[i].recordHash
  }

  predicate HasPrev(r: Row) {
    Link(r.prevHash) != NO_HASH
  }

  /** The record matches its hash and its predecessor, if it names one, is present. */
  predicate Sound(r: Row, hashes: set<Hash>) {
    RecordHash(r.prevHash, r.payload) == r.recordHash && (HasPrev(r) ==> Link(r.prevHash) in hashes)
  }

  /** Two rows claim the same predecessor. */
  predicate Fork(rows: seq<Row>, i: nat, j: nat)
    requires i < |rows| && j < |rows|
  {
    i < j && HasPrev(rows[i]) && Link(rows[i].prevHash) == Link(rows[j].prevHash)
  }

  predicate Forked(rows: seq<Row>) {
    exists i, j :: 0 <= i < |rows| && 0 <= j < |rows| && Fork(rows, i, j)
  }

  function HeadIssue(rows: seq<Row>, tenant: string, head: Option<Head>): Option<Issue> {
    match head
    case None => if rows == [] then None else Some(NoRecordedHead)
    case Some(h) =>
      if h.signature != Some(HeadSignature(tenant, h.headHash, h.actionCount)) then Some(HeadSignatureInvalid)
      else if h.headHash !in Hashes(rows) then Some(TailRemovedOrReplaced)
      else if |rows| != h.actionCount then Some(ActionCountMismatch)
      else None
  }

  /** The ids of the rows that are not sound, in order. */
  function BrokenIds(rows: seq<Row>, hashes: set<Hash>): seq<int> {
    if rows == [] then []
    else
      BrokenIds(rows[..|rows| - 1], hashes)
      + if Sound(rows[|rows| - 1], hashes) then [] else [rows[|rows| - 1].id]
  }

  /** What a report says, whatever rows and head it is about. */
  ghost predicate Reports(report: Report, rows: seq<Row>, tenant: string, head: Option<Head>) {
    var issue := HeadIssue(rows, tenant, head);
    && (report.ok <==> (forall i :: 0 <= i < |rows| ==> Sound(rows[i], Hashes(rows))) && !Forked(rows) && issue.None?)
    && report.actions == |rows|
    && (report.headVerified <==> head.Some? && issue.None?)
    && report.issues == (if Forked(rows) then [ForkedChain] else []) + (if issue.Some? then [issue.value] else [])
    && report.expectedActions == (if head.Some? then Some(head.value.actionCount) else None)
    && (!Forked(rows) ==> report.broken == BrokenIds(rows, Hashes(rows)))
    && (Forked(rows) ==>
          exists i, j :: 0 <= i < |rows| && 0 <= j < |rows| && Fork(rows, i, j)
                         && report.broken == BrokenIds(rows, Hashes(rows)) + [rows[i].id, rows[j].id])
  }

  lemma {:induction false} BrokenIdsEmpty(rows: seq<Row>, hashes: set<Hash>)
    ensures BrokenIds(rows, hashes) == [] <==> forall i :: 0 <= i < |rows| ==> Sound(rows[i], hashes)
  {
    if rows != [] {
      var init, last := rows[..|rows| - 1], rows[|rows| - 1];
      BrokenIdsEmpty(init, hashes);
      assert rows == init + [last];
    }
  }

  /** The first loop: the rows that do not match their hash, or whose predecessor is gone. */
  method FindBroken(rows: seq<Row>, hashes: set<Hash>) returns (broken: seq<int>)
    ensures broken == BrokenIds(rows, hashes)
  {
    broken := [];
    var k := 0;
    while k < |rows|
      invariant 0 <= k <= |rows| && broken == BrokenIds(rows[..k], hashes)
    {
      assert rows[..k + 1][..k] == rows[..k];
      if RecordHash(rows[k].prevHash, rows[k].payload) != rows[k].recordHash {
        broken := broken + [rows[k].id];
      } else if HasPrev(rows[k]) && Link(rows[k].prevHash) !in hashes {
        broken := broken + [rows[k].id];
      }
      k := k + 1;
    }
    assert rows[..|rows|] == rows;
  }

  /** The second loop: the first row that claims a predecessor already claimed, with the row that claimed it. */
  method FindFork(rows: seq<Row>) returns (fork: Option<(nat, nat)>)
    ensures fork.Some? <==> Forked(rows)
    ensures fork.Some? ==> fork.value.0 < |rows| && fork.value.1 < |rows| && Fork(rows, fork.value.0, fork.value.1)
    ensures fork.Some? ==> forall i, j :: 0 <= i < fork.value.1 && 0 <= j < fork.value.1 ==> !Fork(rows, i, j)
  {
    var seenPrev: map<Hash, nat> := map[];
    var k := 0;
    while k < |rows|
      invariant 0 <= k <= |rows|
      invariant forall i :: 0 <= i < k && HasPrev(rows[i]) ==> Link(rows[i].prevHash) in seenPrev
      invariant forall h :: h in seenPrev ==> h != NO_HASH && seenPrev[h] < k && Link(rows[seenPrev[h]].prevHash) == h
      invariant forall i, j :: 0 <= i < k && 0 <= j < k ==> !Fork(rows, i, j)
    {
      var prev := Link(rows[k].prevHash);
      if HasPrev(rows[k]) {
        if prev in seenPrev {
          assert Fork(rows, seenPrev[prev], k);
          return Some((seenPrev[prev], k));
        }
        seenPrev := seenPrev[prev := k];
      }
      k := k + 1;
    }
    fork := None;
  }

  method Verify(rows: seq<Row>, tenant: string, head: Option<Head>) returns (report: Report)
    ensures Reports(report, rows, tenant, head)
  {
    var hashes := Hashes(rows);
    var broken := FindBroken(rows, hashes);
    BrokenIdsEmpty(rows, hashes);
    var issues: seq<Issue> := [];
    var fork := FindFork(rows);
    if fork.Some? {
      issues := [ForkedChain];
      broken := broken + [rows[fork.value.0].id, rows[fork.value.1].id];
    }
    var headVerified := false;
    if head.Some? {
      var h := head.value;
      if h.signature != Some(HeadSignature(tenant, h.headHash, h.actionCount)) {
        issues := issues + [HeadSignatureInvalid];
      } else if h.headHash !in hashes {
        issues := issues + [TailRemovedOrReplaced];
      } else if |rows| != h.actionCount {
        issues := issues + [ActionCountMismatch];
      } else {
        headVerified := true;
      }
    } else if rows != [] {
      issues := issues + [NoRecordedHead];
    }
    report := Report(broken == [] && issues == [], |rows|, broken, issues, headVerified,
                     if head.Some? then Some(head.value.actionCount) else None);
  }

  // ---------- runs ----------

  datatype Db = Db(rows: seq<Row>, heads: map<string, Head>)

  function Append(db: Db, a: Action): Db {
    var tenant := a.payload.tenant;
    var prev := Latest(OfTenant(db.rows, tenant));
    var prevHash := if prev.None? then None else Some(prev.value.recordHash);
    var hash := RecordHash(prevHash, a.payload);
    var count := (if tenant in db.heads then db.heads[tenant].actionCount else 0) + 1;
    Db(db.rows + [Row(a.id, a.payload, prevHash, hash)],
       db.heads[tenant := Head(hash, count, Some(HeadSignature(tenant, hash, count)))])
  }

  function Run(actions: seq<Action>): Db {
    if actions == [] then Db([], map[]) else Append(Run(actions[..|actions| - 1]), actions[|actions| - 1])
  }

  function ActionsOf(actions: seq<Action>, tenant: string): seq<Action> {
    if actions == [] then []
    else
      var init := ActionsOf(actions[..|actions| - 1], tenant);
      if actions[|actions| - 1].payload.tenant == tenant then init + [actions[|actions| - 1]] else init
  }

  /** No two calls for one tenant carry the same time, and time does not go back between them. */
  ghost predicate StrictClock(actions: seq<Action>) {
    forall i, j :: 0 <= i < j < |actions| && actions[i].payload.tenant == actions[j].payload.tenant
                   ==> actions[i].payload.createdAt < actions[j].payload.createdAt
  }

  /** The hash of the last of a tenant's actions, each chained to the one before it. */
  function Tip(actions: seq<Action>): Option<Hash> {
    if actions == [] then None
    else Some(RecordHash(Tip(actions[..|actions| - 1]), actions[|actions| - 1].payload))
  }

  /** A tenant's genuine records. */
  function Chain(actions: seq<Action>): seq<Row> {
    if actions == [] then []
    else
      var init, a := actions[..|actions| - 1], actions[|actions| - 1];
      Chain(init) + [Row(a.id, a.payload, Tip(init), RecordHash(Tip(init), a.payload))]
  }

  lemma {:induction false} ChainAt(actions: seq<Action>, k: nat)
    requires k < |actions|
    ensures |Chain(actions)| == |actions|
    ensures Chain(actions)[k] == Row(actions[k].id, actions[k].payload, Tip(actions[..k]), Tip(actions[..k + 1]).value)
    decreases |actions|
  {
    var init := actions[..|actions| - 1];
    if k < |init| {
      ChainAt(init, k);
      assert init[..k] == actions[..k] && init[..k + 1] == actions[..k + 1];
    } else {
      assert actions[..k] == init && actions[..k + 1] == actions;
      if init != [] {
        ChainAt(init, 0);
      }
    }
  }

  lemma {:induction false} ChainLength(actions: seq<Action>)
    ensures |Chain(actions)| == |actions|
  {
    if actions != [] {
      ChainAt(actions, 0);
    }
  }

  /** `a` comes before `b` in the order of time, then id. */
  predicate Earlier(a: Action, b: Action) {
    a.payload.createdAt < b.payload.createdAt || (a.payload.createdAt == b.payload.createdAt && a.id < b.id)
  }

  /** No action but possibly the last comes before one that was recorded ahead of it. */
  ghost predicate InOrderButLast(own: seq<Action>) {
    forall i, j :: 0 <= i < j < |own| - 1 ==> !Earlier(own[j], own[i])
  }

  /** The predecessor that a record appended to `rows` names. */
  function PrevOf(rows: seq<Row>): Option<Hash> {
    if Latest(rows).None? then None else Some(Latest(rows).value.recordHash)
  }

  /** The rows record the actions in turn, each naming the latest of those before it. */
  ghost predicate Records(rows: seq<Row>, own: seq<Action>) {
    && |rows| == |own|
    && forall k :: 0 <= k < |own| ==> RecordsOne(rows, k, own[k])
  }

  ghost predicate RecordsOne(rows: seq<Row>, k: nat, a: Action)
    requires k < |rows|
  {
    rows[k] == Row(a.id, a.payload, PrevOf(rows[..k]), RecordHash(PrevOf(rows[..k]), a.payload))
  }

  lemma {:induction false} RecordsOneMore(rows: seq<Row>, own: seq<Action>, a: Action)
    requires Records(rows, own)
    ensures Records(rows + [Row(a.id, a.payload, PrevOf(rows), RecordHash(PrevOf(rows), a.payload))], own + [a])
  {
    var more := rows + [Row(a.id, a.payload, PrevOf(rows), RecordHash(PrevOf(rows), a.payload))];
    assert more[..|rows|] == rows;
    forall k | 0 <= k < |own|
      ensures RecordsOne(more, k, (own + [a])[k])
    {
      assert RecordsOne(rows, k, own[k]);
      assert more[..k] == rows[..k];
    }
  }

  /** What each tenant's rows and head are after any run, whatever the clock did. */
  lemma {:induction false} RunRows(actions: seq<Action>, tenant: string)
    ensures var db, own := Run(actions), ActionsOf(actions, tenant); var rows := OfTenant(db.rows, tenant);
      && Records(rows, own)
      && (tenant in db.heads <==> own != [])
      && (own != [] ==> var tip := rows[|rows| - 1].recordHash;
            db.heads[tenant] == Head(tip, |own|, Some(HeadSignature(tenant, tip, |own|))))
    decreases |actions|
  {
    if actions != [] {
      var init, a := actions[..|actions| - 1], actions[|actions| - 1];
      RunRows(init, tenant);
      var rows := Run(actions).rows;
      assert rows[..|rows| - 1] == Run(init).rows;
      if a.payload.tenant == tenant { RecordsOneMore(OfTenant(Run(init).rows, tenant), ActionsOf(init, tenant), a); }
    }
  }

  lemma {:induction false} LatestIsLast(rows: seq<Row>)
    requires rows != []
    requires forall i, j :: 0 <= i < j < |rows| ==> !Before(rows[j], rows[i])
    ensures Latest(rows) == Some(rows[|rows| - 1])
  {
    if |rows| > 1 {
      LatestIsLast(rows[..|rows| - 1]);
    }
  }

  /** Nothing comes after the latest row. */
  lemma {:induction false} LatestIsGreatest(rows: seq<Row>, j: nat)
    requires j < |rows|
    ensures Latest(rows).Some? && !Before(Latest(rows).value, rows[j])
  {
    if j < |rows| - 1 {
      LatestIsGreatest(rows[..|rows| - 1], j);
    } else if |rows| > 1 {
      LatestIsGreatest(rows[..|rows| - 1], 0);
    }
  }

  /** Records made in order, but for the last, form one chain. */
  lemma {:induction false} InOrderIsChain(rows: seq<Row>, own: seq<Action>)
    requires Records(rows, own) && InOrderButLast(own)
    ensures rows == Chain(own)
    decreases |own|
  {
    if own != [] {
      var n := |own| - 1;
      var before, init := rows[..n], own[..n];
      assert Records(before, init) by {
        forall k | 0 <= k < n
          ensures RecordsOne(before, k, init[k])
        {
          assert RecordsOne(rows, k, own[k]);
          assert before[..k] == rows[..k];
        }
      }
      InOrderIsChain(before, init);
      assert RecordsOne(rows, n, own[n]);
      TipIsLatest(before, init);
      assert rows == before + [rows[n]];
    }
  }

  lemma {:induction false} TipIsLatest(rows: seq<Row>, own: seq<Action>)
    requires Records(rows, own) && rows == Chain(own)
    requires forall i, j :: 0 <= i < j < |own| ==> !Earlier(own[j], own[i])
    ensures PrevOf(rows) == Tip(own)
  {
    if own != [] {
      forall i, j | 0 <= i < j < |rows|
        ensures !Before(rows[j], rows[i])
      {
        assert RecordsOne(rows, i, own[i]) && RecordsOne(rows, j, own[j]);
        assert !Earlier(own[j], own[i]);
      }
      LatestIsLast(rows);
      ChainAt(own, |own| - 1);
      assert own[..|own|] == own;
    }
  }

  /** An action recorded after a later one leaves two rows with one predecessor: its own and the next one's. */
  lemma {:induction false} OutOfOrderForks(rows: seq<Row>, own: seq<Action>)
    requires Records(rows, own) && !InOrderButLast(own)
    ensures Forked(rows)
  {
    var i, k :| 0 <= i < k < |own| - 1 && Earlier(own[k], own[i]);
    assert RecordsOne(rows, i, own[i]) && RecordsOne(rows, k, own[k]) && RecordsOne(rows, k + 1, own[k + 1]);
    var before, upTo := rows[..k], rows[..k + 1];
    LatestIsGreatest(before, i);
    assert upTo[..k] == before && upTo[k] == rows[k];
    var latest := Latest(before).value;
    assert Before(rows[k], latest);
    assert Latest(upTo) == Some(latest);
    LatestIsARow(before);
    var m :| 0 <= m < k && before[m] == latest;
    assert RecordsOne(rows, m, own[m]);
    assert Fork(rows, k, k + 1);
  }

  lemma {:induction false} LatestIsARow(rows: seq<Row>)
    requires rows != []
    ensures Latest(rows).Some? && Latest(rows).value in rows
  {
    if |rows| > 1 {
      LatestIsARow(rows[..|rows| - 1]);
    }
  }

  /** What each tenant's rows and head are after a run that recorded its actions in order. */
  lemma {:induction false} RunOfTenant(actions: seq<Action>, tenant: string)
    requires InOrderButLast(ActionsOf(actions, tenant))
    ensures var own := ActionsOf(actions, tenant);
      && OfTenant(Run(actions).rows, tenant) == Chain(own)
      && (tenant in Run(actions).heads <==> own != [])
      && (own != [] ==> var tip := Tip(own).value;
          Run(actions).heads[tenant] == Head(tip, |own|, Some(HeadSignature(tenant, tip, |own|))))
  {
    var own := ActionsOf(actions, tenant);
    RunRows(actions, tenant);
    InOrderIsChain(OfTenant(Run(actions).rows, tenant), own);
    if own != [] {
      ChainAt(own, |own| - 1);
      assert own[..|own|] == own;
    }
  }

  lemma {:induction false} OwnActions(actions: seq<Action>, tenant: string)
    ensures forall k :: 0 <= k < |ActionsOf(actions, tenant)| ==>
              ActionsOf(actions, tenant)[k].payload.tenant == tenant && ActionsOf(actions, tenant)[k] in actions
    decreases |actions|
  {
    if actions != [] {
      OwnActions(actions[..|actions| - 1], tenant);
    }
  }

  ghost predicate Increasing(actions: seq<Action>) {
    forall i, j :: 0 <= i < j < |actions| ==> actions[i].payload.createdAt < actions[j].payload.createdAt
  }

  /** A strictly increasing clock keeps every tenant's actions in order. */
  lemma {:induction false} StrictClockIsInOrder(actions: seq<Action>, tenant: string)
    requires StrictClock(actions)
    ensures Increasing(ActionsOf(actions, tenant)) && InOrderButLast(ActionsOf(actions, tenant))
    decreases |actions|
  {
    if actions != [] {
      var init, a := actions[..|actions| - 1], actions[|actions| - 1];
      var own := ActionsOf(init, tenant);
      StrictClockIsInOrder(init, tenant);
      OwnActions(init, tenant);
      forall i | 0 <= i < |own| && a.payload.tenant == tenant
        ensures own[i].payload.createdAt < a.payload.createdAt
      {
        var k :| 0 <= k < |init| && init[k] == own[i];
        assert actions[k] == own[i];
      }
    }
  }

  // ---------- the verifier is exact ----------

  /** What the hash fixes of a row: everything but its id, a missing predecessor counting as an empty one. */
  datatype View = View(payload: Payload, prev: Hash, hash: Hash)

  function ViewOf(r: Row): View {
    View(r.payload, Link(r.prevHash), r.recordHash)
  }

  function Views(rows: seq<Row>): seq<View> {
    seq(|rows|, i requires 0 <= i < |rows| => ViewOf(rows[i]))
  }

  function Depth(h: Hash): nat {
    match h
    case Text(_) => 0
    case Digest(prev, _) => Depth(prev) + 1
  }

  lemma {:induction false} TipDepth(actions: seq<Action>)
    ensures Depth(Link(Tip(actions))) == |actions|
    ensures Link(Tip(actions)) == NO_HASH <==> actions == []
    decreases |actions|
  {
    if actions != [] {
      TipDepth(actions[..|actions| - 1]);
    }
  }

  lemma {:induction false} ChainViewsDistinct(actions: seq<Action>, i: nat, j: nat)
    requires i < j < |actions|
    ensures |Chain(actions)| == |actions|
    ensures Views(Chain(actions))[i].hash != Views(Chain(actions))[j].hash
    ensures Views(Chain(actions))[i].prev != Views(Chain(actions))[j].prev
  {
    ChainAt(actions, i);
    ChainAt(actions, j);
    TipDepth(actions[..i]);
    TipDepth(actions[..j]);
    TipDepth(actions[..i + 1]);
    TipDepth(actions[..j + 1]);
  }

  /** The head is one `_upsert_head` signed: the tip after some number of the tenant's actions, with that number. */
  ghost predicate GenuineHead(actions: seq<Action>, tenant: string, head: Head) {
    && 1 <= head.actionCount <= |actions|
    && head.headHash == Tip(actions[..head.actionCount]).value
    && head.signature == Some(HeadSignature(tenant, head.headHash, head.actionCount))
  }

  /** Following sound links down from a genuine tip meets every genuine record below it. */
  lemma {:induction false} LinksReach(rows: seq<Row>, actions: seq<Action>, top: nat, k: nat)
    requires forall i :: 0 <= i < |rows| ==> Sound(rows[i], Hashes(rows))
    requires k < top <= |actions| && Tip(actions[..top]).value in Hashes(rows)
    ensures |Chain(actions)| == |actions|
    ensures exists i :: 0 <= i < |rows| && ViewOf(rows[i]) == ViewOf(Chain(actions)[k])
    decreases top
  {
    var i :| 0 <= i < |rows| && rows[i].recordHash == Tip(actions[..top]).value;
    assert actions[..top][..top - 1] == actions[..top - 1];
    assert Sound(rows[i], Hashes(rows));
    ChainAt(actions, top - 1);
    if k < top - 1 {
      TipDepth(actions[..top - 1]);
      LinksReach(rows, actions, top - 1, k);
    }
  }

  /** As many elements as a sequence of distinct ones that all occur: the same elements. */
  lemma {:induction false} SameElements<T>(a: seq<T>, b: seq<T>)
    requires |a| == |b| && (forall x :: x in a ==> x in b)
    requires forall i, j :: 0 <= i < j < |a| ==> a[i] != a[j]
    ensures multiset(a) == multiset(b)
  {
    DistinctOnce(a);
    forall x
      ensures multiset(a)[x] <= multiset(b)[x]
    {
      if x in multiset(a) {
        assert x in a && x in b && x in multiset(b);
      }
    }
    assert multiset(a) <= multiset(b);
    assert |multiset(b) - multiset(a)| == 0;
    assert multiset(b) == multiset(a) + (multiset(b) - multiset(a));
  }

  lemma {:induction false} DistinctOnce<T>(a: seq<T>)
    requires forall i, j :: 0 <= i < j < |a| ==> a[i] != a[j]
    ensures forall x :: x in a ==> multiset(a)[x] == 1
    decreases |a|
  {
    if a != [] {
      var init, last := a[..|a| - 1], a[|a| - 1];
      DistinctOnce(init);
      assert a == init + [last];
      assert last !in init;
      assert last !in multiset(init);
    }
  }

  lemma {:induction false} RepeatedTwice<T>(a: seq<T>, i: nat, j: nat)
    requires i < j < |a| && a[i] == a[j]
    ensures multiset(a)[a[i]] >= 2
  {
    assert a == a[..j] + [a[j]] + a[j + 1..];
    assert a[i] == a[..j][i];
    assert a[i] in multiset(a[..j]);
  }

  /**
   * Whatever rows are presented with a genuine head, the verifier accepts them exactly when they are the
   * records signed for, in any order: an edit, a removal, an insertion, a replacement or a fork is reported.
   */
  lemma {:induction false} VerifierIsExact(actions: seq<Action>, tenant: string,
      rows: seq<Row>, head: Head, report: Report)
    requires GenuineHead(actions, tenant, head)
    requires Reports(report, rows, tenant, Some(head))
    ensures report.ok <==> multiset(Views(rows)) == multiset(Views(Chain(actions[..head.actionCount])))
    ensures report.ok ==> report.headVerified
  {
    var own := actions[..head.actionCount];
    if report.ok {
      AcceptedIsGenuine(own, rows);
    }
    if multiset(Views(rows)) == multiset(Views(Chain(own))) {
      GenuineIsAccepted(own, rows);
    }
  }

  lemma {:induction false} ChainDistinct(own: seq<Action>)
    ensures |Chain(own)| == |own|
    ensures forall i, j :: 0 <= i < j < |own| ==> Views(Chain(own))[i] != Views(Chain(own))[j]
  {
    ChainLength(own);
    forall i, j | 0 <= i < j < |own|
      ensures Views(Chain(own))[i] != Views(Chain(own))[j]
    {
      ChainViewsDistinct(own, i, j);
    }
  }

  lemma {:induction false} AcceptedIsGenuine(own: seq<Action>, rows: seq<Row>)
    requires own != [] && |rows| == |own| && Tip(own).value in Hashes(rows)
    requires forall i :: 0 <= i < |rows| ==> Sound(rows[i], Hashes(rows))
    ensures multiset(Views(rows)) == multiset(Views(Chain(own)))
  {
    ChainDistinct(own);
    assert own[..|own|] == own;
    forall v | v in Views(Chain(own))
      ensures v in Views(rows)
    {
      var k :| 0 <= k < |own| && Views(Chain(own))[k] == v;
      LinksReach(rows, own, |own|, k);
      var i :| 0 <= i < |rows| && ViewOf(rows[i]) == v;
      assert Views(rows)[i] == v;
    }
    SameElements(Views(Chain(own)), Views(rows));
  }

  lemma {:induction false} GenuineIsAccepted(own: seq<Action>, rows: seq<Row>)
    requires own != [] && multiset(Views(rows)) == multiset(Views(Chain(own)))
    ensures |rows| == |own| && Tip(own).value in Hashes(rows) && !Forked(rows)
    ensures forall i :: 0 <= i < |rows| ==> Sound(rows[i], Hashes(rows))
  {
    ChainDistinct(own);
    assert |multiset(Views(rows))| == |rows|;
    assert own[..|own|] == own;
    forall m | 0 < m <= |own|
      ensures Tip(own[..m]).value in Hashes(rows)
    {
      PresentHash(own, rows, m - 1);
    }
    forall i | 0 <= i < |rows|
      ensures Sound(rows[i], Hashes(rows))
    {
      var k := ChainIndex(own, rows, i);
      ChainAt(own, k);
      TipDepth(own[..k]);
      assert own[..k + 1][..k] == own[..k];
    }
    forall i, j | 0 <= i < |rows| && 0 <= j < |rows|
      ensures !Fork(rows, i, j)
    {
      NoFork(own, rows, i, j);
    }
  }

  lemma {:induction false} PresentHash(own: seq<Action>, rows: seq<Row>, k: nat)
    requires k < |own| && multiset(Views(rows)) == multiset(Views(Chain(own)))
    ensures Tip(own[..k + 1]).value in Hashes(rows)
  {
    ChainAt(own, k);
    var v := Views(Chain(own))[k];
    assert v in multiset(Views(Chain(own)));
    assert v in Views(rows);
    var i :| 0 <= i < |rows| && Views(rows)[i] == v;
    assert rows[i].recordHash == Tip(own[..k + 1]).value;
  }

  lemma {:induction false} ChainIndex(own: seq<Action>, rows: seq<Row>, i: nat) returns (k: nat)
    requires i < |rows| && multiset(Views(rows)) == multiset(Views(Chain(own)))
    ensures k < |own| == |Chain(own)| && Views(rows)[i] == Views(Chain(own))[k]
  {
    ChainDistinct(own);
    assert Views(rows)[i] in multiset(Views(rows));
    assert Views(rows)[i] in Views(Chain(own));
    k :| 0 <= k < |own| && Views(Chain(own))[k] == Views(rows)[i];
  }

  lemma {:induction false} NoFork(own: seq<Action>, rows: seq<Row>, i: nat, j: nat)
    requires i < |rows| && j < |rows| && multiset(Views(rows)) == multiset(Views(Chain(own)))
    ensures !Fork(rows, i, j)
  {
    var k := ChainIndex(own, rows, i);
    var m := ChainIndex(own, rows, j);
    if k < m {
      ChainViewsDistinct(own, k, m);
    } else if m < k {
      ChainViewsDistinct(own, m, k);
    } else if i < j {
      RepeatedTwice(Views(rows), i, j);
      ChainDistinct(own);
      DistinctOnce(Views(Chain(own)));
    }
  }

  /**
   * A tenant's log built from empty verifies exactly when its actions, but for the last, were recorded
   * in the order of their times and ids; its head verifies in any case.
   */
  lemma {:induction false} HonestLogVerifies(actions: seq<Action>, tenant: string, report: Report)
    requires var db := Run(actions);
      Reports(report, OfTenant(db.rows, tenant), tenant, if tenant in db.heads then Some(db.heads[tenant]) else None)
    ensures report.ok <==> InOrderButLast(ActionsOf(actions, tenant))
    ensures report.actions == |ActionsOf(actions, tenant)|
    ensures report.headVerified <==> ActionsOf(actions, tenant) != []
  {
    var own, rows := ActionsOf(actions, tenant), OfTenant(Run(actions).rows, tenant);
    RunRows(actions, tenant);
    if own != [] { assert rows[|rows| - 1].recordHash in Hashes(rows); }
    if InOrderButLast(own) {
      RunOfTenant(actions, tenant);
      if own != [] {
        assert own[..|own|] == own;
        VerifierIsExact(own, tenant, Chain(own), Run(actions).heads[tenant], report);
      }
    } else {
      OutOfOrderForks(rows, own);
    }
  }

  // ---------- heads that a run stored ----------

  lemma {:induction false} ActionsPrefix(actions: seq<Action>, tenant: string, n: nat)
    requires n <= |actions|
    ensures ActionsOf(actions[..n], tenant) <= ActionsOf(actions, tenant)
    decreases |actions|
  {
    if n == |actions| {
      assert actions[..n] == actions;
    } else {
      var init := actions[..|actions| - 1];
      ActionsPrefix(init, tenant, n);
      assert init[..n] == actions[..n];
    }
  }

  /** Every head stored for a tenant at any moment of a run is genuine. */
  lemma {:induction false} StoredHeadIsGenuine(actions: seq<Action>, tenant: string, n: nat)
    requires n <= |actions| && InOrderButLast(ActionsOf(actions[..n], tenant)) && tenant in Run(actions[..n]).heads
    ensures GenuineHead(ActionsOf(actions, tenant), tenant, Run(actions[..n]).heads[tenant])
    ensures Run(actions[..n]).heads[tenant].actionCount == |ActionsOf(actions[..n], tenant)|
  {
    var own, all := ActionsOf(actions[..n], tenant), ActionsOf(actions, tenant);
    ActionsPrefix(actions, tenant, n);
    RunOfTenant(actions[..n], tenant);
    assert all[..|own|] == own;
  }

  /** Against a head stored at some moment, exactly the tenant's rows of that moment are accepted. */
  lemma {:induction false} StoredHeadIsExact(actions: seq<Action>, tenant: string, n: nat,
      rows: seq<Row>, report: Report)
    requires n <= |actions| && InOrderButLast(ActionsOf(actions[..n], tenant)) && tenant in Run(actions[..n]).heads
    requires Reports(report, rows, tenant, Some(Run(actions[..n]).heads[tenant]))
    ensures report.ok <==> multiset(Views(rows)) == multiset(Views(OfTenant(Run(actions[..n]).rows, tenant)))
  {
    var own, all := ActionsOf(actions[..n], tenant), ActionsOf(actions, tenant);
    StoredHeadIsGenuine(actions, tenant, n);
    ActionsPrefix(actions, tenant, n);
    RunOfTenant(actions[..n], tenant);
    assert all[..|own|] == own;
    VerifierIsExact(all, tenant, rows, Run(actions[..n]).heads[tenant], report);
  }

  /** So a log rolled back together with its head is accepted: the verifier does not know what came after. */
  lemma {:induction false} RollbackIsAccepted(actions: seq<Action>, tenant: string, n: nat, report: Report)
    requires n <= |actions| && InOrderButLast(ActionsOf(actions[..n], tenant)) && tenant in Run(actions[..n]).heads
    requires Reports(report, OfTenant(Run(actions[..n]).rows, tenant), tenant, Some(Run(actions[..n]).heads[tenant]))
    ensures report.ok && report.headVerified
  {
    StoredHeadIsExact(actions, tenant, n, OfTenant(Run(actions[..n]).rows, tenant), report);
    StoredHeadIsGenuine(actions, tenant, n);
    VerifierIsExact(ActionsOf(actions, tenant), tenant, OfTenant(Run(actions[..n]).rows, tenant),
        Run(actions[..n]).heads[tenant], report);
  }

  // ---------- what a report names ----------

  /** A fork is named first, and then the one thing that is wrong with the head: the first of these that applies. */
  lemma {:induction false} IssueIsNamed(report: Report, rows: seq<Row>, tenant: string, head: Option<Head>)
    requires Reports(report, rows, tenant, head)
    ensures
      var fork := if Forked(rows) then [ForkedChain] else [];
      var signed := head.Some?
                    && head.value.signature == Some(Mac(tenant, head.value.headHash, head.value.actionCount));
      var ends := head.Some? && exists i :: 0 <= i < |rows| && rows[i].recordHash == head.value.headHash;
      && (head.None? && rows == [] ==> report.issues == [])
      && (head.None? && rows != [] ==> report.issues == fork + [NoRecordedHead])
      && (head.Some? && !signed ==> report.issues == fork + [HeadSignatureInvalid])
      && (head.Some? && signed && !ends ==> report.issues == fork + [TailRemovedOrReplaced])
      && (head.Some? && signed && ends && |rows| != head.value.actionCount
          ==> report.issues == fork + [ActionCountMismatch])
      && (head.Some? && signed && ends && |rows| == head.value.actionCount ==> report.issues == fork)
  {
    if head.Some? {
      var h := head.value.headHash;
      assert h in Hashes(rows) <==> exists i :: 0 <= i < |rows| && rows[i].recordHash == h;
    }
  }

  /** The genuine records without the one at `k`. */
  function Without(own: seq<Action>, k: nat): seq<Row>
    requires k < |Chain(own)|
  {
    Chain(own)[..k] + Chain(own)[k + 1..]
  }

  lemma {:induction false} WithoutIsUnforked(own: seq<Action>, k: nat)
    requires k < |own|
    ensures |Chain(own)| == |own| && !Forked(Without(own, k))
  {
    ChainLength(own);
    var rows := Without(own, k);
    forall i, j | 0 <= i < |rows| && 0 <= j < |rows|
      ensures !Fork(rows, i, j)
    {
      if i < j {
        var a, b := if i < k then i else i + 1, if j < k then j else j + 1;
        ChainViewsDistinct(own, a, b);
        assert rows[i] == Chain(own)[a] && rows[j] == Chain(own)[b];
      }
    }
  }

  /** With the signed head at hand, a record that is gone is named: the last one as a tail, any other by the count. */
  lemma {:induction false} RemovedRecordIsNamed(own: seq<Action>, tenant: string, k: nat, report: Report)
    requires k < |own| == |Chain(own)|
    requires var tip := Tip(own).value;
      Reports(report, Without(own, k), tenant, Some(Head(tip, |own|, Some(Mac(tenant, tip, |own|)))))
    ensures report.issues == [if k == |own| - 1 then TailRemovedOrReplaced else ActionCountMismatch]
  {
    var tip, rows, last := Tip(own).value, Without(own, k), |own| - 1;
    WithoutIsUnforked(own, k);
    ChainAt(own, last);
    assert own[..last + 1] == own;
    IssueIsNamed(report, rows, tenant, Some(Head(tip, |own|, Some(Mac(tenant, tip, |own|)))));
    if k == last {
      forall i | 0 <= i < |rows|
        ensures rows[i].recordHash != tip
      {
        ChainViewsDistinct(own, i, last);
        assert rows[i] == Chain(own)[i];
      }
    } else {
      assert rows[|rows| - 1] == Chain(own)[last];
    }
  }

  /** The row's hash is not that of its fields, or it names a predecessor that no row is. */
  predicate IsBroken(rows: seq<Row>, r: Row) {
    var prev := if r.prevHash.None? then Text("") else r.prevHash.value;
    r.recordHash != Digest(prev, r.payload)
    || (prev != Text("") && forall j :: 0 <= j < |rows| ==> rows[j].recordHash != prev)
  }

  predicate BrokenAt(rows: seq<Row>, i: nat, id: int) {
    i < |rows| && rows[i].id == id && IsBroken(rows, rows[i])
  }

  /** Without a fork, the report lists the ids of exactly the broken rows. */
  lemma {:induction false} BrokenAreListed(report: Report, rows: seq<Row>, tenant: string, head: Option<Head>, id: int)
    requires Reports(report, rows, tenant, head) && !Forked(rows)
    ensures id in report.broken <==> exists i: nat :: BrokenAt(rows, i, id)
  {
    forall i | 0 <= i < |rows|
      ensures IsBroken(rows, rows[i]) <==> !Sound(rows[i], Hashes(rows))
    {
    }
    ListedIds(rows, Hashes(rows), id);
    if i :| 0 <= i < |rows| && UnsoundAt(rows, Hashes(rows), i, id) {
      assert BrokenAt(rows, i, id);
    }
    if i: nat :| BrokenAt(rows, i, id) {
      assert UnsoundAt(rows, Hashes(rows), i, id);
    }
  }

  predicate UnsoundAt(rows: seq<Row>, hashes: set<Hash>, i: nat, id: int) {
    i < |rows| && rows[i].id == id && !Sound(rows[i], hashes)
  }

  lemma {:induction false} ListedIds(rows: seq<Row>, hashes: set<Hash>, id: int)
    ensures id in BrokenIds(rows, hashes) <==> exists i :: 0 <= i < |rows| && UnsoundAt(rows, hashes, i, id)
    decreases |rows|
  {
    if rows != [] {
      var init, n := rows[..|rows| - 1], |rows| - 1;
      ListedIds(init, hashes, id);
      forall i | 0 <= i < n
        ensures UnsoundAt(init, hashes, i, id) <==> UnsoundAt(rows, hashes, i, id)
      {
      }
      assert UnsoundAt(rows, hashes, n, id) <==> rows[n].id == id && !Sound(rows[n], hashes);
      if i :| 0 <= i < n && UnsoundAt(init, hashes, i, id) {
        assert UnsoundAt(rows, hashes, i, id);
      }
    }
  }

  /** `r` is the latest of the rows: none has a later time, nor the same time and a greater id. */
  predicate IsLatest(r: Row, rows: seq<Row>) {
    r in rows
    && forall j :: 0 <= j < |rows| ==>
         rows[j].payload.createdAt < r.payload.createdAt
         || (rows[j].payload.createdAt == r.payload.createdAt && rows[j].id <= r.id)
  }

  /** After any run, a tenant's first record names no predecessor and every other the latest of those before it. */
  lemma {:induction false} EachNamesTheLatest(actions: seq<Action>, tenant: string, k: nat)
    requires k < |OfTenant(Run(actions).rows, tenant)|
    ensures
      var rows := OfTenant(Run(actions).rows, tenant);
      && (k == 0 ==> rows[k].prevHash == None)
      && (k > 0 ==> exists r :: IsLatest(r, rows[..k]) && rows[k].prevHash == Some(r.recordHash))
  {
    var rows, own := OfTenant(Run(actions).rows, tenant), ActionsOf(actions, tenant);
    RunRows(actions, tenant);
    assert RecordsOne(rows, k, own[k]);
    if k > 0 {
      var before := rows[..k];
      LatestIsARow(before);
      var r := Latest(before).value;
      forall j | 0 <= j < |before|
        ensures !Before(r, before[j])
      {
        LatestIsGreatest(before, j);
      }
      assert IsLatest(r, before);
    }
  }
}
