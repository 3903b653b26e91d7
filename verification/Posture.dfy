/**
Current posture and its history (app/services/assessment.py, `_upsert_posture`): one row
of current state per cell, overwritten in place, beside an interval history that gains a
row only when the status changes. The history is proved to be the valid-time log of the
changes, and to answer every point-in-time question as replaying all assessments would.
*/
module Posture {
  import opened Common
  import TemporalLog

  datatype Status = Pass | Fail | Error | NotApplicable | Pending
  datatype Severity = Critical | High | Medium | Low | Info

  /** What is tracked: the source in upper case, and the asset or, for the whole account, the empty key. */
  datatype Cell = Cell(tenant: string, control: string, source: string, assetKey: string)

  datatype Verdict = Verdict(status: Status, severity: Severity, finding: int)

  datatype Current = Current(status: Status,
      prevStatus: Option<Status>, severity: Severity, lastFinding: int, updatedAt: int)

  type Interval = TemporalLog.Interval<Verdict>

  datatype HistoryRow = HistoryRow(cell: Cell, span: Interval)

  datatype Tables = Tables(posture: map<Cell, Current>, history: seq<HistoryRow>)

  /** One assessment reaching `_upsert_posture`, with the clock reading it takes. */
  datatype Assessed = Assessed(cell: Cell, verdict: Verdict, at: int)

  function UpperChar(c: char): char {
    if 'a' <= c <= 'z' then c - 'a' + 'A' else c
  }

  function Upper(s: string): string {
    seq(|s|, i requires 0 <= i < |s| => UpperChar(s[i]))
  }

  function CellOf(tenant: string, control: string, source: string, asset: Option<string>): Cell {
    Cell(tenant, control, Upper(source), if asset.None? then "" else asset.value)
  }

  function CloseOpen(r: HistoryRow, cell: Cell, now: int): HistoryRow {
    if r.cell == cell && r.span.validTo.None? then r.(span := r.span.(validTo := Some(now))) else r
  }

  function CloseAll(rows: seq<HistoryRow>, cell: Cell, now: int): (r: seq<HistoryRow>)
    ensures |r| == |rows|
  {
    seq(|rows|, i requires 0 <= i < |rows| => CloseOpen(rows[i], cell, now))
  }

  /** A change of status ends the cell's open rows and opens one. */
  function ChangedHistory(rows: seq<HistoryRow>, a: Assessed): seq<HistoryRow> {
    CloseAll(rows, a.cell, a.at) + [HistoryRow(a.cell, TemporalLog.Interval(a.at, None, a.verdict, a.at))]
  }

  /** The tables after an assessment. */
  function Upsert(db: Tables, a: Assessed): Tables {
    var known := a.cell in db.posture;
    var prev := if known then Some(db.posture[a.cell].status) else None;
    var row := Current(a.verdict.status, prev, a.verdict.severity, a.verdict.finding, a.at);
    Tables(
      db.posture[a.cell := row],
      if prev == Some(a.verdict.status) then db.history else ChangedHistory(db.history, a))
  }

  class PostureStore {
    var posture: map<Cell, Current>
    var history: seq<HistoryRow>

    constructor ()
      ensures posture == map[] && history == []
    {
      posture := map[];
      history := [];
    }

    method UpsertPosture(tenant: string, control: string, source: string,
        asset: Option<string>, verdict: Verdict, now: int)
      modifies this
      ensures Tables(posture, history)
              == Upsert(old(Tables(posture, history)), Assessed(CellOf(tenant, control, source, asset), verdict, now))
    {
      var cell := CellOf(tenant, control, source, asset);
      var changed := cell !in posture || posture[cell].status != verdict.status;
      if cell in posture {
        var p := posture[cell];
        p := p.(prevStatus := Some(p.status));
        p := p.(status := verdict.status, severity := verdict.severity, lastFinding := verdict.finding,
            updatedAt := now);
        posture := posture[cell := p];
      } else {
        posture := posture[cell := Current(verdict.status, None, verdict.severity, verdict.finding, now)];
      }
      if changed {
        history := CloseAll(history, cell, now);
        history := history + [HistoryRow(cell, TemporalLog.Interval(now, None, verdict, now))];
      }
    }
  }

  // ---------- runs ----------

  function Run(run: seq<Assessed>): Tables {
    if run == [] then Tables(map[], []) else Upsert(Run(run[..|run| - 1]), run[|run| - 1])
  }

  function OfCell(run: seq<Assessed>, cell: Cell): seq<Assessed> {
    if run == [] then []
    else
      var init := OfCell(run[..|run| - 1], cell);
      if run[|run| - 1].cell == cell then init + [run[|run| - 1]] else init
  }

  /** One cell's history, oldest first. */
  function HistoryOf(rows: seq<HistoryRow>, cell: Cell): seq<Interval> {
    if rows == [] then []
    else
      var init := HistoryOf(rows[..|rows| - 1], cell);
      if rows[|rows| - 1].cell == cell then init + [rows[|rows| - 1].span] else init
  }

  ghost predicate ClockForward(run: seq<Assessed>) {
    forall i, j :: 0 <= i < j < |run| ==> run[i].at <= run[j].at
  }

  /** The assessments of one cell that changed its status, as puts to a valid-time log. */
  function Changes(own: seq<Assessed>): seq<TemporalLog.Entry<Verdict>> {
    if own == [] then []
    else
      var init, a := own[..|own| - 1], own[|own| - 1];
      if init != [] && init[|init| - 1].verdict.status == a.verdict.status then Changes(init)
      else Changes(init) + [TemporalLog.Entry(a.at, a.verdict, a.at)]
  }

  /** The status the last assessment at or before `t` gave. */
  function StatusAt(own: seq<Assessed>, t: int): Option<Status> {
    if own == [] then None
    else if own[|own| - 1].at <= t then Some(own[|own| - 1].verdict.status)
    else StatusAt(own[..|own| - 1], t)
  }

  lemma {:induction false} OwnForward(run: seq<Assessed>, cell: Cell)
    requires ClockForward(run)
    ensures ClockForward(OfCell(run, cell))
    ensures forall k :: 0 <= k < |OfCell(run, cell)| ==> OfCell(run, cell)[k] in run
    decreases |run|
  {
    if run != [] {
      var init, a := run[..|run| - 1], run[|run| - 1];
      var own := OfCell(init, cell);
      OwnForward(init, cell);
      forall k | 0 <= k < |own|
        ensures own[k] in run && own[k].at <= a.at
      {
        var m :| 0 <= m < |init| && init[m] == own[k];
        assert run[m] == own[k];
      }
    }
  }

  lemma {:induction false} HistoryAppend(rows: seq<HistoryRow>, r: HistoryRow, cell: Cell)
    ensures HistoryOf(rows + [r], cell) == HistoryOf(rows, cell) + if r.cell == cell then [r.span] else []
  {
    assert (rows + [r])[..|rows|] == rows;
  }

  /** Closing a cell's open rows leaves other cells alone and closes that cell's open spans. */
  lemma {:induction false} HistoryClose(rows: seq<HistoryRow>, closed: Cell, now: int, cell: Cell)
    ensures closed != cell ==> HistoryOf(CloseAll(rows, closed, now), cell) == HistoryOf(rows, cell)
    ensures closed == cell && (forall r :: r in HistoryOf(rows, cell) ==> r.validFrom <= now) ==>
      HistoryOf(CloseAll(rows, closed, now), cell) == TemporalLog.Close(HistoryOf(rows, cell), now)
    decreases |rows|
  {
    if rows != [] {
      var init, last := rows[..|rows| - 1], rows[|rows| - 1];
      HistoryClose(init, closed, now, cell);
      assert CloseAll(rows, closed, now)[..|rows| - 1] == CloseAll(init, closed, now);
      if last.cell == cell && closed == cell && forall r :: r in HistoryOf(rows, cell) ==> r.validFrom <= now {
        var spans := HistoryOf(init, cell);
        forall r | r in spans
          ensures r in HistoryOf(rows, cell)
        {
        }
        assert last.span in HistoryOf(rows, cell);
        assert TemporalLog.Close(spans + [last.span], now)
            == TemporalLog.Close(spans, now) + [TemporalLog.CloseOne(last.span, now)];
      }
    }
  }

  lemma {:induction false} ChangesShape(own: seq<Assessed>)
    requires ClockForward(own)
    ensures var puts := Changes(own);
      && (puts == [] <==> own == [])
      && TemporalLog.InOrder(puts)
      && (own != [] ==> puts[|puts| - 1].value.status == own[|own| - 1].verdict.status
                        && puts[|puts| - 1].from <= own[|own| - 1].at)
      && forall i :: 0 < i < |puts| ==> puts[i - 1].value.status != puts[i].value.status
    decreases |own|
  {
    if own != [] {
      ChangesShape(own[..|own| - 1]);
    }
  }

  /** A put at or after every row of an in-order log closes what is open and goes last. */
  lemma {:induction false} PutAtEnd(puts: seq<TemporalLog.Entry<Verdict>>, e: TemporalLog.Entry<Verdict>)
    requires TemporalLog.InOrder(puts + [e])
    ensures TemporalLog.Replay(puts + [e])
        == TemporalLog.Close(TemporalLog.Replay(puts), e.from) + [TemporalLog.Opened(e)]
    ensures forall r :: r in TemporalLog.Replay(puts) ==> r.validFrom <= e.from
  {
    assert forall i, j :: 0 <= i < j < |puts| ==> puts[i] == (puts + [e])[i] && puts[j] == (puts + [e])[j];
    TemporalLog.InOrderRows(puts);
    assert (puts + [e])[..|puts|] == puts;
    forall i | 0 <= i < |puts|
      ensures puts[i].from <= e.from
    {
      assert (puts + [e])[i] == puts[i] && (puts + [e])[|puts|] == e;
    }
  }

  /** After any run, the current row says what the cell's last assessment said and what status it replaced. */
  lemma {:induction false} CurrentOfCell(run: seq<Assessed>, cell: Cell)
    ensures var posture, own := Run(run).posture, OfCell(run, cell);
      && (cell in posture <==> own != [])
      && (own != [] ==>
            var last := own[|own| - 1];
            posture[cell] == Current(last.verdict.status,
                                     if |own| > 1 then Some(own[|own| - 2].verdict.status) else None,
                                     last.verdict.severity, last.verdict.finding, last.at))
    decreases |run|
  {
    if run != [] {
      CurrentOfCell(run[..|run| - 1], cell);
    }
  }

  /** After any run, a cell's history is the valid-time log of its changes. */
  lemma {:induction false} HistoryOfCell(run: seq<Assessed>, cell: Cell)
    requires ClockForward(run)
    ensures HistoryOf(Run(run).history, cell) == TemporalLog.Replay(Changes(OfCell(run, cell)))
    decreases |run|
  {
    if run != [] {
      var init, a := run[..|run| - 1], run[|run| - 1];
      HistoryOfCell(init, cell);
      var history := Run(init).history;
      var changed := ChangesStatus(OfCell(init, a.cell), a);
      assert Run(run).history == if changed then ChangedHistory(history, a) else history by {
        CurrentOfCell(init, a.cell);
      }
      if a.cell != cell {
        HistoryElsewhere(history, a, cell);
      } else {
        var own := OfCell(init, cell);
        ChangesOneMore(own, a);
        OwnForward(run, cell);
        ChangesShape(own + [a]);
        if changed {
          HistoryPut(history, a, Changes(own));
        }
      }
    }
  }

  /** Does this assessment give the cell another status than the last one did? */
  predicate ChangesStatus(own: seq<Assessed>, a: Assessed) {
    own == [] || own[|own| - 1].verdict.status != a.verdict.status
  }

  lemma {:induction false} ChangesOneMore(own: seq<Assessed>, a: Assessed)
    ensures Changes(own + [a]) ==
      if ChangesStatus(own, a) then Changes(own) + [TemporalLog.Entry(a.at, a.verdict, a.at)] else Changes(own)
  {
    assert (own + [a])[..|own|] == own;
  }

  lemma {:induction false} HistoryElsewhere(rows: seq<HistoryRow>, a: Assessed, cell: Cell)
    requires a.cell != cell
    ensures HistoryOf(ChangedHistory(rows, a), cell) == HistoryOf(rows, cell)
  {
    HistoryClose(rows, a.cell, a.at, cell);
    HistoryAppend(CloseAll(rows, a.cell, a.at), ChangedHistory(rows, a)[|rows|], cell);
  }

  /** A change is a put. */
  lemma {:induction false} HistoryPut(rows: seq<HistoryRow>, a: Assessed, puts: seq<TemporalLog.Entry<Verdict>>)
    requires HistoryOf(rows, a.cell) == TemporalLog.Replay(puts)
    requires TemporalLog.InOrder(puts + [TemporalLog.Entry(a.at, a.verdict, a.at)])
    ensures HistoryOf(ChangedHistory(rows, a), a.cell)
            == TemporalLog.Replay(puts + [TemporalLog.Entry(a.at, a.verdict, a.at)])
  {
    PutAtEnd(puts, TemporalLog.Entry(a.at, a.verdict, a.at));
    HistoryClose(rows, a.cell, a.at, a.cell);
    HistoryAppend(CloseAll(rows, a.cell, a.at), ChangedHistory(rows, a)[|rows|], a.cell);
  }

  /** The history a cell may have. */
  ghost predicate WellKept(rows: seq<Interval>) {
    && (forall i :: 0 <= i < |rows| ==> (rows[i].validTo.None? <==> i == |rows| - 1))
    && (forall i :: 0 < i < |rows| ==> rows[i - 1].validTo == Some(rows[i].validFrom))
    && (forall i :: 0 < i < |rows| ==> rows[i - 1].value.status != rows[i].value.status)
  }

  /**
   * For every run whose clock does not go back, every cell has one open history row exactly when it has a
   * posture row, with the same status; its intervals are back to back and neighbours differ.
   */
  lemma {:induction false} HistoryIsKept(run: seq<Assessed>, cell: Cell)
    requires ClockForward(run)
    ensures var db := Run(run);
      var rows := HistoryOf(db.history, cell);
      && WellKept(rows)
      && (cell in db.posture <==> rows != [])
      && (cell in db.posture ==> rows[|rows| - 1].value.status == db.posture[cell].status)
  {
    var own := OfCell(run, cell);
    OwnForward(run, cell);
    CurrentOfCell(run, cell);
    HistoryOfCell(run, cell);
    ChangesShape(own);
    ReplayIsKept(Changes(own));
  }

  lemma {:induction false} ReplayIsKept(puts: seq<TemporalLog.Entry<Verdict>>)
    requires TemporalLog.InOrder(puts)
    requires forall i :: 0 < i < |puts| ==> puts[i - 1].value.status != puts[i].value.status
    ensures var rows := TemporalLog.Replay(puts);
      WellKept(rows) && |rows| == |puts| && forall i :: 0 <= i < |rows| ==> rows[i].value == puts[i].value
  {
    TemporalLog.InOrderRows(puts);
    var rows := TemporalLog.Replay(puts);
    forall i | 0 < i < |rows|
      ensures rows[i - 1].value.status != rows[i].value.status
    {
      assert rows[i - 1].value == puts[i - 1].value && rows[i].value == puts[i].value;
    }
  }

  lemma {:induction false} StatusAtChange(own: seq<Assessed>, i: nat, t: int)
    requires ClockForward(own) && i < |Changes(own)| && Changes(own)[i].from <= t
    requires forall j :: i < j < |Changes(own)| ==> t < Changes(own)[j].from
    ensures StatusAt(own, t) == Some(Changes(own)[i].value.status)
    decreases |own|
  {
    var init, a := own[..|own| - 1], own[|own| - 1];
    ChangesShape(own);
    ChangesShape(init);
    var puts := Changes(init);
    if a.at <= t {
      assert Changes(own)[|Changes(own)| - 1].from <= t;
    } else {
      assert i < |puts| && forall j :: i < j < |puts| ==> puts[j] == Changes(own)[j];
      StatusAtChange(init, i, t);
    }
  }

  lemma {:induction false} NoStatusBefore(own: seq<Assessed>, t: int)
    requires ClockForward(own) && forall j :: 0 <= j < |Changes(own)| ==> t < Changes(own)[j].from
    ensures StatusAt(own, t) == None
    decreases |own|
  {
    if own != [] {
      var init := own[..|own| - 1];
      ChangesShape(own);
      assert forall j :: 0 <= j < |Changes(init)| ==> Changes(init)[j] == Changes(own)[j];
      NoStatusBefore(init, t);
    }
  }

  /** Reading the coalesced history as of any time gives the status that replaying every assessment gives. */
  lemma {:induction false} HistoryAnswersAsReplay(run: seq<Assessed>, cell: Cell, t: int)
    requires ClockForward(run)
    ensures var read := TemporalLog.At(HistoryOf(Run(run).history, cell), t);
      (if read.Some? then Some(read.value.status) else None) == StatusAt(OfCell(run, cell), t)
  {
    var own := OfCell(run, cell);
    OwnForward(run, cell);
    HistoryOfCell(run, cell);
    ChangesShape(own);
    var puts := Changes(own);
    if exists k :: 0 <= k < |puts| && puts[k].from <= t {
      var i := TemporalLog.LastAtOrBefore(puts, t);
      TemporalLog.InOrderReadsLast(puts, i, t);
      StatusAtChange(own, i, t);
    } else {
      TemporalLog.Coverage(puts, t);
      NoStatusBefore(own, t);
    }
  }

  /** The source is compared without regard to the case of ASCII letters, and everything else as it is. */
  lemma {:induction false} CellIgnoresCase(tenant: string, control: string, a: string, b: string, asset: Option<string>)
    ensures CellOf(tenant, control, a, asset) == CellOf(tenant, control, b, asset)
      <==> |a| == |b| && forall i :: 0 <= i < |a| ==> SameLetter(a[i], b[i])
    ensures CellOf(tenant, control, "aws", asset).source == "AWS"
  {
    assert Upper("aws") == "AWS";
    if CellOf(tenant, control, a, asset) == CellOf(tenant, control, b, asset) {
      assert |Upper(a)| == |Upper(b)|;
      forall i | 0 <= i < |a|
        ensures SameLetter(a[i], b[i])
      {
        assert Upper(a)[i] == Upper(b)[i];
      }
    }
    if |a| == |b| && forall i :: 0 <= i < |a| ==> SameLetter(a[i], b[i]) {
      assert Upper(a) == Upper(b);
    }
  }

  /** Equal, or the two cases of one letter. */
  predicate SameLetter(c: char, d: char) {
    c == d
    || ('a' <= c <= 'z' && 'A' <= d <= 'Z' && c - 'a' == d - 'A')
    || ('A' <= c <= 'Z' && 'a' <= d <= 'z' && c - 'A' == d - 'a')
  }
}
