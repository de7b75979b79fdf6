/**
 The tests table: configuration, schedule and alert columns. Each statement is
 one function on a row or on the table; TestRepository runs them on the table
 it holds. NULL text columns are the empty string, as the queries read them.
 */
module Tests {
  import opened Common

  datatype TestRow = TestRow(
    name: string,
    timeoutSeconds: int,
    cron: string,
    scheduleEnabled: bool,
    nextRunAt: Option<int>,
    webhookUrl: string,
    pagerDutyKey: string,
    failureThreshold: int,
    alertsEnabled: bool,
    memoryMb: Option<int>,
    consecutiveFailures: nat,
    alertActive: bool)

  type Table = map<string, TestRow>

  /** The columns a configuration update replaces. */
  datatype ConfigUpdate = ConfigUpdate(
    timeoutSeconds: int, cron: string, scheduleEnabled: bool, nextRunAt: Option<int>,
    webhookUrl: string, pagerDutyKey: string, failureThreshold: int, alertsEnabled: bool, memoryMb: Option<int>)

  datatype RunOutcomeAlert = RunOutcomeAlert(
    sendFailure: bool, sendRecovery: bool, webhookUrl: string, pagerDutyKey: string,
    testName: string, consecutive: nat, threshold: int)

  function NormalizeThreshold(n: int): int {
    if n <= 0 then 3 else n
  }

  /** Alerts fire at threshold, 2 * threshold, 3 * threshold, ... consecutive failures. */
  predicate FailureAlertDue(consecutive: int, threshold: int) {
    var t := if threshold <= 0 then 3 else threshold;
    consecutive >= t && consecutive % t == 0
  }

  predicate HasTarget(row: TestRow) {
    row.webhookUrl != "" || row.pagerDutyKey != ""
  }

  function Configured(row: TestRow, c: ConfigUpdate): TestRow {
    row.(timeoutSeconds := c.timeoutSeconds, cron := c.cron, scheduleEnabled := c.scheduleEnabled,
         nextRunAt := c.nextRunAt, webhookUrl := c.webhookUrl, pagerDutyKey := c.pagerDutyKey,
         failureThreshold := NormalizeThreshold(c.failureThreshold), alertsEnabled := c.alertsEnabled,
         memoryMb := c.memoryMb)
  }

  /** The row after one run outcome. */
  function Recorded(row: TestRow, passed: bool): TestRow {
    if passed then row.(consecutiveFailures := 0, alertActive := false)
    else row.(consecutiveFailures := row.consecutiveFailures + 1,
              alertActive := row.consecutiveFailures + 1 >= NormalizeThreshold(row.failureThreshold))
  }

  predicate RecoverySent(row: TestRow, passed: bool) {
    passed && row.alertActive && HasTarget(row) && row.alertsEnabled
  }

  predicate FailureSent(row: TestRow, passed: bool) {
    !passed && HasTarget(row) && row.alertsEnabled &&
    FailureAlertDue(row.consecutiveFailures + 1, NormalizeThreshold(row.failureThreshold))
  }

  /** The rows the scheduler may pick at `now`. */
  predicate IsDue(row: TestRow, now: int) {
    row.scheduleEnabled && row.cron != "" && row.nextRunAt.Some? && row.nextRunAt.value <= now
  }

  function AfterConfig(t: Table, id: string, c: ConfigUpdate): Table {
    if id in t then t[id := Configured(t[id], c)] else t
  }

  function AfterNextRun(t: Table, id: string, next: int): Table {
    if id in t then t[id := t[id].(nextRunAt := Some(next))] else t
  }

  const PAGE_SIZE := 100

  function DueIds(t: Table, now: int): set<string> {
    set id | id in t && IsDue(t[id], now)
  }

  function DueAt(t: Table, id: string): int {
    if id in t && t[id].nextRunAt.Some? then t[id].nextRunAt.value else 0
  }

  ghost predicate DueNoLater(t: Table, id: string, ids: set<string>) {
    forall other :: other in ids ==> DueAt(t, id) <= DueAt(t, other)
  }

  ghost function Ids(page: seq<string>): set<string> {
    set id | id in page
  }

  ghost predicate InDueOrder(t: Table, page: seq<string>) {
    forall i, j :: 0 <= i < j < |page| ==> DueAt(t, page[i]) <= DueAt(t, page[j])
  }

  /** page is one way to take the |page| earliest ids of `due`, in order and without repeats. */
  ghost predicate AreEarliest(page: seq<string>, t: Table, due: set<string>) {
    && Ids(page) <= due
    && |Ids(page)| == |page|
    && InDueOrder(t, page)
    && (forall id :: id in page ==> DueNoLater(t, id, due - Ids(page)))
  }

  /** What ORDER BY next_run_at LIMIT 100 may return; ties come in any order. */
  ghost predicate IsDuePage(page: seq<string>, t: Table, now: int) {
    && AreEarliest(page, t, DueIds(t, now))
    && |page| == (if |DueIds(t, now)| < PAGE_SIZE then |DueIds(t, now)| else PAGE_SIZE)
  }

  method EarliestDue(t: Table, ids: set<string>) returns (id: string)
    requires ids != {}
    ensures id in ids && DueNoLater(t, id, ids)
  {
    ghost var _ := LeastExists(ids, (id: string) => DueAt(t, id));
    id :| id in ids && forall other :: other in ids ==> DueAt(t, id) <= DueAt(t, other);
  }

  lemma PageGrows(t: Table, page: seq<string>, due: set<string>, next: string)
    requires AreEarliest(page, t, due) && next in due - Ids(page) && DueNoLater(t, next, due - Ids(page))
    ensures Ids(page + [next]) == Ids(page) + {next}
    ensures due - Ids(page + [next]) == due - Ids(page) - {next}
    ensures AreEarliest(page + [next], t, due)
  {
    var page' := page + [next];
    assert Ids(page') == Ids(page) + {next};
    forall i | 0 <= i < |page| ensures DueAt(t, page[i]) <= DueAt(t, next) {
      assert page[i] in page && DueNoLater(t, page[i], due - Ids(page));
    }
    forall id | id in page' ensures DueNoLater(t, id, due - Ids(page')) {
      assert id == next || id in page;
    }
  }

  lemma PageIsFull(t: Table, page: seq<string>, due: set<string>)
    requires AreEarliest(page, t, due) && |page| <= PAGE_SIZE && (|page| == PAGE_SIZE || due - Ids(page) == {})
    ensures |page| == if |due| < PAGE_SIZE then |due| else PAGE_SIZE
  {
    SubsetSize(Ids(page), due);
  }

  /** Enabled, with a cron, and with a next run that has come. */
  predicate HasComeDue(t: Table, id: string, now: int) {
    && id in t && t[id].scheduleEnabled && t[id].cron != ""
    && t[id].nextRunAt.Some? && t[id].nextRunAt.value <= now
  }

  predicate NoLaterThan(t: Table, a: string, b: string)
    requires a in t && b in t && t[a].nextRunAt.Some? && t[b].nextRunAt.Some?
  {
    t[a].nextRunAt.value <= t[b].nextRunAt.value
  }

  /** At most 100 tests that have come due, each once, earliest first; only 100 no later ones shut another out. */
  ghost predicate IsHundredEarliest(page: seq<string>, t: Table, now: int) {
    && |page| <= 100
    && (forall i :: 0 <= i < |page| ==> HasComeDue(t, page[i], now))
    && (forall i, j :: 0 <= i < j < |page| ==> page[i] != page[j] && NoLaterThan(t, page[i], page[j]))
    && (forall id :: HasComeDue(t, id, now) && id !in page ==>
          |page| == 100 && forall i :: 0 <= i < |page| ==> NoLaterThan(t, page[i], id))
  }

  /** A page as long as its set of ids has no repeats. */
  lemma {:induction false} RepeatFree(page: seq<string>, i: nat)
    requires i < |page| && |Ids(page)| == |page|
    ensures page[i] !in page[..i]
  {
    var init := page[..|page| - 1];
    assert page == init + [page[|page| - 1]];
    assert Ids(page) == Ids(init) + {page[|page| - 1]};
    IdsAreFew(init);
    if i < |init| {
      RepeatFree(init, i);
      assert init[..i] == page[..i];
    }
  }

  lemma {:induction false} IdsAreFew(page: seq<string>)
    ensures |Ids(page)| <= |page|
  {
    if page != [] {
      IdsAreFew(page[1..]);
      assert Ids(page) == Ids(page[1..]) + {page[0]};
    }
  }

  lemma PageIsHundredEarliest(page: seq<string>, t: Table, now: int)
    requires IsDuePage(page, t, now)
    ensures IsHundredEarliest(page, t, now)
  {
    forall i | 0 <= i < |page| ensures HasComeDue(t, page[i], now) {
      assert page[i] in Ids(page);
    }
    forall i, j | 0 <= i < j < |page| ensures page[i] != page[j] && NoLaterThan(t, page[i], page[j]) {
      RepeatFree(page, j);
      assert page[i] in page[..j];
      assert DueAt(t, page[i]) <= DueAt(t, page[j]);
    }
    forall id | HasComeDue(t, id, now) && id !in page
      ensures |page| == 100 && forall i :: 0 <= i < |page| ==> NoLaterThan(t, page[i], id)
    {
      LeftOutByAFullPage(page, t, now, id);
    }
  }

  lemma LeftOutByAFullPage(page: seq<string>, t: Table, now: int, id: string)
    requires IsDuePage(page, t, now) && HasComeDue(t, id, now) && id !in page
    requires forall i :: 0 <= i < |page| ==> HasComeDue(t, page[i], now)
    ensures |page| == 100 && forall i :: 0 <= i < |page| ==> NoLaterThan(t, page[i], id)
  {
    var due := DueIds(t, now);
    assert id in due - Ids(page);
    SubsetSize(Ids(page) + {id}, due);
    forall i | 0 <= i < |page| ensures NoLaterThan(t, page[i], id) {
      assert page[i] in page && DueNoLater(t, page[i], due - Ids(page));
    }
  }

  /** The alert an outcome calls for: only with a webhook or a key, and alerts enabled. */
  predicate CallsForAlert(row: TestRow, passed: bool) {
    var t := if row.failureThreshold <= 0 then 3 else row.failureThreshold;
    var n := row.consecutiveFailures + 1;
    && (row.webhookUrl != "" || row.pagerDutyKey != "") && row.alertsEnabled
    && (if passed then row.alertActive else n >= t && n % t == 0)
  }

  class TestRepository {
    var tests: Table

    constructor ()
      ensures tests == map[]
    {
      tests := map[];
    }

    /** Fails on a reused id. The failure threshold is normalised on the way in; counters start at zero. */
    method Create(id: string, row: TestRow) returns (ok: bool)
      modifies this
      ensures ok <==> id !in old(tests)
      ensures ok ==> id in tests && tests[id] == row.(
                failureThreshold := if row.failureThreshold <= 0 then 3 else row.failureThreshold,
                consecutiveFailures := 0, alertActive := false)
      ensures tests == if ok then old(tests)[id := row.(failureThreshold := NormalizeThreshold(row.failureThreshold),
                                                        consecutiveFailures := 0, alertActive := false)]
                       else old(tests)
    {
      ok := id !in tests;
      if ok {
        tests := tests[id := row.(failureThreshold := NormalizeThreshold(row.failureThreshold),
                                  consecutiveFailures := 0, alertActive := false)];
      }
    }

    method UpdateConfig(id: string, c: ConfigUpdate)
      modifies this
      ensures tests == AfterConfig(old(tests), id, c)
      ensures tests.Keys == old(tests).Keys
      ensures forall other :: other in tests && other != id ==> tests[other] == old(tests)[other]
      ensures id in tests ==> var row := old(tests)[id];
                tests[id] == TestRow(row.name, c.timeoutSeconds, c.cron, c.scheduleEnabled, c.nextRunAt, c.webhookUrl,
                                     c.pagerDutyKey, if c.failureThreshold <= 0 then 3 else c.failureThreshold,
                                     c.alertsEnabled, c.memoryMb, row.consecutiveFailures, row.alertActive)
    {
      if id in tests {
        tests := tests[id := Configured(tests[id], c)];
      }
    }

    method UpdateNextRunAt(id: string, next: int)
      modifies this
      ensures tests == AfterNextRun(old(tests), id, next)
      ensures id in old(tests) ==> tests == old(tests)[id := old(tests)[id].(nextRunAt := Some(next))]
      ensures id !in old(tests) ==> tests == old(tests)
    {
      if id in tests {
        tests := tests[id := tests[id].(nextRunAt := Some(next))];
      }
    }

    method ListDueScheduled(now: int) returns (page: seq<string>)
      ensures IsDuePage(page, tests, now) && IsHundredEarliest(page, tests, now)
    {
      var rest := DueIds(tests, now);
      ghost var due := rest;
      page := [];
      while |page| < PAGE_SIZE && rest != {}
        invariant |page| <= PAGE_SIZE && AreEarliest(page, tests, due) && rest == due - Ids(page)
        decreases |rest|
      {
        var next := EarliestDue(tests, rest);
        PageGrows(tests, page, due, next);
        page, rest := page + [next], rest - {next};
      }
      PageIsFull(tests, page, due);
      PageIsHundredEarliest(page, tests, now);
    }

    /** One transaction under the row lock; a failed commit changes nothing and returns an error. */
    method RecordRunOutcome(id: string, passed: bool, commitFails: bool) returns (ok: bool,
                            out: Option<RunOutcomeAlert>)
      modifies this
      ensures ok <==> id in old(tests) && !commitFails
      ensures tests == if ok then old(tests)[id := Recorded(old(tests)[id], passed)] else old(tests)
      ensures out.Some? <==> ok && (FailureSent(old(tests)[id], passed) || RecoverySent(old(tests)[id], passed))
      ensures out.Some? <==> ok && CallsForAlert(old(tests)[id], passed)
      ensures out.Some? ==> out.value.sendFailure == !passed && out.value.sendRecovery == passed
      ensures ok ==> var row := old(tests)[id];
                && (passed ==> tests[id] == row.(consecutiveFailures := 0, alertActive := false))
                && (!passed ==> tests[id] == row.(
                      consecutiveFailures := row.consecutiveFailures + 1,
                      alertActive := row.consecutiveFailures + 1
                                     >= if row.failureThreshold <= 0 then 3 else row.failureThreshold))
      ensures out.Some? ==>
                && out.value.sendFailure == FailureSent(old(tests)[id], passed)
                && out.value.sendRecovery == RecoverySent(old(tests)[id], passed)
                && out.value.webhookUrl == old(tests)[id].webhookUrl
                && out.value.pagerDutyKey == old(tests)[id].pagerDutyKey
                && out.value.consecutive == tests[id].consecutiveFailures
                && out.value.testName == old(tests)[id].name
                && out.value.threshold == old(tests)[id].failureThreshold
    {
      if id !in tests {
        return false, None;
      }
      var row := tests[id];
      var consecutive, alertActive := row.consecutiveFailures, row.alertActive;
      var alert := RunOutcomeAlert(false, false, row.webhookUrl, row.pagerDutyKey, row.name, 0, row.failureThreshold);
      var threshold := NormalizeThreshold(row.failureThreshold);
      if passed {
        if alertActive && HasTarget(row) && row.alertsEnabled {
          alert := alert.(sendRecovery := true);
        }
        consecutive := 0;
        alertActive := false;
      } else {
        consecutive := consecutive + 1;
        alert := alert.(consecutive := consecutive);
        alertActive := consecutive >= threshold;
        if HasTarget(row) && row.alertsEnabled && FailureAlertDue(consecutive, threshold) {
          alert := alert.(sendFailure := true);
        }
      }
      if commitFails {
        return false, None;
      }
      tests := tests[id := row.(consecutiveFailures := consecutive, alertActive := alertActive)];
      return true, if alert.sendFailure || alert.sendRecovery then Some(alert) else None;
    }

    method Delete(id: string) returns (found: bool)
      modifies this
      ensures found <==> id in old(tests)
      ensures tests == old(tests) - {id}
    {
      found := id in tests;
      tests := tests - {id};
    }
  }
}
