/**
 The alert columns over whole histories: outcomes of runs, committed one after
 another under the row lock, interleaved with configuration updates.
 */
module Alerts {
  import opened Common
  import opened Tests

  datatype Event = Outcome(passed: bool) | Configure(update: ConfigUpdate)

  function Step(row: TestRow, e: Event): TestRow {
    match e
    case Outcome(passed) => Recorded(row, passed)
    case Configure(update) => Configured(row, update)
  }

  function After(row: TestRow, es: seq<Event>): TestRow {
    if es == [] then row else Step(After(row, es[..|es| - 1]), es[|es| - 1])
  }

  /** A row as Create inserts it: no failures yet, no alert, a positive threshold. */
  predicate IsNew(row: TestRow) {
    row.consecutiveFailures == 0 && !row.alertActive && row.failureThreshold >= 1
  }

  // ---------- The counters are what they are meant to be ----------

  function Outcomes(es: seq<Event>): seq<bool> {
    if es == [] then []
    else Outcomes(es[..|es| - 1]) + if es[|es| - 1].Outcome? then [es[|es| - 1].passed] else []
  }

  /** The last n outcomes failed, and the one before them, if any, passed. */
  ghost predicate IsTrailingStreak(os: seq<bool>, n: nat) {
    && n <= |os|
    && (forall i :: |os| - n <= i < |os| ==> !os[i])
    && (n < |os| ==> os[|os| - n - 1])
  }

  lemma {:induction false} CounterIsTrailingStreak(row: TestRow, es: seq<Event>)
    requires IsNew(row)
    ensures IsTrailingStreak(Outcomes(es), After(row, es).consecutiveFailures)
  {
    if es != [] {
      CounterIsTrailingStreak(row, es[..|es| - 1]);
    }
  }

  /** No outcome comes after position k. */
  ghost predicate IsLastOutcome(es: seq<Event>, k: nat) {
    k < |es| && es[k].Outcome? && forall i :: k < i < |es| ==> es[i].Configure?
  }

  /**
   The alert is active exactly when the last outcome failed and the streak it
   ended reached the threshold in force when it was recorded.
   */
  lemma {:induction false} AlertActiveMeans(row: TestRow, es: seq<Event>, k: nat, n: nat)
    requires IsNew(row) && IsLastOutcome(es, k) && IsTrailingStreak(Outcomes(es), n)
    ensures After(row, es).alertActive <==>
              !es[k].passed && n >= NormalizeThreshold(After(row, es[..k]).failureThreshold)
  {
    var front := es[..|es| - 1];
    if k == |es| - 1 {
      CounterIsTrailingStreak(row, es);
      StreakIsUnique(Outcomes(es), n, After(row, es).consecutiveFailures);
    } else {
      assert es[|es| - 1].Configure?;
      assert Outcomes(es) == Outcomes(front);
      assert front[..k] == es[..k];
      AlertActiveMeans(row, front, k, n);
    }
  }

  lemma StreakIsUnique(os: seq<bool>, m: nat, n: nat)
    requires IsTrailingStreak(os, m) && IsTrailingStreak(os, n)
    ensures m == n
  {
  }

  lemma {:induction false} NoOutcomeNoAlert(row: TestRow, es: seq<Event>)
    requires IsNew(row) && forall e :: e in es ==> e.Configure?
    ensures !After(row, es).alertActive && After(row, es).consecutiveFailures == 0
  {
    if es != [] {
      assert es[|es| - 1] in es;
      NoOutcomeNoAlert(row, es[..|es| - 1]);
    }
  }

  // ---------- How many alerts ----------

  function Fails(n: nat): seq<Event> {
    seq(n, _ => Outcome(false))
  }

  /** Failing streaks of the given lengths, each ended by a pass, then a last streak of `open` failures. */
  function History(ended: seq<nat>, open: nat): seq<Event> {
    if ended == [] then Fails(open)
    else History(ended[..|ended| - 1], ended[|ended| - 1]) + [Outcome(true)] + Fails(open)
  }

  /** Every history of outcomes is such a list of maximal streaks. */
  lemma {:induction false} EveryHistoryHasStreaks(es: seq<Event>) returns (ended: seq<nat>, open: nat)
    requires forall e :: e in es ==> e.Outcome?
    ensures es == History(ended, open)
  {
    if es == [] {
      ended, open := [], 0;
    } else {
      var front, e := es[..|es| - 1], es[|es| - 1];
      ended, open := EveryHistoryHasStreaks(front);
      assert e in es;
      if e.passed {
        assert (ended + [open])[..|ended|] == ended;
        ended, open := ended + [open], 0;
        assert es == front + [e] + Fails(0);
      } else {
        assert Fails(open + 1) == Fails(open) + [e];
        open := open + 1;
        assert es == front + [e];
      }
    }
  }

  function FailureAlerts(row: TestRow, es: seq<Event>): nat {
    if es == [] then 0
    else
      var e := es[|es| - 1];
      FailureAlerts(row, es[..|es| - 1])
      + if e.Outcome? && FailureSent(After(row, es[..|es| - 1]), e.passed) then 1 else 0
  }

  function Recoveries(row: TestRow, es: seq<Event>): nat {
    if es == [] then 0
    else
      var e := es[|es| - 1];
      Recoveries(row, es[..|es| - 1])
      + if e.Outcome? && RecoverySent(After(row, es[..|es| - 1]), e.passed) then 1 else 0
  }

  /** An alert goes to the key then in force: a failure triggers the incident there, a recovery resolves it there. */
  function OpenAfterEvent(before: TestRow, e: Event, open: set<string>): set<string> {
    if e.Configure? || before.pagerDutyKey == "" then open
    else if FailureSent(before, e.passed) then open + {before.pagerDutyKey}
    else if RecoverySent(before, e.passed) then open - {before.pagerDutyKey}
    else open
  }

  /** The routing keys under which the test's incident is open. */
  function OpenIncidents(row: TestRow, es: seq<Event>): set<string> {
    if es == [] then {}
    else OpenAfterEvent(After(row, es[..|es| - 1]), es[|es| - 1], OpenIncidents(row, es[..|es| - 1]))
  }

  function SumOfQuotients(lengths: seq<nat>, t: nat): nat
    requires t >= 1
  {
    if lengths == [] then 0 else SumOfQuotients(lengths[..|lengths| - 1], t) + lengths[|lengths| - 1] / t
  }

  function AtLeast(lengths: seq<nat>, t: int): nat {
    if lengths == [] then 0
    else AtLeast(lengths[..|lengths| - 1], t) + if lengths[|lengths| - 1] >= t then 1 else 0
  }

  predicate Alerting(row: TestRow) {
    IsNew(row) && HasTarget(row) && row.alertsEnabled
  }

  lemma OneMore(n: nat, t: nat)
    requires t >= 1
    ensures (n + 1) / t == n / t + if (n + 1) % t == 0 then 1 else 0
    ensures n + 1 < t ==> (n + 1) % t != 0
  {
    var q, r := n / t, n % t;
    assert n == q * t + r;
    if r + 1 == t {
      Quotient(n + 1, t, q + 1, 0);
    } else {
      Quotient(n + 1, t, q, r + 1);
    }
  }

  lemma MultipleIsFar(d: int, t: nat)
    ensures d >= 1 ==> d * t >= t
    ensures d <= -1 ==> d * t + t <= 0
  {
  }

  lemma Quotient(n: int, t: nat, q: int, r: int)
    requires t >= 1 && 0 <= r < t && n == q * t + r
    ensures n / t == q && n % t == r
  {
    var d := n / t - q;
    assert n / t * t + n % t == n;
    assert d * t == r - n % t;
    MultipleIsFar(d, t);
  }

  /** What one more event adds. */
  lemma OneMoreEvent(row: TestRow, es: seq<Event>, e: Event)
    ensures After(row, es + [e]) == Step(After(row, es), e)
    ensures FailureAlerts(row, es + [e]) ==
            FailureAlerts(row, es) + if e.Outcome? && FailureSent(After(row, es), e.passed) then 1 else 0
    ensures Recoveries(row, es + [e]) ==
            Recoveries(row, es) + if e.Outcome? && RecoverySent(After(row, es), e.passed) then 1 else 0
    ensures OpenIncidents(row, es + [e]) == OpenAfterEvent(After(row, es), e, OpenIncidents(row, es))
  {
    assert (es + [e])[..|es|] == es;
  }

  /** How a history of streaks ends. */
  lemma HistoryEnds(ended: seq<nat>, open: nat)
    ensures open > 0 ==> History(ended, open) == History(ended, open - 1) + [Outcome(false)]
    ensures open == 0 && ended != [] ==>
              History(ended, open) == History(ended[..|ended| - 1], ended[|ended| - 1]) + [Outcome(true)]
    ensures open == 0 && ended == [] ==> History(ended, open) == []
  {
    if open > 0 {
      assert Fails(open) == Fails(open - 1) + [Outcome(false)];
    } else {
      assert Fails(open) == [];
    }
  }

  /** The row after streaks `ended` and `open`. */
  function RowAfter(row: TestRow, open: nat): TestRow {
    row.(consecutiveFailures := open, alertActive := open >= row.failureThreshold)
  }

  /** Failure number open + 1 of a streak alerts exactly when it completes another t failures. */
  lemma FailureSentWhen(row: TestRow, open: nat)
    requires Alerting(row)
    ensures FailureSent(RowAfter(row, open), false) ==> open + 1 >= row.failureThreshold
    ensures FailureSent(RowAfter(row, open), false) <== open + 1 == row.failureThreshold
    ensures (open + 1) / row.failureThreshold ==
            open / row.failureThreshold + if FailureSent(RowAfter(row, open), false) then 1 else 0
  {
    OneMore(open, row.failureThreshold);
    Quotient(row.failureThreshold, row.failureThreshold, 1, 0);
  }

  lemma {:induction false} ColumnsAfter(row: TestRow, ended: seq<nat>, open: nat)
    requires Alerting(row)
    ensures After(row, History(ended, open)) == RowAfter(row, open)
    decreases |ended|, open
  {
    HistoryEnds(ended, open);
    if open > 0 {
      ColumnsAfter(row, ended, open - 1);
      OneMoreEvent(row, History(ended, open - 1), Outcome(false));
    } else if ended != [] {
      var front, last := ended[..|ended| - 1], ended[|ended| - 1];
      ColumnsAfter(row, front, last);
      OneMoreEvent(row, History(front, last), Outcome(true));
    }
  }

  /** Failure alerts within one streak of n, failure by failure. */
  function StreakAlerts(row: TestRow, n: nat): nat {
    if n == 0 then 0 else StreakAlerts(row, n - 1) + if FailureSent(RowAfter(row, n - 1), false) then 1 else 0
  }

  function AllStreakAlerts(row: TestRow, lengths: seq<nat>): nat {
    if lengths == [] then 0
    else AllStreakAlerts(row, lengths[..|lengths| - 1]) + StreakAlerts(row, lengths[|lengths| - 1])
  }

  lemma {:induction false} StreakAlertsAre(row: TestRow, n: nat)
    requires Alerting(row)
    ensures StreakAlerts(row, n) == n / row.failureThreshold
  {
    if n == 0 {
      Quotient(0, row.failureThreshold, 0, 0);
    } else {
      StreakAlertsAre(row, n - 1);
      FailureSentWhen(row, n - 1);
    }
  }

  lemma {:induction false} AllStreakAlertsAre(row: TestRow, lengths: seq<nat>)
    requires Alerting(row)
    ensures AllStreakAlerts(row, lengths) == SumOfQuotients(lengths, row.failureThreshold)
  {
    if lengths != [] {
      AllStreakAlertsAre(row, lengths[..|lengths| - 1]);
      StreakAlertsAre(row, lengths[|lengths| - 1]);
    }
  }

  lemma PassAlerts(row: TestRow, n: nat)
    requires Alerting(row)
    ensures !FailureSent(RowAfter(row, n), true)
    ensures RecoverySent(RowAfter(row, n), true) <==> n >= row.failureThreshold
    ensures !RecoverySent(RowAfter(row, n), false)
  {
  }

  lemma OneMoreFailure(row: TestRow, es: seq<Event>, n: nat)
    requires Alerting(row) && After(row, es) == RowAfter(row, n)
    ensures FailureAlerts(row, es + [Outcome(false)]) + StreakAlerts(row, n) ==
            FailureAlerts(row, es) + StreakAlerts(row, n + 1)
    ensures Recoveries(row, es + [Outcome(false)]) == Recoveries(row, es)
  {
    OneMoreEvent(row, es, Outcome(false));
    PassAlerts(row, n);
  }

  lemma OneMorePass(row: TestRow, es: seq<Event>, n: nat)
    requires Alerting(row) && After(row, es) == RowAfter(row, n)
    ensures FailureAlerts(row, es + [Outcome(true)]) == FailureAlerts(row, es)
    ensures Recoveries(row, es + [Outcome(true)]) == Recoveries(row, es) + if n >= row.failureThreshold then 1 else 0
  {
    OneMoreEvent(row, es, Outcome(true));
    PassAlerts(row, n);
  }

  /** What a history of streaks has sent, streak by streak. */
  ghost predicate Counted(row: TestRow, es: seq<Event>, ended: seq<nat>, open: nat) {
    && FailureAlerts(row, es) == AllStreakAlerts(row, ended) + StreakAlerts(row, open)
    && Recoveries(row, es) == AtLeast(ended, row.failureThreshold)
  }

  lemma FailureCounts(row: TestRow, es: seq<Event>, ended: seq<nat>, open: nat)
    requires Alerting(row) && After(row, es) == RowAfter(row, open) && Counted(row, es, ended, open)
    ensures Counted(row, es + [Outcome(false)], ended, open + 1)
  {
    OneMoreFailure(row, es, open);
  }

  lemma PassCounts(row: TestRow, es: seq<Event>, front: seq<nat>, last: nat, ended: seq<nat>)
    requires Alerting(row) && After(row, es) == RowAfter(row, last) && Counted(row, es, front, last)
    requires ended != [] && ended[..|ended| - 1] == front && ended[|ended| - 1] == last
    ensures Counted(row, es + [Outcome(true)], ended, 0)
  {
    OneMorePass(row, es, last);
  }

  lemma {:induction false} CountsAfter(row: TestRow, ended: seq<nat>, open: nat)
    requires Alerting(row)
    ensures Counted(row, History(ended, open), ended, open)
    decreases |ended|, open
  {
    HistoryEnds(ended, open);
    if open > 0 {
      CountsAfter(row, ended, open - 1);
      ColumnsAfter(row, ended, open - 1);
      FailureCounts(row, History(ended, open - 1), ended, open - 1);
    } else if ended != [] {
      var front, last := ended[..|ended| - 1], ended[|ended| - 1];
      CountsAfter(row, front, last);
      ColumnsAfter(row, front, last);
      PassCounts(row, History(front, last), front, last, ended);
    }
  }

  /**
   With alerts on and a fixed threshold t, failure alerts number the sum of
   floor(length / t) over the maximal failing streaks, and recoveries number the
   ended streaks of length at least t.
   */
  lemma AlertCounts(row: TestRow, es: seq<Event>, ended: seq<nat>, open: nat)
    requires Alerting(row) && es == History(ended, open)
    ensures FailureAlerts(row, es) == SumOfQuotients(ended + [open], row.failureThreshold)
    ensures Recoveries(row, es) == AtLeast(ended, row.failureThreshold)
  {
    CountsAfter(row, ended, open);
    AllStreakAlertsAre(row, ended + [open]);
    assert (ended + [open])[..|ended|] == ended;
  }

  // ---------- The PagerDuty incident ----------

  /** The incident is open on the row's own key exactly when n failures in a row have reached the threshold. */
  ghost predicate OpenMatches(row: TestRow, n: nat, open: set<string>) {
    && (n >= row.failureThreshold ==> open == {row.pagerDutyKey})
    && (n < row.failureThreshold ==> open == {})
  }

  lemma FailureKeepsMatch(row: TestRow, n: nat, open: set<string>)
    requires Alerting(row) && row.pagerDutyKey != "" && OpenMatches(row, n, open)
    ensures OpenMatches(row, n + 1, OpenAfterEvent(RowAfter(row, n), Outcome(false), open))
  {
    PassAlerts(row, n);
    FailureSentWhen(row, n);
  }

  lemma PassClears(row: TestRow, n: nat, open: set<string>)
    requires Alerting(row) && row.pagerDutyKey != "" && OpenMatches(row, n, open)
    ensures OpenMatches(row, 0, OpenAfterEvent(RowAfter(row, n), Outcome(true), open))
  {
    PassAlerts(row, n);
  }

  lemma OneMoreMatches(row: TestRow, es: seq<Event>, n: nat, passed: bool)
    requires Alerting(row) && row.pagerDutyKey != "" && After(row, es) == RowAfter(row, n)
    requires OpenMatches(row, n, OpenIncidents(row, es))
    ensures OpenMatches(row, if passed then 0 else n + 1, OpenIncidents(row, es + [Outcome(passed)]))
  {
    OneMoreEvent(row, es, Outcome(passed));
    if passed {
      PassClears(row, n, OpenIncidents(row, es));
    } else {
      FailureKeepsMatch(row, n, OpenIncidents(row, es));
    }
  }

  lemma {:induction false} OpenAfterHistory(row: TestRow, ended: seq<nat>, open: nat)
    requires Alerting(row) && row.pagerDutyKey != ""
    ensures OpenMatches(row, open, OpenIncidents(row, History(ended, open)))
    decreases |ended|, open
  {
    HistoryEnds(ended, open);
    if open > 0 {
      OpenAfterHistory(row, ended, open - 1);
      ColumnsAfter(row, ended, open - 1);
      OneMoreMatches(row, History(ended, open - 1), open - 1, false);
    } else if ended != [] {
      var front, last := ended[..|ended| - 1], ended[|ended| - 1];
      OpenAfterHistory(row, front, last);
      ColumnsAfter(row, front, last);
      OneMoreMatches(row, History(front, last), last, true);
    }
  }

  /** Under a fixed configuration the incident is open, on its one key, exactly while the alert is active. */
  lemma IncidentFollowsAlert(row: TestRow, ended: seq<nat>, open: nat)
    requires Alerting(row) && row.pagerDutyKey != ""
    ensures var es := History(ended, open);
      && (After(row, es).alertActive ==> OpenIncidents(row, es) == {row.pagerDutyKey})
      && (!After(row, es).alertActive ==> OpenIncidents(row, es) == {})
  {
    OpenAfterHistory(row, ended, open);
    ColumnsAfter(row, ended, open);
  }

  /** An open incident has an outcome behind it. */
  lemma {:induction false} OpenNeedsOutcome(row: TestRow, es: seq<Event>, key: string) returns (k: nat)
    requires key in OpenIncidents(row, es)
    ensures IsLastOutcome(es, k) && key != ""
  {
    var front := es[..|es| - 1];
    k := |front|;
    if es[k].Configure? {
      k := OpenNeedsOutcome(row, front, key);
    } else if key in OpenIncidents(row, front) {
      var _ := OpenNeedsOutcome(row, front, key);
    }
  }

  /** The next pass resolves the incident on key. */
  predicate Resolvable(row: TestRow, key: string) {
    row.alertActive && row.alertsEnabled && row.pagerDutyKey == key
  }

  /**
   When a pass closes the incident a failure opened on key, after any history of
   outcomes and configuration changes: the last outcome failed with its streak at
   the threshold in force then, alerts are on now, and key is in force now.
   */
  lemma PassResolvesWhen(row: TestRow, es: seq<Event>, key: string, k: nat, n: nat)
    requires IsNew(row) && key in OpenIncidents(row, es)
    requires IsLastOutcome(es, k) && IsTrailingStreak(Outcomes(es), n)
    ensures key !in OpenIncidents(row, es + [Outcome(true)]) <==>
      && !es[k].passed && n >= NormalizeThreshold(After(row, es[..k]).failureThreshold)
      && After(row, es).alertsEnabled && After(row, es).pagerDutyKey == key
  {
    var _ := OpenNeedsOutcome(row, es, key);
    AlertActiveMeans(row, es, k, n);
    OneMoreEvent(row, es, Outcome(true));
  }

  function Passes(n: nat): seq<Event> {
    seq(n, _ => Outcome(true))
  }

  predicate OpenAfterPasses(row: TestRow, es: seq<Event>, key: string, n: nat) {
    key in OpenIncidents(row, es + Passes(n))
  }

  lemma MorePasses(row: TestRow, es: seq<Event>, n: nat)
    ensures es + Passes(n + 1) == (es + Passes(n)) + [Outcome(true)]
  {
    assert es + Passes(n + 1) == (es + Passes(n)) + [Outcome(true)];
  }

  lemma {:induction false} PassesKeepStuck(row: TestRow, es: seq<Event>, key: string, n: nat)
    requires key in OpenIncidents(row, es) && !Resolvable(After(row, es), key)
    ensures OpenAfterPasses(row, es, key, n)
    ensures !Resolvable(After(row, es + Passes(n)), key)
  {
    if n == 0 {
      assert es + Passes(n) == es;
    } else {
      PassesKeepStuck(row, es, key, n - 1);
      MorePasses(row, es, n - 1);
      OneMoreEvent(row, es + Passes(n - 1), Outcome(true));
    }
  }

  /** An open incident outlives any number of passes exactly when the first of them would not resolve it. */
  lemma StrandedWhen(row: TestRow, es: seq<Event>, key: string)
    requires key in OpenIncidents(row, es)
    ensures (forall n: nat :: OpenAfterPasses(row, es, key, n)) <==> !Resolvable(After(row, es), key)
  {
    if Resolvable(After(row, es), key) {
      var _ := OpenNeedsOutcome(row, es, key);
      OneMoreEvent(row, es, Outcome(true));
      assert es + Passes(1) == es + [Outcome(true)];
      assert !OpenAfterPasses(row, es, key, 1);
    } else {
      forall n: nat ensures OpenAfterPasses(row, es, key, n) {
        PassesKeepStuck(row, es, key, n);
      }
    }
  }

  /** Raising the threshold during an incident and failing once more clears alert_active and strands the incident. */
  lemma RaisedThresholdStrandsIncident(row: TestRow, raised: ConfigUpdate, n: nat) returns (es: seq<Event>)
    requires Alerting(row) && row.pagerDutyKey != "" && row.failureThreshold == 1
    requires raised.failureThreshold == 10 && raised.pagerDutyKey == row.pagerDutyKey && raised.alertsEnabled
    ensures OpenAfterPasses(row, es, row.pagerDutyKey, n) && !After(row, es + Passes(n)).alertActive
    ensures es == [Outcome(false)] + [Configure(raised)] + [Outcome(false)]
  {
    OneMoreEvent(row, [], Outcome(false));
    assert [] + [Outcome(false)] == [Outcome(false)];
    OneMoreEvent(row, [Outcome(false)], Configure(raised));
    OneMoreEvent(row, [Outcome(false)] + [Configure(raised)], Outcome(false));
    es := [Outcome(false)] + [Configure(raised)] + [Outcome(false)];
    PassesKeepStuck(row, es, row.pagerDutyKey, n);
    NoAlertFromPasses(row, es, n);
  }

  lemma {:induction false} NoAlertFromPasses(row: TestRow, es: seq<Event>, n: nat)
    requires !After(row, es).alertActive
    ensures !After(row, es + Passes(n)).alertActive
  {
    if n == 0 {
      assert es + Passes(n) == es;
    } else {
      MorePasses(row, es, n - 1);
      OneMoreEvent(row, es + Passes(n - 1), Outcome(true));
    }
  }

  /** Changing the routing key during an incident strands the incident on the old key. */
  lemma ChangedKeyStrandsIncident(row: TestRow, changed: ConfigUpdate, n: nat) returns (es: seq<Event>)
    requires Alerting(row) && row.pagerDutyKey != "" && row.failureThreshold == 1
    requires changed.pagerDutyKey != row.pagerDutyKey
    ensures es == [Outcome(false)] + [Configure(changed)]
    ensures OpenAfterPasses(row, es, row.pagerDutyKey, n)
  {
    OneMoreEvent(row, [], Outcome(false));
    assert [] + [Outcome(false)] == [Outcome(false)];
    OneMoreEvent(row, [Outcome(false)], Configure(changed));
    es := [Outcome(false)] + [Configure(changed)];
    PassesKeepStuck(row, es, row.pagerDutyKey, n);
  }
}
