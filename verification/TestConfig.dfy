/**
 Writing a test's configuration: the validation each request applies, and what
 any interleaving of uploads, updates, schedule switches, fires and outcomes
 keeps. A request reads the row in one step and replaces it in a later one.
 */
module TestConfig {
  import opened Common
  import opened Tests
  import opened Scheduler

  datatype Limits = Limits(maxTimeout: int, maxMemoryMb: int)

  /** What requests are judged against: limits, cron library, and the webhook mask shown on reads. */
  datatype Rules = Rules(limits: Limits, next: Calendar, maskWebhook: string -> string)

  /** A PATCH body: None for an absent field. */
  datatype Patch = Patch(
    timeoutSeconds: Option<int>, cron: Option<string>, scheduleEnabled: Option<bool>, webhookUrl: Option<string>,
    pagerDutyKey: Option<string>, failureThreshold: Option<int>, alertsEnabled: Option<bool>, memoryMb: Option<int>)

  datatype Request = Update(patch: Patch) | Enable | Disable

  /** A numeric form field: empty, not an integer, or an integer. */
  datatype Number = Blank | Malformed | Int(value: int)

  /** fileOk covers the checks of runtime, file name and file size. */
  datatype Form = Form(
    name: string, timeout: Number, cron: string, webhookUrl: string, pagerDutyKey: string,
    failureThreshold: Number, memoryMb: Number, fileOk: bool)

  // ---------- Text ----------

  predicate IsSpace(c: char) {
    || '\t' <= c <= '\r'
    || c in {' ', '\U{85}', '\U{A0}', '\U{1680}', '\U{2028}', '\U{2029}', '\U{202F}', '\U{205F}', '\U{3000}'}
    || '\U{2000}' <= c <= '\U{200A}'
  }

  function TrimLeft(s: string): string {
    if s != "" && IsSpace(s[0]) then TrimLeft(s[1..]) else s
  }

  function TrimRight(s: string): string {
    if s != "" && IsSpace(s[|s| - 1]) then TrimRight(s[..|s| - 1]) else s
  }

  function Trim(s: string): string {
    TrimRight(TrimLeft(s))
  }

  lemma {:induction false} TrimRightKeepsStart(s: string)
    ensures TrimRight(s) <= s
    ensures s != "" && !IsSpace(s[0]) ==> TrimRight(s) != "" && TrimRight(s)[0] == s[0]
    ensures TrimRight(s) != "" ==> !IsSpace(TrimRight(s)[|TrimRight(s)| - 1])
  {
    if s != "" && IsSpace(s[|s| - 1]) {
      TrimRightKeepsStart(s[..|s| - 1]);
    }
  }

  lemma {:induction false} TrimLeftStart(s: string)
    ensures TrimLeft(s) != "" ==> !IsSpace(TrimLeft(s)[0])
  {
    if s != "" && IsSpace(s[0]) {
      TrimLeftStart(s[1..]);
    }
  }

  /** Trimmed text has no space at either end, so trimming it again changes nothing. */
  lemma TrimIsIdempotent(s: string)
    ensures Trim(Trim(s)) == Trim(s)
  {
    TrimLeftStart(s);
    TrimRightKeepsStart(TrimLeft(s));
  }

  /** Below 128 the spaces are the tab-to-return range and the blank. */
  lemma SpacesAre(c: char)
    requires c as int < 128
    ensures IsSpace(c) <==> c in {'\t', '\n', 11 as char, 12 as char, '\r', ' '}
  {
  }

  predicate AllSpaces(s: string) {
    forall i :: 0 <= i < |s| ==> IsSpace(s[i])
  }

  lemma {:induction false} TrimLeftDrops(s: string) returns (dropped: string)
    ensures AllSpaces(dropped) && s == dropped + TrimLeft(s)
  {
    dropped := "";
    if s != "" && IsSpace(s[0]) {
      var rest := TrimLeftDrops(s[1..]);
      dropped := [s[0]] + rest;
      assert s == [s[0]] + s[1..];
    }
  }

  lemma {:induction false} TrimRightDrops(s: string) returns (dropped: string)
    ensures AllSpaces(dropped) && s == TrimRight(s) + dropped
  {
    dropped := "";
    if s != "" && IsSpace(s[|s| - 1]) {
      var rest := TrimRightDrops(s[..|s| - 1]);
      dropped := rest + [s[|s| - 1]];
      assert s == s[..|s| - 1] + [s[|s| - 1]];
    }
  }

  /** Trimming takes off spaces, all of them, and only at the ends. */
  lemma TrimMeans(s: string) returns (left: string, right: string)
    ensures s == left + Trim(s) + right && AllSpaces(left) && AllSpaces(right)
    ensures Trim(s) != "" ==> !IsSpace(Trim(s)[0]) && !IsSpace(Trim(s)[|Trim(s)| - 1])
  {
    left := TrimLeftDrops(s);
    right := TrimRightDrops(TrimLeft(s));
    TrimLeftStart(s);
    TrimRightKeepsStart(TrimLeft(s));
  }

  predicate IsAlnum(c: char) {
    'a' <= c <= 'z' || 'A' <= c <= 'Z' || '0' <= c <= '9'
  }

  predicate IsValidKey(key: string) {
    key == "" || (|key| == 32 && forall i :: 0 <= i < |key| ==> IsAlnum(key[i]))
  }

  /** 32 letters and digits. */
  predicate IsIntegrationKey(key: string) {
    && |key| == 32
    && forall i :: 0 <= i < 32 ==> 'a' <= key[i] <= 'z' || 'A' <= key[i] <= 'Z' || '0' <= key[i] <= '9'
  }

  method ValidatePagerDutyKey(key: string) returns (ok: bool)
    ensures ok <==> IsValidKey(key)
    ensures ok <==> key == "" || IsIntegrationKey(key)
  {
    if key == "" {
      return true;
    }
    if |key| != 32 {
      return false;
    }
    for i := 0 to |key|
      invariant forall j :: 0 <= j < i ==> IsAlnum(key[j])
    {
      if !IsAlnum(key[i]) {
        return false;
      }
    }
    return true;
  }

  const ELLIPSIS := '\U{2026}'

  function MaskKey(raw: string): string {
    if raw == "" then "" else if |raw| <= 4 then [ELLIPSIS] else [ELLIPSIS] + raw[|raw| - 4..]
  }

  /** A mask shows the last four characters of a longer key and nothing else of it. */
  lemma MaskShowsLastFour(a: string, b: string)
    ensures |a| > 4 ==> |MaskKey(a)| == 5 && MaskKey(a)[1..] == a[|a| - 4..]
    ensures |a| > 4 && |b| > 4 && a[|a| - 4..] == b[|b| - 4..] ==> MaskKey(a) == MaskKey(b)
    ensures 1 <= |a| <= 4 && 1 <= |b| <= 4 ==> MaskKey(a) == MaskKey(b)
    ensures MaskKey(a) == "" <==> a == ""
  {
  }

  // ---------- What a request asks for ----------

  function Or<T>(o: Option<T>, default: T): T {
    if o.Some? then o.value else default
  }

  /** The row with the patch's fields in place; a field equal to its own mask is left alone. */
  function Merged(rules: Rules, row: TestRow, p: Patch): TestRow {
    var threshold := Or(p.failureThreshold, row.failureThreshold);
    row.(timeoutSeconds := Or(p.timeoutSeconds, row.timeoutSeconds),
         cron := if p.cron.Some? then Trim(p.cron.value) else row.cron,
         scheduleEnabled := Or(p.scheduleEnabled, row.scheduleEnabled),
         webhookUrl := if p.webhookUrl.Some? && p.webhookUrl.value != rules.maskWebhook(row.webhookUrl)
                       then Trim(p.webhookUrl.value) else row.webhookUrl,
         pagerDutyKey := if p.pagerDutyKey.Some? && p.pagerDutyKey.value != MaskKey(row.pagerDutyKey)
                         then Trim(p.pagerDutyKey.value) else row.pagerDutyKey,
         failureThreshold := if threshold <= 0 then 3 else threshold,
         alertsEnabled := Or(p.alertsEnabled, row.alertsEnabled),
         memoryMb := if p.memoryMb.Some? then p.memoryMb else row.memoryMb)
  }

  /** Each field of the patch passes its own check. */
  predicate FieldsOk(rules: Rules, row: TestRow, p: Patch) {
    && (p.timeoutSeconds.Some? ==> 0 < p.timeoutSeconds.value <= rules.limits.maxTimeout)
    && (p.pagerDutyKey.Some? && p.pagerDutyKey.value != MaskKey(row.pagerDutyKey) ==>
          IsValidKey(Trim(p.pagerDutyKey.value)))
    && (p.failureThreshold.Some? ==> p.failureThreshold.value > 0)
    && (p.memoryMb.Some? ==> 0 <= p.memoryMb.value <= rules.limits.maxMemoryMb)
  }

  predicate Accepts(rules: Rules, row: TestRow, p: Patch, now: int) {
    var merged := Merged(rules, row, p);
    && FieldsOk(rules, row, p)
    && (merged.scheduleEnabled ==> merged.cron != "")
    && (merged.cron != "" ==> rules.next(merged.cron, now).Some?)
  }

  function ConfigOf(row: TestRow, enabled: bool, nextRunAt: Option<int>): ConfigUpdate {
    ConfigUpdate(row.timeoutSeconds, row.cron, enabled, nextRunAt, row.webhookUrl, row.pagerDutyKey,
                 row.failureThreshold, row.alertsEnabled, row.memoryMb)
  }

  /** The replacement a request computes from the row it read, or None if it is refused. */
  function Asked(rules: Rules, row: TestRow, request: Request, now: int): Option<ConfigUpdate> {
    match request
    case Update(p) =>
      var merged := Merged(rules, row, p);
      if !Accepts(rules, row, p, now) then None
      else Some(ConfigOf(merged, merged.scheduleEnabled,
                         if merged.scheduleEnabled then rules.next(merged.cron, now) else None))
    case Enable =>
      if row.cron == "" || rules.next(row.cron, now).None? then None
      else Some(ConfigOf(row, true, rules.next(row.cron, now)))
    case Disable => Some(ConfigOf(row, false, None))
  }

  /** After an accepted patch every field sent is stored and every other one is as it was. */
  predicate HoldsPatch(rules: Rules, before: TestRow, after: TestRow, p: Patch, now: int) {
    && (p.timeoutSeconds.Some? ==> after.timeoutSeconds == p.timeoutSeconds.value)
    && (p.timeoutSeconds.None? ==> after.timeoutSeconds == before.timeoutSeconds)
    && (p.cron.Some? ==> after.cron == Trim(p.cron.value))
    && (p.cron.None? ==> after.cron == before.cron)
    && (p.scheduleEnabled.Some? ==> after.scheduleEnabled == p.scheduleEnabled.value)
    && (p.scheduleEnabled.None? ==> after.scheduleEnabled == before.scheduleEnabled)
    && (p.webhookUrl.None? || p.webhookUrl.value == rules.maskWebhook(before.webhookUrl) ==>
          after.webhookUrl == before.webhookUrl)
    && (p.webhookUrl.Some? && p.webhookUrl.value != rules.maskWebhook(before.webhookUrl) ==>
          after.webhookUrl == Trim(p.webhookUrl.value))
    && (p.pagerDutyKey.None? || p.pagerDutyKey.value == MaskKey(before.pagerDutyKey) ==>
          after.pagerDutyKey == before.pagerDutyKey)
    && (p.pagerDutyKey.Some? && p.pagerDutyKey.value != MaskKey(before.pagerDutyKey) ==>
          after.pagerDutyKey == Trim(p.pagerDutyKey.value))
    && (p.failureThreshold.Some? ==> after.failureThreshold == p.failureThreshold.value)
    && (p.failureThreshold.None? ==>
          after.failureThreshold == if before.failureThreshold <= 0 then 3 else before.failureThreshold)
    && (p.alertsEnabled.Some? ==> after.alertsEnabled == p.alertsEnabled.value)
    && (p.alertsEnabled.None? ==> after.alertsEnabled == before.alertsEnabled)
    && (p.memoryMb.Some? ==> after.memoryMb == p.memoryMb)
    && (p.memoryMb.None? ==> after.memoryMb == before.memoryMb)
    && (after.scheduleEnabled ==> after.nextRunAt.Some? && after.nextRunAt == rules.next(after.cron, now))
    && (!after.scheduleEnabled ==> after.nextRunAt.None?)
    && after.name == before.name
    && after.consecutiveFailures == before.consecutiveFailures && after.alertActive == before.alertActive
  }

  lemma AcceptedPatchIsHeld(rules: Rules, row: TestRow, p: Patch, now: int)
    requires Accepts(rules, row, p, now)
    ensures HoldsPatch(rules, row, Configured(row, Asked(rules, row, Update(p), now).value), p, now)
  {
  }

  /** The checks a patch can fail, one by one. */
  predicate IsBadPatch(rules: Rules, row: TestRow, p: Patch, now: int) {
    var cron := if p.cron.Some? then Trim(p.cron.value) else row.cron;
    var enabled := if p.scheduleEnabled.Some? then p.scheduleEnabled.value else row.scheduleEnabled;
    || (p.timeoutSeconds.Some? && (p.timeoutSeconds.value < 1 || p.timeoutSeconds.value > rules.limits.maxTimeout))
    || (p.pagerDutyKey.Some? && p.pagerDutyKey.value != MaskKey(row.pagerDutyKey)
        && !IsValidKey(Trim(p.pagerDutyKey.value)))
    || (p.failureThreshold.Some? && p.failureThreshold.value < 1)
    || (p.memoryMb.Some? && (p.memoryMb.value < 0 || p.memoryMb.value > rules.limits.maxMemoryMb))
    || (enabled && cron == "")
    || (cron != "" && rules.next(cron, now).None?)
  }

  lemma RefusedPatchesAreBad(rules: Rules, row: TestRow, p: Patch, now: int)
    ensures Asked(rules, row, Update(p), now).None? <==> IsBadPatch(rules, row, p, now)
  {
  }

  /** The row an upload creates. */
  predicate IsFromForm(rules: Rules, f: Form, now: int, row: TestRow) {
    && row.name == f.name
    && row.timeoutSeconds == (if f.timeout.Int? then f.timeout.value else 30)
    && row.failureThreshold == (if f.failureThreshold.Int? then f.failureThreshold.value else 3)
    && row.memoryMb == (if f.memoryMb.Int? then Some(f.memoryMb.value) else None)
    && row.cron == Trim(f.cron) && row.webhookUrl == Trim(f.webhookUrl) && row.pagerDutyKey == Trim(f.pagerDutyKey)
    && row.scheduleEnabled == (Trim(f.cron) != "")
    && row.nextRunAt == (if Trim(f.cron) != "" then rules.next(Trim(f.cron), now) else None)
    && row.alertsEnabled && row.consecutiveFailures == 0 && !row.alertActive
  }

  /** The checks a form can fail. */
  predicate IsBadForm(rules: Rules, f: Form) {
    || !IsValidKey(Trim(f.pagerDutyKey))
    || f.failureThreshold.Malformed? || (f.failureThreshold.Int? && f.failureThreshold.value < 1)
    || f.memoryMb.Malformed?
    || (f.memoryMb.Int? && (f.memoryMb.value < 0 || f.memoryMb.value > rules.limits.maxMemoryMb))
    || f.timeout.Malformed?
    || (f.timeout.Int? && (f.timeout.value < 1 || f.timeout.value > rules.limits.maxTimeout))
    || !f.fileOk
  }

  lemma RefusedFormsAreBad(rules: Rules, f: Form)
    ensures FormOk(rules, f) <==> !IsBadForm(rules, f)
  {
  }

  predicate NumberOk(n: Number, low: int, high: int) {
    n.Blank? || (n.Int? && low <= n.value <= high)
  }

  predicate FormOk(rules: Rules, f: Form) {
    && IsValidKey(Trim(f.pagerDutyKey))
    && !f.failureThreshold.Malformed? && (f.failureThreshold.Int? ==> f.failureThreshold.value > 0)
    && NumberOk(f.memoryMb, 0, rules.limits.maxMemoryMb)
    && NumberOk(f.timeout, 1, rules.limits.maxTimeout)
    && f.fileOk
  }

  predicate CronOk(rules: Rules, f: Form, now: int) {
    Trim(f.cron) == "" || rules.next(Trim(f.cron), now).Some?
  }

  function Uploaded(rules: Rules, f: Form, now: int): TestRow {
    var cron := Trim(f.cron);
    TestRow(f.name, if f.timeout.Int? then f.timeout.value else 30, cron, cron != "",
            if cron != "" then rules.next(cron, now) else None, Trim(f.webhookUrl), Trim(f.pagerDutyKey),
            if f.failureThreshold.Int? then f.failureThreshold.value else 3, true,
            if f.memoryMb.Int? then Some(f.memoryMb.value) else None, 0, false)
  }

  // ---------- The handlers ----------

  datatype Reply = Done | NotFound | BadRequest | ServerError

  /** Whether the write fails, and whether reading the row back for the reply does. */
  datatype Faults = Faults(write: bool, reload: bool)

  class Handler {
    const tests: TestRepository
    const rules: Rules
    var artifacts: set<string>

    constructor (tests: TestRepository, rules: Rules)
      ensures this.tests == tests && this.rules == rules && artifacts == {}
    {
      this.tests, this.rules, artifacts := tests, rules, {};
    }

    /** The part of an update that overwrites the row's columns one by one. */
    method ApplyFields(row: TestRow, p: Patch) returns (merged: Option<TestRow>)
      ensures merged == if FieldsOk(rules, row, p) then Some(Merged(rules, row, p)) else None
    {
      var timeoutSeconds, cron, scheduleEnabled := row.timeoutSeconds, row.cron, row.scheduleEnabled;
      var webhookUrl, pagerDutyKey, failureThreshold := row.webhookUrl, row.pagerDutyKey, row.failureThreshold;
      var alertsEnabled, memoryMb := row.alertsEnabled, row.memoryMb;
      if p.timeoutSeconds.Some? {
        if p.timeoutSeconds.value <= 0 {
          return None;
        }
        if p.timeoutSeconds.value > rules.limits.maxTimeout {
          return None;
        }
        timeoutSeconds := p.timeoutSeconds.value;
      }
      if p.cron.Some? {
        cron := Trim(p.cron.value);
      }
      if p.scheduleEnabled.Some? {
        scheduleEnabled := p.scheduleEnabled.value;
      }
      if p.webhookUrl.Some? && p.webhookUrl.value != rules.maskWebhook(webhookUrl) {
        webhookUrl := Trim(p.webhookUrl.value);
      }
      if p.pagerDutyKey.Some? && p.pagerDutyKey.value != MaskKey(pagerDutyKey) {
        pagerDutyKey := Trim(p.pagerDutyKey.value);
        var ok := ValidatePagerDutyKey(pagerDutyKey);
        if !ok {
          return None;
        }
      }
      if p.failureThreshold.Some? {
        if p.failureThreshold.value <= 0 {
          return None;
        }
        failureThreshold := p.failureThreshold.value;
      }
      if p.alertsEnabled.Some? {
        alertsEnabled := p.alertsEnabled.value;
      }
      if p.memoryMb.Some? {
        if p.memoryMb.value < 0 {
          return None;
        }
        if p.memoryMb.value > rules.limits.maxMemoryMb {
          return None;
        }
        memoryMb := p.memoryMb;
      }
      if failureThreshold <= 0 {
        failureThreshold := 3;
      }
      return Some(row.(timeoutSeconds := timeoutSeconds, cron := cron, scheduleEnabled := scheduleEnabled,
                       webhookUrl := webhookUrl, pagerDutyKey := pagerDutyKey, failureThreshold := failureThreshold,
                       alertsEnabled := alertsEnabled, memoryMb := memoryMb));
    }

    method UpdateTestConfig(id: string, p: Patch, now: int, faults: Faults) returns (reply: Reply)
      modifies tests
      ensures var t := old(tests.tests); var asked := if id in t then Asked(rules, t[id], Update(p), now) else None;
        && (reply.NotFound? <==> id !in t)
        && (reply.BadRequest? <==> id in t && asked.None?)
        && (reply.ServerError? <==> asked.Some? && (faults.write || faults.reload))
        && tests.tests == if asked.Some? && !faults.write then AfterConfig(t, id, asked.value) else t
      ensures var t := old(tests.tests);
        && (id in t ==> (reply.BadRequest? <==> IsBadPatch(rules, t[id], p, now)))
        && (id in t && !reply.BadRequest? && !faults.write ==>
              id in tests.tests && HoldsPatch(rules, t[id], tests.tests[id], p, now))
    {
      if id !in tests.tests {
        return NotFound;
      }
      RefusedPatchesAreBad(rules, tests.tests[id], p, now);
      if Accepts(rules, tests.tests[id], p, now) {
        AcceptedPatchIsHeld(rules, tests.tests[id], p, now);
      }
      var merged := ApplyFields(tests.tests[id], p);
      if merged.None? {
        return BadRequest;
      }
      var test := merged.value;
      if test.scheduleEnabled && test.cron == "" {
        return BadRequest;
      }
      var nextRun := None;
      if test.cron != "" {
        var upcoming := rules.next(test.cron, now);
        if upcoming.None? {
          return BadRequest;
        }
        if test.scheduleEnabled {
          nextRun := upcoming;
        }
      }
      if faults.write {
        return ServerError;
      }
      tests.UpdateConfig(id, ConfigOf(test, test.scheduleEnabled, nextRun));
      return if faults.reload then ServerError else Done;
    }

    method EnableSchedule(id: string, now: int, faults: Faults) returns (reply: Reply)
      modifies tests
      ensures var t := old(tests.tests); var asked := if id in t then Asked(rules, t[id], Enable, now) else None;
        && (reply.NotFound? <==> id !in t)
        && (reply.BadRequest? <==> id in t && asked.None?)
        && (reply.ServerError? <==> asked.Some? && (faults.write || faults.reload))
        && tests.tests == if asked.Some? && !faults.write then AfterConfig(t, id, asked.value) else t
      ensures reply.Done? ==> id in tests.tests && tests.tests[id].scheduleEnabled && tests.tests[id].nextRunAt.Some?
      ensures var t := old(tests.tests);
        && (id in t ==> (reply.BadRequest? <==> t[id].cron == "" || rules.next(t[id].cron, now).None?))
        && (id in t && !reply.BadRequest? && !faults.write ==>
              tests.tests == t[id := t[id].(scheduleEnabled := true, nextRunAt := rules.next(t[id].cron, now),
                                            failureThreshold := if t[id].failureThreshold <= 0 then 3
                                                                else t[id].failureThreshold)])
    {
      if id !in tests.tests {
        return NotFound;
      }
      var test := tests.tests[id];
      if test.cron == "" {
        return BadRequest;
      }
      var upcoming := rules.next(test.cron, now);
      if upcoming.None? {
        return BadRequest;
      }
      if faults.write {
        return ServerError;
      }
      tests.UpdateConfig(id, ConfigOf(test, true, upcoming));
      return if faults.reload then ServerError else Done;
    }

    method DisableSchedule(id: string, faults: Faults) returns (reply: Reply)
      modifies tests
      ensures var t := old(tests.tests);
        && (reply.NotFound? <==> id !in t)
        && !reply.BadRequest?
        && (reply.ServerError? <==> id in t && (faults.write || faults.reload))
        && tests.tests == if id in t && !faults.write then AfterConfig(t, id, ConfigOf(t[id], false, None)) else t
      ensures reply.Done? ==> id in tests.tests && !tests.tests[id].scheduleEnabled && tests.tests[id].nextRunAt.None?
      ensures var t := old(tests.tests);
        id in t && !faults.write ==>
          tests.tests == t[id := t[id].(scheduleEnabled := false, nextRunAt := None,
                                        failureThreshold := if t[id].failureThreshold <= 0 then 3
                                                            else t[id].failureThreshold)]
    {
      if id !in tests.tests {
        return NotFound;
      }
      if faults.write {
        return ServerError;
      }
      tests.UpdateConfig(id, ConfigOf(tests.tests[id], false, None));
      return if faults.reload then ServerError else Done;
    }

    /** The artifact is stored before the cron is parsed, so a bad cron or a failed insert leaves it behind. */
    method UploadBinary(id: string, f: Form, now: int, storageFails: bool, insertFails: bool) returns (reply: Reply)
      modifies this, tests
      ensures reply.BadRequest? <==> !FormOk(rules, f) || (!storageFails && !CronOk(rules, f, now))
      ensures reply.Done? <==>
                FormOk(rules, f) && !storageFails && CronOk(rules, f, now) && !insertFails && id !in old(tests.tests)
      ensures !reply.NotFound?
      ensures reply.Done? ==>
                && id in tests.tests && tests.tests == old(tests.tests)[id := tests.tests[id]]
                && IsFromForm(rules, f, now, tests.tests[id])
      ensures tests.tests == if reply.Done? then old(tests.tests)[id := Uploaded(rules, f, now)] else old(tests.tests)
      ensures artifacts == if FormOk(rules, f) && !storageFails then old(artifacts) + {id} else old(artifacts)
    {
      var key := Trim(f.pagerDutyKey);
      var ok := ValidatePagerDutyKey(key);
      if !ok {
        return BadRequest;
      }
      var threshold := 3;
      if !f.failureThreshold.Blank? {
        if f.failureThreshold.Malformed? || f.failureThreshold.value <= 0 {
          return BadRequest;
        }
        threshold := f.failureThreshold.value;
      }
      var memoryMb := None;
      if !f.memoryMb.Blank? {
        if f.memoryMb.Malformed? || f.memoryMb.value < 0 || f.memoryMb.value > rules.limits.maxMemoryMb {
          return BadRequest;
        }
        memoryMb := Some(f.memoryMb.value);
      }
      var timeout := 30;
      if !f.timeout.Blank? {
        if f.timeout.Malformed? || f.timeout.value <= 0 || f.timeout.value > rules.limits.maxTimeout {
          return BadRequest;
        }
        timeout := f.timeout.value;
      }
      if !f.fileOk {
        return BadRequest;
      }
      if storageFails {
        return ServerError;
      }
      artifacts := artifacts + {id};
      var row := TestRow(f.name, timeout, "", false, None, Trim(f.webhookUrl), key, threshold, true,
                         memoryMb, 0, false);
      var cron := Trim(f.cron);
      if cron != "" {
        var upcoming := rules.next(cron, now);
        if upcoming.None? {
          return BadRequest;
        }
        row := row.(cron := cron, scheduleEnabled := true, nextRunAt := upcoming);
      }
      if insertFails {
        return ServerError;
      }
      var created := tests.Create(id, row);
      return if created then Done else ServerError;
    }
  }

  // ---------- The row invariant ----------

  /** The library has accepted the expression; its parsing does not depend on the moment. */
  ghost predicate Parses(next: Calendar, cron: string) {
    exists now: int :: next(cron, now).Some?
  }

  ghost predicate IsValidRow(rules: Rules, row: TestRow) {
    && (row.scheduleEnabled ==> row.cron != "" && row.nextRunAt.Some?)
    && (row.cron != "" ==> Parses(rules.next, row.cron) && Trim(row.cron) == row.cron)
    && row.failureThreshold >= 1
    && IsValidKey(row.pagerDutyKey)
    && 1 <= row.timeoutSeconds <= Max(30, rules.limits.maxTimeout)
    && (row.memoryMb.Some? ==> 0 <= row.memoryMb.value <= rules.limits.maxMemoryMb)
  }

  /** A replacement turns any row into a valid one. */
  ghost predicate IsValidUpdate(rules: Rules, c: ConfigUpdate) {
    forall row :: IsValidRow(rules, Configured(row, c))
  }

  lemma PatchIsValid(rules: Rules, row: TestRow, p: Patch, now: int, any: TestRow)
    requires IsValidRow(rules, row) && Accepts(rules, row, p, now)
    ensures IsValidRow(rules, Configured(any, Asked(rules, row, Update(p), now).value))
  {
    var merged := Merged(rules, row, p);
    if p.cron.Some? {
      TrimIsIdempotent(p.cron.value);
    }
    if merged.cron != "" {
      assert rules.next(merged.cron, now).Some?;
    }
  }

  lemma AskedIsValid(rules: Rules, row: TestRow, request: Request, now: int)
    requires IsValidRow(rules, row) && Asked(rules, row, request, now).Some?
    ensures IsValidUpdate(rules, Asked(rules, row, request, now).value)
  {
    forall any ensures IsValidRow(rules, Configured(any, Asked(rules, row, request, now).value)) {
      if request.Update? {
        PatchIsValid(rules, row, request.patch, now, any);
      }
    }
  }

  lemma UploadedIsValid(rules: Rules, f: Form, now: int)
    requires FormOk(rules, f) && CronOk(rules, f, now)
    ensures IsValidRow(rules, Uploaded(rules, f, now))
  {
    TrimIsIdempotent(f.cron);
    if Trim(f.cron) != "" {
      assert rules.next(Trim(f.cron), now).Some?;
    }
  }

  // ---------- Requests interleaved ----------

  /** A request between its read and its write: the row it read, and the replacement it computed from that. */
  datatype Pending = Pending(id: string, request: Request, now: int, read: TestRow, update: ConfigUpdate)

  datatype State = State(tests: Table, pending: map<nat, Pending>)

  datatype Event =
    | Upload(id: string, form: Form, now: int)
    | Read(n: nat, id: string, request: Request, now: int)
    | Write(n: nat)
    | SchedulerFires(id: string, upcoming: int)
    | RunEnds(id: string, passed: bool)
    | Delete(id: string)

  predicate Enabled(rules: Rules, s: State, e: Event) {
    match e
    case Upload(id, form, now) => id !in s.tests && FormOk(rules, form) && CronOk(rules, form, now)
    case Read(n, id, request, now) => n !in s.pending && id in s.tests && Asked(rules, s.tests[id], request, now).Some?
    case Write(n) => n in s.pending
    case SchedulerFires(_, _) => true
    case RunEnds(id, _) => id in s.tests
    case Delete(_) => true
  }

  function Next(rules: Rules, s: State, e: Event): State
    requires Enabled(rules, s, e)
  {
    match e
    case Upload(id, form, now) => s.(tests := s.tests[id := Uploaded(rules, form, now)])
    case Read(n, id, request, now) =>
      var update := Asked(rules, s.tests[id], request, now).value;
      s.(pending := s.pending[n := Pending(id, request, now, s.tests[id], update)])
    case Write(n) =>
      var p := s.pending[n];
      State(AfterConfig(s.tests, p.id, p.update), s.pending - {n})
    case SchedulerFires(id, upcoming) => s.(tests := AfterNextRun(s.tests, id, upcoming))
    case RunEnds(id, passed) => s.(tests := s.tests[id := Recorded(s.tests[id], passed)])
    case Delete(id) => s.(tests := s.tests - {id})
  }

  predicate IsRun(rules: Rules, s: State, es: seq<Event>)
    decreases |es|, 0
  {
    es == [] || (IsRun(rules, s, es[..|es| - 1]) && Enabled(rules, After(rules, s, es[..|es| - 1]), es[|es| - 1]))
  }

  function After(rules: Rules, s: State, es: seq<Event>): State
    requires IsRun(rules, s, es)
    decreases |es|, 1
  {
    if es == [] then s else Next(rules, After(rules, s, es[..|es| - 1]), es[|es| - 1])
  }

  const EMPTY := State(map[], map[])

  /** The replacement was computed from the valid row that was read. */
  ghost predicate IsFromRead(rules: Rules, p: Pending) {
    IsValidRow(rules, p.read) && Asked(rules, p.read, p.request, p.now) == Some(p.update)
  }

  ghost predicate RowsValid(rules: Rules, s: State) {
    && (forall id :: id in s.tests ==> IsValidRow(rules, s.tests[id]))
    && (forall n :: n in s.pending ==> IsValidUpdate(rules, s.pending[n].update))
    && (forall n :: n in s.pending ==> IsFromRead(rules, s.pending[n]))
  }

  lemma StepKeepsValid(rules: Rules, s: State, e: Event)
    requires RowsValid(rules, s) && Enabled(rules, s, e)
    ensures RowsValid(rules, Next(rules, s, e))
  {
    match e
    case Upload(_, form, now) => UploadedIsValid(rules, form, now);
    case Read(_, id, request, now) => AskedIsValid(rules, s.tests[id], request, now);
    case Write(n) => assert IsValidUpdate(rules, s.pending[n].update);
    case _ =>
  }

  lemma {:induction false} RunsKeepInv(rules: Rules, es: seq<Event>)
    requires IsRun(rules, EMPTY, es)
    ensures RowsValid(rules, After(rules, EMPTY, es))
    decreases |es|
  {
    if es != [] {
      RunsKeepInv(rules, es[..|es| - 1]);
      StepKeepsValid(rules, After(rules, EMPTY, es[..|es| - 1]), es[|es| - 1]);
    }
  }

  /** Every row of every run is valid, however reads, writes, fires, outcomes and deletes interleave. */
  lemma {:induction false} EveryRowIsValid(rules: Rules, es: seq<Event>, id: string)
    requires IsRun(rules, EMPTY, es) && id in After(rules, EMPTY, es).tests
    ensures IsValidRow(rules, After(rules, EMPTY, es).tests[id])
  {
    RunsKeepInv(rules, es);
  }

  /** Settings change only by a write for the test, an upload or a deletion. */
  lemma SettingsChangeByWrites(rules: Rules, s: State, e: Event, id: string)
    requires Enabled(rules, s, e) && id in s.tests
    requires e.Write? ==> s.pending[e.n].id != id
    requires e.Delete? ==> e.id != id
    ensures id in Next(rules, s, e).tests
    ensures ConfigOf(Next(rules, s, e).tests[id], true, None) == ConfigOf(s.tests[id], true, None)
    ensures Next(rules, s, e).tests[id].scheduleEnabled == s.tests[id].scheduleEnabled
    ensures Next(rules, s, e).tests[id].nextRunAt ==
            if e.SchedulerFires? && e.id == id then Some(e.upcoming) else s.tests[id].nextRunAt
    ensures Next(rules, s, e).tests[id].consecutiveFailures ==
            if !(e.RunEnds? && e.id == id) then s.tests[id].consecutiveFailures
            else if e.passed then 0 else s.tests[id].consecutiveFailures + 1
  {
  }

  /** A deleted test is gone, whatever is still pending for it. */
  lemma DeletedTestsStayGone(rules: Rules, s: State, id: string, n: nat)
    ensures id !in Next(rules, s, Delete(id)).tests
    ensures n in s.pending && s.pending[n].id == id ==>
              id !in Next(rules, Next(rules, s, Delete(id)), Write(n)).tests
  {
  }

  // ---------- When a read and a later write are one step ----------

  /** The PagerDuty column is copied when it is absent from the patch, or shown masked there. */
  predicate CopiesKey(read: TestRow, p: Patch) {
    p.pagerDutyKey.None? || (read.pagerDutyKey != "" && p.pagerDutyKey.value == MaskKey(read.pagerDutyKey))
  }

  /**
   The webhook column that the write leaves behind is the one it would leave now:
   a copied one still holds the value read, and one that is set was not set to
   what by now is a mask, unless it makes no difference.
   */
  predicate WebhookSettled(rules: Rules, read: TestRow, now: TestRow, p: Patch) {
    if p.webhookUrl.None? then now.webhookUrl == read.webhookUrl
    else
      var sent := p.webhookUrl.value;
      if sent == rules.maskWebhook(read.webhookUrl)
      then read.webhookUrl == if sent == rules.maskWebhook(now.webhookUrl) then now.webhookUrl else Trim(sent)
      else sent == rules.maskWebhook(now.webhookUrl) ==> now.webhookUrl == Trim(sent)
  }

  /** Every column the request copies from its read still holds the value read. */
  predicate CopiesHold(rules: Rules, request: Request, read: TestRow, now: TestRow) {
    match request
    case Update(p) =>
      && (p.timeoutSeconds.None? ==> now.timeoutSeconds == read.timeoutSeconds)
      && (p.cron.None? ==> now.cron == read.cron)
      && (p.scheduleEnabled.None? ==> now.scheduleEnabled == read.scheduleEnabled)
      && WebhookSettled(rules, read, now, p)
      && (CopiesKey(read, p) ==> now.pagerDutyKey == read.pagerDutyKey)
      && (p.failureThreshold.None? ==> now.failureThreshold == read.failureThreshold)
      && (p.alertsEnabled.None? ==> now.alertsEnabled == read.alertsEnabled)
      && (p.memoryMb.None? ==> now.memoryMb == read.memoryMb)
    case _ => ConfigOf(now, true, None) == ConfigOf(read, true, None)
  }

  /** The key a patch leaves behind, and whether it passes, depend on the row only where the key is copied. */
  lemma KeyColumn(rules: Rules, read: TestRow, now: TestRow, p: Patch)
    requires IsValidKey(read.pagerDutyKey) && IsValidKey(now.pagerDutyKey) && FieldsOk(rules, read, p)
    ensures FieldsOk(rules, now, p) && Merged(rules, now, p).pagerDutyKey == Merged(rules, read, p).pagerDutyKey <==>
              (CopiesKey(read, p) ==> now.pagerDutyKey == read.pagerDutyKey)
  {
    assert Trim("") == "";
    if p.pagerDutyKey.Some? {
      if IsValidKey(Trim(p.pagerDutyKey.value)) {
        SentKeysAreStored(rules, read, p);
        SentKeysAreStored(rules, now, p);
      }
      if read.pagerDutyKey != "" {
        MaskIsNoKey(read.pagerDutyKey);
      }
    }
  }

  lemma PatchRepeatsIff(rules: Rules, read: TestRow, now: TestRow, p: Patch, at: int)
    requires IsValidRow(rules, read) && IsValidRow(rules, now) && Accepts(rules, read, p, at)
    ensures Asked(rules, now, Update(p), at) == Asked(rules, read, Update(p), at) <==>
              CopiesHold(rules, Update(p), read, now)
  {
    KeyColumn(rules, read, now, p);
  }

  lemma AskedRepeatsIff(rules: Rules, read: TestRow, now: TestRow, request: Request, at: int)
    requires IsValidRow(rules, read) && IsValidRow(rules, now) && Asked(rules, read, request, at).Some?
    ensures Asked(rules, now, request, at) == Asked(rules, read, request, at) <==> CopiesHold(rules, request, read, now)
  {
    if request.Update? {
      PatchRepeatsIff(rules, read, now, request.patch, at);
    }
  }

  lemma ConfiguredIsInjective(row: TestRow, a: ConfigUpdate, b: ConfigUpdate)
    requires a.failureThreshold >= 1 && b.failureThreshold >= 1 && Configured(row, a) == Configured(row, b)
    ensures a == b
  {
  }

  /** The write of p leaves the table as the whole request would, made at this moment and accepted. */
  predicate IsAtomic(rules: Rules, tests: Table, p: Pending)
    requires p.id in tests
  {
    var asked := Asked(rules, tests[p.id], p.request, p.now);
    asked.Some? && AfterConfig(tests, p.id, p.update) == AfterConfig(tests, p.id, asked.value)
  }

  lemma AskedThreshold(rules: Rules, row: TestRow, request: Request, now: int)
    requires IsValidRow(rules, row) && Asked(rules, row, request, now).Some?
    ensures Asked(rules, row, request, now).value.failureThreshold >= 1
  {
  }

  /** A write is atomic with its read exactly when every column it copied still holds the value read. */
  lemma {:induction false} WritesAreAtomicIff(rules: Rules, es: seq<Event>, n: nat)
    requires IsRun(rules, EMPTY, es) && n in After(rules, EMPTY, es).pending
    requires After(rules, EMPTY, es).pending[n].id in After(rules, EMPTY, es).tests
    ensures var s := After(rules, EMPTY, es); var p := s.pending[n];
      && Next(rules, s, Write(n)).tests == AfterConfig(s.tests, p.id, p.update)
      && (IsAtomic(rules, s.tests, p) <==> CopiesHold(rules, p.request, p.read, s.tests[p.id]))
  {
    RunsKeepInv(rules, es);
    var s := After(rules, EMPTY, es);
    var p := s.pending[n];
    var row := s.tests[p.id];
    assert IsFromRead(rules, p) && IsValidRow(rules, row);
    AskedRepeatsIff(rules, p.read, row, p.request, p.now);
    AskedThreshold(rules, p.read, p.request, p.now);
    if IsAtomic(rules, s.tests, p) {
      var asked := Asked(rules, row, p.request, p.now).value;
      AskedThreshold(rules, row, p.request, p.now);
      assert AfterConfig(s.tests, p.id, p.update)[p.id] == AfterConfig(s.tests, p.id, asked)[p.id];
      ConfiguredIsInjective(row, p.update, asked);
    }
  }

  // ---------- Reading a test and sending it back ----------

  /** The settings a read shows, with its two credentials masked, as a PATCH body. */
  function Shown(rules: Rules, row: TestRow): Patch {
    Patch(Some(row.timeoutSeconds), Some(row.cron), Some(row.scheduleEnabled), Some(rules.maskWebhook(row.webhookUrl)),
          Some(MaskKey(row.pagerDutyKey)), Some(row.failureThreshold), Some(row.alertsEnabled), row.memoryMb)
  }

  /**
   Sending a test's settings back as they were shown changes none of them. It
   is refused exactly when the stored timeout is the default above a lower
   limit, or the library no longer accepts the cron.
   */
  lemma EchoChangesNothing(rules: Rules, row: TestRow, now: int)
    requires IsValidRow(rules, row)
    ensures Merged(rules, row, Shown(rules, row)) == row
    ensures Accepts(rules, row, Shown(rules, row), now) <==>
              && row.timeoutSeconds <= rules.limits.maxTimeout
              && (row.cron != "" ==> rules.next(row.cron, now).Some?)
  {
    assert Trim("") == "";
  }

  lemma MaskIsNoKey(raw: string)
    requires raw != ""
    ensures !IsValidKey(Trim(MaskKey(raw)))
  {
    TrimRightKeepsStart(MaskKey(raw));
    assert Trim(MaskKey(raw))[0] == ELLIPSIS;
  }

  /** No key can be mistaken for a mask: whatever well-formed key is sent is the one stored. */
  lemma SentKeysAreStored(rules: Rules, row: TestRow, p: Patch)
    requires p.pagerDutyKey.Some? && IsValidKey(Trim(p.pagerDutyKey.value))
    ensures Merged(rules, row, p).pagerDutyKey == Trim(p.pagerDutyKey.value)
  {
    if row.pagerDutyKey != "" {
      MaskIsNoKey(row.pagerDutyKey);
    }
  }

  // ---------- Overlapping requests ----------

  function PlainRules(): Rules {
    Rules(Limits(60, 0), (cron, now) => None, url => url)
  }

  const NO_CHANGE := Patch(None, None, None, None, None, None, None, None)

  /** Two updates of different fields that overlap: the later write puts the other's field back. */
  lemma OverlappingRequestsLoseOne() returns (es: seq<Event>)
    ensures IsRun(PlainRules(), EMPTY, es)
    ensures var s := After(PlainRules(), EMPTY, es);
      "t" in s.tests && s.tests["t"].failureThreshold == 5 && s.tests["t"].timeoutSeconds == 30
    ensures |es| == 5 && es[1] == Read(0, "t", Update(NO_CHANGE.(timeoutSeconds := Some(10))), 0) && es[3] == Write(0)
  {
    var rules := PlainRules();
    var form := Form("t", Blank, "", "", "", Blank, Blank, true);
    var s := EMPTY;
    es := [];
    es, s := Grow(rules, es, s, Upload("t", form, 0));
    es, s := Grow(rules, es, s, Read(0, "t", Update(NO_CHANGE.(timeoutSeconds := Some(10))), 0));
    es, s := Grow(rules, es, s, Read(1, "t", Update(NO_CHANGE.(failureThreshold := Some(5))), 0));
    es, s := Grow(rules, es, s, Write(0));
    es, s := Grow(rules, es, s, Write(1));
  }

  lemma Grow(rules: Rules, es: seq<Event>, s: State, e: Event) returns (es': seq<Event>, s': State)
    requires IsRun(rules, EMPTY, es) && s == After(rules, EMPTY, es) && Enabled(rules, s, e)
    ensures es' == es + [e] && s' == Next(rules, s, e)
    ensures IsRun(rules, EMPTY, es') && s' == After(rules, EMPTY, es')
  {
    es', s' := es + [e], Next(rules, s, e);
    assert es'[..|es|] == es;
  }
}
