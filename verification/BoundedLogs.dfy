/**
 The device state store (cer_intent/device/state_store.py) and the audit log
 (cer_intent/assurance/audit_log.py), each checked against the unbounded list of
 everything it was ever told.
 */
module BoundedLogs {
  import opened Common

  /** Python's s[-n:], where n may be zero (everything) or negative (drop the first -n). */
  function Tail<T>(s: seq<T>, n: int): (r: seq<T>)
    ensures n > 0 ==> |r| == if |s| <= n then |s| else n
    ensures n == 0 ==> r == s
    ensures n < 0 ==> |r| == if |s| <= -n then 0 else |s| + n
    ensures exists k :: 0 <= k <= |s| && r == s[k..]
  {
    if n == 0 then s[0..]
    else if n > 0 then (if |s| <= n then s[0..] else s[|s| - n..])
    else (if -n <= |s| then s[-n..] else s[|s|..])
  }

  /** Appending and cutting again is appending to the full list and cutting once. */
  lemma TailOfAppend<T>(s: seq<T>, x: T, n: int)
    requires n > 0
    ensures Tail(Tail(s, n) + [x], n) == Tail(s + [x], n)
  {
  }

  // ----- the state store -----

  datatype ConfigEntry = ConfigEntry(
    deviceId: string,
    configType: string,
    parameters: string,
    intentId: string,
    appliedAt: int,
    yangSnippet: string)

  datatype Device = Device(configs: map<string, ConfigEntry>, lastUpdated: int)

  type Devices = map<string, Device>

  const HISTORY_LIMIT: int := 100
  const SNIPPET_LIMIT: nat := 500

  function NewEntry(
      deviceId: string, configType: string, parameters: string, intentId: string, now: int, yangXml: Option<string>)
    : ConfigEntry {
    var xml := yangXml.GetOr("");
    ConfigEntry(deviceId, configType, parameters, intentId, now,
                if |xml| <= SNIPPET_LIMIT then xml else xml[..SNIPPET_LIMIT])
  }

  /** The reference: the last entry ever logged for a device and config type. */
  function LatestConfig(log: seq<ConfigEntry>, deviceId: string, configType: string): Option<ConfigEntry> {
    if log == [] then None
    else
      var e := log[|log| - 1];
      if e.deviceId == deviceId && e.configType == configType then Some(e)
      else LatestConfig(log[..|log| - 1], deviceId, configType)
  }

  function LatestUpdate(log: seq<ConfigEntry>, deviceId: string): Option<int> {
    if log == [] then None
    else if log[|log| - 1].deviceId == deviceId then Some(log[|log| - 1].appliedAt)
    else LatestUpdate(log[..|log| - 1], deviceId)
  }

  function CurrentConfig(devices: Devices, deviceId: string, configType: string): Option<ConfigEntry> {
    if deviceId in devices && configType in devices[deviceId].configs then Some(devices[deviceId].configs[configType])
    else None
  }

  /** The store shows, for every device and config type, the latest entry of the whole log. */
  ghost predicate ShowsLatest(devices: Devices, log: seq<ConfigEntry>) {
    && (forall d, t :: CurrentConfig(devices, d, t) == LatestConfig(log, d, t))
    && (forall d :: (if d in devices then Some(devices[d].lastUpdated) else None) == LatestUpdate(log, d))
  }

  /** The nested dict after one more entry. */
  function WithEntry(devices: Devices, e: ConfigEntry): Devices {
    var configs: map<string, ConfigEntry> := if e.deviceId in devices then devices[e.deviceId].configs else map[];
    devices[e.deviceId := Device(configs[e.configType := e], e.appliedAt)]
  }

  lemma WithEntryShowsLatest(devices: Devices, log: seq<ConfigEntry>, e: ConfigEntry)
    requires ShowsLatest(devices, log)
    ensures ShowsLatest(WithEntry(devices, e), log + [e])
  {
    var devices', log' := WithEntry(devices, e), log + [e];
    assert log'[..|log|] == log;
    forall d, t ensures CurrentConfig(devices', d, t) == LatestConfig(log', d, t) {
      assert CurrentConfig(devices, d, t) == LatestConfig(log, d, t);
    }
    forall d ensures (if d in devices' then Some(devices'[d].lastUpdated) else None) == LatestUpdate(log', d) {
      assert (if d in devices then Some(devices[d].lastUpdated) else None) == LatestUpdate(log, d);
    }
  }

  /** What the arguments of an update say about an entry; the YANG text is cut to its first 500 characters. */
  ghost predicate IsEntryOf(
      e: ConfigEntry, deviceId: string, configType: string, parameters: string, intentId: string, now: int,
      yangXml: Option<string>) {
    && e.deviceId == deviceId && e.configType == configType && e.parameters == parameters && e.intentId == intentId
    && e.appliedAt == now && e.yangSnippet <= yangXml.GetOr("")
    && |e.yangSnippet| == if |yangXml.GetOr("")| <= 500 then |yangXml.GetOr("")| else 500
  }

  /** After an update its device and type show just what it said, and no other device or type shows anything new. */
  lemma UpdateIsShown(
      log: seq<ConfigEntry>, deviceId: string, configType: string, parameters: string, intentId: string, now: int,
      yangXml: Option<string>, d: string, t: string)
    ensures var after := log + [NewEntry(deviceId, configType, parameters, intentId, now, yangXml)];
            && (if d == deviceId && t == configType then
                  var shown := LatestConfig(after, d, t);
                  shown.Some? && IsEntryOf(shown.value, deviceId, configType, parameters, intentId, now, yangXml)
                else LatestConfig(after, d, t) == LatestConfig(log, d, t))
            && LatestUpdate(after, d) == (if d == deviceId then Some(now) else LatestUpdate(log, d))
  {
    var after := log + [NewEntry(deviceId, configType, parameters, intentId, now, yangXml)];
    assert after[..|log|] == log;
  }

  class StateStore {
    var devices: Devices
    var history: seq<ConfigEntry>
    ghost var log: seq<ConfigEntry>

    ghost predicate Valid()
      reads this
    {
      ShowsLatest(devices, log) && history == Tail(log, HISTORY_LIMIT)
    }

    constructor ()
      ensures Valid() && log == []
    {
      devices, history, log := map[], [], [];
    }

    method UpdateDeviceConfig(
        deviceId: string, configType: string, parameters: string, intentId: string, now: int, yangXml: Option<string>)
      requires Valid()
      modifies this
      ensures Valid()
      ensures log == old(log) + [NewEntry(deviceId, configType, parameters, intentId, now, yangXml)]
    {
      var entry := NewEntry(deviceId, configType, parameters, intentId, now, yangXml);
      WithEntryShowsLatest(devices, log, entry);
      TailOfAppend(log, entry, HISTORY_LIMIT);
      devices := WithEntry(devices, entry);
      history := history + [entry];
      if |history| > HISTORY_LIMIT {
        history := history[|history| - HISTORY_LIMIT..];
      }
      log := log + [entry];
    }

    method GetDeviceState(deviceId: string) returns (r: Option<Device>)
      requires Valid()
      ensures r.Some? <==> LatestUpdate(log, deviceId).Some?
      ensures r.Some? ==> LatestUpdate(log, deviceId) == Some(r.value.lastUpdated)
      ensures r.Some? ==>
                forall t :: LatestConfig(log, deviceId, t) ==
                            if t in r.value.configs then Some(r.value.configs[t]) else None
    {
      r := if deviceId in devices then Some(devices[deviceId]) else None;
      assert forall t :: CurrentConfig(devices, deviceId, t) == LatestConfig(log, deviceId, t);
    }

    method GetConfigHistory(limit: int) returns (r: seq<ConfigEntry>)
      requires Valid()
      ensures r == Tail(Tail(log, HISTORY_LIMIT), limit)
      ensures limit == 0 || limit >= 100 ==> |r| == if |log| <= 100 then |log| else 100
    {
      r := Tail(history, limit);
    }

    method Clear()
      modifies this
      ensures Valid() && log == []
    {
      devices, history, log := map[], [], [];
    }
  }

  lemma {:induction false} LatestInSuffix(log: seq<ConfigEntry>, k: nat, deviceId: string, configType: string)
    requires k <= |log| && LatestConfig(log[k..], deviceId, configType).Some?
    ensures LatestConfig(log, deviceId, configType) == LatestConfig(log[k..], deviceId, configType)
    decreases |log|
  {
    if k < |log| {
      var init := log[..|log| - 1];
      assert log[k..][..|log| - k - 1] == init[k..];
      assert log[k..][|log| - k - 1] == log[|log| - 1];
      var e := log[|log| - 1];
      if !(e.deviceId == deviceId && e.configType == configType) {
        LatestInSuffix(init, k, deviceId, configType);
      }
    }
  }

  /** For every pair still in the truncated history, the current config is that pair's latest history entry. */
  lemma HistoryAgreesWithConfigs(devices: Devices, log: seq<ConfigEntry>, deviceId: string, configType: string)
    requires ShowsLatest(devices, log)
    requires LatestConfig(Tail(log, HISTORY_LIMIT), deviceId, configType).Some?
    ensures CurrentConfig(devices, deviceId, configType) == LatestConfig(Tail(log, HISTORY_LIMIT), deviceId, configType)
  {
    var k :| 0 <= k <= |log| && Tail(log, HISTORY_LIMIT) == log[k..];
    LatestInSuffix(log, k, deviceId, configType);
  }

  // ----- the audit log -----

  datatype AuditEntry = AuditEntry(
    eventType: string,
    level: string,
    timestamp: int,
    intentId: Option<string>,
    data: string)

  /** A line of the JSONL file: an entry, or something the loader skips. */
  datatype Line = Json(entry: AuditEntry) | Unreadable

  /** One call of _record, and whether its write to the file succeeded. */
  datatype Attempt = Attempt(entry: AuditEntry, written: bool)

  const BUFFER_LIMIT: int := 500

  function Parsed(lines: seq<Line>): seq<AuditEntry> {
    if lines == [] then []
    else Parsed(lines[..|lines| - 1]) + if lines[|lines| - 1].Json? then [lines[|lines| - 1].entry] else []
  }

  function Entries(attempts: seq<Attempt>): (r: seq<AuditEntry>)
    ensures |r| == |attempts|
  {
    if attempts == [] then [] else Entries(attempts[..|attempts| - 1]) + [attempts[|attempts| - 1].entry]
  }

  function Written(attempts: seq<Attempt>): seq<AuditEntry> {
    if attempts == [] then []
    else
      var a := attempts[|attempts| - 1];
      Written(attempts[..|attempts| - 1]) + if a.written then [a.entry] else []
  }

  function OfType(entries: seq<AuditEntry>, eventType: string): (r: seq<AuditEntry>)
    ensures forall e :: e in r <==> e in entries && e.eventType == eventType
  {
    if entries == [] then []
    else
      var init, e := entries[..|entries| - 1], entries[|entries| - 1];
      assert entries == init + [e];
      OfType(init, eventType) + if e.eventType == eventType then [e] else []
  }

  function OfIntent(entries: seq<AuditEntry>, intentId: string): (r: seq<AuditEntry>)
    ensures forall e :: e in r <==> e in entries && e.intentId == Some(intentId)
  {
    if entries == [] then []
    else
      var init, e := entries[..|entries| - 1], entries[|entries| - 1];
      assert entries == init + [e];
      OfIntent(init, intentId) + if e.intentId == Some(intentId) then [e] else []
  }

  /** Filters keep the order: they act on each entry by itself. */
  lemma {:induction false} OfTypeConcat(a: seq<AuditEntry>, b: seq<AuditEntry>, eventType: string)
    ensures OfType(a + b, eventType) == OfType(a, eventType) + OfType(b, eventType)
  {
    if b == [] {
      assert a + b == a;
    } else {
      OfTypeConcat(a, b[..|b| - 1], eventType);
      assert (a + b)[..|a + b| - 1] == a + b[..|b| - 1];
    }
  }

  lemma {:induction false} OfIntentConcat(a: seq<AuditEntry>, b: seq<AuditEntry>, intentId: string)
    ensures OfIntent(a + b, intentId) == OfIntent(a, intentId) + OfIntent(b, intentId)
  {
    if b == [] {
      assert a + b == a;
    } else {
      OfIntentConcat(a, b[..|b| - 1], intentId);
      assert (a + b)[..|a + b| - 1] == a + b[..|b| - 1];
    }
  }

  /** Each entry of the type, and no other, where it stands among the others. */
  lemma OfTypeIs(before: seq<AuditEntry>, e: AuditEntry, after: seq<AuditEntry>, eventType: string)
    ensures OfType(before + [e] + after, eventType) ==
            OfType(before, eventType) + (if e.eventType == eventType then [e] else []) + OfType(after, eventType)
  {
    OfTypeConcat(before + [e], after, eventType);
    OfTypeConcat(before, [e], eventType);
    assert [e][..0] == [];
  }

  lemma OfIntentIs(before: seq<AuditEntry>, e: AuditEntry, after: seq<AuditEntry>, intentId: string)
    ensures OfIntent(before + [e] + after, intentId) ==
            OfIntent(before, intentId) + (if e.intentId == Some(intentId) then [e] else []) + OfIntent(after, intentId)
  {
    OfIntentConcat(before + [e], after, intentId);
    OfIntentConcat(before, [e], intentId);
    assert [e][..0] == [];
  }

  lemma {:induction false} ParsedConcat(a: seq<Line>, b: seq<Line>)
    ensures Parsed(a + b) == Parsed(a) + Parsed(b)
  {
    if b == [] {
      assert a + b == a;
    } else {
      ParsedConcat(a, b[..|b| - 1]);
      assert (a + b)[..|a + b| - 1] == a + b[..|b| - 1];
    }
  }

  /** The parser skips what it cannot read and keeps the rest in place. */
  lemma ParsedIs(before: seq<Line>, l: Line, after: seq<Line>)
    ensures Parsed(before + [l] + after) ==
            Parsed(before) + (match l { case Json(e) => [e] case Unreadable => [] }) + Parsed(after)
  {
    ParsedConcat(before + [l], after);
    ParsedConcat(before, [l]);
    assert [l][..0] == [];
  }

  method LoadRecent(lines: seq<Line>, n: int) returns (r: seq<AuditEntry>)
    ensures r == Tail(Parsed(lines), n)
  {
    var entries: seq<AuditEntry> := [];
    for i := 0 to |lines|
      invariant entries == Parsed(lines[..i])
    {
      assert lines[..i + 1][..i] == lines[..i];
      if lines[i].Json? {
        entries := entries + [lines[i].entry];
      }
    }
    assert lines[..|lines|] == lines;
    return Tail(entries, n);
  }

  lemma OneMoreAttempt(loaded: seq<AuditEntry>, attempts: seq<Attempt>, a: Attempt)
    ensures loaded + Entries(attempts + [a]) == (loaded + Entries(attempts)) + [a.entry]
    ensures loaded + Written(attempts + [a]) == (loaded + Written(attempts)) + if a.written then [a.entry] else []
  {
    assert (attempts + [a])[..|attempts|] == attempts;
  }

  class AuditLog {
    var file: seq<Line>
    var buffer: seq<AuditEntry>
    ghost var loaded: seq<AuditEntry>
    ghost var attempts: seq<Attempt>

    /** Everything the log has been told: what the file held at the start, then every record. */
    ghost function Told(): seq<AuditEntry>
      reads this
    {
      loaded + Entries(attempts)
    }

    ghost predicate Valid()
      reads this
    {
      && buffer == Tail(Told(), BUFFER_LIMIT)
      && Parsed(file) == loaded + Written(attempts)
    }

    constructor (lines: seq<Line>)
      ensures Valid() && file == lines && loaded == Parsed(lines) && attempts == []
    {
      file, loaded, attempts := lines, Parsed(lines), [];
      buffer := [];
      new;
      buffer := LoadRecent(lines, BUFFER_LIMIT);
      assert loaded + [] == loaded;
    }

    /** The lines of the file, when they are written. */
    method Append(entry: AuditEntry, writeSucceeds: bool)
      modifies this`file
      ensures Parsed(file) == old(Parsed(file)) + if writeSucceeds then [entry] else []
    {
      if writeSucceeds {
        file := file + [Json(entry)];
        assert file[..|file| - 1] == old(file);
      }
    }

    method Record(entry: AuditEntry, writeSucceeds: bool)
      requires Valid()
      modifies this
      ensures Valid() && loaded == old(loaded)
      ensures attempts == old(attempts) + [Attempt(entry, writeSucceeds)]
    {
      TailOfAppend(Told(), entry, BUFFER_LIMIT);
      OneMoreAttempt(loaded, attempts, Attempt(entry, writeSucceeds));
      buffer := buffer + [entry];
      if |buffer| > BUFFER_LIMIT {
        buffer := buffer[|buffer| - BUFFER_LIMIT..];
      }
      Append(entry, writeSucceeds);
      attempts := attempts + [Attempt(entry, writeSucceeds)];
    }

    method GetRecent(limit: int, eventType: Option<string>) returns (r: seq<AuditEntry>)
      requires Valid()
      ensures limit == 0 && eventType.None? ==> |r| == if |Told()| <= 500 then |Told()| else 500
      ensures var kept := Tail(Told(), BUFFER_LIMIT);
              r == Tail(if eventType.Some? && eventType.value != "" then OfType(kept, eventType.value) else kept, limit)
    {
      var entries := buffer;
      if eventType.Some? && eventType.value != "" {
        entries := OfType(entries, eventType.value);
      }
      r := Tail(entries, limit);
    }

    method GetForIntent(intentId: string) returns (r: seq<AuditEntry>)
      requires Valid()
      ensures r == OfIntent(Tail(Told(), BUFFER_LIMIT), intentId)
    {
      r := OfIntent(buffer, intentId);
    }
  }

  // ----- restarts -----

  /** The attempts whose entries are still in the buffer. */
  function RecentAttempts(attempts: seq<Attempt>): seq<Attempt> {
    Tail(attempts, BUFFER_LIMIT)
  }

  ghost predicate AllWritten(attempts: seq<Attempt>) {
    forall a :: a in attempts ==> a.written
  }

  lemma {:induction false} EntriesConcat(a: seq<Attempt>, b: seq<Attempt>)
    ensures Entries(a + b) == Entries(a) + Entries(b) && Written(a + b) == Written(a) + Written(b)
  {
    if b == [] {
      assert a + b == a;
    } else {
      EntriesConcat(a, b[..|b| - 1]);
      assert (a + b)[..|a + b| - 1] == a + b[..|b| - 1];
    }
  }

  lemma {:induction false} WrittenAreEntries(attempts: seq<Attempt>)
    ensures forall i :: 0 <= i < |attempts| ==> Entries(attempts)[i] == attempts[i].entry
    ensures forall e :: e in Written(attempts) ==>
              exists i :: 0 <= i < |attempts| && attempts[i].written && attempts[i].entry == e
    ensures AllWritten(attempts) ==> Written(attempts) == Entries(attempts)
  {
    if attempts != [] {
      var init, a := attempts[..|attempts| - 1], attempts[|attempts| - 1];
      assert attempts == init + [a];
      WrittenAreEntries(init);
      forall e | e in Written(attempts)
        ensures exists i :: 0 <= i < |attempts| && attempts[i].written && attempts[i].entry == e
      {
        if e in Written(init) {
          var i :| 0 <= i < |init| && init[i].written && init[i].entry == e;
          assert attempts[i] == init[i];
        } else {
          assert attempts[|init|] == a;
        }
      }
    }
  }

  lemma TailOfSuffix<T>(a: seq<T>, b: seq<T>, c: seq<T>, n: int)
    requires n > 0 && |c| >= n
    ensures Tail(a + c, n) == Tail(b + c, n)
  {
    assert Tail(a + c, n) == c[|c| - n..] == Tail(b + c, n);
  }

  lemma OlderAndRecent(attempts: seq<Attempt>) returns (older: seq<Attempt>)
    requires |attempts| > BUFFER_LIMIT
    ensures attempts == older + RecentAttempts(attempts) && |RecentAttempts(attempts)| == BUFFER_LIMIT
  {
    older := attempts[..|attempts| - BUFFER_LIMIT];
  }

  lemma AppendedAfter(loaded: seq<AuditEntry>, older: seq<AuditEntry>, recent: seq<AuditEntry>)
    ensures loaded + (older + recent) == (loaded + older) + recent
  {
  }

  lemma {:induction false} RecentWrittenSuffices(loaded: seq<AuditEntry>, attempts: seq<Attempt>)
    requires AllWritten(RecentAttempts(attempts))
    ensures Tail(loaded + Written(attempts), BUFFER_LIMIT) == Tail(loaded + Entries(attempts), BUFFER_LIMIT)
  {
    var recent := RecentAttempts(attempts);
    WrittenAreEntries(recent);
    if |attempts| <= BUFFER_LIMIT {
      assert recent == attempts;
    } else {
      var older := OlderAndRecent(attempts);
      EntriesConcat(older, recent);
      AppendedAfter(loaded, Written(older), Entries(recent));
      AppendedAfter(loaded, Entries(older), Entries(recent));
      TailOfSuffix(loaded + Written(older), loaded + Entries(older), Entries(recent), BUFFER_LIMIT);
    }
  }

  lemma {:induction false} RecentEntryIsKept(loaded: seq<AuditEntry>, attempts: seq<Attempt>, i: nat)
    requires |attempts| - BUFFER_LIMIT <= i < |attempts|
    ensures attempts[i].entry in Tail(loaded + Entries(attempts), BUFFER_LIMIT)
  {
    WrittenAreEntries(attempts);
    var told := loaded + Entries(attempts);
    var kept := Tail(told, BUFFER_LIMIT);
    assert told[|loaded| + i] == attempts[i].entry;
    assert kept[|kept| - (|told| - (|loaded| + i))] == attempts[i].entry;
  }

  /** The n-th entry ever told is told only once. */
  ghost predicate ToldOnce(told: seq<AuditEntry>, n: nat)
    requires n < |told|
  {
    forall k :: 0 <= k < |told| && told[k] == told[n] ==> k == n
  }

  lemma {:induction false} UnwrittenEntryIsMissing(loaded: seq<AuditEntry>, attempts: seq<Attempt>, i: nat)
    requires i < |attempts| && !attempts[i].written
    requires ToldOnce(loaded + Entries(attempts), |loaded| + i)
    ensures attempts[i].entry !in loaded + Written(attempts)
  {
    WrittenAreEntries(attempts);
    var told, e := loaded + Entries(attempts), attempts[i].entry;
    assert told[|loaded| + i] == e;
    forall j | 0 <= j < |attempts| && attempts[j].written ensures attempts[j].entry != e {
      assert told[|loaded| + j] == attempts[j].entry;
    }
    forall j | 0 <= j < |loaded| ensures loaded[j] != e {
      assert told[j] == loaded[j];
    }
  }

  lemma {:induction false} WrittenIsShorter(attempts: seq<Attempt>)
    ensures |Written(attempts)| <= |attempts|
    ensures |Written(attempts)| == |attempts| <==> AllWritten(attempts)
  {
    if attempts != [] {
      WrittenIsShorter(attempts[..|attempts| - 1]);
      assert attempts == attempts[..|attempts| - 1] + [attempts[|attempts| - 1]];
    }
  }

  /**
   A lost entry can be told from the others: the buffer still holds everything, or no entry lost of late was told
   twice.  Entries carry a timestamp in microseconds.
   */
  ghost predicate LossesShow(loaded: seq<AuditEntry>, attempts: seq<Attempt>) {
    || |loaded| + |attempts| <= BUFFER_LIMIT
    || forall i :: 0 <= i < |attempts| && i >= |attempts| - BUFFER_LIMIT && !attempts[i].written ==>
         ToldOnce(loaded + Entries(attempts), |loaded| + i)
  }

  lemma {:induction false} LossIsSeen(loaded: seq<AuditEntry>, attempts: seq<Attempt>)
    requires LossesShow(loaded, attempts)
    requires !AllWritten(RecentAttempts(attempts))
    ensures Tail(loaded + Written(attempts), BUFFER_LIMIT) != Tail(loaded + Entries(attempts), BUFFER_LIMIT)
  {
    if |loaded| + |attempts| <= BUFFER_LIMIT {
      WrittenIsShorter(attempts);
      assert RecentAttempts(attempts) == attempts;
    } else {
      var recent := RecentAttempts(attempts);
      var a :| a in recent && !a.written;
      var k :| 0 <= k < |recent| && recent[k] == a;
      var i := |attempts| - |recent| + k;
      assert attempts[i] == a;
      RecentEntryIsKept(loaded, attempts, i);
      UnwrittenEntryIsMissing(loaded, attempts, i);
      var reloaded := Tail(loaded + Written(attempts), BUFFER_LIMIT);
      assert forall e :: e in reloaded ==> e in loaded + Written(attempts);
    }
  }

  /** A log built from the file of another holds the same buffer exactly when none of the last 500 writes failed. */
  method Restart(log: AuditLog) returns (reborn: AuditLog)
    requires log.Valid() && LossesShow(log.loaded, log.attempts)
    ensures fresh(reborn) && reborn.Valid() && reborn.file == log.file
    ensures reborn.buffer == log.buffer <==> AllWritten(RecentAttempts(log.attempts))
  {
    reborn := new AuditLog(log.file);
    RestartReloadsExactly(log);
    assert reborn.Told() == Parsed(log.file);
  }

  /** The same, of what the loader finds in the file. */
  lemma {:induction false} RestartReloadsExactly(log: AuditLog)
    requires log.Valid() && LossesShow(log.loaded, log.attempts)
    ensures Tail(Parsed(log.file), BUFFER_LIMIT) == log.buffer <==> AllWritten(RecentAttempts(log.attempts))
  {
    if AllWritten(RecentAttempts(log.attempts)) {
      RecentWrittenSuffices(log.loaded, log.attempts);
    } else {
      LossIsSeen(log.loaded, log.attempts);
    }
  }

  /** With a full buffer of equal entries the loss of one more of them leaves no trace. */
  lemma EqualEntriesHideALoss(e: AuditEntry)
    ensures var loaded, attempts := seq(BUFFER_LIMIT, _ => e), [Attempt(e, false)];
            && !AllWritten(RecentAttempts(attempts))
            && Tail(loaded + Written(attempts), BUFFER_LIMIT) == Tail(loaded + Entries(attempts), BUFFER_LIMIT)
  {
    var loaded, attempts := seq(BUFFER_LIMIT, _ => e), [Attempt(e, false)];
    assert attempts[..0] == [] && RecentAttempts(attempts) == attempts && attempts[0] in attempts;
    assert Written(attempts) == [] && Entries(attempts) == [e];
    assert loaded + [] == loaded;
    assert (loaded + [e])[1..] == loaded;
  }
}
