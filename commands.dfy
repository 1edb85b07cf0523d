/**
 * The session behind the Tauri commands (src-tauri/src/commands.rs): the
 * passphrase and decrypted data held while the app is unlocked, the commands
 * that read and update them, and the encrypted data file they are saved to.
 */
module Commands {
  import opened Wrappers
  import opened Models
  import opened Collections
  import Cycles
  import Prediction

  const LOCKED := "app is locked"
  const INVALID_DATE := "invalid date"

  /* ---------------- log_day: the day log upsert ---------------- */

  /** Some log is dated `date`. */
  predicate HasDate(logs: seq<DayLog>, date: Date) {
    exists i :: 0 <= i < |logs| && logs[i].date == date
  }

  /** No two logs share a date. */
  predicate UniqueDates(logs: seq<DayLog>) {
    forall i, j :: 0 <= i < j < |logs| ==> logs[i].date != logs[j].date
  }

  /** The position of the first log dated `date` (`iter_mut().find`). */
  function FirstWithDate(logs: seq<DayLog>, date: Date): (r: Option<nat>)
    ensures r.None? <==> !HasDate(logs, date)
    ensures r.Some? ==>
      && r.value < |logs|
      && logs[r.value].date == date
      && forall j :: 0 <= j < r.value ==> logs[j].date != date
  {
    if logs == [] then Option.None
    else if logs[0].date == date then Some(0)
    else
      match FirstWithDate(logs[1..], date)
      case None => Option.None
      case Some(i) => Some(i + 1)
  }

  /**
   * The day logs after log_day records `flow` and `notes` for `date`: the
   * first log of that date takes the new flow level and notes, and without
   * one a new log is appended.
   */
  function Upsert(logs: seq<DayLog>, date: Date, flow: FlowLevel, notes: string): (r: seq<DayLog>)
    ensures |r| == if HasDate(logs, date) then |logs| else |logs| + 1
    ensures forall i :: 0 <= i < |logs| ==> r[i].date == logs[i].date
    ensures forall i :: 0 <= i < |logs| && logs[i].date != date ==> r[i] == logs[i]
    ensures HasDate(logs, date) ==>
      var first := FirstWithDate(logs, date).value;
      && r[first] == DayLog(date, flow, notes)
      && forall i :: 0 <= i < |logs| && i != first ==> r[i] == logs[i]
    ensures !HasDate(logs, date) ==> r[|logs|] == DayLog(date, flow, notes)
    ensures DayLog(date, flow, notes) in r
    ensures UniqueDates(logs) ==> UniqueDates(r)
    ensures UniqueDates(logs) ==>
      forall i :: 0 <= i < |r| && r[i].date == date ==> r[i] == DayLog(date, flow, notes)
  {
    match FirstWithDate(logs, date)
    case Some(i) => logs[i := logs[i].(flowLevel := flow, notes := notes)]
    case None => logs + [DayLog(date, flow, notes)]
  }

  /* ---------------- log_day: replacing the symptoms of a day ---------------- */

  /** `severity.clamp(1, 3)`. */
  function ClampSeverity(severity: u8): (r: u8)
    ensures 1 <= r <= 3
    ensures 1 <= severity <= 3 ==> r == severity
    ensures severity < 1 ==> r == 1
    ensures severity > 3 ==> r == 3
  {
    if severity < 1 then 1 else if severity > 3 then 3 else severity
  }

  /** The symptoms of every day except `date` (`retain(|s| s.date != date)`). */
  function OtherDays(symptoms: seq<Symptom>, date: Date): (r: seq<Symptom>)
    ensures |r| <= |symptoms|
    ensures forall s :: s in r <==> s in symptoms && s.date != date
  {
    Filter(symptoms, (s: Symptom) => s.date != date)
  }

  /** The symptoms recorded on `date`. */
  function OnDay(symptoms: seq<Symptom>, date: Date): seq<Symptom> {
    Filter(symptoms, (s: Symptom) => s.date == date)
  }

  /** The symptoms log_day pushes for `date`, one per entry, severities clamped. */
  function Entered(date: Date, entries: seq<(SymptomType, u8)>): (r: seq<Symptom>)
    ensures |r| == |entries|
    ensures forall i :: 0 <= i < |r| ==>
      && r[i].date == date
      && r[i].symptomType == entries[i].0
      && r[i].severity == ClampSeverity(entries[i].1)
  {
    if entries == [] then []
    else
      var (t, severity) := entries[|entries| - 1];
      Entered(date, entries[..|entries| - 1]) + [Symptom(date, t, ClampSeverity(severity))]
  }

  /** The symptoms after log_day replaced those of `date` with `entries`. */
  function ReplaceSymptoms(symptoms: seq<Symptom>, date: Date, entries: seq<(SymptomType, u8)>): (r: seq<Symptom>)
    ensures forall s :: s in r && s.date != date <==> s in symptoms && s.date != date
    ensures forall s :: s in r && s.date == date <==> s in Entered(date, entries)
  {
    OtherDays(symptoms, date) + Entered(date, entries)
  }

  /**
   * Replacing the symptoms of `date` leaves every other day's symptoms as
   * they were, in their order, and gives `date` exactly the entered ones.
   */
  lemma ReplaceSymptomsEffect(symptoms: seq<Symptom>, date: Date, entries: seq<(SymptomType, u8)>, d: Date)
    ensures d != date ==> OnDay(ReplaceSymptoms(symptoms, date, entries), d) == OnDay(symptoms, d)
    ensures d == date ==> OnDay(ReplaceSymptoms(symptoms, date, entries), d) == Entered(date, entries)
  {
    var other := OtherDays(symptoms, date);
    var entered := Entered(date, entries);
    FilterAppend(other, entered, (s: Symptom) => s.date == d);
    if d != date {
      FilterTwice(symptoms, (s: Symptom) => s.date != date, (s: Symptom) => s.date == d);
      forall s | s in entered ensures s.date != d {
        var i :| 0 <= i < |entered| && entered[i] == s;
      }
      FilterNone(entered, (s: Symptom) => s.date == d);
    } else {
      FilterNone(other, (s: Symptom) => s.date == d);
      forall s | s in entered ensures s.date == d {
        var i :| 0 <= i < |entered| && entered[i] == s;
      }
      FilterAll(entered, (s: Symptom) => s.date == d);
    }
  }

  /** Every symptom of the logged day has a severity in 1..3. */
  lemma EnteredSeverities(symptoms: seq<Symptom>, date: Date, entries: seq<(SymptomType, u8)>)
    ensures forall s :: s in ReplaceSymptoms(symptoms, date, entries) && s.date == date ==> 1 <= s.severity <= 3
  {
    var entered := Entered(date, entries);
    forall s | s in ReplaceSymptoms(symptoms, date, entries) && s.date == date
      ensures 1 <= s.severity <= 3
    {
      if s in entered {
        var i :| 0 <= i < |entered| && entered[i] == s;
      }
    }
  }

  /* ---------------- settings ---------------- */

  /** `auto_lock_minutes.clamp(1, 60)`. */
  function ClampMinutes(minutes: u32): (r: u32)
    ensures 1 <= r <= 60
    ensures 1 <= minutes <= 60 ==> r == minutes
    ensures minutes < 1 ==> r == 1
    ensures minutes > 60 ==> r == 60
  {
    if minutes < 1 then 1 else if minutes > 60 then 60 else minutes
  }

  /* ---------------- get_month ---------------- */

  /** The cycle get_month reports as current: the first open one. */
  function FirstOpen(cycles: seq<Cycle>): (r: Option<Cycle>)
    ensures r.None? <==> forall k :: 0 <= k < |cycles| ==> !cycles[k].IsOpen()
    ensures r.Some? ==>
      exists k :: 0 <= k < |cycles| && cycles[k] == r.value && r.value.IsOpen() &&
        forall j :: 0 <= j < k ==> !cycles[j].IsOpen()
  {
    if cycles == [] then Option.None
    else if cycles[0].IsOpen() then Some(cycles[0])
    else
      var r := FirstOpen(cycles[1..]);
      if r.Some? then
        var k :| 0 <= k < |cycles[1..]| && cycles[1..][k] == r.value && r.value.IsOpen() &&
          forall j :: 0 <= j < k ==> !cycles[1..][j].IsOpen();
        assert cycles[k + 1] == r.value;
        r
      else r
  }

  /** `predict(..).into_iter().collect()`: the forecast as a list of at most one. */
  function Predictions(cycles: seq<Cycle>, sqrt: real -> real): (r: seq<Models.Prediction>)
    ensures |r| <= 1
    ensures |r| == 1 <==> |Prediction.Completed(cycles)| >= 2
    ensures |r| == 1 ==> Some(r[0]) == Prediction.Predict(cycles, sqrt)
  {
    match Prediction.Predict(cycles, sqrt)
    case None => []
    case Some(p) => [p]
  }

  /**
   * The first day of the month after (`year`, `month`), as get_month asks the
   * calendar for it: January of the next year after December.
   */
  function NextMonthStart(calendar: (int, int) -> Option<Date>, year: int, month: int): (r: Option<Date>)
    ensures month == 12 ==> r == calendar(year + 1, 1)
    ensures month != 12 ==> r == calendar(year, month + 1)
  {
    if month == 12 then calendar(year + 1, 1) else calendar(year, month + 1)
  }

  /** Dated on one of the days `first` through `last`. */
  function LogWithin(first: Date, last: Date): DayLog -> bool {
    (l: DayLog) => first <= l.date <= last
  }

  /** Dated on one of the days `first` through `last`. */
  function SymptomWithin(first: Date, last: Date): Symptom -> bool {
    (s: Symptom) => first <= s.date <= last
  }

  /** The logs dated `first` through `last`, in stored order, each as often as stored. */
  function LogsWithin(logs: seq<DayLog>, first: Date, last: Date): (r: seq<DayLog>)
    ensures forall l :: l in r <==> l in logs && first <= l.date <= last
    ensures forall l :: multiset(r)[l] == if first <= l.date <= last then multiset(logs)[l] else 0
  {
    FilterCount(logs, LogWithin(first, last));
    Filter(logs, LogWithin(first, last))
  }

  /** The symptoms dated `first` through `last`, in stored order, each as often as stored. */
  function SymptomsWithin(symptoms: seq<Symptom>, first: Date, last: Date): (r: seq<Symptom>)
    ensures forall s :: s in r <==> s in symptoms && first <= s.date <= last
    ensures forall s :: multiset(r)[s] == if first <= s.date <= last then multiset(symptoms)[s] else 0
  {
    FilterCount(symptoms, SymptomWithin(first, last));
    Filter(symptoms, SymptomWithin(first, last))
  }

  /** The month view of `d` for the days `first` through `last`. */
  function MonthView(d: AppData, year: int, month: int, first: Date, last: Date, sqrt: real -> real): (m: MonthData)
    ensures m.year == year && m.month == month
    ensures forall l :: l in m.dayLogs <==> l in d.dayLogs && first <= l.date <= last
    ensures forall s :: s in m.symptoms <==> s in d.symptoms && first <= s.date <= last
    ensures forall l :: multiset(m.dayLogs)[l] == if first <= l.date <= last then multiset(d.dayLogs)[l] else 0
    ensures forall s :: multiset(m.symptoms)[s] == if first <= s.date <= last then multiset(d.symptoms)[s] else 0
    ensures m.dayLogs == Filter(d.dayLogs, LogWithin(first, last))
    ensures m.symptoms == Filter(d.symptoms, SymptomWithin(first, last))
    ensures m.predictions == Predictions(d.cycles, sqrt)
    ensures |m.predictions| <= 1
    ensures |m.predictions| == 1 <==> |Prediction.Completed(d.cycles)| >= 2
    ensures !d.settings.showFertility ==> m.fertility == Option.None
    ensures d.settings.showFertility ==> m.fertility == Prediction.Fertility(d.cycles, sqrt)
    ensures m.currentCycle == FirstOpen(d.cycles)
    ensures m.currentCycle.Some? <==> exists k :: 0 <= k < |d.cycles| && d.cycles[k].IsOpen()
    ensures m.currentCycle.Some? ==> m.currentCycle.value in d.cycles && m.currentCycle.value.IsOpen()
    ensures m.stats == Prediction.Stats(d.cycles)
  {
    MonthData(
      year,
      month,
      LogsWithin(d.dayLogs, first, last),
      SymptomsWithin(d.symptoms, first, last),
      Predictions(d.cycles, sqrt),
      if d.settings.showFertility then Prediction.Fertility(d.cycles, sqrt) else Option.None,
      FirstOpen(d.cycles),
      Prediction.Stats(d.cycles))
  }

  /**
   * After a rebuild, get_month's current cycle is the last cycle, and there
   * is one exactly when the last flow day is at most 2 days before `today`
   * (or after it).
   */
  lemma CurrentCycleAfterRebuild(logs: seq<DayLog>, today: Date, cycles: seq<Cycle>)
    requires Cycles.RebuiltFrom(logs, today, cycles)
    ensures FirstOpen(cycles).Some? <==>
      var days := Cycles.FlowDays(logs);
      days != [] && today - days[|days| - 1] <= 2
    ensures FirstOpen(cycles).Some? ==> FirstOpen(cycles).value == cycles[|cycles| - 1]
  {
    if cycles != [] {
      OnlyLastOpen(cycles);
    }
  }

  /** When every cycle but the last is closed, the first open cycle is the last one, if open. */
  lemma OnlyLastOpen(cycles: seq<Cycle>)
    requires cycles != [] && Cycles.AllClosed(cycles[..|cycles| - 1])
    ensures FirstOpen(cycles) == if cycles[|cycles| - 1].IsOpen() then Some(cycles[|cycles| - 1]) else Option.None
  {
    var n := |cycles|;
    assert forall k :: 0 <= k < n - 1 ==> cycles[..n - 1][k] == cycles[k];
    var r := FirstOpen(cycles);
    if r.Some? {
      var k :| 0 <= k < n && cycles[k] == r.value && r.value.IsOpen() &&
        forall j :: 0 <= j < k ==> !cycles[j].IsOpen();
      assert k == n - 1;
    }
  }

  /* ---------------- the in-place steps of log_day ---------------- */

  /** The day log upsert of log_day, step by step: find the first log of `date`, else append. */
  method UpsertLog(logs: seq<DayLog>, date: Date, flow: FlowLevel, notes: string) returns (r: seq<DayLog>)
    ensures r == Upsert(logs, date, flow, notes)
  {
    var i := 0;
    while i < |logs| && logs[i].date != date
      invariant 0 <= i <= |logs|
      invariant forall j :: 0 <= j < i ==> logs[j].date != date
    {
      i := i + 1;
    }
    if i < |logs| {
      assert FirstWithDate(logs, date) == Some(i);
      r := logs[i := logs[i].(flowLevel := flow, notes := notes)];
    } else {
      assert FirstWithDate(logs, date) == Option.None;
      r := logs + [DayLog(date, flow, notes)];
    }
  }

  /** The symptom replacement of log_day, step by step: `retain` the other days, then push each entry. */
  method ReplaceDaySymptoms(symptoms: seq<Symptom>, date: Date, entries: seq<(SymptomType, u8)>) returns (r: seq<Symptom>)
    ensures r == ReplaceSymptoms(symptoms, date, entries)
  {
    r := [];
    for j := 0 to |symptoms|
      invariant r == OtherDays(symptoms[..j], date)
    {
      assert symptoms[..j + 1][..j] == symptoms[..j];
      if symptoms[j].date != date {
        r := r + [symptoms[j]];
      }
    }
    assert symptoms[..|symptoms|] == symptoms;
    for j := 0 to |entries|
      invariant r == OtherDays(symptoms, date) + Entered(date, entries[..j])
    {
      assert entries[..j + 1][..j] == entries[..j];
      var (t, severity) := entries[j];
      r := r + [Symptom(date, t, ClampSeverity(severity))];
    }
    assert entries[..|entries|] == entries;
  }

  /* ---------------- the data file ---------------- */

  /**
   * The encrypted data file, seen through what decrypting it yields: the
   * record last saved and the passphrase it was sealed with. Loading with
   * any other passphrase fails, as Crypto.WrongPassphraseFails shows for the
   * envelope whenever that passphrase derives a different key from the
   * salt, and loading with the right one gives the record back, as
   * Crypto.RoundTrip shows.
   */
  class Vault {
    var contents: Option<(string, AppData)>

    constructor()
      ensures contents == Option.None
    {
      contents := Option.None;
    }

    /** `storage::data_exists`: a file is there exactly when some passphrase opens it. */
    predicate Exists()
      reads this
      ensures Exists() <==> exists pass :: Load(pass).Some?
    {
      assert contents.Some? ==> Load(contents.value.0).Some?;
      contents.Some?
    }

    /** `storage::load`, with every failure folded into `None`. */
    function Load(passphrase: string): (r: Option<AppData>)
      reads this
      ensures r.Some? <==> contents.Some? && contents.value.0 == passphrase
      ensures r.Some? ==> r.value == contents.value.1
    {
      if contents.Some? && contents.value.0 == passphrase then Some(contents.value.1) else Option.None
    }

    /** `storage::save`: seal `data` under `passphrase` and write it. */
    method Save(passphrase: string, data: AppData)
      modifies this
      ensures contents == Some((passphrase, data))
      ensures Load(passphrase) == Some(data)
    {
      contents := Some((passphrase, data));
    }

    /** `storage::wipe`. */
    method Wipe()
      modifies this
      ensures contents == Option.None
      ensures !Exists()
    {
      contents := Option.None;
    }
  }

  /* ---------------- the session ---------------- */

  /** `is_setup`: set up exactly when some passphrase opens the data file. */
  predicate IsSetup(vault: Vault)
    reads vault
    ensures IsSetup(vault) <==> exists pass :: vault.Load(pass).Some?
  {
    vault.Exists()
  }

  /** What the app holds in memory while unlocked (`AppState`). */
  class AppState {
    var passphrase: Option<string>
    var data: Option<AppData>

    /** `AppState::new`: locked. */
    constructor()
      ensures passphrase == Option.None && data == Option.None
    {
      passphrase := Option.None;
      data := Option.None;
    }

    /** `AppState::lock`: forget the passphrase and the data. */
    method Lock()
      modifies this
      ensures passphrase == Option.None && data == Option.None
    {
      passphrase := Option.None;
      data := Option.None;
    }

    /** `AppState::save_data`: write the data under the passphrase, or fail when locked. */
    method SaveData(vault: Vault) returns (r: Result<(), string>)
      modifies vault
      ensures passphrase.Some? && data.Some? ==>
        r == Ok(()) && vault.contents == Some((passphrase.value, data.value))
      ensures passphrase.None? || data.None? ==> r == Err(LOCKED) && unchanged(vault)
    {
      if passphrase.Some? && data.Some? {
        vault.Save(passphrase.value, data.value);
        r := Ok(());
      } else {
        r := Err(LOCKED);
      }
    }

    /** `setup`: save empty data under a new passphrase and unlock with it. */
    method Setup(newPassphrase: string, vault: Vault) returns (r: Result<(), string>)
      modifies this, vault
      ensures r == Ok(())
      ensures passphrase == Some(newPassphrase) && data == Some(DefaultAppData())
      ensures vault.Load(newPassphrase) == Some(DefaultAppData())
      ensures IsSetup(vault)
    {
      var d := DefaultAppData();
      vault.Save(newPassphrase, d);
      passphrase := Some(newPassphrase);
      data := Some(d);
      r := Ok(());
    }

    /**
     * `unlock`: on a passphrase that opens the file, load the data, rebuild
     * its cycles for `today`, hold both and save; on any other, report
     * `false` and change nothing.
     */
    method Unlock(attempt: string, vault: Vault, today: Date) returns (r: Result<bool, string>)
      modifies this, vault
      ensures old(vault.Load(attempt)).None? ==>
        r == Ok(false) && unchanged(this) && unchanged(vault)
      ensures old(vault.Load(attempt)).Some? ==>
        var loaded := old(vault.Load(attempt)).value;
        && r == Ok(true)
        && passphrase == Some(attempt)
        && data.Some?
        && data.value == loaded.(cycles := data.value.cycles)
        && Cycles.RebuiltFrom(loaded.dayLogs, today, data.value.cycles)
        && vault.contents == Some((attempt, data.value))
    {
      match vault.Load(attempt)
      case None =>
        r := Ok(false);
      case Some(loaded) =>
        var cycles := Cycles.RebuildCycles(loaded.dayLogs, today);
        passphrase := Some(attempt);
        data := Some(loaded.(cycles := cycles));
        var saved := SaveData(vault);
        r := Ok(true);
    }

    /** `lock`. */
    method LockCommand() returns (r: Result<(), string>)
      modifies this
      ensures r == Ok(())
      ensures passphrase == Option.None && data == Option.None
    {
      Lock();
      r := Ok(());
    }

    /**
     * `log_day`: record the flow level and notes of `date`, replace its
     * symptoms with `entries`, rebuild the cycles for `today` and save.
     * When locked it fails and changes nothing.
     */
    method LogDay(date: Date, flow: FlowLevel, notes: string, entries: seq<(SymptomType, u8)>, today: Date, vault: Vault)
      returns (r: Result<(), string>)
      modifies this, vault
      ensures old(data).None? ==> r == Err(LOCKED) && unchanged(this) && unchanged(vault)
      ensures old(data).Some? ==>
        var before := old(data).value;
        && passphrase == old(passphrase)
        && data.Some?
        && data.value.dayLogs == Upsert(before.dayLogs, date, flow, notes)
        && data.value.symptoms == ReplaceSymptoms(before.symptoms, date, entries)
        && data.value.settings == before.settings
        && Cycles.RebuiltFrom(data.value.dayLogs, today, data.value.cycles)
        && (passphrase.Some? ==> r == Ok(()) && vault.contents == Some((passphrase.value, data.value)))
        && (passphrase.None? ==> r == Err(LOCKED) && unchanged(vault))
    {
      if data.None? {
        return Err(LOCKED);
      }
      var before := data.value;

      var logs := UpsertLog(before.dayLogs, date, flow, notes);
      var symptoms := ReplaceDaySymptoms(before.symptoms, date, entries);
      var cycles := Cycles.RebuildCycles(logs, today);
      data := Some(AppData(cycles, logs, symptoms, before.settings));
      r := SaveData(vault);
    }

    /** `toggle_fertility`: show or hide the fertility window, then save. */
    method ToggleFertility(enabled: bool, vault: Vault) returns (r: Result<(), string>)
      modifies this, vault
      ensures old(data).None? ==> r == Err(LOCKED) && unchanged(this) && unchanged(vault)
      ensures old(data).Some? ==>
        var before := old(data).value;
        && passphrase == old(passphrase)
        && data == Some(before.(settings := before.settings.(showFertility := enabled)))
        && (passphrase.Some? ==> r == Ok(()) && vault.contents == Some((passphrase.value, data.value)))
        && (passphrase.None? ==> r == Err(LOCKED) && unchanged(vault))
    {
      if data.None? {
        return Err(LOCKED);
      }
      var before := data.value;
      data := Some(before.(settings := before.settings.(showFertility := enabled)));
      r := SaveData(vault);
    }

    /**
     * `update_settings`: store the auto-lock delay clamped into 1..60 minutes,
     * touching nothing else, then save.
     */
    method UpdateSettings(autoLockMinutes: u32, vault: Vault) returns (r: Result<(), string>)
      modifies this, vault
      ensures old(data).None? ==> r == Err(LOCKED) && unchanged(this) && unchanged(vault)
      ensures old(data).Some? ==>
        var before := old(data).value;
        && passphrase == old(passphrase)
        && data.Some?
        && data.value.settings.autoLockMinutes == ClampMinutes(autoLockMinutes)
        && 1 <= data.value.settings.autoLockMinutes <= 60
        && (1 <= autoLockMinutes <= 60 ==> data.value.settings.autoLockMinutes == autoLockMinutes)
        && data.value == before.(settings := before.settings.(autoLockMinutes := data.value.settings.autoLockMinutes))
        && (passphrase.Some? ==> r == Ok(()) && vault.contents == Some((passphrase.value, data.value)))
        && (passphrase.None? ==> r == Err(LOCKED) && unchanged(vault))
    {
      if data.None? {
        return Err(LOCKED);
      }
      var before := data.value;
      data := Some(before.(settings := before.settings.(autoLockMinutes := ClampMinutes(autoLockMinutes))));
      r := SaveData(vault);
    }

    /** `wipe_all_data`: lock, then delete the data file. */
    method WipeAllData(vault: Vault) returns (r: Result<(), string>)
      modifies this, vault
      ensures r == Ok(())
      ensures passphrase == Option.None && data == Option.None
      ensures !vault.Exists()
    {
      Lock();
      vault.Wipe();
      r := Ok(());
    }

    /**
     * `get_month`: the month view for (`year`, `month`). `calendar` gives the
     * day number of the first day of a month, or `None` where chrono cannot
     * build that date.
     */
    function GetMonth(year: int, month: int, calendar: (int, int) -> Option<Date>, sqrt: real -> real): (r: Result<MonthData, string>)
      reads this
      ensures data.None? ==> r == Err(LOCKED)
      ensures data.Some? && (calendar(year, month).None? || NextMonthStart(calendar, year, month).None?) ==>
        r == Err(INVALID_DATE)
      ensures data.Some? && calendar(year, month).Some? && NextMonthStart(calendar, year, month).Some? ==>
        r == Ok(MonthView(data.value, year, month, calendar(year, month).value,
                          NextMonthStart(calendar, year, month).value - 1, sqrt))
    {
      var first, next := calendar(year, month), NextMonthStart(calendar, year, month);
      if data.None? then Err(LOCKED)
      else if first.None? || next.None? then Err(INVALID_DATE)
      else Ok(MonthView(data.value, year, month, first.value, next.value - 1, sqrt))
    }

    /** `get_predictions`. */
    function GetPredictions(sqrt: real -> real): (r: Result<seq<Models.Prediction>, string>)
      reads this
      ensures data.None? <==> r == Err(LOCKED)
      ensures data.Some? ==> r.Ok?
      ensures r.Ok? ==> |r.value| <= 1 && (|r.value| == 1 <==> |Prediction.Completed(data.value.cycles)| >= 2)
      ensures r.Ok? && |r.value| == 1 ==> Some(r.value[0]) == Prediction.Predict(data.value.cycles, sqrt)
    {
      if data.None? then Err(LOCKED) else Ok(Predictions(data.value.cycles, sqrt))
    }

    /** `get_stats`. */
    function GetStats(): (r: Result<CycleStats, string>)
      reads this
      ensures data.None? <==> r == Err(LOCKED)
      ensures data.Some? ==> r.Ok?
      ensures r.Ok? ==> r.value == Prediction.Stats(data.value.cycles)
      ensures r.Ok? ==> r.value.totalCycles == |Prediction.Completed(data.value.cycles)|
    {
      if data.None? then Err(LOCKED) else Ok(Prediction.Stats(data.value.cycles))
    }

    /** `get_settings`. */
    function GetSettings(): (r: Result<AppSettings, string>)
      reads this
      ensures data.None? <==> r == Err(LOCKED)
      ensures data.Some? ==> r.Ok?
      ensures r.Ok? ==> r.value == data.value.settings
    {
      if data.None? then Err(LOCKED) else Ok(data.value.settings)
    }
  }

  /** Once locked, every command that needs the data fails with "app is locked". */
  method LockedCommandsFail(state: AppState, vault: Vault, date: Date, today: Date,
                            calendar: (int, int) -> Option<Date>, sqrt: real -> real)
    returns (results: seq<Result<(), string>>)
    modifies state, vault
    ensures |results| == 3 && forall i :: 0 <= i < 3 ==> results[i] == Err(LOCKED)
    ensures state.passphrase == Option.None && state.data == Option.None
    ensures state.GetMonth(2024, 1, calendar, sqrt) == Err(LOCKED)
    ensures state.GetSettings() == Err(LOCKED)
  {
    state.Lock();
    var logged := state.LogDay(date, FlowLevel.Light, "", [], today, vault);
    var toggled := state.ToggleFertility(true, vault);
    var updated := state.UpdateSettings(5, vault);
    results := [logged, toggled, updated];
  }
}
