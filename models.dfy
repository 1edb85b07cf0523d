/**
 * The records the backend stores and exchanges with the front end
 * (src-tauri/src/models.rs). Calendar dates are day numbers: consecutive
 * integers are consecutive days, so date differences are integer differences.
 */
module Models {
  import opened Wrappers

  /** Rust's `u8` and `u32`. */
  newtype u8 = x: int | 0 <= x < 0x100
  newtype u32 = x: int | 0 <= x < 0x1_0000_0000

  /** A calendar day, as a day number. */
  type Date = int

  datatype FlowLevel = None | Light | Medium | Heavy

  datatype SymptomType =
    | Cramps
    | Headache
    | MoodLow
    | MoodHigh
    | Fatigue
    | Bloating
    | BreastTenderness
    | Acne

  /** A cycle; `endDate == None` marks the open cycle still in progress. */
  datatype Cycle = Cycle(startDate: Date, endDate: Option<Date>)
  {
    predicate IsOpen() { endDate.None? }
  }

  datatype DayLog = DayLog(date: Date, flowLevel: FlowLevel, notes: string)

  /** `severity` is meant to lie in 1..3; log_day clamps it there. */
  datatype Symptom = Symptom(date: Date, symptomType: SymptomType, severity: u8)

  /**
   * The confidence of a forecast. It is an `f32`; every finite value is
   * kept as an exact real, and `NaN` is the value Rust produces for 0/0.
   */
  datatype Confidence = Finite(value: real) | NaN

  datatype Prediction = Prediction(predictedStart: Date, predictedEnd: Date, confidence: Confidence)

  datatype FertilityWindow = FertilityWindow(
    fertileStart: Date,
    fertileEnd: Date,
    ovulationDay: Date,
    peakStart: Date,
    peakEnd: Date)

  /** Averages are `f32` in the source; here they are exact quotients. */
  datatype CycleStats = CycleStats(
    totalCycles: nat,
    avgCycleLength: Option<real>,
    avgPeriodLength: Option<real>,
    shortestCycle: Option<int>,
    longestCycle: Option<int>,
    lastPeriodStart: Option<Date>,
    lastPeriodEnd: Option<Date>)

  datatype AppSettings = AppSettings(
    autoLockMinutes: u32,
    wipeAfterAttempts: Option<u32>,
    showFertility: bool)

  datatype AppData = AppData(
    cycles: seq<Cycle>,
    dayLogs: seq<DayLog>,
    symptoms: seq<Symptom>,
    settings: AppSettings)

  /** What get_month hands to the month view. */
  datatype MonthData = MonthData(
    year: int,
    month: int,
    dayLogs: seq<DayLog>,
    symptoms: seq<Symptom>,
    predictions: seq<Prediction>,
    fertility: Option<FertilityWindow>,
    currentCycle: Option<Cycle>,
    stats: CycleStats)

  /** `AppSettings::default()`. */
  function DefaultSettings(): (s: AppSettings)
    ensures s.autoLockMinutes == 5
    ensures s.wipeAfterAttempts == Option.None
    ensures !s.showFertility
  {
    AppSettings(5, Option.None, false)
  }

  /** `AppData::default()`: empty collections and the default settings. */
  function DefaultAppData(): (d: AppData)
    ensures d.cycles == [] && d.dayLogs == [] && d.symptoms == []
    ensures d.settings == DefaultSettings()
  {
    AppData([], [], [], DefaultSettings())
  }

  /**
   * Reading stored settings: `show_fertility` carries `#[serde(default)]`,
   * so a record written before the field existed reads as `false`.
   */
  function SettingsFromStored(autoLockMinutes: u32, wipeAfterAttempts: Option<u32>, showFertility: Option<bool>): (s: AppSettings)
    ensures s.autoLockMinutes == autoLockMinutes && s.wipeAfterAttempts == wipeAfterAttempts
    ensures showFertility.None? ==> !s.showFertility
    ensures showFertility.Some? ==> s.showFertility == showFertility.value
  {
    AppSettings(autoLockMinutes, wipeAfterAttempts, if showFertility.Some? then showFertility.value else false)
  }

  /** Whether a day log takes part in cycle building: every level except `None`. */
  predicate IsFlowDay(l: DayLog) { l.flowLevel != FlowLevel.None }
}
