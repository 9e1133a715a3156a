/**
 The validity window and version a piece of collateral carries, the order the
 store compares copies in, and what a verdict says about a piece it used.
 */
module CollateralDates {
  import opened Prelude

  const I64_MIN := -0x8000_0000_0000_0000
  const DAY := 24 * 3600
  const GRACE := 7 * 24 * 3600

  type I64 = n: int | I64_MIN <= n <= I64_MAX

  datatype Dates = Dates(thisUpdate: Option<I64>, nextUpdate: Option<I64>, version: Option<U64>) {
    /** `now` is inside the window. */
    predicate Current(now: I64) {
      && (thisUpdate.Some? ==> thisUpdate.value <= now)
      && (nextUpdate.Some? ==> now <= nextUpdate.value)
    }

    /** Unless this is an older issue: a lower version, or the same one issued earlier. */
    predicate NotOlderThan(other: Dates) {
      Below(other.version, version) || (other.version == version && !Below(thisUpdate, other.thisUpdate))
    }
  }

  /** Absent sorts before present. */
  predicate Below(a: Option<int>, b: Option<int>) {
    b.Some? && (a.None? || a.value < b.value)
  }

  /** Copies are totally preordered: any two compare, and comparisons chain. */
  lemma {:induction false} OrderIsTotal(a: Dates, b: Dates, c: Dates)
    ensures a.NotOlderThan(a)
    ensures a.NotOlderThan(b) || b.NotOlderThan(a)
    ensures a.NotOlderThan(b) && b.NotOlderThan(c) ==> a.NotOlderThan(c)
    ensures a.NotOlderThan(b) && b.NotOlderThan(a) <==> a.version == b.version && a.thisUpdate == b.thisUpdate
  {}

  // --------------------------------------------------- what a verdict is told

  datatype CollateralUsed = CollateralUsed(current: bool, stale: bool, version: Option<U64>, floor: Option<U64>) {
    predicate Acceptable() {
      (current || stale) && (floor.Some? ==> version.Some? && version.value >= floor.value)
    }
  }

  function SaturatingAdd(a: I64, b: I64): I64 {
    if a + b > I64_MAX then I64_MAX else if a + b < I64_MIN then I64_MIN else a + b
  }

  /** The same window with the grace period added to its end. */
  function InGrace(dates: Dates): Dates {
    match dates.nextUpdate
    case None => dates
    case Some(n) => dates.(nextUpdate := Some(SaturatingAdd(n, GRACE)))
  }

  function Used(dates: Dates, floor: Option<U64>, now: I64): CollateralUsed {
    var current := dates.Current(now);
    CollateralUsed(current, !current && InGrace(dates).Current(now), dates.version, floor)
  }

  /** The window a piece still passes in: from thisUpdate to nextUpdate plus grace. */
  predicate Passes(dates: Dates, now: I64) {
    && (dates.thisUpdate.Some? ==> dates.thisUpdate.value <= now)
    && (dates.nextUpdate.Some? ==> now <= dates.nextUpdate.value + 7 * 24 * 3600)
  }

  predicate MeetsFloor(dates: Dates, floor: Option<U64>) {
    floor.Some? ==> dates.version.Some? && dates.version.value >= floor.value
  }

  /**
   What a verdict is told: current from thisUpdate to nextUpdate, both included,
   where present; stale after nextUpdate for the grace period, and never both;
   the version the copy carries and the floor asked for.
   */
  predicate ToldOf(used: CollateralUsed, dates: Dates, floor: Option<U64>, now: I64) {
    && (used.current <==>
          (dates.thisUpdate.Some? ==> dates.thisUpdate.value <= now) && (dates.nextUpdate.Some? ==> now <= dates.nextUpdate.value))
    && (used.stale <==> Passes(dates, now) && dates.nextUpdate.Some? && dates.nextUpdate.value < now)
    && used.version == dates.version && used.floor == floor
  }

  /** A piece is acceptable exactly inside its window extended by grace and at or above its floor. */
  lemma {:induction false} AcceptableMeans(dates: Dates, floor: Option<U64>, now: I64)
    ensures Used(dates, floor, now).Acceptable() <==> Passes(dates, now) && MeetsFloor(dates, floor)
    ensures ToldOf(Used(dates, floor, now), dates, floor, now)
  {}

  /** Of two copies the newer one meets every floor the older one meets. */
  lemma {:induction false} NewerMeetsFloor(newer: Dates, older: Dates, floor: Option<U64>)
    requires newer.NotOlderThan(older) && MeetsFloor(older, floor)
    ensures MeetsFloor(newer, floor)
  {}

  // ------------------------------------------------------------- refresh time

  /** Division that truncates towards zero. */
  function Truncated(n: int, d: nat): int
    requires d > 0
  {
    if n >= 0 then n / d else -(-n / d)
  }

  /** When to ask for a newer copy; `random` stands for the hash the code draws. */
  function RefreshAt(dates: Dates, random: U64): (at: int)
    // Never: a piece without a nextUpdate is refetched by age instead.
    ensures dates.nextUpdate.None? ==> at == I64_MAX
    // At least a day before nextUpdate, and no earlier where the copy does not say when it was issued.
    ensures dates.nextUpdate.Some? ==> at <= dates.nextUpdate.value - DAY
    ensures dates.nextUpdate.Some? && (dates.thisUpdate.Some? ==> dates.thisUpdate.value > dates.nextUpdate.value) ==>
      at == dates.nextUpdate.value - DAY
    // Not before the last quarter of the window, where that leaves a day.
    ensures dates.nextUpdate.Some? && dates.thisUpdate.Some? && dates.thisUpdate.value <= dates.nextUpdate.value ==>
      var length := dates.nextUpdate.value - dates.thisUpdate.value;
      at == dates.nextUpdate.value - DAY || 4 * (at - dates.thisUpdate.value) > 3 * length - 12
  {
    match dates.nextUpdate
    case None => I64_MAX
    case Some(next) =>
      var latest := next - DAY;
      var earliest := match dates.thisUpdate
                      case None => latest
                      case Some(issued) => issued + Truncated(next - issued, 4) * 3;
      if earliest >= latest then latest else earliest + random % (latest - earliest)
  }

  /** Every moment from the last quarter of the window to a day before nextUpdate is drawn by some `random`. */
  lemma {:induction false} RefreshTimesAreSpread(dates: Dates, at: int) returns (random: U64)
    requires dates.thisUpdate.Some? && dates.nextUpdate.Some? && dates.thisUpdate.value <= at < dates.nextUpdate.value - DAY
    requires 4 * (at - dates.thisUpdate.value) >= 3 * (dates.nextUpdate.value - dates.thisUpdate.value)
    ensures RefreshAt(dates, random) == at
  {
    var issued, next := dates.thisUpdate.value, dates.nextUpdate.value;
    var quarter := (next - issued) / 4;
    random := at - (issued + quarter * 3);
    SmallRemainder(random, next - DAY - (issued + quarter * 3));
  }

  lemma {:induction false} SmallRemainder(n: nat, d: nat)
    requires n < d
    ensures n % d == n
  {}
}
