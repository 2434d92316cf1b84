/** The rotating background: which part of the day an hour belongs to, which picture a period
    shows, the two-slot cache of the last picture, and when the next period begins. The clock,
    the random draw and the storage slots are parameters. */
module Background {
  import opened Wrappers
  import opened Decimal

  datatype Period = Morning | Afternoon | Evening | Night

  /** The key under which a period is written to storage. */
  function PeriodName(p: Period): (s: string)
    ensures |s| > 0
  {
    match p
    case Morning => "morning"
    case Afternoon => "afternoon"
    case Evening => "evening"
    case Night => "night"
  }

  lemma PeriodNameInjective(p: Period, q: Period)
    ensures PeriodName(p) == PeriodName(q) <==> p == q
  {
  }

  /** `backgroundFolders`: each period's pictures sit in a folder named after its key. */
  function Folder(p: Period): (s: string)
    ensures s == "./backgrounds/" + PeriodName(p)
  {
    match p
    case Morning => "./backgrounds/morning"
    case Afternoon => "./backgrounds/afternoon"
    case Evening => "./backgrounds/evening"
    case Night => "./backgrounds/night"
  }

  /** `imageCount`: every period has at least one picture. */
  function ImageCount(p: Period): (n: nat)
    ensures n >= 1
  {
    match p
    case Morning => 3
    case Afternoon => 5
    case Evening => 2
    case Night => 1
  }

  /** `getTimePeriod`: 6 to 11 is morning, 12 to 17 afternoon, 18 to 21 evening, any other
      hour night. */
  function TimePeriod(hour: int): (p: Period)
    ensures p == Morning <==> 6 <= hour < 12
    ensures p == Afternoon <==> 12 <= hour < 18
    ensures p == Evening <==> 18 <= hour < 22
    ensures p == Night <==> hour < 6 || 22 <= hour
  {
    if 6 <= hour < 12 then Morning
    else if 12 <= hour < 18 then Afternoon
    else if 18 <= hour < 22 then Evening
    else Night
  }

  /** Around the clock, a period that begins at hour `h` lasts at least four hours; evening is
      the shortest, exactly four. */
  lemma PeriodsLastFourHours(h: int, k: int)
    requires 0 <= h < 24 && 0 <= k < 4
    requires TimePeriod(h) != TimePeriod((h + 23) % 24)
    ensures TimePeriod((h + k) % 24) == TimePeriod(h)
  {
  }

  /** So a check every four hours never misses a period: whatever period is current at some
      hour between two checks is also current at one of the two. */
  lemma FourHourPollSeesEveryPeriod(h: int, k: int)
    requires 0 <= h < 24 && 0 <= k <= 4
    ensures TimePeriod((h + k) % 24) == TimePeriod(h) || TimePeriod((h + k) % 24) == TimePeriod((h + 4) % 24)
  {
  }

  /** `getRandomImage`: `draw` stands for `Math.floor(Math.random() * count)`, so it lies in
      `[0, count)`, and the picture number is one more. */
  function RandomImage(folder: string, count: nat, draw: int): (path: string)
    requires 0 <= draw < count
    ensures |path| > |folder| + 10
    ensures path[..|folder|] == folder && path[|folder|..|folder| + 6] == "/image"
    ensures path[|path| - 4..] == ".jpg"
  {
    folder + "/image" + ToDecimal(draw + 1) + ".jpg"
  }

  /** The number in the file name reads back as the draw plus one, a picture in `[1, count]`;
      different draws therefore give different paths. */
  lemma RandomImageIndex(folder: string, count: nat, draw: int)
    requires 0 <= draw < count
    ensures var path := RandomImage(folder, count, draw);
      var digits := path[|folder| + 6..|path| - 4];
      AllDigits(digits) && ParseDecimal(digits) == draw + 1 && 1 <= ParseDecimal(digits) <= count
  {
    var path := RandomImage(folder, count, draw);
    assert path[|folder| + 6..|path| - 4] == ToDecimal(draw + 1);
    ParseToDecimal(draw + 1);
  }

  /** The two storage slots, `backgroundImage` and `backgroundPeriod`; `None` is a missing key. */
  datatype Store = Store(image: Option<string>, period: Option<string>)

  /** The cache test of `getBackgroundImage`: not forced, a non-empty stored picture, and a
      stored period equal to the current one. */
  predicate CacheHit(store: Store, current: Period, force: bool) {
    && !force
    && store.image.Some? && store.image.value != ""
    && store.period == Some(PeriodName(current))
  }

  /** `getBackgroundImage`: on a cache hit the stored picture, storage untouched; otherwise a
      freshly drawn picture of the current period, written to storage with the period. Either
      way storage ends up holding the returned picture under the current period. */
  function GetBackgroundImage(store: Store, hour: int, force: bool, draw: int): (r: (string, Store))
    requires 0 <= draw < ImageCount(TimePeriod(hour))
    ensures r.0 != ""
    ensures r.1 == Store(Some(r.0), Some(PeriodName(TimePeriod(hour))))
    ensures CacheHit(store, TimePeriod(hour), force) ==> r.1 == store
    ensures !CacheHit(store, TimePeriod(hour), force) ==>
      r.0 == RandomImage(Folder(TimePeriod(hour)), ImageCount(TimePeriod(hour)), draw)
  {
    var current := TimePeriod(hour);
    if CacheHit(store, current, force) then
      (store.image.value, store)
    else
      var image := RandomImage(Folder(current), ImageCount(current), draw);
      (image, Store(Some(image), Some(PeriodName(current))))
  }

  /** A second unforced call within the same period returns the same picture and writes
      nothing, whatever the first call did and whatever the second one would draw. */
  lemma SecondCallIsCached(store: Store, hour: int, force: bool, draw: int, hour2: int, draw2: int)
    requires 0 <= draw < ImageCount(TimePeriod(hour))
    requires 0 <= draw2 < ImageCount(TimePeriod(hour2))
    requires TimePeriod(hour2) == TimePeriod(hour)
    ensures var first := GetBackgroundImage(store, hour, force, draw);
      GetBackgroundImage(first.1, hour2, false, draw2) == first
  {
  }

  /** A stored picture from another period is never reused. */
  lemma NewPeriodRedraws(store: Store, hour: int, draw: int)
    requires 0 <= draw < ImageCount(TimePeriod(hour))
    requires store.period.Some? && store.period.value != PeriodName(TimePeriod(hour))
    ensures var r := GetBackgroundImage(store, hour, false, draw);
      r.0 == RandomImage(Folder(TimePeriod(hour)), ImageCount(TimePeriod(hour)), draw)
  {
  }

  /** The hour at which the next period begins: 6, 12, 18, 22, or 30 for six o'clock the next
      morning. Every hour before it still belongs to the current period; at it a new one starts. */
  function NextBoundary(hour: int): (b: int)
    requires 0 <= hour < 24
    ensures hour < b <= 30
    ensures b == 6 || b == 12 || b == 18 || b == 22 || b == 30
    ensures forall h :: hour <= h < b ==> TimePeriod(h % 24) == TimePeriod(hour)
    ensures TimePeriod(b % 24) != TimePeriod(hour)
  {
    if hour < 6 then 6
    else if hour < 12 then 12
    else if hour < 18 then 18
    else if hour < 22 then 22
    else 24 + 6
  }

  // ---------------------------------------------------------------------------------------
  // Timestamps: milliseconds from midnight of day 0 in local time

  const HourMs := 3600000
  const DayMs := 24 * HourMs

  /** `Date.prototype.getHours`. */
  function HourOf(t: nat): (h: int)
    ensures 0 <= h < 24
  {
    (t % DayMs) / HourMs
  }

  /** `date.setHours(h, 0, 0, 0)`: moves `date` itself to hour `h` of its day (an `h` past 23
      runs into the next day) and returns the new timestamp. The result is the pair (the date
      after the call, the returned value). */
  function SetHours(date: nat, h: nat): (r: (nat, nat))
    ensures r.0 == r.1 && r.1 % HourMs == 0
    ensures r.1 - date == h * HourMs - date % DayMs
  {
    var moved := (date / DayMs) * DayMs + h * HourMs;
    (moved, moved)
  }

  /** The delay computed in the effect, as written: `nextChangeTime` is copied from the value
      `now.setHours(...)` returns, but that call has already moved `now` itself to the boundary,
      so `nextChangeTime.getTime() - now.getTime()` subtracts the boundary from itself. */
  function DelayAsWritten(now: nat): (delay: int)
    ensures delay == 0
  {
    var b := NextBoundary(HourOf(now));
    var (nowAfter, returned) := SetHours(now, b);
    var nextChangeTime := returned;
    nextChangeTime - nowAfter
  }

  /** The as-written delay is zero although the next boundary lies in the future: at 09:30 the
      timer fires at once instead of two and a half hours later. */
  lemma DelayAsWrittenAtHalfPastNine()
    ensures var now := 9 * HourMs + HourMs / 2;
      && HourOf(now) == 9 && NextBoundary(HourOf(now)) == 12
      && DelayAsWritten(now) == 0
      && DelayUntilNextChange(now) == 5 * HourMs / 2
  {
  }

  /** The evidently intended delay: from the moment of the call to the next boundary. */
  function DelayUntilNextChange(now: nat): (delay: int)
    ensures 0 < delay <= 8 * HourMs
  {
    var b := NextBoundary(HourOf(now));
    SetHours(now, b).1 - now
  }

  /** After the intended delay the period has changed, and at every moment before it the
      period is still the one at the start. */
  lemma DelayReachesNextPeriod(now: nat, d: nat)
    ensures TimePeriod(HourOf(now + DelayUntilNextChange(now))) != TimePeriod(HourOf(now))
    ensures d < DelayUntilNextChange(now) ==> TimePeriod(HourOf(now + d)) == TimePeriod(HourOf(now))
  {
    var h := HourOf(now);
    var b := NextBoundary(h);
    var m := now % DayMs;
    var delay := DelayUntilNextChange(now);
    assert m + delay == b * HourMs;
    HourAfter(now, delay);
    assert (b * HourMs) / HourMs == b;
    if d < delay {
      HourAfter(now, d);
      var x := (m + d) / HourMs;
      assert h <= x < b;
      assert TimePeriod(x % 24) == TimePeriod(h);
    }
  }

  /** The hour reached `d` milliseconds after `now`, within the next two days. */
  lemma HourAfter(now: nat, d: nat)
    requires now % DayMs + d < 2 * DayMs
    ensures HourOf(now + d) == ((now % DayMs + d) / HourMs) % 24
  {
    var q, m := now / DayMs, now % DayMs;
    var x := m + d;
    assert now + d == q * DayMs + x;
    if x < DayMs {
      assert (now + d) % DayMs == x;
    } else {
      assert (now + d) % DayMs == x - DayMs;
      assert (x - DayMs) / HourMs == x / HourMs - 24;
    }
  }
}
