/** Zone-aware time: inverting a zone's offset, the end of a quiet window, and the next wait-until instant. */
module ZonedTime {
  import opened Options

  // Instants and local readings are milliseconds; a local reading counts from the epoch's local midnight.
  const SECOND: int := 1000
  const MINUTE: int := 60 * SECOND
  const HOUR: int := 60 * MINUTE
  const DAY: int := 24 * HOUR

  /** A zone is its offset from UTC at each instant. */
  type Zone = int -> int

  ghost predicate WholeSeconds(zone: Zone) {
    forall t :: zone(t) % SECOND == 0
  }

  function Local(zone: Zone, t: int): int {
    t + zone(t)
  }

  /** What the formatter reads: the local time cut to whole seconds. */
  function ZonedParts(zone: Zone, t: int): int {
    Local(zone, t) / SECOND * SECOND
  }

  function OffsetAt(zone: Zone, t: int): int {
    ZonedParts(zone, t) - t
  }

  /** A guess at the target's own offset, then one correction. */
  function ZonedTimeToUtc(zone: Zone, target: int): int {
    var guess := target - OffsetAt(zone, target);
    target - OffsetAt(zone, guess)
  }

  function DayOf(local: int): int {
    local / DAY
  }

  function MinuteOfDay(local: int): int {
    local % DAY / MINUTE
  }

  /** 0 is Sunday; the epoch was a Thursday. */
  function Weekday(day: int): int {
    (day + 4) % 7
  }

  /** Days run through the week one by one, from Sunday as 0, and the epoch's day is a Thursday. */
  lemma WeekdaysFollow(day: int)
    ensures Weekday(0) == 4 && 0 <= Weekday(day) <= 6
    ensures Weekday(day + 1) == if Weekday(day) == 6 then 0 else Weekday(day) + 1
  {
  }

  // ---------- inversion ----------

  /** Around the target the offset is `early` before the change and `late` from it on; offsets stay within the span. */
  ghost predicate OneChange(zone: Zone, target: int, span: int, change: int, early: int, late: int) {
    && (forall t :: -span <= zone(t) <= span)
    && (forall t :: target - span <= t <= target + span ==> zone(t) == if t < change then early else late)
  }

  ghost predicate SomeInstantReads(zone: Zone, target: int) {
    exists t :: Local(zone, t) == target
  }

  lemma WholeSecondOffset(zone: Zone, t: int)
    requires WholeSeconds(zone) && t % SECOND == 0
    ensures OffsetAt(zone, t) == zone(t)
  {
  }

  lemma InversionProbes(zone: Zone, target: int)
    requires WholeSeconds(zone) && target % SECOND == 0
    ensures ZonedTimeToUtc(zone, target) == target - zone(target - zone(target))
  {
    WholeSecondOffset(zone, target);
    WholeSecondOffset(zone, target - zone(target));
  }

  /**
   * With at most one change near the target, the inversion returns an instant that reads as the target
   * whenever any instant does; inside a gap it reads off by exactly the jump.
   */
  lemma InversionIsExact(zone: Zone, target: int, span: int, change: int, early: int, late: int)
    requires WholeSeconds(zone) && target % SECOND == 0 && OneChange(zone, target, span, change, early, late)
    ensures var t := ZonedTimeToUtc(zone, target);
            if SomeInstantReads(zone, target) then Local(zone, t) == target
            else late > early && (Local(zone, t) == target + (late - early) || Local(zone, t) == target - (late - early))
  {
    InversionProbes(zone, target);
    var first := zone(target);
    var second := zone(target - first);
    var t := target - second;
    assert -span <= first <= span && -span <= second <= span;
    assert zone(t) == if t < change then early else late;
    if s :| Local(zone, s) == target {
      assert s == target - zone(s);
      assert zone(s) == if s < change then early else late;
    } else {
      assert Local(zone, target - early) != target && Local(zone, target - late) != target;
      assert -span <= early <= span && -span <= late <= span by { OffsetsInSpan(zone, target, span, change, early, late); }
    }
  }

  lemma OffsetsInSpan(zone: Zone, target: int, span: int, change: int, early: int, late: int)
    requires WholeSeconds(zone) && target % SECOND == 0 && OneChange(zone, target, span, change, early, late)
    requires !SomeInstantReads(zone, target)
    ensures -span <= early <= span && -span <= late <= span
  {
    var first := zone(target);
    assert Local(zone, target - first) != target;
    assert zone(target - first) != first;
  }

  // ---------- quiet hours ----------

  datatype Window = Window(startMinutes: int, endMinutes: int, zone: Zone)

  /** Both bounds are minutes since local midnight. */
  predicate ValidWindow(w: Window) {
    0 <= w.startMinutes < 1440 && 0 <= w.endMinutes < 1440
  }

  predicate IsInsideQuietHours(now: int, w: Window) {
    var minutes := MinuteOfDay(ZonedParts(w.zone, now));
    if w.startMinutes == w.endMinutes then false
    else if w.startMinutes < w.endMinutes then w.startMinutes <= minutes < w.endMinutes
    else minutes >= w.startMinutes || minutes < w.endMinutes
  }

  /** The minutes of a day, counted from local midnight by the millisecond. */
  function MinutesSinceMidnight(zone: Zone, t: int): int {
    (t + zone(t)) % 86_400_000 / 60_000
  }

  /** Inside means: fewer minutes on from the start of the window than the end is, round the clock if need be. */
  lemma InsideIsOnFromTheStart(t: int, w: Window)
    requires ValidWindow(w)
    ensures IsInsideQuietHours(t, w) <==>
              (MinutesSinceMidnight(w.zone, t) - w.startMinutes) % 1440 < (w.endMinutes - w.startMinutes) % 1440
  {
    SecondsDoNotMatter(Local(w.zone, t));
    var m := MinutesSinceMidnight(w.zone, t);
    assert 0 <= m < 1440 && MinuteOfDay(ZonedParts(w.zone, t)) == m;
    hide MinuteOfDay, ZonedParts;
    OnFrom(m, w.startMinutes);
    OnFrom(w.endMinutes, w.startMinutes);
  }

  lemma OnFrom(m: int, start: int)
    requires 0 <= m < 1440 && 0 <= start < 1440
    ensures (m - start) % 1440 == if m >= start then m - start else m - start + 1440
  {
  }

  /** The local time at which the window that `now` lies in is taken to end. */
  function EndTarget(now: int, w: Window): int {
    var local := ZonedParts(w.zone, now);
    var dayOffset := if w.startMinutes > w.endMinutes && MinuteOfDay(local) >= w.startMinutes then 1 else 0;
    (DayOf(local) + dayOffset) * DAY + w.endMinutes / 60 * HOUR + w.endMinutes % 60 * MINUTE
  }

  function NextQuietWindowEnd(now: int, w: Window): int {
    ZonedTimeToUtc(w.zone, EndTarget(now, w))
  }

  // ---------- when an inverted local time is later than now ----------

  /** The instant whose offset the inversion finally uses. */
  function Probe(zone: Zone, target: int): int {
    target - zone(target)
  }

  /** The inverted time is later than `now` exactly when the local time still to go exceeds what the offset gains by the probe. */
  lemma LaterIff(zone: Zone, now: int, target: int)
    requires WholeSeconds(zone) && target % SECOND == 0
    ensures ZonedTimeToUtc(zone, target) > now <==> target - Local(zone, now) > zone(Probe(zone, target)) - zone(now)
  {
    InversionProbes(zone, target);
  }

  /**
   * Near at most one change, a target that is still ahead on the local clock inverts to an instant that is not
   * later than `now` exactly when the change lies between `now` and the probe, in either order, and shifts the
   * clock by at least the local time still to go. So more than the jump still to go is always enough.
   */
  lemma NotLaterOnlyAcrossTheChange(zone: Zone, now: int, target: int, span: int, change: int, early: int, late: int)
    requires WholeSeconds(zone) && target % SECOND == 0 && OneChange(zone, target, span, change, early, late)
    requires target - span <= now <= target + span && target > Local(zone, now)
    ensures var left := target - Local(zone, now); var probe := Probe(zone, target);
            && (ZonedTimeToUtc(zone, target) <= now <==>
                  (now < change <= probe && late - early >= left) || (probe < change <= now && early - late >= left))
            && (left > late - early && left > early - late ==> ZonedTimeToUtc(zone, target) > now)
  {
    LaterIff(zone, now, target);
    var probe := Probe(zone, target);
    assert zone(now) == if now < change then early else late;
    assert zone(probe) == if probe < change then early else late;
  }

  /** From `now` until the target comes round on an undisturbed clock, the offset does not change. */
  ghost predicate StraightUntil(zone: Zone, now: int, target: int) {
    forall t :: now <= t <= target - zone(now) ==> zone(t) == zone(now)
  }

  lemma SecondsDoNotMatter(local: int)
    ensures DayOf(local / SECOND * SECOND) == DayOf(local) && MinuteOfDay(local / SECOND * SECOND) == MinuteOfDay(local)
  {
    var day, rest := local / DAY, local % DAY;
    var s := rest / SECOND;
    assert local == day * DAY + rest;
    assert local / SECOND == day * (DAY / SECOND) + s;
    DayAndRest(day, s * SECOND, local / SECOND * SECOND);
    assert s * SECOND / MINUTE == rest / MINUTE;
  }

  lemma DayAndRest(day: int, rest: int, local: int)
    requires local == day * DAY + rest && 0 <= rest < DAY
    ensures DayOf(local) == day && local % DAY == rest && MinuteOfDay(local) == rest / MINUTE
  {
  }

  /** Inside, minute by minute, for a local time given as a day and a time of it. */
  lemma InsideAt(t: int, w: Window, day: int, rest: int)
    requires Local(w.zone, t) == day * DAY + rest && 0 <= rest < DAY
    ensures IsInsideQuietHours(t, w) <==>
              w.startMinutes != w.endMinutes
              && if w.startMinutes < w.endMinutes then w.startMinutes <= rest / MINUTE < w.endMinutes
                 else rest / MINUTE >= w.startMinutes || rest / MINUTE < w.endMinutes
  {
    SecondsDoNotMatter(Local(w.zone, t));
    DayAndRest(day, rest, Local(w.zone, t));
  }

  function EndDay(w: Window, day: int, rest: int): int {
    day + if w.startMinutes > w.endMinutes && rest / MINUTE >= w.startMinutes then 1 else 0
  }

  lemma HoursAndMinutes(minutes: int)
    requires 0 <= minutes < 1440
    ensures minutes / 60 * HOUR + minutes % 60 * MINUTE == minutes * MINUTE
  {
  }

  lemma PartsOf(zone: Zone, t: int, day: int, rest: int)
    requires Local(zone, t) == day * DAY + rest && 0 <= rest < DAY
    ensures DayOf(ZonedParts(zone, t)) == day && MinuteOfDay(ZonedParts(zone, t)) == rest / MINUTE
  {
    hide DayOf, MinuteOfDay;
    SecondsDoNotMatter(Local(zone, t));
    DayAndRest(day, rest, Local(zone, t));
  }

  lemma WholeMinutes(day: int, minutes: int)
    ensures (day * DAY + minutes * MINUTE) % SECOND == 0
  {
    assert day * DAY + minutes * MINUTE == (day * 86400 + minutes * 60) * SECOND;
  }

  lemma EndTargetParts(now: int, w: Window, day: int, rest: int)
    requires ValidWindow(w) && Local(w.zone, now) == day * DAY + rest && 0 <= rest < DAY
    ensures EndTarget(now, w) == EndDay(w, day, rest) * DAY + w.endMinutes * MINUTE && EndTarget(now, w) % SECOND == 0
  {
    hide DayOf, MinuteOfDay, ZonedParts;
    PartsOf(w.zone, now, day, rest);
    HoursAndMinutes(w.endMinutes);
    WholeMinutes(EndDay(w, day, rest), w.endMinutes);
  }

  /** Inside the window its end is still ahead on the local clock, by a day at most. */
  lemma EndIsAhead(now: int, w: Window)
    requires ValidWindow(w) && IsInsideQuietHours(now, w)
    ensures Local(w.zone, now) < EndTarget(now, w) <= Local(w.zone, now) + DAY && EndTarget(now, w) % SECOND == 0
  {
    hide IsInsideQuietHours, EndTarget;
    var day, rest := Local(w.zone, now) / DAY, Local(w.zone, now) % DAY;
    InsideAt(now, w, day, rest);
    EndTargetParts(now, w, day, rest);
    EndIsLater(w, day, rest, EndDay(w, day, rest));
  }

  /** The end computed for a window is after `now` exactly when the local time left exceeds what the offset gains by the probe. */
  lemma EndIsAfterNowIff(now: int, w: Window)
    requires ValidWindow(w) && WholeSeconds(w.zone)
    ensures NextQuietWindowEnd(now, w) > now <==>
              EndTarget(now, w) - Local(w.zone, now) > w.zone(Probe(w.zone, EndTarget(now, w))) - w.zone(now)
  {
    hide EndTarget, WholeSeconds;
    var day, rest := Local(w.zone, now) / DAY, Local(w.zone, now) % DAY;
    EndTargetParts(now, w, day, rest);
    LaterIff(w.zone, now, EndTarget(now, w));
  }

  /** Inside a window and near at most one change, the end fails to be later just where the change eats up the time left. */
  lemma EndAcrossAChange(now: int, w: Window, span: int, change: int, early: int, late: int)
    requires ValidWindow(w) && WholeSeconds(w.zone) && IsInsideQuietHours(now, w)
    requires OneChange(w.zone, EndTarget(now, w), span, change, early, late) && w.zone(now) + DAY <= span
    ensures var left := EndTarget(now, w) - Local(w.zone, now); var probe := Probe(w.zone, EndTarget(now, w));
            && (NextQuietWindowEnd(now, w) <= now <==>
                  (now < change <= probe && late - early >= left) || (probe < change <= now && early - late >= left))
            && (left > late - early && left > early - late ==> NextQuietWindowEnd(now, w) > now)
  {
    hide IsInsideQuietHours, EndTarget, WholeSeconds;
    EndIsAhead(now, w);
    NotLaterOnlyAcrossTheChange(w.zone, now, EndTarget(now, w), span, change, early, late);
  }

  /** The least later instant outside the window. */
  ghost predicate FirstOutside(now: int, w: Window, end: int) {
    end > now && !IsInsideQuietHours(end, w) && forall t :: now <= t < end ==> IsInsideQuietHours(t, w)
  }

  /**
   * With no change before the end comes round, wrapping midnight or not, the computed end is the least later
   * instant outside the window exactly when the offset at the probe is the offset now.
   */
  lemma QuietWindowEndsFirst(now: int, w: Window)
    requires ValidWindow(w) && WholeSeconds(w.zone) && IsInsideQuietHours(now, w) && StraightUntil(w.zone, now, EndTarget(now, w))
    ensures FirstOutside(now, w, NextQuietWindowEnd(now, w)) <==> w.zone(Probe(w.zone, EndTarget(now, w))) == w.zone(now)
  {
    var day, rest := Local(w.zone, now) / DAY, Local(w.zone, now) % DAY;
    var target := EndTarget(now, w);
    var first := target - w.zone(now);
    hide IsInsideQuietHours, EndTarget, StraightUntil, EndDay;
    EndTargetParts(now, w, day, rest);
    InversionProbes(w.zone, target);
    EndIsOutside(now, w, day, rest);
    forall t | now <= t < first ensures IsInsideQuietHours(t, w) {
      InsideUntilTheEnd(now, w, day, rest, t);
    }
    assert FirstOutside(now, w, first);
    FirstIsUnique(now, w, first, NextQuietWindowEnd(now, w));
  }

  lemma FirstIsUnique(now: int, w: Window, a: int, b: int)
    requires FirstOutside(now, w, a)
    ensures FirstOutside(now, w, b) <==> b == a
  {
    hide IsInsideQuietHours;
  }

  lemma EndIsOutside(now: int, w: Window, day: int, rest: int)
    requires ValidWindow(w) && Local(w.zone, now) == day * DAY + rest && 0 <= rest < DAY && IsInsideQuietHours(now, w)
    requires StraightUntil(w.zone, now, EndDay(w, day, rest) * DAY + w.endMinutes * MINUTE)
    ensures var end := EndDay(w, day, rest) * DAY + w.endMinutes * MINUTE - w.zone(now);
            now < end && !IsInsideQuietHours(end, w)
  {
    hide IsInsideQuietHours;
    var endDay := EndDay(w, day, rest);
    var end := endDay * DAY + w.endMinutes * MINUTE - w.zone(now);
    InsideAt(now, w, day, rest);
    EndIsLater(w, day, rest, endDay);
    assert w.zone(end) == w.zone(now);
    InsideAt(end, w, endDay, w.endMinutes * MINUTE);
    WholeMinute(w.endMinutes);
  }

  lemma WholeMinute(minutes: int)
    ensures minutes * MINUTE / MINUTE == minutes
  {
  }

  lemma InsideUntilTheEnd(now: int, w: Window, day: int, rest: int, t: int)
    requires ValidWindow(w) && Local(w.zone, now) == day * DAY + rest && 0 <= rest < DAY && IsInsideQuietHours(now, w)
    requires StraightUntil(w.zone, now, EndDay(w, day, rest) * DAY + w.endMinutes * MINUTE)
    requires now <= t < EndDay(w, day, rest) * DAY + w.endMinutes * MINUTE - w.zone(now)
    ensures IsInsideQuietHours(t, w)
  {
    hide IsInsideQuietHours;
    assert w.zone(t) == w.zone(now);
    var d, r := Local(w.zone, t) / DAY, Local(w.zone, t) % DAY;
    InsideAt(now, w, day, rest);
    EndIsLater(w, day, rest, EndDay(w, day, rest));
    assert Local(w.zone, t) == d * DAY + r;
    BetweenDays(day, rest, EndDay(w, day, rest), w.endMinutes * MINUTE, d, r);
    InsideAt(t, w, d, r);
    MinutesAreMonotone(rest, r);
    MinutesAreMonotone(r, w.endMinutes * MINUTE);
    assert r < w.endMinutes * MINUTE ==> r / MINUTE < w.endMinutes;
    assert r >= w.endMinutes * MINUTE ==> r / MINUTE >= w.endMinutes;
  }

  lemma MinutesAreMonotone(a: int, b: int)
    ensures a <= b ==> a / MINUTE <= b / MINUTE
  {
  }

  lemma EndIsLater(w: Window, day: int, rest: int, endDay: int)
    requires ValidWindow(w) && 0 <= rest < DAY && w.startMinutes != w.endMinutes
    requires if w.startMinutes < w.endMinutes then w.startMinutes <= rest / MINUTE < w.endMinutes
             else rest / MINUTE >= w.startMinutes || rest / MINUTE < w.endMinutes
    requires endDay == day + if w.startMinutes > w.endMinutes && rest / MINUTE >= w.startMinutes then 1 else 0
    ensures day * DAY + rest < endDay * DAY + w.endMinutes * MINUTE <= day * DAY + rest + DAY
  {
  }

  /** A time between two times of adjacent days, or of the same day. */
  lemma BetweenDays(day: int, rest: int, endDay: int, endRest: int, d: int, r: int)
    requires 0 <= rest < DAY && 0 <= endRest < DAY && 0 <= r < DAY && day <= endDay <= day + 1
    requires day * DAY + rest <= d * DAY + r < endDay * DAY + endRest
    ensures (d == day && rest <= r && (endDay == day ==> r < endRest)) || (d == day + 1 == endDay && r < endRest)
  {
  }

  // ---------- where a change spoils it ----------

  /** New York's spring change, at 07:00 UTC of day 0. */
  function SpringZone(t: int): int {
    if t < 7 * HOUR then -5 * HOUR else -4 * HOUR
  }

  /** Its autumn change, at 06:00 UTC of day 0. */
  function AutumnZone(t: int): int {
    if t < 6 * HOUR then -4 * HOUR else -5 * HOUR
  }

  /** In a gap west of UTC the "end" can lie before `now`. */
  lemma SpringEndCanPrecedeNow()
    ensures var w := Window(60, 150, SpringZone);
            var now := 6 * HOUR + 59 * MINUTE;
            IsInsideQuietHours(now, w) && NextQuietWindowEnd(now, w) < now
  {
    assert 6 * HOUR + 59 * MINUTE + SpringZone(6 * HOUR + 59 * MINUTE) == 119 * MINUTE;
    assert 150 / 60 * HOUR + 150 % 60 * MINUTE == 150 * MINUTE;
  }

  /** So it can in an overlap, on the second pass through the repeated hour. */
  lemma AutumnEndCanPrecedeNow()
    ensures var w := Window(0, 90, AutumnZone);
            var now := 6 * HOUR + 10 * MINUTE;
            IsInsideQuietHours(now, w) && NextQuietWindowEnd(now, w) < now
  {
    assert 6 * HOUR + 10 * MINUTE + AutumnZone(6 * HOUR + 10 * MINUTE) == 70 * MINUTE;
    assert 90 / 60 * HOUR + 90 % 60 * MINUTE == 90 * MINUTE;
  }

  // ---------- wait until ----------

  predicate DayMatches(day: int, dayOfWeek: Option<int>) {
    dayOfWeek.None? || Weekday(day) == dayOfWeek.value
  }

  /** The k-th local day from today is one on which the time can still come. */
  predicate Eligible(local: int, timeOfDay: int, dayOfWeek: Option<int>, k: int) {
    DayMatches(DayOf(local) + k, dayOfWeek) && (k == 0 ==> MinuteOfDay(local) < timeOfDay)
  }

  /** The first of eight days on which the time can still come. */
  predicate FirstEligible(local: int, timeOfDay: int, dayOfWeek: Option<int>, k: int) {
    0 <= k < 8 && Eligible(local, timeOfDay, dayOfWeek, k) && forall j :: 0 <= j < k ==> !Eligible(local, timeOfDay, dayOfWeek, j)
  }

  function DayTarget(zone: Zone, now: int, timeOfDay: int, k: int): int {
    (DayOf(ZonedParts(zone, now)) + k) * DAY + timeOfDay * MINUTE
  }

  function OnDay(zone: Zone, now: int, timeOfDay: int, k: int): int {
    ZonedTimeToUtc(zone, DayTarget(zone, now, timeOfDay, k))
  }

  /** None is the thrown error: only a weekday outside 0 to 6 is never met. */
  method ComputeNextWaitUntil(now: int, timeOfDay: int, dayOfWeek: Option<int>, zone: Zone) returns (r: Option<int>)
    requires 0 <= timeOfDay < 1440
    ensures r.None? <==> dayOfWeek.Some? && !(0 <= dayOfWeek.value < 7)
    ensures r.Some? ==> exists k :: FirstEligible(ZonedParts(zone, now), timeOfDay, dayOfWeek, k) && r.value == OnDay(zone, now, timeOfDay, k)
  {
    hide DayOf, MinuteOfDay, ZonedParts, ZonedTimeToUtc;
    var targetHour, targetMinute := timeOfDay / 60, timeOfDay % 60;
    HoursAndMinutes(timeOfDay);
    var local := ZonedParts(zone, now);
    var nowMinutes := MinuteOfDay(local);
    for dayOffset := 0 to 8
      invariant forall j :: 0 <= j < dayOffset ==> !Eligible(local, timeOfDay, dayOfWeek, j)
    {
      var candidate := DayOf(local) + dayOffset;
      if dayOfWeek.Some? && Weekday(candidate) != dayOfWeek.value {
        continue;
      }
      if dayOffset == 0 && nowMinutes >= timeOfDay {
        continue;
      }
      r := Some(ZonedTimeToUtc(zone, candidate * DAY + targetHour * HOUR + targetMinute * MINUTE));
      assert FirstEligible(local, timeOfDay, dayOfWeek, dayOffset) && r.value == OnDay(zone, now, timeOfDay, dayOffset);
      return;
    }
    WeekAlwaysMatches(local, timeOfDay, dayOfWeek);
    return None;
  }

  /** Eight days hold every weekday, and one of them after today. */
  lemma WeekAlwaysMatches(local: int, timeOfDay: int, dayOfWeek: Option<int>)
    requires forall j :: 0 <= j < 8 ==> !Eligible(local, timeOfDay, dayOfWeek, j)
    ensures dayOfWeek.Some? && !(0 <= dayOfWeek.value < 7)
  {
    hide DayOf, MinuteOfDay;
    assert !Eligible(local, timeOfDay, dayOfWeek, 1);
    var k := if dayOfWeek.None? then 1 else 1 + (dayOfWeek.value - Weekday(DayOf(local) + 1)) % 7;
    assert !Eligible(local, timeOfDay, dayOfWeek, k);
    assert dayOfWeek.Some? ==> (DayOf(local) + k + 4) % 7 == dayOfWeek.value % 7;
  }

  /** The instant reads as exactly that minute, on a matching day. */
  predicate Reads(t: int, timeOfDay: int, dayOfWeek: Option<int>, zone: Zone) {
    Local(zone, t) % DAY == timeOfDay * MINUTE && DayMatches(DayOf(Local(zone, t)), dayOfWeek)
  }

  /** The least instant after `now` that reads as asked. */
  ghost predicate NextMatch(now: int, timeOfDay: int, dayOfWeek: Option<int>, zone: Zone, t: int) {
    t > now && Reads(t, timeOfDay, dayOfWeek, zone) && forall s :: now < s < t ==> !Reads(s, timeOfDay, dayOfWeek, zone)
  }

  /** The time on the first eligible day is still ahead on the local clock. */
  lemma DayTargetIsAhead(now: int, timeOfDay: int, dayOfWeek: Option<int>, zone: Zone, k: int)
    requires 0 <= timeOfDay < 1440 && FirstEligible(ZonedParts(zone, now), timeOfDay, dayOfWeek, k)
    ensures DayTarget(zone, now, timeOfDay, k) > Local(zone, now) && DayTarget(zone, now, timeOfDay, k) % SECOND == 0
  {
    hide DayOf, MinuteOfDay, ZonedParts;
    var day, rest := Local(zone, now) / DAY, Local(zone, now) % DAY;
    PartsOf(zone, now, day, rest);
    WholeMinutes(day + k, timeOfDay);
    MinutesAreMonotone(timeOfDay * MINUTE, rest);
    WholeMinute(timeOfDay);
  }

  /** The result is after `now` exactly when the local time to go exceeds what the offset gains by the probe. */
  lemma WaitUntilIsAfterNowIff(now: int, timeOfDay: int, dayOfWeek: Option<int>, zone: Zone, k: int)
    requires 0 <= timeOfDay < 1440 && WholeSeconds(zone) && FirstEligible(ZonedParts(zone, now), timeOfDay, dayOfWeek, k)
    ensures var target := DayTarget(zone, now, timeOfDay, k);
            OnDay(zone, now, timeOfDay, k) > now <==> target - Local(zone, now) > zone(Probe(zone, target)) - zone(now)
  {
    hide DayTarget, WholeSeconds;
    DayTargetIsAhead(now, timeOfDay, dayOfWeek, zone, k);
    LaterIff(zone, now, DayTarget(zone, now, timeOfDay, k));
  }

  /** With no change before the time comes round, the result is the least later instant as asked exactly when the probe has today's offset. */
  lemma FirstEligibleIsNext(now: int, timeOfDay: int, dayOfWeek: Option<int>, zone: Zone, k: int)
    requires 0 <= timeOfDay < 1440 && WholeSeconds(zone) && FirstEligible(ZonedParts(zone, now), timeOfDay, dayOfWeek, k)
    requires StraightUntil(zone, now, DayTarget(zone, now, timeOfDay, k))
    ensures NextMatch(now, timeOfDay, dayOfWeek, zone, OnDay(zone, now, timeOfDay, k)) <==>
              zone(Probe(zone, DayTarget(zone, now, timeOfDay, k))) == zone(now)
  {
    var target := DayTarget(zone, now, timeOfDay, k);
    var first := target - zone(now);
    DayTargetIsAhead(now, timeOfDay, dayOfWeek, zone, k);
    InversionProbes(zone, target);
    assert zone(first) == zone(now);
    TargetReads(zone, now, timeOfDay, dayOfWeek, k, first);
    hide DayTarget, Eligible, Reads, FirstEligible, StraightUntil, WholeSeconds, ZonedTimeToUtc;
    forall s | now < s < first ensures !Reads(s, timeOfDay, dayOfWeek, zone) {
      EarlierDoesNotRead(now, timeOfDay, dayOfWeek, zone, k, s);
    }
    assert NextMatch(now, timeOfDay, dayOfWeek, zone, first);
  }

  lemma TargetReads(zone: Zone, now: int, timeOfDay: int, dayOfWeek: Option<int>, k: int, t: int)
    requires 0 <= timeOfDay < 1440 && FirstEligible(ZonedParts(zone, now), timeOfDay, dayOfWeek, k)
    requires Local(zone, t) == DayTarget(zone, now, timeOfDay, k)
    ensures Reads(t, timeOfDay, dayOfWeek, zone)
  {
    hide ZonedParts, MinuteOfDay;
    DayAndRest(DayOf(ZonedParts(zone, now)) + k, timeOfDay * MINUTE, Local(zone, t));
  }

  lemma EarlierDoesNotRead(now: int, timeOfDay: int, dayOfWeek: Option<int>, zone: Zone, k: int, s: int)
    requires 0 <= timeOfDay < 1440 && FirstEligible(ZonedParts(zone, now), timeOfDay, dayOfWeek, k)
    requires StraightUntil(zone, now, DayTarget(zone, now, timeOfDay, k))
    requires now < s < DayTarget(zone, now, timeOfDay, k) - zone(now)
    ensures !Reads(s, timeOfDay, dayOfWeek, zone)
  {
    hide DayOf, MinuteOfDay, ZonedParts, Eligible;
    assert zone(s) == zone(now);
    var day, rest := Local(zone, now) / DAY, Local(zone, now) % DAY;
    var d, r := Local(zone, s) / DAY, Local(zone, s) % DAY;
    DayAndRest(d, r, Local(zone, s));
    PartsOf(zone, now, day, rest);
    if r == timeOfDay * MINUTE {
      assert 0 <= d - day < k;
      assert !Eligible(ZonedParts(zone, now), timeOfDay, dayOfWeek, d - day);
      NotEligibleMeans(ZonedParts(zone, now), timeOfDay, dayOfWeek, d - day);
      if d == day {
        MinutesAreMonotone(rest, r);
        assert r / MINUTE == timeOfDay;
      }
    }
  }

  /** Across a fall-back the result can lie before `now`: on the second pass, 01:10, the wait for 01:30 has already ended. */
  lemma AutumnWaitCanPrecedeNow()
    ensures var now := 6 * HOUR + 10 * MINUTE;
            FirstEligible(ZonedParts(AutumnZone, now), 90, None, 0) && OnDay(AutumnZone, now, 90, 0) < now
  {
    assert 6 * HOUR + 10 * MINUTE + AutumnZone(6 * HOUR + 10 * MINUTE) == 70 * MINUTE;
  }

  lemma NotEligibleMeans(local: int, timeOfDay: int, dayOfWeek: Option<int>, k: int)
    requires !Eligible(local, timeOfDay, dayOfWeek, k)
    ensures !DayMatches(DayOf(local) + k, dayOfWeek) || (k == 0 && MinuteOfDay(local) >= timeOfDay)
  {
  }

  /** Across a change the instant still reads as asked, on the day asked for, unless that local time is skipped. */
  lemma WaitUntilSurvivesAChange(now: int, timeOfDay: int, dayOfWeek: Option<int>, zone: Zone, k: int, span: int, change: int, early: int, late: int)
    requires 0 <= timeOfDay < 1440 && FirstEligible(ZonedParts(zone, now), timeOfDay, dayOfWeek, k)
    requires var target := DayTarget(zone, now, timeOfDay, k);
             WholeSeconds(zone) && OneChange(zone, target, span, change, early, late) && SomeInstantReads(zone, target)
    ensures Reads(OnDay(zone, now, timeOfDay, k), timeOfDay, dayOfWeek, zone)
  {
    hide ZonedParts, ZonedTimeToUtc, OneChange, SomeInstantReads, WholeSeconds;
    var day := DayOf(ZonedParts(zone, now));
    var target := (day + k) * DAY + timeOfDay * MINUTE;
    WholeMinutes(day + k, timeOfDay);
    InversionIsExact(zone, target, span, change, early, late);
    DayAndRest(day + k, timeOfDay * MINUTE, target);
  }
}
