/**
 * The order of intervals (src/common/types/interval.cpp:315-350) against the order of their encodings.
 *
 * Intervals compare after days and microseconds have been carried into months and days, and are encoded as stored.
 */
module Intervals {
  import opened KeyEncoding
  import opened DataEncoding

  const DAYS_PER_MONTH := 30
  const MICROS_PER_DAY := 86_400_000_000
  const MICROS_PER_MONTH := 2_592_000_000_000
  const MAX_MONTHS := 0x7fff_ffff
  const MIN_MONTHS := -0x8000_0000

  /** Division that rounds toward zero. */
  function Quotient(a: int, b: int): int
    requires b > 0
  {
    if a >= 0 then a / b else -(-a / b)
  }

  /** Carries days into months and microseconds into months and days; the days carried last are not carried again. */
  function NormalizeIntervalEntries(v: Interval): Interval {
    var extraMonthsDays := Quotient(v.days, DAYS_PER_MONTH);
    var extraMonthsMicros := Quotient(v.micros, MICROS_PER_MONTH);
    var days := v.days - extraMonthsDays * DAYS_PER_MONTH;
    var micros := v.micros - extraMonthsMicros * MICROS_PER_MONTH;
    var extraDaysMicros := Quotient(micros, MICROS_PER_DAY);
    Interval(v.months + extraMonthsDays + extraMonthsMicros, days + extraDaysMicros,
             micros - extraDaysMicros * MICROS_PER_DAY)
  }

  predicate GreaterThan(l: Interval, r: Interval) {
    var l', r' := NormalizeIntervalEntries(l), NormalizeIntervalEntries(r);
    if l'.months > r'.months then true
    else if l'.months < r'.months then false
    else if l'.days > r'.days then true
    else if l'.days < r'.days then false
    else l'.micros > r'.micros
  }

  /** The bytes of two intervals are ordered as the intervals are. */
  ghost predicate Agree(v: Interval, w: Interval)
    requires IntervalInRange(v) && IntervalInRange(w)
  {
    && (Before(EncodedInterval(v), EncodedInterval(w)) <==> GreaterThan(w, v))
    && (Before(EncodedInterval(w), EncodedInterval(v)) <==> GreaterThan(v, w))
  }

  /**
   * Less than a month of days, and less than a day of microseconds unless carrying them passes every other such
   * interval.
   */
  predicate Comparable(v: Interval) {
    && -DAYS_PER_MONTH < v.days < DAYS_PER_MONTH
    && (|| -MICROS_PER_DAY < v.micros < MICROS_PER_DAY
        || (v.days == DAYS_PER_MONTH - 1 && 0 < v.micros < MICROS_PER_MONTH)
        || (v.days == 1 - DAYS_PER_MONTH && -MICROS_PER_MONTH < v.micros < 0))
  }

  /** So close to either end of the range that both orders put it beyond all comparable intervals. */
  predicate Extreme(v: Interval) {
    || (&& v.months == MAX_MONTHS && NormalizeIntervalEntries(v).months > MAX_MONTHS
        && EntriesBefore(Interval(MAX_MONTHS, DAYS_PER_MONTH - 1, MICROS_PER_MONTH - 1), v))
    || (&& v.months == MIN_MONTHS && NormalizeIntervalEntries(v).months < MIN_MONTHS
        && EntriesBefore(v, Interval(MIN_MONTHS, 1 - DAYS_PER_MONTH, 1 - MICROS_PER_MONTH)))
  }

  lemma MonthsRange(months: int)
    ensures InRange(months, 4) <==> MIN_MONTHS <= months <= MAX_MONTHS
  {
    assert Pow256(4) == 256 * Pow256(3) && Pow256(3) == 256 * Pow256(2) && Pow256(2) == 256 * Pow256(1);
  }

  lemma ComparableRange(v: Interval)
    requires MIN_MONTHS <= v.months <= MAX_MONTHS
    requires -DAYS_PER_MONTH < v.days < DAYS_PER_MONTH && -MICROS_PER_MONTH < v.micros < MICROS_PER_MONTH
    ensures IntervalInRange(v)
  {
    MonthsRange(v.months);
    MonthsRange(v.days);
    assert Pow256(8) == 256 * 256 * 256 * 256 * Pow256(4) by {
      assert Pow256(8) == 256 * Pow256(7) && Pow256(7) == 256 * Pow256(6) && Pow256(6) == 256 * Pow256(5);
      assert Pow256(5) == 256 * Pow256(4);
    }
    assert Pow256(4) == 256 * Pow256(3) && Pow256(3) == 256 * Pow256(2) && Pow256(2) == 256 * Pow256(1);
  }

  /** What carrying does to a comparable interval: nothing, or it moves whole days out of the microseconds. */
  lemma ComparableCarries(v: Interval)
    requires Comparable(v)
    ensures var v' := NormalizeIntervalEntries(v);
            && v'.months == v.months && -MICROS_PER_DAY < v'.micros < MICROS_PER_DAY
            && (v'.days - v.days) * MICROS_PER_DAY + v'.micros == v.micros
            && (v'.days > v.days ==> v.days == DAYS_PER_MONTH - 1 && v.micros > 0)
            && (v'.days < v.days ==> v.days == 1 - DAYS_PER_MONTH && v.micros < 0)
            && (v.micros >= 0 ==> v'.micros >= 0) && (v.micros <= 0 ==> v'.micros <= 0)
  {
  }

  lemma ComparableOrder(v: Interval, w: Interval)
    requires Comparable(v) && Comparable(w)
    ensures EntriesBefore(v, w) <==> GreaterThan(w, v)
  {
    ComparableCarries(v);
    ComparableCarries(w);
    hide NormalizeIntervalEntries;
  }

  /** Among comparable intervals the order of the bytes is the order of the intervals. */
  lemma ComparableAgree(v: Interval, w: Interval)
    requires IntervalInRange(v) && IntervalInRange(w) && Comparable(v) && Comparable(w)
    ensures Agree(v, w)
  {
    hide EncodedInterval, GreaterThan, EntriesBefore, Comparable;
    IntervalOrder(v, w);
    IntervalOrder(w, v);
    ComparableOrder(v, w);
    ComparableOrder(w, v);
  }

  lemma ExtremeAgrees(v: Interval, w: Interval)
    requires IntervalInRange(v) && IntervalInRange(w) && Extreme(v) && Comparable(w)
    ensures Agree(v, w)
  {
    MonthsRange(w.months);
    ComparableCarries(w);
    IntervalOrder(v, w);
    IntervalOrder(w, v);
    hide EncodedInterval, NormalizeIntervalEntries;
  }

  /** A comparable interval that an incomparable one is ordered differently against. */
  function Against(v: Interval): Interval {
    var v' := NormalizeIntervalEntries(v);
    if v'.months > MAX_MONTHS then Interval(MAX_MONTHS, DAYS_PER_MONTH - 1, MICROS_PER_MONTH - 1)
    else if v'.months < MIN_MONTHS then Interval(MIN_MONTHS, 1 - DAYS_PER_MONTH, 1 - MICROS_PER_MONTH)
    else if v'.days >= DAYS_PER_MONTH then Interval(v'.months, DAYS_PER_MONTH - 1, MICROS_PER_DAY - 1)
    else if v'.days <= -DAYS_PER_MONTH then Interval(v'.months, 1 - DAYS_PER_MONTH, 1 - MICROS_PER_DAY)
    else v'
  }

  lemma NormalizedBounds(v: Interval)
    ensures var v' := NormalizeIntervalEntries(v);
            && -MICROS_PER_DAY < v'.micros < MICROS_PER_DAY
            && (v'.days >= DAYS_PER_MONTH ==> v.days > 0 && v.micros > 0 && v'.months >= v.months)
            && (v'.days <= -DAYS_PER_MONTH ==> v.days < 0 && v.micros < 0 && v'.months <= v.months)
            && (v'.days >= DAYS_PER_MONTH && v'.months == v.months ==>
                  v.days < DAYS_PER_MONTH && v.micros < MICROS_PER_MONTH)
            && (v'.days <= -DAYS_PER_MONTH && v'.months == v.months ==>
                  -DAYS_PER_MONTH < v.days && -MICROS_PER_MONTH < v.micros)
  {
  }

  /** Whether an interval and the one chosen against it are ordered alike, by their entries. */
  predicate EntriesAgree(v: Interval, w: Interval) {
    (EntriesBefore(v, w) <==> GreaterThan(w, v)) && (EntriesBefore(w, v) <==> GreaterThan(v, w))
  }

  lemma AgainstIsComparable(v: Interval)
    ensures var w := Against(v); Comparable(w) && MIN_MONTHS <= w.months <= MAX_MONTHS
  {
    NormalizedBounds(v);
    hide NormalizeIntervalEntries;
  }

  lemma AgainstBeyondRange(v: Interval)
    requires MIN_MONTHS <= v.months <= MAX_MONTHS && !Extreme(v)
    requires !(MIN_MONTHS <= NormalizeIntervalEntries(v).months <= MAX_MONTHS)
    ensures !EntriesAgree(v, Against(v))
  {
    AgainstIsComparable(v);
    ComparableCarries(Against(v));
    hide NormalizeIntervalEntries;
  }

  lemma AgainstWithinRange(v: Interval)
    requires !Comparable(v) && MIN_MONTHS <= NormalizeIntervalEntries(v).months <= MAX_MONTHS
    ensures !EntriesAgree(v, Against(v))
  {
    NormalizedBounds(v);
    AgainstIsComparable(v);
    ComparableCarries(Against(v));
    hide NormalizeIntervalEntries;
  }

  lemma AgainstDiffers(v: Interval)
    requires IntervalInRange(v) && !Comparable(v) && !Extreme(v)
    ensures var w := Against(v); IntervalInRange(w) && Comparable(w) && !Agree(v, w)
  {
    var w := Against(v);
    AgainstIsComparable(v);
    ComparableRange(w);
    MonthsRange(v.months);
    IntervalOrder(v, w);
    IntervalOrder(w, v);
    hide EncodedInterval, NormalizeIntervalEntries, Against, Comparable, Extreme, GreaterThan, EntriesBefore;
    if MIN_MONTHS <= NormalizeIntervalEntries(v).months <= MAX_MONTHS {
      AgainstWithinRange(v);
    } else {
      AgainstBeyondRange(v);
    }
  }

  /** An interval is ordered by its bytes against every comparable one exactly if it is comparable or extreme. */
  lemma OrderAgreesIff(v: Interval)
    requires IntervalInRange(v)
    ensures (forall w | IntervalInRange(w) && Comparable(w) :: Agree(v, w)) <==> Comparable(v) || Extreme(v)
  {
    hide Agree, Comparable, Extreme;
    if Comparable(v) || Extreme(v) {
      forall w | IntervalInRange(w) && Comparable(w) ensures Agree(v, w) {
        if Comparable(v) {
          ComparableAgree(v, w);
        } else {
          ExtremeAgrees(v, w);
        }
      }
    } else {
      AgainstDiffers(v);
    }
  }

  /** Forty days are longer than a month, and their bytes come first. */
  lemma FortyDays()
    ensures var v, w := Interval(0, 40, 0), Interval(1, 0, 0);
            && IntervalInRange(v) && IntervalInRange(w)
            && GreaterThan(v, w) && Before(EncodedInterval(v), EncodedInterval(w))
  {
    MonthsRange(0);
    MonthsRange(1);
    MonthsRange(40);
    ComparableRange(Interval(0, 0, 0));
    IntervalOrder(Interval(0, 40, 0), Interval(1, 0, 0));
  }
}
