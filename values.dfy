/** Shared value types of the canteen model: optional values and results,
    calendar days and instants, IEEE-style ratios, and small sequence helpers. */
module Values {

  datatype Option<T> = None | Some(value: T) {
    function GetOr(default: T): T {
      match this
      case Some(v) => v
      case None => default
    }
  }

  datatype Result<T, E> = Success(value: T) | Failure(error: E)

  // ---------------------------------------------------------------------
  // Calendar days and instants

  /** Calendar days are numbered from 0001-01-01 (day 0, a Monday), i.e. a
      day number is Python's `date.toordinal() - 1`.  An instant counts
      microseconds from midnight of day 0, the resolution of `datetime`. */
  type Instant = int

  const MicrosPerDay: int := 86_400_000_000

  const WeekdayNames: seq<string> :=
    ["Monday", "Tuesday", "Wednesday", "Thursday", "Friday", "Saturday", "Sunday"]

  /** `date.weekday()`: 0 for Monday up to 6 for Sunday. */
  function Weekday(day: int): (w: nat)
    ensures w < 7
  {
    day % 7
  }

  /** `strftime('%A')` of a day. */
  function DayName(day: int): (name: string)
    ensures name in WeekdayNames
  {
    WeekdayNames[Weekday(day)]
  }

  /** `weekday() < 5`: Monday to Friday. */
  predicate IsWeekday(day: int) {
    Weekday(day) < 5
  }

  /** The calendar day an instant falls on. */
  function DayOf(t: Instant): int {
    t / MicrosPerDay
  }

  /** The instant at which a day starts (`pd.to_datetime` of a date). */
  function Midnight(day: int): Instant {
    day * MicrosPerDay
  }

  /** `t + timedelta(days=n)`. */
  function AddDays(t: Instant, n: int): Instant {
    t + n * MicrosPerDay
  }

  lemma DayOfAddDays(t: Instant, n: int)
    ensures DayOf(AddDays(t, n)) == DayOf(t) + n
    ensures AddDays(t, n) % MicrosPerDay == t % MicrosPerDay
  {
    var q, r := t / MicrosPerDay, t % MicrosPerDay;
    assert t == q * MicrosPerDay + r && 0 <= r < MicrosPerDay;
    assert AddDays(t, n) == (q + n) * MicrosPerDay + r;
  }

  /** A record dated `day` passes the filter `date >= now - timedelta(days=period)`
      exactly when its day is later than the cut-off day, or is the cut-off
      day itself and `now` lies exactly on a midnight. */
  lemma {:induction false} WindowByDay(day: int, now: Instant, period: int)
    ensures Midnight(day) >= AddDays(now, -period)
        <==> (day > DayOf(now) - period || (day == DayOf(now) - period && now % MicrosPerDay == 0))
  {
    var q, r := now / MicrosPerDay, now % MicrosPerDay;
    assert now == q * MicrosPerDay + r && 0 <= r < MicrosPerDay;
    assert AddDays(now, -period) == (q - period) * MicrosPerDay + r;
    if day > q - period {
      assert Midnight(day) >= (q - period + 1) * MicrosPerDay;
    } else if day < q - period {
      assert Midnight(day) <= (q - period - 1) * MicrosPerDay;
    }
  }

  // ---------------------------------------------------------------------
  // Ratios with numpy's division semantics

  /** The outcome of a float division: a finite value, an infinity (a
      non-zero numerator over zero) or NaN (zero over zero). */
  datatype Ratio = Finite(value: real) | PosInf | NegInf | NaN

  /** `(part / whole) * 100` as numpy evaluates it on exact operands. */
  function Percentage(part: real, whole: real): (p: Ratio)
    ensures p.Finite? <==> whole != 0.0
    ensures p == PosInf <==> whole == 0.0 && part > 0.0
    ensures p == NegInf <==> whole == 0.0 && part < 0.0
    ensures p == NaN <==> whole == 0.0 && part == 0.0
  {
    if whole != 0.0 then Finite(part / whole * 100.0)
    else if part > 0.0 then PosInf
    else if part < 0.0 then NegInf
    else NaN
  }

  /** A finite percentage is the part scaled to a whole of one hundred. */
  lemma PercentageScales(part: real, whole: real)
    requires whole != 0.0
    ensures Percentage(part, whole).value * whole == part * 100.0
  {
    var q := part / whole;
    assert q * whole == part;
  }

  /** The mean of a series of `n` values summing to `total` (`Series.mean()`):
      NaN for an empty series. */
  function Mean(total: real, n: nat): (m: Ratio)
    ensures m.Finite? <==> n > 0
    ensures n == 0 ==> m == NaN
  {
    if n > 0 then Finite(total / n as real) else NaN
  }

  /** A finite mean times the count gives back the total. */
  lemma MeanTimesCount(total: real, n: nat)
    requires n > 0
    ensures Mean(total, n).value * (n as real) == total
  {
  }

  /** The comparison `r > bound` under IEEE rules: +inf exceeds every
      bound, -inf and NaN exceed none. */
  predicate Exceeds(r: Ratio, bound: real) {
    match r
    case Finite(v) => v > bound
    case PosInf => true
    case NegInf => false
    case NaN => false
  }

  /** When a percentage passes a threshold, stated on the operands alone. */
  lemma PercentageExceeds(part: real, whole: real, bound: real)
    ensures Exceeds(Percentage(part, whole), bound)
        <==> ((whole > 0.0 && part * 100.0 > bound * whole)
              || (whole < 0.0 && part * 100.0 < bound * whole)
              || (whole == 0.0 && part > 0.0))
  {
    if whole != 0.0 {
      var v := part / whole * 100.0;
      PercentageScales(part, whole);
      if whole > 0.0 {
        assert v > bound <==> v * whole > bound * whole;
      } else {
        assert v > bound <==> v * whole < bound * whole;
      }
    }
  }

  /** `int(x)`: truncation toward zero. */
  function TruncateToInt(x: real): (n: int)
    ensures 0.0 <= x ==> n as real <= x < n as real + 1.0
    ensures x < 0.0 ==> n as real - 1.0 < x <= n as real
  {
    if x >= 0.0 then x.Floor else -((-x).Floor)
  }

  // ---------------------------------------------------------------------
  // Sequence helpers

  predicate NoDuplicates<T(==)>(s: seq<T>) {
    forall i, j :: 0 <= i < j < |s| ==> s[i] != s[j]
  }

  /** `list.index(x)`: the position of the first occurrence of `x`. */
  function IndexOf<T(==)>(s: seq<T>, x: T): (i: nat)
    requires x in s
    ensures i < |s| && s[i] == x
    ensures x !in s[..i]
  {
    if s[0] == x then 0
    else
      var j := IndexOf(s[1..], x);
      assert s[..j + 1] == [s[0]] + s[1..][..j];
      j + 1
  }

  /** The position of the first element that passes `p`: the `for ... if
      ...: break` search the source writes out for each kind of entry. */
  function FirstWhere<T>(s: seq<T>, p: T -> bool): (k: Option<nat>)
    ensures k.Some? ==> k.value < |s| && p(s[k.value])
    ensures k.Some? ==> forall j :: 0 <= j < k.value ==> !p(s[j])
    ensures k.None? ==> forall j :: 0 <= j < |s| ==> !p(s[j])
  {
    if s == [] then None
    else if p(s[0]) then Some(0)
    else match FirstWhere(s[1..], p)
         case None => None
         case Some(j) => Some(j + 1)
  }

  /** The positions of the elements a boolean mask keeps (`s[mask]`). */
  function Positions<T>(s: seq<T>, keep: T -> bool): (ks: seq<nat>)
    ensures forall i :: 0 <= i < |ks| ==> ks[i] < |s| && keep(s[ks[i]])
  {
    if s == [] then []
    else
      var n := |s| - 1;
      var init := Positions(s[..n], keep);
      assert forall i :: 0 <= i < |init| ==> s[..n][init[i]] == s[init[i]];
      init + (if keep(s[n]) then [n] else [])
  }

  /** The positions come in ascending order and every position that passes
      the mask is listed. */
  lemma {:induction false} PositionsExact<T>(s: seq<T>, keep: T -> bool)
    ensures var ks := Positions(s, keep);
      && (forall i, j :: 0 <= i < j < |ks| ==> ks[i] < ks[j])
      && (forall k :: 0 <= k < |s| && keep(s[k]) ==> k in ks)
  {
    if s != [] {
      var n := |s| - 1;
      PositionsExact(s[..n], keep);
      forall k | 0 <= k < n && keep(s[k])
        ensures k in Positions(s[..n], keep)
      {
        assert s[..n][k] == s[k];
      }
    }
  }

  /** The middle part of a three-part concatenation. */
  lemma MiddleOf<T>(a: seq<T>, b: seq<T>, c: seq<T>)
    ensures forall i :: 0 <= i < |b| ==> (a + b + c)[|a| + i] == b[i]
  {
  }

  /** The first `n` elements, or all of them when there are fewer (`head(n)`). */
  function Take<T>(s: seq<T>, n: nat): (r: seq<T>)
    ensures |r| <= n && |r| <= |s|
    ensures |r| == if |s| < n then |s| else n
    ensures r == s[..|r|]
  {
    if |s| <= n then s else s[..n]
  }

  /** The last `n` elements, or all of them when there are fewer (`tail(n)`). */
  function Last<T>(s: seq<T>, n: nat): (r: seq<T>)
    ensures |r| == if |s| < n then |s| else n
    ensures r == s[|s| - |r|..]
  {
    if |s| <= n then s else s[|s| - n..]
  }
}
