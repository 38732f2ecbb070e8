/** Optional values, used for lookups that can miss and operations that can fail. */
module Wrappers {
  datatype Option<+T> = None | Some(value: T)
}

/**
 * Calendar-month identifiers: the `YYYY-MM` keys of the month snapshots and the
 * one-month steps `moment(k).add(1, 'M')` / `moment(k).subtract(1, 'M')`.
 */
module MonthKeys {
  import opened Wrappers

  datatype YearMonth = YearMonth(year: int, month: int)

  /** A month key: any year, a month from 1 (January) to 12 (December). */
  type MonthKey = k: YearMonth | 1 <= k.month <= 12 witness YearMonth(1970, 1)

  /** Position of a month on the time line; chronological order is the order of indices. */
  function Index(k: MonthKey): int {
    k.year * 12 + (k.month - 1)
  }

  lemma IndexInjective(a: MonthKey, b: MonthKey)
    requires Index(a) == Index(b)
    ensures a == b
  {
  }

  lemma IndexDistinct(a: MonthKey, b: MonthKey)
    requires a != b
    ensures Index(a) != Index(b)
  {
  }

  /** The following month; December steps into January of the next year. */
  function Next(k: MonthKey): (r: MonthKey)
    ensures Index(r) == Index(k) + 1
  {
    if k.month == 12 then YearMonth(k.year + 1, 1) else YearMonth(k.year, k.month + 1)
  }

  /** The preceding month; January steps back into December of the previous year. */
  function Prev(k: MonthKey): (r: MonthKey)
    ensures Index(r) == Index(k) - 1
  {
    if k.month == 1 then YearMonth(k.year - 1, 12) else YearMonth(k.year, k.month - 1)
  }

  lemma PrevNext(k: MonthKey)
    ensures Prev(Next(k)) == k && Next(Prev(k)) == k
  {
    IndexInjective(Prev(Next(k)), k);
    IndexInjective(Next(Prev(k)), k);
  }

  /** `n` steps forward from `k`. */
  function NextN(k: MonthKey, n: nat): MonthKey
    decreases n
  {
    if n == 0 then k else Next(NextN(k, n - 1))
  }

  lemma {:induction false} NextNIndex(k: MonthKey, n: nat)
    ensures Index(NextN(k, n)) == Index(k) + n
    decreases n
  {
    if n > 0 {
      NextNIndex(k, n - 1);
    }
  }

  /**
   * Stepping forward from `from` reaches `to` after exactly `Index(to) - Index(from)`
   * steps, and no earlier step lands on `to`.
   */
  lemma StepsReach(from: MonthKey, to: MonthKey)
    requires Index(from) <= Index(to)
    ensures NextN(from, Index(to) - Index(from)) == to
    ensures forall n: nat :: n < Index(to) - Index(from) ==> NextN(from, n) != to
  {
    NextNIndex(from, Index(to) - Index(from));
    IndexInjective(NextN(from, Index(to) - Index(from)), to);
    forall n: nat | n < Index(to) - Index(from)
      ensures NextN(from, n) != to
    {
      NextNIndex(from, n);
    }
  }

  /**
   * A walk that starts after `stop` never meets it: stepping forward from a month
   * later than `stop` never produces `stop`, however many steps are taken.
   */
  lemma StepsNeverReach(from: MonthKey, stop: MonthKey, n: nat)
    requires Index(stop) < Index(from)
    ensures NextN(from, n) != stop
  {
    NextNIndex(from, n);
  }

  /* ---------- the `YYYY-MM` text form ---------- */

  function Digit(d: int): (c: char)
    requires 0 <= d <= 9
    ensures '0' <= c <= '9'
  {
    (48 + d) as char
  }

  function DigitValue(c: char): (r: Option<int>)
    ensures r.Some? <==> '0' <= c <= '9'
    ensures r.Some? ==> 0 <= r.value <= 9 && Digit(r.value) == c
  {
    if '0' <= c <= '9' then Some(c as int - 48) else None
  }

  /** `moment(k).format('YYYY-MM')`: four-digit year, dash, two-digit zero-padded month. */
  function Format(k: MonthKey): (s: string)
    requires 0 <= k.year <= 9999
    ensures |s| == 7 && s[4] == '-'
  {
    var y := k.year;
    [Digit(y / 10 / 10 / 10), Digit(y / 10 / 10 % 10), Digit(y / 10 % 10), Digit(y % 10),
     '-', Digit(k.month / 10), Digit(k.month % 10)]
  }

  /** The decimal digits of a number below 10000, most significant first, rebuild it. */
  lemma DigitsOf(y: int)
    requires 0 <= y <= 9999
    ensures 0 <= y / 10 / 10 / 10 <= 9
    ensures y == y / 10 / 10 / 10 * 1000 + y / 10 / 10 % 10 * 100 + y / 10 % 10 * 10 + y % 10
  {
    var q1 := y / 10;
    var q2 := q1 / 10;
    assert y == q1 * 10 + y % 10;
    assert q1 == q2 * 10 + q1 % 10;
    assert q2 == q2 / 10 * 10 + q2 % 10;
  }

  /** Four decimal digits determine the number they spell, and its digits are them. */
  lemma DigitsRebuild(d3: int, d2: int, d1: int, d0: int)
    requires 0 <= d3 <= 9 && 0 <= d2 <= 9 && 0 <= d1 <= 9 && 0 <= d0 <= 9
    ensures var y := d3 * 1000 + d2 * 100 + d1 * 10 + d0;
      y / 10 / 10 / 10 == d3 && y / 10 / 10 % 10 == d2 && y / 10 % 10 == d1 && y % 10 == d0
  {
    var y := d3 * 1000 + d2 * 100 + d1 * 10 + d0;
    assert y / 10 == d3 * 100 + d2 * 10 + d1;
    assert y / 10 / 10 == d3 * 10 + d2;
  }

  /** Reads a canonical `YYYY-MM` key; anything else is rejected. */
  function Parse(s: string): (r: Option<MonthKey>)
    ensures r.Some? ==> 0 <= r.value.year <= 9999
  {
    if |s| != 7 || s[4] != '-' then None
    else
      match (DigitValue(s[0]), DigitValue(s[1]), DigitValue(s[2]), DigitValue(s[3]), DigitValue(s[5]), DigitValue(s[6]))
      case (Some(y3), Some(y2), Some(y1), Some(y0), Some(m1), Some(m0)) =>
        var month := m1 * 10 + m0;
        if 1 <= month <= 12 then Some(YearMonth(y3 * 1000 + y2 * 100 + y1 * 10 + y0, month)) else None
      case _ => None
  }

  lemma ParseFormat(k: MonthKey)
    requires 0 <= k.year <= 9999
    ensures Parse(Format(k)) == Some(k)
  {
    var s, y := Format(k), k.year;
    DigitsOf(y);
    assert DigitValue(s[0]) == Some(y / 10 / 10 / 10);
    assert DigitValue(s[1]) == Some(y / 10 / 10 % 10);
    assert DigitValue(s[2]) == Some(y / 10 % 10);
    assert DigitValue(s[3]) == Some(y % 10);
    assert DigitValue(s[5]) == Some(k.month / 10);
    assert DigitValue(s[6]) == Some(k.month % 10);
  }

  lemma FormatParse(s: string)
    requires Parse(s).Some?
    ensures Format(Parse(s).value) == s
  {
    var k := Parse(s).value;
    var y3, y2, y1, y0 := DigitValue(s[0]).value, DigitValue(s[1]).value, DigitValue(s[2]).value, DigitValue(s[3]).value;
    var m1, m0 := DigitValue(s[5]).value, DigitValue(s[6]).value;
    DigitsRebuild(y3, y2, y1, y0);
    DigitsRebuild(0, 0, m1, m0);
    assert k.year == y3 * 1000 + y2 * 100 + y1 * 10 + y0;
    assert k.month == m1 * 10 + m0;
    assert Format(k) == s;
  }

  /**
   * Distinct keys have distinct texts, so the source's string comparison of
   * formatted keys decides the same thing as comparing the keys themselves.
   */
  lemma FormatInjective(a: MonthKey, b: MonthKey)
    requires 0 <= a.year <= 9999 && 0 <= b.year <= 9999
    ensures Format(a) == Format(b) <==> a == b
  {
    ParseFormat(a);
    ParseFormat(b);
  }
}
