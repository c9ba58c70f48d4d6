/**
 `Counter` and its optional `CounterDataSource`. A data source may implement
 `incrementForCount(count:)`, `fixedIncrement`, both or neither; `incremetn()`
 prefers the first, falls back to the second, and otherwise leaves the count
 alone. Swift's `Int` is 64 bits wide and `+=` traps on overflow, so an
 increment can also end in a trap.
 */
module Counter {

  import opened Wrappers

  const MinInt: int := -0x8000_0000_0000_0000
  const MaxInt: int := 0x7FFF_FFFF_FFFF_FFFF

  /** Swift's 64-bit `Int`. */
  type Int64 = x: int | MinInt <= x <= MaxInt

  /** A data source: each optional requirement is either implemented or absent. */
  datatype DataSource = DataSource(incrementForCount: Option<Int64 -> Int64>, fixedIncrement: Option<Int64>)

  datatype Counter = Counter(count: Int64, dataSource: Option<DataSource>)

  /** The outcome of one `incremetn()`: the updated counter, or the overflow trap of `+=`. */
  datatype Incremented = Done(counter: Counter) | OverflowTrap

  /** The increment `incremetn()` picks, if any: `incrementForCount` first, then `fixedIncrement`. */
  function Amount(c: Counter): (a: Option<Int64>)
    ensures c.dataSource.None? ==> a.None?
    ensures c.dataSource.Some? && c.dataSource.value.incrementForCount.Some? ==>
      a == Some(c.dataSource.value.incrementForCount.value(c.count))
    ensures c.dataSource.Some? && c.dataSource.value.incrementForCount.None? ==>
      a == c.dataSource.value.fixedIncrement
  {
    match c.dataSource
    case None => None
    case Some(source) =>
      match source.incrementForCount
      case Some(f) => Some(f(c.count))
      case None => source.fixedIncrement
  }

  /** `incremetn()`: add the chosen amount to the count, trapping if the sum leaves `Int`. */
  function Increment(c: Counter): (r: Incremented)
    ensures r.Done? ==> r.counter.dataSource == c.dataSource
    ensures Amount(c).None? ==> r.Done? && r.counter.count == c.count
    ensures Amount(c).Some? ==>
      (r.Done? <==> MinInt <= c.count + Amount(c).value <= MaxInt)
    ensures r.Done? && Amount(c).Some? ==> r.counter.count == c.count + Amount(c).value
  {
    match Amount(c)
    case None => Done(c)
    case Some(amount) =>
      var sum := c.count + amount;
      if MinInt <= sum <= MaxInt then Done(c.(count := sum)) else OverflowTrap
  }

  /** `n` calls of `incremetn()` in a row; a trap ends the run. */
  function IncrementTimes(c: Counter, n: nat): (r: Incremented)
    ensures r.Done? ==> r.counter.dataSource == c.dataSource
    ensures Amount(c).None? ==> r == Done(c)
    decreases n
  {
    if n == 0 then Done(c)
    else match Increment(c)
      case OverflowTrap => OverflowTrap
      case Done(next) => IncrementTimes(next, n - 1)
  }

  /** `ThreeSource`: implements only `fixedIncrement`, as 3. */
  const ThreeSource: DataSource := DataSource(None, Some(3))

  /** `TowardsZeroSource.incrementForCount`: the step that brings the count one closer to 0. */
  function TowardsZeroIncrement(count: Int64): (step: Int64)
    ensures step == 0 <==> count == 0
    ensures count != 0 ==> (step == 1 || step == -1) && (step > 0 <==> count < 0)
  {
    if count == 0 then 0 else if count < 0 then 1 else -1
  }

  /** `TowardsZeroSource`: implements only `incrementForCount`. */
  const TowardsZeroSource: DataSource := DataSource(Some(TowardsZeroIncrement), None)

  function Abs(x: int): nat {
    if x < 0 then -x else x
  }

  /** `x` is not on the other side of 0 from `y`. */
  predicate SameSide(x: int, y: int) {
    (y >= 0 ==> x >= 0) && (y <= 0 ==> x <= 0)
  }

  /** A data source that implements neither requirement leaves the count unchanged. */
  lemma EmptySourceKeepsCount(c: Counter)
    requires c.dataSource == Some(DataSource(None, None))
    ensures Increment(c).Done? && Increment(c).counter == c
  {
  }

  /** `incrementForCount` wins over `fixedIncrement` when a source implements both. */
  lemma IncrementForCountTakesPrecedence(c: Counter, f: Int64 -> Int64, k: Int64)
    requires c.dataSource == Some(DataSource(Some(f), Some(k)))
    ensures Increment(c).OverflowTrap? <==> !(MinInt <= c.count + f(c.count) <= MaxInt)
    ensures Increment(c).Done? ==> Increment(c) == Done(c.(count := c.count + f(c.count)))
  {
  }

  /** With `ThreeSource`, `n` increments add `3 * n`, unless that would pass `Int.max`. */
  lemma {:induction false} ThreeSourceAddsThree(c: Counter, n: nat)
    requires c.dataSource == Some(ThreeSource)
    ensures c.count + 3 * n <= MaxInt ==>
      IncrementTimes(c, n).Done? && IncrementTimes(c, n).counter.count == c.count + 3 * n
    ensures c.count + 3 * n > MaxInt ==> IncrementTimes(c, n) == OverflowTrap
    decreases n
  {
    if n > 0 {
      if c.count + 3 <= MaxInt {
        ThreeSourceAddsThree(c.(count := c.count + 3), n - 1);
      }
    }
  }

  /** One increment with `TowardsZeroSource` moves the count one step toward 0, and never past it. */
  lemma TowardsZeroStep(c: Counter)
    requires c.dataSource == Some(TowardsZeroSource)
    ensures Increment(c).Done?
    ensures Abs(Increment(c).counter.count) == if c.count == 0 then 0 else Abs(c.count) - 1
    ensures SameSide(Increment(c).counter.count, c.count)
  {
  }

  /**
   With `TowardsZeroSource`, `n` increments never trap and bring the count
   `n` steps closer to 0, stopping there: its sign never flips.
   */
  lemma {:induction false} TowardsZeroConverges(c: Counter, n: nat)
    requires c.dataSource == Some(TowardsZeroSource)
    ensures IncrementTimes(c, n).Done?
    ensures var d := IncrementTimes(c, n).counter.count;
      Abs(d) == (if Abs(c.count) >= n then Abs(c.count) - n else 0) && SameSide(d, c.count)
    decreases n
  {
    if n > 0 {
      TowardsZeroStep(c);
      var next := Increment(c).counter;
      TowardsZeroConverges(next, n - 1);
      assert IncrementTimes(c, n) == IncrementTimes(next, n - 1);
    }
  }

  /** The playground's run: five increments from 0 with `ThreeSource` reach 15; from -4 towards zero reach 0. */
  lemma PlaygroundRuns()
    ensures IncrementTimes(Counter(0, Some(ThreeSource)), 5) == Done(Counter(15, Some(ThreeSource)))
    ensures IncrementTimes(Counter(-4, Some(TowardsZeroSource)), 5) == Done(Counter(0, Some(TowardsZeroSource)))
  {
    ThreeSourceAddsThree(Counter(0, Some(ThreeSource)), 5);
    TowardsZeroConverges(Counter(-4, Some(TowardsZeroSource)), 5);
  }
}
