/** The 'drop' transform with a target percentage: transform/tdrop/tdrop.go. */
module PercentageDrop {

  datatype FilterResult = PASS | DROP

  /** Matched and dropped totals, both zero at start. */
  datatype Totals = Totals(matched: nat, dropped: nat)

  const START := Totals(0, 0)

  /** Decides one record; the percentage is from 1 to 100. */
  function Decide(rate: nat, t: Totals, matches: bool): (Totals, FilterResult)
  {
    if !matches then (t, PASS)
    else if rate == 100 then (t, DROP)
    else if t.matched > 0 && 100 * t.dropped / t.matched < rate then
      (Totals(t.matched + 1, t.dropped + 1), DROP)
    else
      (Totals(t.matched + 1, t.dropped), PASS)
  }

  /** The transform object; `matches` stands for the outcome of its record matcher. */
  class DropTransform {
    const targetRate: nat
    var totalMatched: nat
    var totalDropped: nat

    constructor (percentage: nat)
      requires 1 <= percentage <= 100
      ensures targetRate == percentage && State() == START
    {
      targetRate := percentage;
      totalMatched, totalDropped := 0, 0;
    }

    function State(): Totals
      reads this
    {
      Totals(totalMatched, totalDropped)
    }

    method Transform(matches: bool) returns (result: FilterResult)
      modifies this
      ensures (State(), result) == Decide(targetRate, old(State()), matches)
    {
      if !matches {
        return PASS;
      }
      if targetRate == 100 {
        return DROP;
      }
      if totalMatched > 0 && 100 * totalDropped / totalMatched < targetRate {
        totalMatched := totalMatched + 1;
        totalDropped := totalDropped + 1;
        return DROP;
      }
      totalMatched := totalMatched + 1;
      return PASS;
    }
  }

  /** Totals after a run of records, told by whether each one matches. */
  function After(rate: nat, t: Totals, records: seq<bool>): Totals
    decreases records
  {
    if records == [] then t else After(rate, Decide(rate, t, records[0]).0, records[1..])
  }

  /** How many of a run of records are dropped. */
  function Dropped(rate: nat, t: Totals, records: seq<bool>): nat
    decreases records
  {
    if records == [] then 0
    else
      var (next, result) := Decide(rate, t, records[0]);
      (if result == DROP then 1 else 0) + Dropped(rate, next, records[1..])
  }

  function CountMatched(records: seq<bool>): nat {
    if records == [] then 0 else (if records[0] then 1 else 0) + CountMatched(records[1..])
  }

  /** The dropped share never strays from the target by a whole record. */
  ghost predicate Balanced(rate: nat, t: Totals) {
    if t.matched == 0 then t.dropped == 0
    else rate * t.matched <= 100 * t.dropped + rate <= rate * t.matched + 99
  }

  lemma Distribute(a: int, b: int, c: int)
    ensures a * (b + c) == a * b + a * c
  {
  }

  lemma QuotientBelow(a: nat, m: nat, rate: nat)
    requires m > 0
    ensures a / m < rate <==> a < rate * m
  {
    var q, e := a / m, rate - a / m;
    assert a == m * q + a % m;
    Distribute(m, q, e);
    if e > 0 {
      assert m * e >= m;
    } else {
      assert m * e <= 0;
    }
  }

  /** One record keeps the balance. */
  lemma DecideBalanced(rate: nat, t: Totals, matches: bool)
    requires 1 <= rate <= 99 && Balanced(rate, t)
    ensures Balanced(rate, Decide(rate, t, matches).0)
  {
    if matches && t.matched > 0 {
      QuotientBelow(100 * t.dropped, t.matched, rate);
    }
    Distribute(rate, t.matched, 1);
  }

  /** Over any run the balance is kept and the totals count what was matched and dropped. */
  lemma {:induction false} AfterBalanced(rate: nat, t: Totals, records: seq<bool>)
    requires 1 <= rate <= 99 && Balanced(rate, t)
    decreases records
    ensures var e := After(rate, t, records);
            && Balanced(rate, e)
            && e.matched == t.matched + CountMatched(records)
            && e.dropped == t.dropped + Dropped(rate, t, records)
  {
    if records != [] {
      DecideBalanced(rate, t, records[0]);
      AfterBalanced(rate, Decide(rate, t, records[0]).0, records[1..]);
    }
  }

  /** The balance leaves no choice: it is the rounded-up share of all matched records but the first. */
  lemma BalancedIsShare(rate: nat, t: Totals)
    requires 1 <= rate <= 99 && Balanced(rate, t) && t.matched >= 1
    ensures t.dropped == (rate * (t.matched - 1) + 99) / 100
  {
  }

  /** Drops after any run from start, at a rate below 100: the target share rounded up, one record late. */
  lemma DropsAreTheTargetShare(rate: nat, records: seq<bool>)
    requires 1 <= rate <= 99
    ensures var m := CountMatched(records);
            Dropped(rate, START, records) == if m == 0 then 0 else (rate * (m - 1) + 99) / 100
  {
    AfterBalanced(rate, START, records);
    var e := After(rate, START, records);
    if e.matched >= 1 {
      BalancedIsShare(rate, e);
    }
  }

  /** Any stretch with exactly 100 matched records, after any history, loses exactly the target number. */
  lemma EveryHundredLosesTheRate(rate: nat, history: seq<bool>, window: seq<bool>)
    requires 1 <= rate <= 99 && CountMatched(window) == 100
    ensures Dropped(rate, After(rate, START, history), window) == rate
  {
    AfterBalanced(rate, START, history);
    var t := After(rate, START, history);
    AfterBalanced(rate, t, window);
    var e := After(rate, t, window);
    BalancedIsShare(rate, e);
    Distribute(rate, t.matched, 99);
    if t.matched >= 1 {
      BalancedIsShare(rate, t);
      Distribute(rate, t.matched - 1, 100);
    }
  }

  /** At 100 percent every matched record is dropped and every other one passes. */
  lemma {:induction false} FullRateDropsAllMatched(t: Totals, records: seq<bool>)
    ensures Dropped(100, t, records) == CountMatched(records)
    decreases records
  {
    if records != [] {
      FullRateDropsAllMatched(t, records[1..]);
    }
  }
}
