/** Progressive tax tables: the rate of one's bracket less a deduction, against what each bracket
    adds for the part of the base that lies in it. */
module Taxes {
  import opened Wrappers

  const Man: real := 10000.0
  const Eok: real := 100000000.0

  /** A bracket up to `top`, or without end. */
  datatype Row = Row(top: Option<real>, rate: real, deduction: real) {
    predicate Holds(x: real) { top.Some? ==> x <= top.value }
  }

  function Times(a: real, b: real): real { a * b }

  // ---- Looking up a bracket ----

  /** The first row from k on that holds x, or the last. */
  function RowFrom(table: seq<Row>, x: real, k: nat): (j: nat)
    requires k < |table|
    ensures k <= j < |table|
    ensures forall i | k <= i < j :: !table[i].Holds(x)
    ensures table[j].Holds(x) || j == |table| - 1
    decreases |table| - k
  {
    if table[k].Holds(x) || k == |table| - 1 then k else RowFrom(table, x, k + 1)
  }

  method Lookup(table: seq<Row>, x: real) returns (row: Row)
    requires |table| > 0
    ensures row == table[RowFrom(table, x, 0)]
  {
    for k := 0 to |table|
      invariant k < |table| ==> RowFrom(table, x, 0) == RowFrom(table, x, k)
      invariant k == |table| ==> RowFrom(table, x, 0) == |table| - 1
    {
      if table[k].Holds(x) {
        return table[k];
      }
    }
    row := table[|table| - 1];
  }

  function Progressive(table: seq<Row>, base: real): real
    requires |table| > 0
  {
    if base <= 0.0 then 0.0
    else
      var row := table[RowFrom(table, base, 0)];
      var tax := Times(base, row.rate) - row.deduction;
      if tax > 0.0 then tax else 0.0
  }

  /** The quick form; with deductions that fit, it is the sum of the marginal taxes. */
  method Tax(table: seq<Row>, base: real) returns (tax: real)
    requires |table| > 0
    ensures tax == Progressive(table, base)
    ensures Brackets(table) && Fits(table) && base > 0.0 ==> tax == Marginal(table, base, |table|)
  {
    if Brackets(table) && Fits(table) && base > 0.0 {
      FitsAt(table, base);
    }
    if base <= 0.0 {
      return 0.0;
    }
    var row := Lookup(table, base);
    tax := base * row.rate - row.deduction;
    if tax < 0.0 {
      tax := 0.0;
    }
  }

  // ---- Marginal slices ----

  /** Where the j-th bracket begins. */
  function Bottom(table: seq<Row>, j: nat): real
    requires j < |table|
  {
    if j == 0 then 0.0 else if table[j - 1].top.Some? then table[j - 1].top.value else 0.0
  }

  /** The part of x that lies in the j-th bracket. */
  function Slice(table: seq<Row>, x: real, j: nat): real
    requires j < |table|
  {
    var lo := Bottom(table, j);
    if x <= lo then 0.0 else if table[j].Holds(x) then x - lo else table[j].top.value - lo
  }

  /** What the first n brackets add. */
  function Marginal(table: seq<Row>, x: real, n: nat): real
    requires n <= |table|
  {
    if n == 0 then 0.0 else Marginal(table, x, n - 1) + Times(table[n - 1].rate, Slice(table, x, n - 1))
  }

  /** Brackets follow each other from 0 on, the last without end; every rate is positive. */
  ghost predicate Brackets(table: seq<Row>) {
    && |table| > 0 && table[|table| - 1].top.None?
    && (forall j | 0 <= j < |table| - 1 :: table[j].top.Some? && Bottom(table, j) < table[j].top.value)
    && (forall j | 0 <= j < |table| :: table[j].rate > 0.0)
  }

  /** The deduction that makes the j-th bracket go on where the one before ended. */
  function Deduction(table: seq<Row>, j: nat): real
    requires j < |table|
  {
    if j == 0 then 0.0
    else Deduction(table, j - 1) + Times(Bottom(table, j), table[j].rate - table[j - 1].rate)
  }

  lemma {:induction false} BottomsAscend(table: seq<Row>, i: nat, j: nat)
    requires Brackets(table) && i <= j < |table|
    ensures 0.0 <= Bottom(table, i) <= Bottom(table, j)
    ensures (i < j ==> table[i].top.Some? && table[i].top.value <= Bottom(table, j))
    decreases j
  {
    if i < j {
      BottomsAscend(table, i, j - 1);
      assert table[j - 1].top.Some? && Bottom(table, j - 1) < table[j - 1].top.value;
    } else if j > 0 {
      BottomsAscend(table, j - 1, j - 1);
      assert table[j - 1].top.Some? && Bottom(table, j - 1) < table[j - 1].top.value;
    }
  }

  /** Within a bracket the slices add up to a straight line. */
  lemma {:induction false} FullBrackets(table: seq<Row>, x: real, j: nat)
    requires Brackets(table) && j < |table| && Bottom(table, j) < x
    ensures Marginal(table, x, j) == Times(Bottom(table, j), table[j].rate) - Deduction(table, j)
    decreases j
  {
    hide Times;
    if j == 0 {
      Nothing(table[0].rate);
    } else {
      BottomsAscend(table, j - 1, j);
      assert Bottom(table, j - 1) < table[j - 1].top.value == Bottom(table, j);
      FullBrackets(table, x, j - 1);
      Line(Bottom(table, j - 1), Bottom(table, j), table[j - 1].rate, table[j].rate);
    }
  }

  lemma Nothing(r: real)
    ensures Times(0.0, r) == 0.0 && Times(r, 0.0) == 0.0
  {
  }

  lemma Line(a: real, b: real, r: real, s: real)
    ensures Times(a, r) + Times(r, b - a) == Times(b, s) - Times(b, s - r)
  {
  }

  lemma {:induction false} EmptyBrackets(table: seq<Row>, x: real, j: nat, n: nat)
    requires Brackets(table) && j < n <= |table| && table[j].Holds(x)
    ensures Marginal(table, x, n) == Marginal(table, x, j + 1)
    decreases n
  {
    if j + 1 < n {
      EmptyBrackets(table, x, j, n - 1);
      BottomsAscend(table, j, n - 1);
    }
  }

  /** Where x lies, and what its own bracket adds. */
  lemma OwnBracket(table: seq<Row>, x: real)
    requires Brackets(table) && x > 0.0
    ensures var j := RowFrom(table, x, 0);
            && Bottom(table, j) < x && table[j].Holds(x) && Slice(table, x, j) == x - Bottom(table, j)
  {
    hide Deduction, Marginal;
    var j := RowFrom(table, x, 0);
    if j > 0 {
      assert !table[j - 1].Holds(x);
    }
  }

  lemma MarginalIsLine(table: seq<Row>, x: real)
    requires Brackets(table) && x > 0.0
    ensures var j := RowFrom(table, x, 0);
            Marginal(table, x, |table|) == Times(x, table[j].rate) - Deduction(table, j)
  {
    assert |table| > 0;
    hide Marginal, Slice, Deduction, Bottom, RowFrom, Brackets, Times;
    var j := RowFrom(table, x, 0);
    OwnBracket(table, x);
    FullBrackets(table, x, j);
    EmptyBrackets(table, x, j, |table|);
    MarginalSteps(table, x, j + 1);
    Onward(Bottom(table, j), x, table[j].rate, Deduction(table, j), Slice(table, x, j));
  }

  lemma Onward(a: real, x: real, r: real, d: real, s: real)
    requires s == x - a
    ensures Times(a, r) - d + Times(r, s) == Times(x, r) - d
  {
  }

  lemma {:induction false} MarginalIsPositive(table: seq<Row>, x: real, n: nat)
    requires Brackets(table) && x > 0.0 && n <= |table|
    ensures Marginal(table, x, n) >= 0.0 && (n > 0 ==> Marginal(table, x, n) > 0.0)
    decreases n
  {
    if n > 0 {
      MarginalIsPositive(table, x, n - 1);
      BottomsAscend(table, 0, n - 1);
      SliceSign(table, x, n - 1);
      Signs(table[n - 1].rate, Slice(table, x, n - 1));
    }
  }

  lemma SliceSign(table: seq<Row>, x: real, j: nat)
    requires Brackets(table) && j < |table|
    ensures Slice(table, x, j) >= 0.0 && (x > 0.0 && j == 0 ==> Slice(table, x, j) > 0.0)
  {
  }

  lemma Signs(a: real, b: real)
    requires a > 0.0 && b >= 0.0
    ensures Times(a, b) >= 0.0 && (b > 0.0 ==> Times(a, b) > 0.0)
  {
  }

  /** Rate times base less the deduction is the sum of the marginal slices for every positive base,
      exactly when every deduction makes its bracket go on where the one before ended. */
  lemma ProgressiveIsMarginal(table: seq<Row>)
    requires Brackets(table)
    ensures (forall x: real :: x > 0.0 ==> Progressive(table, x) == Marginal(table, x, |table|)) <==> Fits(table)
  {
    assert |table| > 0;
    hide Marginal, Progressive, Fits, Brackets;
    if Fits(table) {
      forall x: real | x > 0.0 ensures Progressive(table, x) == Marginal(table, x, |table|) {
        FitsAt(table, x);
      }
    }
    if forall x: real :: x > 0.0 ==> Progressive(table, x) == Marginal(table, x, |table|) {
      forall j: nat | j < |table| ensures table[j].deduction == Deduction(table, j) {
        var x := Sample(table, j);
        MustFit(table, x);
      }
      AllFit(table);
    }
  }

  ghost predicate Fits(table: seq<Row>) { forall j: nat | j < |table| :: table[j].deduction == Deduction(table, j) }

  lemma AllFit(table: seq<Row>)
    requires forall j: nat | j < |table| :: table[j].deduction == Deduction(table, j)
    ensures Fits(table)
  {
  }

  lemma FitsAt(table: seq<Row>, x: real)
    requires Brackets(table) && Fits(table) && x > 0.0
    ensures Progressive(table, x) == Marginal(table, x, |table|)
  {
    assert |table| > 0;
    hide Marginal, Deduction, Brackets, Bottom, Times;
    MarginalIsLine(table, x);
    MarginalIsPositive(table, x, |table|);
    var j := RowFrom(table, x, 0);
    assert table[j].deduction == Deduction(table, j);
  }

  lemma MustFit(table: seq<Row>, x: real)
    requires Brackets(table) && x > 0.0 && Progressive(table, x) == Marginal(table, x, |table|)
    ensures var j := RowFrom(table, x, 0); table[j].deduction == Deduction(table, j)
  {
    assert |table| > 0;
    hide Marginal, Deduction, Brackets, Bottom, Times;
    MarginalIsLine(table, x);
    MarginalIsPositive(table, x, |table|);
  }

  /** A base in the j-th bracket. */
  lemma Sample(table: seq<Row>, j: nat) returns (x: real)
    requires Brackets(table) && j < |table|
    ensures x > 0.0 && RowFrom(table, x, 0) == j
  {
    BottomsAscend(table, 0, j);
    x := if table[j].top.Some? then table[j].top.value else Bottom(table, j) + 1.0;
    var k := RowFrom(table, x, 0);
    if k < j {
      BottomsAscend(table, k, j);
    }
  }

  // ---- Continuity ----

  lemma {:induction false} SlicesAddUp(table: seq<Row>, x: real, n: nat)
    requires Brackets(table) && 0 < n <= |table| && x >= 0.0
    ensures Slices(table, x, n) == if table[n - 1].Holds(x) then x else table[n - 1].top.value
    decreases n
  {
    if n > 1 {
      SlicesAddUp(table, x, n - 1);
      BottomsAscend(table, n - 2, n - 1);
    }
    BottomsAscend(table, 0, n - 1);
  }

  /** The parts of x in the first n brackets together. */
  function Slices(table: seq<Row>, x: real, n: nat): real
    requires n <= |table|
  {
    if n == 0 then 0.0 else Slices(table, x, n - 1) + Slice(table, x, n - 1)
  }

  lemma SliceGrows(table: seq<Row>, x: real, y: real, j: nat)
    requires Brackets(table) && j < |table| && x <= y
    ensures Slice(table, x, j) <= Slice(table, y, j)
  {
  }

  lemma {:induction false} GrowthBounded(table: seq<Row>, x: real, y: real, top: real, n: nat)
    requires Brackets(table) && x <= y && n <= |table| && forall j | 0 <= j < |table| :: table[j].rate <= top
    ensures 0.0 <= Marginal(table, y, n) - Marginal(table, x, n)
    ensures Marginal(table, y, n) - Marginal(table, x, n) <= Times(top, Slices(table, y, n) - Slices(table, x, n))
    decreases n
  {
    hide Slice, Brackets, Bottom, Marginal, Slices, Times;
    MarginalSteps(table, x, n);
    MarginalSteps(table, y, n);
    if n > 0 {
      GrowthBounded(table, x, y, top, n - 1);
      SliceGrows(table, x, y, n - 1);
      PositiveRate(table, n - 1);
      Spread(table[n - 1].rate, top, Slice(table, x, n - 1), Slice(table, y, n - 1));
      Add(top, Slices(table, y, n - 1) - Slices(table, x, n - 1), Slice(table, y, n - 1) - Slice(table, x, n - 1),
          Slices(table, y, n) - Slices(table, x, n));
    } else {
      Add(top, 0.0, 0.0, Slices(table, y, n) - Slices(table, x, n));
    }
  }

  lemma PositiveRate(table: seq<Row>, j: nat)
    requires Brackets(table) && j < |table|
    ensures table[j].rate > 0.0
  {
  }

  lemma MarginalSteps(table: seq<Row>, x: real, n: nat)
    requires n <= |table|
    ensures n == 0 ==> Marginal(table, x, n) == 0.0 && Slices(table, x, n) == 0.0
    ensures n > 0 ==>
              Marginal(table, x, n) == Marginal(table, x, n - 1) + Times(table[n - 1].rate, Slice(table, x, n - 1))
    ensures n > 0 ==> Slices(table, x, n) == Slices(table, x, n - 1) + Slice(table, x, n - 1)
  {
  }

  lemma Spread(r: real, top: real, a: real, b: real)
    requires 0.0 < r <= top && a <= b
    ensures 0.0 <= Times(r, b) - Times(r, a) <= Times(top, b - a)
  {
    NonNegative(r, b - a);
    NonNegative(top - r, b - a);
    assert r * (b - a) == r * b - r * a;
    assert (top - r) * (b - a) == top * (b - a) - r * (b - a);
  }

  lemma NonNegative(a: real, b: real)
    requires a >= 0.0 && b >= 0.0
    ensures a * b >= 0.0
  {
  }

  lemma Add(t: real, a: real, b: real, c: real)
    requires c == a + b
    ensures Times(t, a) + Times(t, b) == Times(t, c)
  {
  }

  lemma NotEmpty(table: seq<Row>)
    requires Brackets(table)
    ensures |table| > 0 && table[|table| - 1].top.None?
  {
  }

  /** The marginal tax never falls and grows no faster than the highest rate: it has no jumps. */
  lemma NoJumps(table: seq<Row>, x: real, y: real, top: real)
    requires Brackets(table) && 0.0 <= x <= y && forall j | 0 <= j < |table| :: table[j].rate <= top
    ensures 0.0 <= Marginal(table, y, |table|) - Marginal(table, x, |table|) <= top * (y - x)
  {
    hide Marginal, Slices, Brackets;
    NotEmpty(table);
    GrowthBounded(table, x, y, top, |table|);
    SlicesAddUp(table, x, |table|);
    SlicesAddUp(table, y, |table|);
    assert table[|table| - 1].Holds(x) && table[|table| - 1].Holds(y);
    assert Slices(table, y, |table|) - Slices(table, x, |table|) == y - x;
    assert Times(top, Slices(table, y, |table|) - Slices(table, x, |table|)) == Times(top, y - x) == top * (y - x);
  }

  // ---- The tables ----

  const PropertyStandard: seq<Row> :=
    [Row(Some(6000.0 * Man), 0.001, 0.0), Row(Some(1.5 * Eok), 0.0015, 3.0 * Man),
     Row(Some(3.0 * Eok), 0.0025, 18.0 * Man), Row(None, 0.004, 63.0 * Man)]

  const PropertySpecial: seq<Row> :=
    [Row(Some(6000.0 * Man), 0.0005, 0.0), Row(Some(1.5 * Eok), 0.001, 3.0 * Man),
     Row(Some(3.0 * Eok), 0.002, 18.0 * Man), Row(None, 0.0035, 63.0 * Man)]

  const Comprehensive: seq<Row> :=
    [Row(Some(3.0 * Eok), 0.005, 0.0), Row(Some(6.0 * Eok), 0.007, 60.0 * Man),
     Row(Some(12.0 * Eok), 0.01, 240.0 * Man), Row(Some(25.0 * Eok), 0.013, 600.0 * Man),
     Row(Some(50.0 * Eok), 0.015, 1100.0 * Man), Row(Some(94.0 * Eok), 0.02, 3600.0 * Man),
     Row(None, 0.027, 10180.0 * Man)]

  const ComprehensiveHeavy: seq<Row> :=
    [Row(Some(3.0 * Eok), 0.005, 0.0), Row(Some(6.0 * Eok), 0.007, 60.0 * Man),
     Row(Some(12.0 * Eok), 0.01, 240.0 * Man), Row(Some(25.0 * Eok), 0.02, 1440.0 * Man),
     Row(Some(50.0 * Eok), 0.03, 3940.0 * Man), Row(Some(94.0 * Eok), 0.04, 8940.0 * Man),
     Row(None, 0.05, 18340.0 * Man)]

  const Transfer: seq<Row> :=
    [Row(Some(1400.0 * Man), 0.06, 0.0), Row(Some(5000.0 * Man), 0.15, 126.0 * Man),
     Row(Some(8800.0 * Man), 0.24, 576.0 * Man), Row(Some(1.5 * Eok), 0.35, 1544.0 * Man),
     Row(Some(3.0 * Eok), 0.38, 1994.0 * Man), Row(Some(5.0 * Eok), 0.40, 2594.0 * Man),
     Row(Some(10.0 * Eok), 0.42, 3594.0 * Man), Row(None, 0.45, 6594.0 * Man)]

  ghost predicate IsTable(table: seq<Row>) {
    table == PropertyStandard || table == PropertySpecial || table == Comprehensive || table == ComprehensiveHeavy
    || table == Transfer
  }

  /** In each of the five tables the deductions are the ones that make it continuous. */
  lemma TablesFit(table: seq<Row>)
    requires IsTable(table)
    ensures Brackets(table) && Fits(table) && forall j: nat | j < |table| :: table[j].rate <= 0.45
  {
    TableBrackets(table);
    DeductionsFit(table, |table|);
  }

  lemma TableBrackets(table: seq<Row>)
    requires IsTable(table)
    ensures Brackets(table) && forall j: nat | j < |table| :: table[j].rate <= 0.45
  {
  }

  lemma {:induction false} DeductionsFit(table: seq<Row>, n: nat)
    requires IsTable(table) && n <= |table|
    ensures forall j: nat | j < n :: table[j].deduction == Deduction(table, j)
    decreases n
  {
    if n > 0 {
      DeductionsFit(table, n - 1);
    }
  }

  /** Each of the five taxes is the sum of its marginal slices for every positive base; it never falls
      and has no jumps. */
  lemma TablesAreMarginal(table: seq<Row>, x: real, y: real)
    requires IsTable(table) && 0.0 < x <= y
    ensures Progressive(table, x) == Marginal(table, x, |table|)
    ensures 0.0 <= Progressive(table, y) - Progressive(table, x) <= 0.45 * (y - x)
  {
    TablesFit(table);
    hide IsTable, Marginal, Progressive, Brackets, Fits;
    FitsAt(table, x);
    FitsAt(table, y);
    NoJumps(table, x, y, 0.45);
  }

  lemma RowSteps(table: seq<Row>, x: real, k: nat)
    requires k < |table|
    ensures RowFrom(table, x, k) == if table[k].Holds(x) || k == |table| - 1 then k else RowFrom(table, x, k + 1)
  {
  }

  /** The amounts the engine's own tests expect: property tax on homes of 300 million and two billion won, tax on
      gains of 57.5 and 497.5 million. */
  lemma TestedTaxes()
    ensures Progressive(PropertySpecial, 129000000.0) == 99000.0
    ensures Progressive(PropertyStandard, 900000000.0) == 2970000.0
    ensures Progressive(Transfer, 57500000.0) == 8040000.0
    ensures Progressive(Transfer, 497500000.0) == 497500000.0 * 0.4 - 25940000.0
  {
    hide RowFrom;
    RowSteps(PropertySpecial, 129000000.0, 0);
    RowSteps(PropertySpecial, 129000000.0, 1);
    PropertyRow();
    LowerGains();
    HigherGains();
  }

  lemma PropertyRow()
    ensures RowFrom(PropertyStandard, 900000000.0, 0) == 3
  {
    hide RowFrom;
    RowSteps(PropertyStandard, 900000000.0, 0);
    RowSteps(PropertyStandard, 900000000.0, 1);
    RowSteps(PropertyStandard, 900000000.0, 2);
    RowSteps(PropertyStandard, 900000000.0, 3);
  }

  lemma LowerGains()
    ensures RowFrom(Transfer, 57500000.0, 0) == 2
  {
    hide RowFrom;
    RowSteps(Transfer, 57500000.0, 0);
    RowSteps(Transfer, 57500000.0, 1);
    RowSteps(Transfer, 57500000.0, 2);
  }

  lemma HigherGains()
    ensures RowFrom(Transfer, 497500000.0, 0) == 5
  {
    hide RowFrom;
    RowSteps(Transfer, 497500000.0, 0);
    RowSteps(Transfer, 497500000.0, 1);
    RowSteps(Transfer, 497500000.0, 2);
    RowSteps(Transfer, 497500000.0, 3);
    RowSteps(Transfer, 497500000.0, 4);
    RowSteps(Transfer, 497500000.0, 5);
  }
}
