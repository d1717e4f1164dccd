/** The mortgage a buyer may take: the caps on the loan, and the bound on what its repayment may cost
    in a year. */
module Lending {
  import opened Amortisation

  const Eok: real := 100000000.0

  // ---- A year's repayments ----

  function Min(a: nat, b: nat): nat { if a <= b then a else b }

  /** The first payments of a schedule, up to t of them. */
  function FirstPayments(principal: real, rate: real, n: nat, how: Repayment, t: nat): real
    requires rate >= 0.0
  {
    if t == 0 || n == 0 then 0.0
    else FirstPayments(principal, rate, n, how, t - 1) + PaymentAt(principal, rate, n, how, t - 1)
  }

  /** What a loan costs in its first year. */
  function DebtService(principal: real, rate: real, n: nat, how: Repayment): real
    requires rate >= 0.0
  {
    if principal <= 0.0 then 0.0
    else if how == EqualPrincipal then FirstPayments(principal, rate, n, how, Min(12, n))
    else Pmt(principal, rate, n) * 12.0
  }

  method AnnualDebtService(principal: real, rate: real, n: nat, how: Repayment) returns (r: real)
    requires rate >= 0.0
    ensures r == DebtService(principal, rate, n, how)
  {
    if principal <= 0.0 {
      return 0.0;
    }
    if how == EqualPrincipal {
      var payment, interest, balance := Schedule(principal, rate, n, how);
      r := 0.0;
      for k := 0 to Min(12, n)
        invariant r == FirstPayments(principal, rate, n, how, k)
      {
        r := r + payment[k];
      }
      return;
    }
    r := Pmt(principal, rate, n) * 12.0;
  }

  /** What one unit of principal costs in the k-th month, with equal parts. */
  function UnitCost(rate: real, n: nat, k: nat): real
    requires rate >= 0.0 && k < n
  {
    (1.0 + rate / 12.0 * ((n - k) as real)) / (n as real)
  }

  function UnitCosts(rate: real, n: nat, t: nat): real
    requires rate >= 0.0 && t <= n
  {
    if t == 0 then 0.0 else UnitCosts(rate, n, t - 1) + UnitCost(rate, n, t - 1)
  }

  /** What one unit of principal costs in the first year. */
  function YearlyCost(rate: real, n: nat): real
    requires rate >= 0.0
  {
    UnitCosts(rate, n, Min(12, n))
  }

  lemma UnitPayment(principal: real, rate: real, n: nat, k: nat)
    requires rate >= 0.0 && principal >= 0.0 && k < n
    ensures PaymentAt(principal, rate, n, EqualPrincipal, k) == principal * UnitCost(rate, n, k)
  {
    hide Owed, Pmt;
    EqualParts(principal, rate, n, EqualPrincipal, k);
    PerUnit(principal, rate / 12.0, n as real, (n - k) as real);
  }

  lemma PerUnit(p: real, i: real, n: real, left: real)
    requires n > 0.0
    ensures p / n * left * i + p / n == p * ((1.0 + i * left) / n)
  {
    var u := (1.0 + i * left) / n;
    assert u * n == 1.0 + i * left;
    assert p / n * n == p;
    assert (p / n * left * i + p / n) * n == (p / n * n) * (left * i) + p / n * n;
    assert (p * u) * n == p * (u * n);
    Cancel(n, p / n * left * i + p / n, p * u);
  }

  lemma {:induction false} ServiceScales(principal: real, rate: real, n: nat, t: nat)
    requires rate >= 0.0 && principal >= 0.0 && t <= n
    ensures FirstPayments(principal, rate, n, EqualPrincipal, t) == principal * UnitCosts(rate, n, t)
  {
    hide PaymentAt, UnitCost;
    if t > 0 {
      ServiceScales(principal, rate, n, t - 1);
      UnitPayment(principal, rate, n, t - 1);
      Distribute(principal, UnitCosts(rate, n, t - 1), UnitCost(rate, n, t - 1));
    }
  }

  lemma Distribute(a: real, b: real, c: real)
    ensures a * (b + c) == a * b + a * c
  {
  }

  /** The yearly cost of a loan is in proportion to it. */
  lemma CostIsProportional(principal: real, rate: real, n: nat)
    requires rate >= 0.0 && principal >= 0.0
    ensures DebtService(principal, rate, n, EqualPrincipal) == principal * YearlyCost(rate, n)
  {
    hide PaymentAt, UnitCost, Pmt;
    ServiceScales(principal, rate, n, Min(12, n));
  }

  /** Every month repays the same part; interest falls with what is owed. */
  lemma {:induction false} CostClosed(rate: real, n: nat, t: nat)
    requires rate >= 0.0 && t <= n && n > 0
    ensures UnitCosts(rate, n, t) * (n as real)
            == (t as real) + rate / 12.0 * ((t as real) * (n as real) - (t as real) * ((t - 1) as real) / 2.0)
  {
    var i, m := rate / 12.0, n as real;
    if t > 0 {
      CostClosed(rate, n, t - 1);
      var u := UnitCost(rate, n, t - 1);
      Quotient(1.0 + i * ((n - t + 1) as real), m);
      assert u * m == 1.0 + i * ((n - t + 1) as real);
      Interest(i, m, t as real);
      assert (UnitCosts(rate, n, t - 1) + u) * m == UnitCosts(rate, n, t - 1) * m + u * m;
    }
  }

  lemma Interest(i: real, m: real, t: real)
    ensures i * ((t - 1.0) * m - (t - 1.0) * (t - 2.0) / 2.0) + i * (m - t + 1.0) == i * (t * m - t * (t - 1.0) / 2.0)
  {
    assert (t - 1.0) * m - (t - 1.0) * (t - 2.0) / 2.0 + (m - t + 1.0) == t * m - t * (t - 1.0) / 2.0;
  }

  /** A term of at least half a year, or enough interest in a shorter one. */
  predicate LongEnough(rate: real, n: nat)
    requires rate >= 0.0
  {
    n >= 6 || (n as real) * (2.0 + rate / 12.0 * ((n + 1) as real)) >= 12.0
  }

  /** Six times the monthly share of the room is enough to start from exactly then. */
  lemma CostOfTerm(rate: real, n: nat)
    requires rate >= 0.0 && n > 0
    ensures YearlyCost(rate, n) > 0.0
    ensures YearlyCost(rate, n) * (n as real) >= 6.0 <==> LongEnough(rate, n)
  {
    var i, m, c := rate / 12.0, n as real, YearlyCost(rate, n);
    CostAtLeast(rate, n);
    assert c > 0.0 by { assert c <= 0.0 ==> c * m <= 0.0; }
    if n < 6 {
      CostClosed(rate, n, n);
      ShortTerm(i, m);
      assert c * m == m + i * (m * m - m * (m - 1.0) / 2.0);
    }
  }

  /** Over its first year a loan costs at least a monthly share for each of the months paid. */
  lemma CostAtLeast(rate: real, n: nat)
    requires rate >= 0.0 && n > 0
    ensures YearlyCost(rate, n) * (n as real) >= Min(12, n) as real >= 1.0
  {
    var t, i, m := Min(12, n) as real, rate / 12.0, n as real;
    CostClosed(rate, n, Min(12, n));
    assert t * m - t * (t - 1.0) / 2.0 >= 0.0 by {
      Product(t, m - (t - 1.0) / 2.0);
      assert t * (m - (t - 1.0) / 2.0) == t * m - t * (t - 1.0) / 2.0;
    }
    Product(i, t * m - t * (t - 1.0) / 2.0);
  }

  lemma ShortTerm(i: real, m: real)
    ensures m * (2.0 + i * (m + 1.0)) == 2.0 * (m + i * (m * m - m * (m - 1.0) / 2.0))
  {
    assert m * m - m * (m - 1.0) / 2.0 == m * (m + 1.0) / 2.0;
    assert i * (m * (m + 1.0) / 2.0) * 2.0 == m * (i * (m + 1.0));
  }

  /** What was paid is the interest and what was repaid. */
  lemma {:induction false} PaidSoFar(principal: real, rate: real, n: nat, how: Repayment, t: nat)
    requires rate >= 0.0 && principal >= 0.0 && t <= n && n > 0
    ensures FirstPayments(principal, rate, n, how, t)
            == InterestIn(principal, rate, n, how, t) + principal - Owed(principal, rate, n, how, t)
  {
    hide PaymentAt, InterestAt, Repaid, Pmt;
    if t == 0 {
      NothingPaid(principal, rate, n, how);
    } else {
      PaidSoFar(principal, rate, n, how, t - 1);
      MonthBalances(principal, rate, n, how, t - 1);
    }
  }

  lemma NothingPaid(principal: real, rate: real, n: nat, how: Repayment)
    requires rate >= 0.0 && n > 0
    ensures Owed(principal, rate, n, how, 0) == principal
  {
  }

  /** A loan over one year costs in that year what was borrowed and all the interest, by either method; a
      longer one costs less, by what is still owed. */
  lemma FirstYear(principal: real, rate: real, n: nat, how: Repayment)
    requires rate >= 0.0 && principal > 0.0 && n >= 12
    ensures DebtService(principal, rate, n, how)
            == principal + InterestIn(principal, rate, n, how, 12) - Owed(principal, rate, n, how, 12)
    ensures n == 12 ==> DebtService(principal, rate, n, how) == principal + InterestIn(principal, rate, n, how, 12)
  {
    hide InterestIn, Owed, Pmt, FirstPayments;
    PaidSoFar(principal, rate, n, how, 12);
    if how == Amortized {
      LevelYear(principal, rate, n, 12);
    }
    if n == 12 {
      PaidOff(principal, rate, n, how);
    }
  }

  lemma {:induction false} LevelYear(principal: real, rate: real, n: nat, t: nat)
    requires rate >= 0.0 && principal >= 0.0 && t <= n && n > 0
    ensures FirstPayments(principal, rate, n, Amortized, t) == Pmt(principal, rate, n) * (t as real)
  {
    hide PaymentAt, Pmt;
    if t > 0 {
      LevelYear(principal, rate, n, t - 1);
      MonthBalances(principal, rate, n, Amortized, t - 1);
      var m := Pmt(principal, rate, n);
      assert m * ((t - 1) as real) + m == m * (t as real);
    }
  }

  // ---- Bisection ----

  function Halved(x: real, k: nat): real { if k == 0 then x else Halved(x, k - 1) / 2.0 }

  const Halvings: nat := 60

  lemma HalvedIs(x: real)
    ensures Halved(x, Halvings) * 1152921504606846976.0 == x
  {
    hide Halved, Two;
    Halves(x, 60);
    Sixty();
  }

  lemma Sixty()
    ensures Two(60) == 1152921504606846976
  {
    assert Two(15) == 32768 by { assert Two(8) == 256; }
    hide Two;
    TwoAdds(15, 15);
    TwoAdds(30, 30);
  }

  lemma Doubled(x: nat, y: nat)
    ensures 2 * (x * y) == x * (2 * y)
  {
  }

  lemma {:induction false} TwoAdds(a: nat, b: nat)
    ensures Two(a + b) == Two(a) * Two(b)
  {
    if b > 0 {
      TwoAdds(a, b - 1);
      Doubled(Two(a), Two(b - 1));
    }
  }

  function Two(k: nat): nat { if k == 0 then 1 else 2 * Two(k - 1) }

  lemma {:induction false} Halves(x: real, k: nat)
    ensures Halved(x, k) * (Two(k) as real) == x
  {
    if k > 0 {
      Halves(x, k - 1);
      var h, t := Halved(x, k - 1), Two(k - 1) as real;
      assert h / 2.0 * (2.0 * t) == h * t;
    }
  }

  /** Where the search for the principal with a given first year begins: twice the room for every
      year of the term. */
  function Bracket(room: real, n: nat): real { room * ((n as real) / 12.0) * 2.0 }

  /** The other end of the last interval lies within the first one and, unless it is the first one's
      end, costs too much. */
  ghost predicate Bisected(room: real, rate: real, n: nat, lo: real)
    requires rate >= 0.0
  {
    var hi := lo + Halved(Bracket(room, n), Halvings);
    hi == Bracket(room, n) || (hi <= Bracket(room, n) && DebtService(hi, rate, n, EqualPrincipal) > room)
  }

  /** The largest principal the search finds whose first year fits the room. */
  method Bisect(room: real, rate: real, n: nat) returns (lo: real)
    requires room > 0.0 && rate >= 0.0
    ensures lo >= 0.0 && DebtService(lo, rate, n, EqualPrincipal) <= room
    ensures Bisected(room, rate, n, lo)
  {
    lo := 0.0;
    var hi := room * ((n as real) / 12.0) * 2.0;
    Product(room, (n as real) / 12.0);
    for k := 0 to Halvings
      invariant 0.0 <= lo <= hi <= Bracket(room, n) && hi - lo == Halved(Bracket(room, n), k)
      invariant DebtService(lo, rate, n, EqualPrincipal) <= room
      invariant hi == Bracket(room, n) || DebtService(hi, rate, n, EqualPrincipal) > room
    {
      var mid := (lo + hi) / 2.0;
      var service := AnnualDebtService(mid, rate, n, EqualPrincipal);
      if service > room {
        hi := mid;
      } else {
        lo := mid;
      }
    }
  }

  /** The search ends within its bracket halved sixty times below the largest principal that fits,
      exactly when the term is long enough; otherwise the bracket was too small. */
  lemma BisectionIsClose(room: real, rate: real, n: nat, lo: real)
    requires room > 0.0 && rate >= 0.0 && n > 0 && YearlyCost(rate, n) > 0.0
    requires lo >= 0.0 && DebtService(lo, rate, n, EqualPrincipal) <= room
    requires Bisected(room, rate, n, lo)
    ensures var best := room / YearlyCost(rate, n);
            && DebtService(best, rate, n, EqualPrincipal) == room
            && lo <= best
            && (best - lo <= Halved(Bracket(room, n), Halvings) <==> LongEnough(rate, n))
  {
    hide DebtService, YearlyCost, Halved, LongEnough, Bracket;
    var c, h := YearlyCost(rate, n), Bracket(room, n);
    var best, w := room / c, Halved(h, Halvings);
    CostOfTerm(rate, n);
    Quotient(room, c);
    BracketSign(room, n);
    HalvedSign(h, Halvings);
    CostIsProportional(best, rate, n);
    CostIsProportional(lo, rate, n);
    CostIsProportional(lo + w, rate, n);
    Enough(room, c, n);
    Closeness(c, room, best, lo, w, h);
  }

  lemma BracketSign(room: real, n: nat)
    requires room > 0.0
    ensures Bracket(room, n) >= 0.0
  {
    Product(room, (n as real) / 12.0);
  }

  lemma Closeness(c: real, room: real, best: real, lo: real, w: real, h: real)
    requires c > 0.0 && best * c == room && lo * c <= room && lo >= 0.0
    requires lo + w == h || (lo + w <= h && (lo + w) * c > room)
    ensures lo <= best && (best - lo <= w <==> room <= h * c)
  {
    OrderedProducts(c, lo, best, lo * c, room);
    OrderedProducts(c, best, h, room, h * c);
    OrderedProducts(c, lo + w, best, (lo + w) * c, room);
  }

  /** An interest-free loan over one month is such a term: the whole room could be borrowed, and the
      search cannot get beyond a sixth of it. */
  lemma OneMonthMisses(room: real, lo: real)
    requires room > 0.0 && Bisected(room, 0.0, 1, lo) && lo >= 0.0
    ensures !LongEnough(0.0, 1)
    ensures DebtService(room, 0.0, 1, EqualPrincipal) == room && lo <= room / 6.0
  {
    hide DebtService, Halved;
    HalvedSign(Bracket(room, 1), Halvings);
    CostIsProportional(room, 0.0, 1);
    assert UnitCosts(0.0, 1, 1) == UnitCosts(0.0, 1, 0) + UnitCost(0.0, 1, 0);
    assert YearlyCost(0.0, 1) == 1.0;
    assert Bracket(room, 1) == room / 6.0;
  }

  lemma Enough(room: real, c: real, n: nat)
    requires room > 0.0 && n > 0
    ensures room <= Bracket(room, n) * c <==> c * (n as real) >= 6.0
  {
    assert Bracket(room, n) * c == room * (c * (n as real)) / 6.0;
    Ratio(room, c * (n as real));
  }

  lemma Ratio(room: real, x: real)
    requires room > 0.0
    ensures room * x / 6.0 >= room <==> x >= 6.0
  {
    assert room * x - room * 6.0 == room * (x - 6.0);
  }

  lemma Ordered(c: real, a: real, b: real)
    requires c > 0.0
    ensures a * c <= b * c <==> a <= b
  {
    assert (b - a) * c == b * c - a * c;
  }

  /** The same with the products named. */
  lemma OrderedProducts(c: real, a: real, b: real, ac: real, bc: real)
    requires c > 0.0 && ac == a * c && bc == b * c
    ensures ac <= bc <==> a <= b
  {
    Ordered(c, a, b);
  }

  lemma {:induction false} HalvedSign(x: real, k: nat)
    requires x >= 0.0
    ensures 0.0 <= Halved(x, k) <= x
  {
    if k > 0 {
      HalvedSign(x, k - 1);
    }
  }

  // ---- The limit ----

  datatype Buyer = First | NoHome | OneDispose | One | Multi
  datatype RateType = Variable | Mixed | Periodic | Fixed
  datatype Lender = Bank | NonBank

  datatype Region = Region(regulated: bool, capital: bool) {
    predicate Restricted() { regulated || capital }
  }

  /** An amount in won, or no bound. */
  datatype Amount = Finite(won: real) | Unlimited {
    predicate Below(other: Amount) { Finite? && (other.Finite? ==> won < other.won) }
  }

  function Ltv(region: Region, buyer: Buyer): real {
    match buyer
    case First => if region.Restricted() then 0.70 else 0.80
    case NoHome => if region.regulated then 0.40 else 0.70
    case OneDispose => if region.regulated then 0.40 else 0.70
    case One => if region.Restricted() then 0.0 else 0.60
    case Multi => if region.Restricted() then 0.0 else 0.60
  }

  function Cap(region: Region, price: real): Amount {
    if region.regulated then
      Finite(if price <= 15.0 * Eok then 6.0 * Eok else if price <= 25.0 * Eok then 4.0 * Eok else 2.0 * Eok)
    else if region.capital then Finite(6.0 * Eok)
    else Unlimited
  }

  /** Terms are capped at thirty years where loans are restricted. */
  function Term(region: Region, months: nat): nat {
    if region.Restricted() && months > 360 then 360 else months
  }

  /** What is added to the rate to test how much debt a buyer can carry. */
  function Stress(region: Region, rateType: RateType): real {
    var base := if region.Restricted() then 3.0 else 0.75;
    var weight := match rateType case Variable => 1.0 case Mixed => 0.8 case Periodic => 0.4 case Fixed => 0.0;
    base * weight / 100.0
  }

  function DsrLimit(lender: Lender): real { if lender == Bank then 0.40 else 0.50 }

  datatype Application = Application(price: real, region: Region, buyer: Buyer, income: real, existing: real,
                                     rate: real, months: nat, how: Repayment, rateType: RateType, lender: Lender,
                                     livesIn: bool) {
    function StressedRate(): real { rate + Stress(region, rateType) }

    /** What a year's repayments may still cost. */
    function Room(): real { income * DsrLimit(lender) - existing }

    /** Loans of up to 100 million won to those without other debt are exempt. */
    predicate Exempt() {
      var ltv := Finite(price * Ltv(region, buyer));
      var cap := Cap(region, price);
      existing <= 0.0 && (if cap.Below(ltv) then cap else ltv).won <= 1.0 * Eok
    }
  }

  function FloorTo(unit: real, x: real): real
    requires unit > 0.0
  {
    (x / unit).Floor as real * unit
  }

  lemma FloorIsBelow(unit: real, x: real)
    requires unit > 0.0
    ensures FloorTo(unit, x) <= x < FloorTo(unit, x) + unit
  {
    var q := x / unit;
    var f := q.Floor as real;
    Quotient(x, unit);
    Between(unit, q, f, x);
  }

  lemma Between(unit: real, q: real, f: real, x: real)
    requires unit > 0.0 && f <= q < f + 1.0 && q * unit == x
    ensures f * unit <= x < f * unit + unit
  {
    var lower, upper := f * unit, (f + 1.0) * unit;
    OrderedProducts(unit, f, q, lower, x);
    OrderedProducts(unit, f + 1.0, q, upper, x);
    assert upper == lower + unit;
  }

  /** What debt service allows. */
  method DsrAmount(room: real, rate: real, n: nat, how: Repayment) returns (r: real)
    requires rate >= 0.0
    ensures r >= 0.0 && (room > 0.0 ==> DebtService(r, rate, n, how) <= room) && (room <= 0.0 ==> r == 0.0)
    ensures room > 0.0 && how == EqualPrincipal ==> Bisected(room, rate, n, r)
    ensures room > 0.0 && how == Amortized ==>
              r == Pv(room / 12.0, rate, n) && (n > 0 ==> DebtService(r, rate, n, how) == room)
  {
    if room <= 0.0 {
      r := 0.0;
    } else if how == EqualPrincipal {
      r := Bisect(room, rate, n);
    } else {
      r := Pv(room / 12.0, rate, n);
      if n > 0 {
        PvInverts(room / 12.0, rate, n);
      }
    }
  }

  lemma CostGrows(a: real, b: real, rate: real, n: nat)
    requires rate >= 0.0 && 0.0 <= a <= b
    ensures DebtService(a, rate, n, EqualPrincipal) <= DebtService(b, rate, n, EqualPrincipal)
  {
    hide DebtService, YearlyCost, LongEnough;
    CostIsProportional(a, rate, n);
    CostIsProportional(b, rate, n);
    if n > 0 {
      CostOfTerm(rate, n);
      Ordered(YearlyCost(rate, n), a, b);
    } else {
      NoTermNoCost(rate, n);
    }
  }

  lemma NoTermNoCost(rate: real, n: nat)
    requires rate >= 0.0 && n == 0
    ensures YearlyCost(rate, n) == 0.0
  {
  }

  /** Less principal costs less. */
  lemma ServiceGrows(a: real, b: real, rate: real, n: nat, how: Repayment)
    requires rate >= 0.0 && 0.0 <= a <= b
    ensures DebtService(a, rate, n, how) <= DebtService(b, rate, n, how)
  {
    hide YearlyCost, FirstPayments;
    if how == EqualPrincipal {
      CostGrows(a, b, rate, n);
    } else if n > 0 && a > 0.0 {
      PaymentGrows(a, b, rate, n);
    } else if n > 0 && b > 0.0 {
      PvInverts(b, rate, n);
    }
  }

  lemma PaymentGrows(a: real, b: real, rate: real, n: nat)
    requires rate >= 0.0 && 0.0 < a <= b && n > 0
    ensures Pmt(a, rate, n) <= Pmt(b, rate, n)
  {
    var i := rate / 12.0;
    if i == 0.0 {
      Shares(a, b, n as real);
    } else {
      Ordered(i, a, b);
      Shares(a * i, b * i, Discount(i, n));
    }
  }

  lemma Shares(a: real, b: real, c: real)
    requires a <= b && c > 0.0
    ensures a / c <= b / c
  {
    Quotient(a, c);
    Quotient(b, c);
    Ordered(c, a / c, b / c);
  }

  const Unit: real := 1000000.0

  /** What bounds the loan: nothing for who does not move in, the share of the price, the cap, and
      debt service. */
  function Bounds(i: Application, dsr: Amount): seq<Amount> {
    (if i.region.Restricted() && !i.livesIn then [Finite(0.0)] else [])
    + [Finite(i.price * Ltv(i.region, i.buyer)), Cap(i.region, i.price), dsr]
  }

  /** Those are exempt who have no other debt and whose share of the price, or whose cap, is at most 100
      million won. */
  lemma ExemptIff(i: Application)
    ensures i.Exempt() <==> i.existing <= 0.0 && SmallShare(i)
  {
  }

  predicate SmallShare(i: Application) {
    || i.price * Ltv(i.region, i.buyer) <= 100000000.0
    || (Cap(i.region, i.price).Finite? && Cap(i.region, i.price).won <= 100000000.0)
  }

  /** What debt service allows uses the room up: to the last won with level payments, as far as the bisection
      gets with equal parts. */
  ghost predicate UsesRoom(i: Application, won: real)
    requires i.StressedRate() >= 0.0
  {
    var rate, term, room := i.StressedRate(), Term(i.region, i.months), i.Room();
    && won >= 0.0 && (room <= 0.0 ==> won == 0.0)
    && (room > 0.0 && i.how == Amortized ==> won == Pv(room / 12.0, rate, term))
    && (room > 0.0 && i.how == EqualPrincipal ==>
          Bisected(room, rate, term, won) && DebtService(won, rate, term, i.how) <= room)
  }

  /** The loan is the least of its bounds, nothing below zero, in full millions. */
  ghost predicate Granted(i: Application, amount: real, dsr: Amount)
    requires i.StressedRate() >= 0.0
  {
    && amount >= 0.0 && InMillions(amount)
    && (forall b | b in Bounds(i, dsr) && b.Finite? :: amount <= Max(0.0, b.won))
    && (exists b :: b in Bounds(i, dsr) && b.Finite? && b.won < amount + 1000000.0)
    && (dsr == Unlimited <==> i.existing <= 0.0 && SmallShare(i))
    && (dsr.Finite? ==> UsesRoom(i, dsr.won))
  }

  predicate InMillions(x: real) { (x / 1000000.0).Floor as real * 1000000.0 == x }

  lemma FloorInMillions(x: real)
    ensures InMillions(Max(0.0, FloorTo(1000000.0, x)))
  {
    var f := (x / 1000000.0).Floor;
    assert (f as real) * 1000000.0 / 1000000.0 == f as real;
  }

  /** A loan that is not exempt costs in its first year, with what other debts cost, no more than the lender's
      share of the income, exactly when the other debts alone do not. One that is exempt is at most 100
      million won. */
  method LoanLimit(i: Application) returns (amount: real, dsr: Amount)
    requires i.rate >= 0.0
    ensures i.StressedRate() >= 0.0 && Granted(i, amount, dsr)
    ensures i.existing <= 0.0 && SmallShare(i) ==> amount <= 100000000.0
    ensures i.existing > 0.0 || !SmallShare(i) ==>
              (DebtService(amount, i.StressedRate(), Term(i.region, i.months), i.how) + i.existing
               <= i.income * DsrLimit(i.lender)
               <==> i.existing <= i.income * DsrLimit(i.lender))
  {
    hide DebtService, Bisected, Pv, FloorTo, InMillions, Bounds, SmallShare, Cap, Ltv, Stress, DsrLimit;
    var term, rate, room := Term(i.region, i.months), i.StressedRate(), i.Room();
    assert rate >= 0.0 by { StressAdds(i); }
    var limit := DsrAmount(room, rate, term, i.how);
    ExemptIff(i);
    dsr := if i.Exempt() then Unlimited else Finite(limit);
    var candidates := Candidates(i, dsr);
    var binding := Least(candidates);
    amount := Max(0.0, FloorTo(Unit, binding.won));
    LeastBound(Bounds(i, dsr), binding, amount);
    HasBounds(i, dsr);
    if i.Exempt() {
      SmallLoan(i, amount);
    } else {
      FitsRoom(i, amount, limit);
    }
  }

  lemma StressAdds(i: Application)
    requires i.rate >= 0.0
    ensures i.StressedRate() >= 0.0
  {
  }

  method Candidates(i: Application, dsr: Amount) returns (candidates: seq<Amount>)
    ensures candidates == Bounds(i, dsr) && |candidates| > 0 && candidates[0].Finite?
  {
    candidates := [Finite(i.price * Ltv(i.region, i.buyer)), Cap(i.region, i.price), dsr];
    if i.region.Restricted() && !i.livesIn {
      candidates := [Finite(0.0)] + candidates;
    }
  }

  lemma SmallLoan(i: Application, amount: real)
    requires SmallShare(i) && amount <= Max(0.0, i.price * Ltv(i.region, i.buyer))
    requires Cap(i.region, i.price).Finite? ==> amount <= Max(0.0, Cap(i.region, i.price).won)
    ensures amount <= 100000000.0
  {
  }

  lemma FitsRoom(i: Application, amount: real, limit: real)
    requires i.StressedRate() >= 0.0 && 0.0 <= amount <= Max(0.0, limit) && limit >= 0.0
    requires i.Room() > 0.0 ==> DebtService(limit, i.StressedRate(), Term(i.region, i.months), i.how) <= i.Room()
    requires i.Room() <= 0.0 ==> limit == 0.0
    ensures DebtService(amount, i.StressedRate(), Term(i.region, i.months), i.how) + i.existing
            <= i.income * DsrLimit(i.lender)
            <==> i.existing <= i.income * DsrLimit(i.lender)
  {
    hide DebtService, Stress, DsrLimit, Term;
    ServiceGrows(amount, limit, i.StressedRate(), Term(i.region, i.months), i.how);
    NothingCosts(i.StressedRate(), Term(i.region, i.months), i.how);
    ServiceGrows(0.0, amount, i.StressedRate(), Term(i.region, i.months), i.how);
    Together(DebtService(amount, i.StressedRate(), Term(i.region, i.months), i.how), i.existing,
             i.income * DsrLimit(i.lender), i.Room());
  }

  lemma Together(service: real, existing: real, share: real, room: real)
    requires room == share - existing && service >= 0.0
    requires (room > 0.0 ==> service <= room) && (room <= 0.0 ==> service == 0.0)
    ensures service + existing <= share <==> existing <= share
  {
  }

  lemma NothingCosts(rate: real, n: nat, how: Repayment)
    requires rate >= 0.0
    ensures DebtService(0.0, rate, n, how) == 0.0
  {
  }

  lemma HasBounds(i: Application, dsr: Amount)
    ensures var bs := Bounds(i, dsr);
            Finite(i.price * Ltv(i.region, i.buyer)) in bs && Cap(i.region, i.price) in bs && dsr in bs
  {
    var bs := Bounds(i, dsr);
    assert bs[|bs| - 3] in bs && bs[|bs| - 2] in bs && bs[|bs| - 1] in bs;
  }

  /** The least bound in full millions is below all bounds, and within a million of one. */
  lemma LeastBound(bounds: seq<Amount>, binding: Amount, amount: real)
    requires binding in bounds && binding.Finite? && forall b | b in bounds :: !b.Below(binding)
    requires amount == Max(0.0, FloorTo(1000000.0, binding.won))
    ensures amount >= 0.0 && InMillions(amount)
    ensures forall b | b in bounds && b.Finite? :: amount <= Max(0.0, b.won)
    ensures exists b :: b in bounds && b.Finite? && b.won < amount + 1000000.0
  {
    FloorIsBelow(1000000.0, binding.won);
    FloorInMillions(binding.won);
    hide FloorTo, InMillions;
    assert binding.won < amount + 1000000.0;
  }

  /** A buyer whose other debts already exceed what the income allows: whatever is granted, even
      nothing, costs more than the room. */
  lemma DebtBeyondRoom()
    ensures var i := Application(10.0 * Eok, Region(false, false), NoHome, 100000000.0, 50000000.0, 0.04, 360,
                                 Amortized, Variable, Bank, true);
            !i.Exempt() && i.Room() < 0.0 && forall a: real :: DebtService(a, i.StressedRate(), 360, i.how) > i.Room()
  {
    var i := Application(10.0 * Eok, Region(false, false), NoHome, 100000000.0, 50000000.0, 0.04, 360, Amortized,
                         Variable, Bank, true);
    forall a: real ensures DebtService(a, i.StressedRate(), 360, i.how) > i.Room() {
      if a > 0.0 {
        PvInverts(a, i.StressedRate(), 360);
      }
    }
  }

  /** The first of the least. */
  method Least(candidates: seq<Amount>) returns (binding: Amount)
    requires |candidates| > 0 && candidates[0].Finite?
    ensures binding.Finite? && binding in candidates && forall c | c in candidates :: !c.Below(binding)
  {
    binding := candidates[0];
    for k := 1 to |candidates|
      invariant binding.Finite? && binding in candidates
      invariant forall j | 0 <= j < k :: !candidates[j].Below(binding)
    {
      if candidates[k].Below(binding) {
        binding := candidates[k];
      }
    }
  }
}
