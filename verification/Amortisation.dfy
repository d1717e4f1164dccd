/** Loan repayment over exact reals: the level payment, the month-by-month schedule and the closed
    form of what is still owed. Rates are yearly and at least 0; terms are whole months. */
module Amortisation {

  datatype Repayment = Amortized | EqualPrincipal

  // ---- Powers ----

  function Pow(x: real, n: nat): real { if n == 0 then 1.0 else x * Pow(x, n - 1) }

  lemma {:induction false} PowGrows(x: real, m: nat, n: nat)
    requires x >= 1.0 && m <= n
    ensures 1.0 <= Pow(x, m) <= Pow(x, n) && (x > 1.0 && m < n ==> Pow(x, m) < Pow(x, n))
    decreases n
  {
    if n > 0 {
      PowGrows(x, if m < n then m else n - 1, n - 1);
      Scaled(x - 1.0, Pow(x, n - 1));
      Spread(x, Pow(x, n - 1));
    }
  }

  lemma Spread(x: real, g: real)
    ensures x * g == g + (x - 1.0) * g
  {
  }

  lemma PowZero(x: real)
    ensures Pow(x, 0) == 1.0
  {
  }

  lemma Scaled(a: real, b: real)
    requires a >= 0.0 && b >= 1.0
    ensures a * b >= a
  {
    assert a * b == a + a * (b - 1.0);
  }

  lemma Cancel(a: real, b: real, c: real)
    requires a != 0.0 && a * b == a * c
    ensures b == c
  {
    assert a * (b - c) == 0.0;
  }

  // ---- The level payment ----

  /** 1 - (1+i)^-n, which is positive when there is interest and a term. */
  function Discount(i: real, n: nat): (d: real)
    requires i > 0.0 && n > 0
    ensures d > 0.0 && d * Pow(1.0 + i, n) == Pow(1.0 + i, n) - 1.0
  {
    PowGrows(1.0 + i, 0, n);
    var g := Pow(1.0 + i, n);
    assert 1.0 / g < 1.0;
    assert (1.0 - 1.0 / g) * g == g - 1.0;
    1.0 - 1.0 / g
  }

  /** The payment at a monthly rate above 0. */
  function WithInterest(principal: real, i: real, n: nat): real
    requires i > 0.0 && n > 0
  {
    principal * i / Discount(i, n)
  }

  function Carried(monthly: real, i: real, n: nat): real
    requires i > 0.0 && n > 0
  {
    monthly * Discount(i, n) / i
  }

  function Pmt(principal: real, rate: real, months: nat): real
    requires rate >= 0.0
  {
    if principal <= 0.0 || months == 0 then 0.0
    else if rate / 12.0 == 0.0 then principal / (months as real)
    else WithInterest(principal, rate / 12.0, months)
  }

  /** The principal a monthly payment can carry. */
  function Pv(monthly: real, rate: real, months: nat): real
    requires rate >= 0.0
  {
    if monthly <= 0.0 || months == 0 then 0.0
    else if rate / 12.0 == 0.0 then monthly * (months as real)
    else Carried(monthly, rate / 12.0, months)
  }

  /** Each undoes the other. */
  lemma PvInverts(amount: real, rate: real, months: nat)
    requires rate >= 0.0 && amount > 0.0 && months > 0
    ensures Pmt(amount, rate, months) > 0.0 && Pv(Pmt(amount, rate, months), rate, months) == amount
    ensures Pv(amount, rate, months) > 0.0 && Pmt(Pv(amount, rate, months), rate, months) == amount
  {
    hide WithInterest, Carried;
    if rate / 12.0 == 0.0 {
      NoInterest(amount, months as real);
    } else {
      CarriedInverts(amount, rate / 12.0, months);
    }
  }

  lemma CarriedInverts(a: real, i: real, n: nat)
    requires a > 0.0 && i > 0.0 && n > 0
    ensures WithInterest(a, i, n) > 0.0 && Carried(WithInterest(a, i, n), i, n) == a
    ensures Carried(a, i, n) > 0.0 && WithInterest(Carried(a, i, n), i, n) == a
  {
    hide Discount, Pow;
    var d := Discount(i, n);
    ThereAndBack(a, i, d);
    ThereAndBack(a, d, i);
  }

  lemma NoInterest(a: real, n: real)
    requires a > 0.0 && n > 0.0
    ensures a / n > 0.0 && a / n * n == a && a * n > 0.0 && a * n / n == a
  {
    Quotient(a, n);
    Positive(a, n);
    Quotient(a * n, n);
    Cancel(n, a * n / n, a);
  }

  lemma ThereAndBack(a: real, b: real, c: real)
    requires a > 0.0 && b > 0.0 && c > 0.0
    ensures a * b / c > 0.0 && a * b / c * c / b == a
  {
    Positive(a, b);
    Quotient(a * b, c);
    Cancel(b, a * b / b, a);
  }

  lemma Quotient(a: real, b: real)
    requires b > 0.0
    ensures a / b * b == a && (a > 0.0 ==> a / b > 0.0)
  {
  }

  lemma Positive(a: real, b: real)
    requires a > 0.0 && b > 0.0
    ensures a * b > 0.0
  {
  }

  // ---- The schedule ----

  function Max(a: real, b: real): real { if a >= b then a else b }

  /** The principal repaid in a month that begins with `owed`. */
  function Repaid(principal: real, rate: real, n: nat, how: Repayment, owed: real): real
    requires rate >= 0.0 && n > 0
  {
    if how == EqualPrincipal then principal / (n as real) else Pmt(principal, rate, n) - owed * (rate / 12.0)
  }

  /** What is owed after k months, month by month. */
  function Owed(principal: real, rate: real, n: nat, how: Repayment, k: nat): real
    requires rate >= 0.0 && n > 0
  {
    if k == 0 then principal
    else
      var before := Owed(principal, rate, n, how, k - 1);
      Max(0.0, before - Repaid(principal, rate, n, how, before))
  }

  function InterestAt(principal: real, rate: real, n: nat, how: Repayment, k: nat): real
    requires rate >= 0.0 && n > 0
  {
    Owed(principal, rate, n, how, k) * (rate / 12.0)
  }

  /** Interest and principal together. */
  function PaymentAt(principal: real, rate: real, n: nat, how: Repayment, k: nat): real
    requires rate >= 0.0 && n > 0
  {
    InterestAt(principal, rate, n, how, k) + Repaid(principal, rate, n, how, Owed(principal, rate, n, how, k))
  }

  method Schedule(principal: real, rate: real, n: nat, how: Repayment)
    returns (payment: seq<real>, interest: seq<real>, balance: seq<real>)
    requires rate >= 0.0
    ensures |payment| == |interest| == |balance| == n
    ensures forall k | 0 <= k < n ::
              && payment[k] == PaymentAt(principal, rate, n, how, k)
              && interest[k] == InterestAt(principal, rate, n, how, k)
              && balance[k] == Owed(principal, rate, n, how, k + 1)
  {
    payment, interest, balance := [], [], [];
    var i, owed, level := rate / 12.0, principal, Pmt(principal, rate, n);
    assert n > 0 ==> owed == Owed(principal, rate, n, how, 0);
    hide InterestAt, PaymentAt, Owed;
    for k := 0 to n
      invariant |payment| == |interest| == |balance| == k
      invariant n > 0 ==> owed == Owed(principal, rate, n, how, k)
      invariant forall j | 0 <= j < k ::
                  && payment[j] == PaymentAt(principal, rate, n, how, j)
                  && interest[j] == InterestAt(principal, rate, n, how, j)
                  && balance[j] == Owed(principal, rate, n, how, j + 1)
    {
      var int' := owed * i;
      var part := if how == EqualPrincipal then principal / (n as real) else level - int';
      OneMonth(principal, rate, n, how, k, owed, int', part);
      owed := Max(0.0, owed - part);
      payment := payment + [int' + part];
      interest := interest + [int'];
      balance := balance + [owed];
    }
  }

  lemma OneMonth(principal: real, rate: real, n: nat, how: Repayment, k: nat, owed: real, int': real, part: real)
    requires rate >= 0.0 && n > 0 && owed == Owed(principal, rate, n, how, k) && int' == owed * (rate / 12.0)
    requires part == if how == EqualPrincipal then principal / (n as real) else Pmt(principal, rate, n) - int'
    ensures int' == InterestAt(principal, rate, n, how, k) && int' + part == PaymentAt(principal, rate, n, how, k)
    ensures Max(0.0, owed - part) == Owed(principal, rate, n, how, k + 1)
  {
    hide Pmt, Owed;
    OwedNext(principal, rate, n, how, k);
  }

  // ---- Level payments ----

  /** The recurrence without the clamp at 0. */
  function Level(principal: real, i: real, m: real, k: nat): real {
    if k == 0 then principal else Level(principal, i, m, k - 1) * (1.0 + i) - m
  }

  lemma {:induction false} LevelClosed(principal: real, i: real, m: real, k: nat)
    ensures i * Level(principal, i, m, k) == principal * i * Pow(1.0 + i, k) - m * (Pow(1.0 + i, k) - 1.0)
  {
    hide Level, Pow;
    Unfolded(principal, i, m, k);
    if k > 0 {
      LevelClosed(principal, i, m, k - 1);
      LevelStep(principal, i, m, Pow(1.0 + i, k - 1), Level(principal, i, m, k - 1));
    }
  }

  lemma Unfolded(principal: real, i: real, m: real, k: nat)
    ensures k == 0 ==> Level(principal, i, m, k) == principal && Pow(1.0 + i, k) == 1.0
    ensures k > 0 ==> Level(principal, i, m, k) == Level(principal, i, m, k - 1) * (1.0 + i) - m
    ensures k > 0 ==> Pow(1.0 + i, k) == (1.0 + i) * Pow(1.0 + i, k - 1)
  {
  }

  lemma LevelStep(p: real, i: real, m: real, g: real, u: real)
    requires i * u == p * i * g - m * (g - 1.0)
    ensures i * (u * (1.0 + i) - m) == p * i * ((1.0 + i) * g) - m * ((1.0 + i) * g - 1.0)
  {
    var x := 1.0 + i;
    assert i * (u * x - m) == (i * u) * x - i * m;
    assert (i * u) * x == (p * i * g) * x - (m * (g - 1.0)) * x;
    assert (p * i * g) * x == p * i * (x * g);
    assert (m * (g - 1.0)) * x == m * (x * g) - m * x;
    assert m * (x * g - 1.0) == m * (x * g) - m;
    assert m * x == m + m * i;
  }

  /** The level payment pays the growth of the principal. */
  lemma PaymentEquation(principal: real, rate: real, n: nat)
    requires principal > 0.0 && rate > 0.0 && n > 0
    ensures var g := Pow(1.0 + rate / 12.0, n);
            Pmt(principal, rate, n) * (g - 1.0) == principal * (rate / 12.0) * g
  {
    var i, g, m := rate / 12.0, Pow(1.0 + rate / 12.0, n), Pmt(principal, rate, n);
    var d := Discount(i, n);
    Quotient(principal * i, d);
    assert m == principal * i / d;
    assert m * (d * g) == (m * d) * g;
  }

  /** After k of n level payments the share (G - g) / (G - 1) is owed, G and g being the growth over
      n and over k months. */
  lemma LevelShare(principal: real, rate: real, n: nat, k: nat)
    requires principal > 0.0 && rate > 0.0 && k <= n && n > 0
    ensures var i := rate / 12.0;
            var u := Level(principal, i, Pmt(principal, rate, n), k);
            u * (Pow(1.0 + i, n) - 1.0) == principal * (Pow(1.0 + i, n) - Pow(1.0 + i, k)) && u >= 0.0
                && (k == n ==> u == 0.0)
  {
    hide Pmt, Level, Pow;
    var i, m := rate / 12.0, Pmt(principal, rate, n);
    var gn, gk, u := Pow(1.0 + i, n), Pow(1.0 + i, k), Level(principal, i, m, k);
    LevelClosed(principal, i, m, k);
    PaymentEquation(principal, rate, n);
    Eliminate(principal, i, m, gn, gk, u);
    PowGrows(1.0 + i, 0, n);
    PowGrows(1.0 + i, k, n);
    assert Pow(1.0 + i, 0) == 1.0 by { PowZero(1.0 + i); }
    ShareSign(u, gn - 1.0, principal, gn - gk);
  }

  lemma Eliminate(p: real, i: real, m: real, gn: real, gk: real, u: real)
    requires i != 0.0 && m * (gn - 1.0) == p * i * gn && i * u == p * i * gk - m * (gk - 1.0)
    ensures u * (gn - 1.0) == p * (gn - gk)
  {
    calc {
      i * (u * (gn - 1.0));
      (i * u) * (gn - 1.0);
      (p * i * gk - m * (gk - 1.0)) * (gn - 1.0);
      p * i * gk * (gn - 1.0) - (m * (gn - 1.0)) * (gk - 1.0);
      p * i * gk * (gn - 1.0) - p * i * gn * (gk - 1.0);
      i * (p * (gn - gk));
    }
    Cancel(i, u * (gn - 1.0), p * (gn - gk));
  }

  lemma ShareSign(u: real, a: real, p: real, b: real)
    requires u * a == p * b && a > 0.0 && p > 0.0 && b >= 0.0
    ensures u >= 0.0 && (b == 0.0 ==> u == 0.0)
  {
    assert p * b >= 0.0;
    assert u < 0.0 ==> u * a < 0.0;
    assert u > 0.0 ==> u * a > 0.0;
  }

  /** The months in which the same part is repaid each time. */
  predicate Even(rate: real, how: Repayment) { how == EqualPrincipal || rate == 0.0 }

  lemma EvenPart(principal: real, rate: real, n: nat, how: Repayment, owed: real)
    requires rate >= 0.0 && principal >= 0.0 && n > 0 && Even(rate, how)
    ensures Repaid(principal, rate, n, how, owed) == principal / (n as real)
  {
    assert rate == 0.0 ==> rate / 12.0 == 0.0;
  }

  function Times(part: real, k: nat): real { part * (k as real) }

  lemma {:induction false} EqualParts(principal: real, rate: real, n: nat, how: Repayment, k: nat)
    requires rate >= 0.0 && principal >= 0.0 && k <= n && n > 0 && Even(rate, how)
    ensures Owed(principal, rate, n, how, k) == Times(principal / (n as real), n - k) >= 0.0
  {
    hide Times, Repaid;
    AllParts(principal, n, k);
    if k > 0 {
      EqualParts(principal, rate, n, how, k - 1);
      OwedNext(principal, rate, n, how, k - 1);
      EvenPart(principal, rate, n, how, Owed(principal, rate, n, how, k - 1));
      OnePart(principal / (n as real), n - k);
    }
  }

  lemma AllParts(principal: real, n: nat, k: nat)
    requires principal >= 0.0 && k <= n && n > 0
    ensures Times(principal / (n as real), n) == principal && Times(principal / (n as real), n - k) >= 0.0
  {
    Quotient(principal, n as real);
    Product(principal / (n as real), (n - k) as real);
  }

  lemma OnePart(part: real, k: nat)
    ensures Times(part, k + 1) - part == Times(part, k)
  {
  }

  lemma OwedNext(principal: real, rate: real, n: nat, how: Repayment, k: nat)
    requires rate >= 0.0 && n > 0
    ensures var before := Owed(principal, rate, n, how, k);
            Owed(principal, rate, n, how, k + 1) == Max(0.0, before - Repaid(principal, rate, n, how, before))
  {
  }

  lemma Product(a: real, b: real)
    requires a >= 0.0 && b >= 0.0
    ensures a * b >= 0.0
  {
  }

  /** With interest and level payments the balance is the recurrence's: the clamp at 0 is idle. */
  lemma {:induction false} LevelOwed(principal: real, rate: real, n: nat, k: nat)
    requires rate > 0.0 && principal > 0.0 && k <= n && n > 0
    ensures Owed(principal, rate, n, Amortized, k) == Level(principal, rate / 12.0, Pmt(principal, rate, n), k) >= 0.0
    ensures k == n ==> Owed(principal, rate, n, Amortized, k) == 0.0
  {
    hide Pmt, Pow, Level, Owed;
    LevelShare(principal, rate, n, k);
    if k == 0 {
      FirstOwed(principal, rate, n);
    } else {
      LevelOwed(principal, rate, n, k - 1);
      OwedNext(principal, rate, n, Amortized, k - 1);
      LevelNext(principal, rate, n, k);
    }
  }

  lemma FirstOwed(principal: real, rate: real, n: nat)
    requires rate >= 0.0 && n > 0
    ensures Owed(principal, rate, n, Amortized, 0) == principal
            == Level(principal, rate / 12.0, Pmt(principal, rate, n), 0)
  {
  }

  lemma LevelNext(principal: real, rate: real, n: nat, k: nat)
    requires rate >= 0.0 && n > 0 && k > 0
    ensures var before := Level(principal, rate / 12.0, Pmt(principal, rate, n), k - 1);
            Level(principal, rate / 12.0, Pmt(principal, rate, n), k)
                == before - Repaid(principal, rate, n, Amortized, before)
  {
    hide Pmt;
    var i := rate / 12.0;
    var before := Level(principal, i, Pmt(principal, rate, n), k - 1);
    assert before * (1.0 + i) == before + before * i;
  }

  lemma {:induction false} NothingOwed(rate: real, n: nat, k: nat)
    requires rate >= 0.0 && n > 0
    ensures Owed(0.0, rate, n, Amortized, k) == 0.0
  {
    if k > 0 {
      NothingOwed(rate, n, k - 1);
    }
  }

  /** The clamp never changes a value. */
  lemma ClampIsIdle(principal: real, rate: real, n: nat, how: Repayment, k: nat)
    requires rate >= 0.0 && principal >= 0.0 && k < n
    ensures var before := Owed(principal, rate, n, how, k);
            Owed(principal, rate, n, how, k + 1) == before - Repaid(principal, rate, n, how, before) >= 0.0
  {
    hide Owed, Pmt, Pow;
    OwedNext(principal, rate, n, how, k);
    var before := Owed(principal, rate, n, how, k);
    if Even(rate, how) {
      EqualParts(principal, rate, n, how, k);
      EqualParts(principal, rate, n, how, k + 1);
      EvenPart(principal, rate, n, how, before);
      OnePart(principal / (n as real), n - k - 1);
    } else if principal == 0.0 {
      NothingOwed(rate, n, k);
      assert Pmt(0.0, rate, n) == 0.0 by { PmtOfNothing(rate, n); }
    } else {
      LevelOwed(principal, rate, n, k);
      LevelOwed(principal, rate, n, k + 1);
      var i := rate / 12.0;
      assert before * (1.0 + i) == before + before * i;
    }
  }

  lemma PmtOfNothing(rate: real, n: nat)
    requires rate >= 0.0
    ensures Pmt(0.0, rate, n) == 0.0
  {
  }

  /** What is owed ends at exactly 0. */
  lemma PaidOff(principal: real, rate: real, n: nat, how: Repayment)
    requires rate >= 0.0 && principal >= 0.0 && n > 0
    ensures Owed(principal, rate, n, how, n) == 0.0
  {
    hide Owed, Pmt;
    if Even(rate, how) {
      EqualParts(principal, rate, n, how, n);
    } else if principal == 0.0 {
      NothingOwed(rate, n, n);
    } else {
      LevelOwed(principal, rate, n, n);
    }
  }

  function RepaidIn(principal: real, rate: real, n: nat, how: Repayment, k: nat): real
    requires rate >= 0.0 && n > 0
  {
    if k == 0 then 0.0
    else RepaidIn(principal, rate, n, how, k - 1)
         + Repaid(principal, rate, n, how, Owed(principal, rate, n, how, k - 1))
  }

  /** The principal parts of the payments so far and what is still owed make up the loan. */
  lemma {:induction false} PrincipalConserved(principal: real, rate: real, n: nat, how: Repayment, k: nat)
    requires rate >= 0.0 && principal >= 0.0 && k <= n && n > 0
    ensures RepaidIn(principal, rate, n, how, k) + Owed(principal, rate, n, how, k) == principal
    ensures k == n ==> RepaidIn(principal, rate, n, how, k) == principal
  {
    if k > 0 {
      PrincipalConserved(principal, rate, n, how, k - 1);
      ClampIsIdle(principal, rate, n, how, k - 1);
    }
    PaidOff(principal, rate, n, how);
  }

  /** A month's payment is its interest and what the balance falls by; level payments are all the same, and
      the first of equal parts is a part and a month's interest on the loan. */
  lemma MonthBalances(principal: real, rate: real, n: nat, how: Repayment, k: nat)
    requires rate >= 0.0 && principal >= 0.0 && k < n
    ensures PaymentAt(principal, rate, n, how, k)
            == InterestAt(principal, rate, n, how, k) + Owed(principal, rate, n, how, k)
               - Owed(principal, rate, n, how, k + 1)
    ensures how == Amortized ==> PaymentAt(principal, rate, n, how, k) == Pmt(principal, rate, n)
    ensures how == EqualPrincipal && k == 0 ==>
              PaymentAt(principal, rate, n, how, k) == principal / (n as real) + principal * (rate / 12.0)
  {
    hide Pmt;
    ClampIsIdle(principal, rate, n, how, k);
  }

  function InterestIn(principal: real, rate: real, n: nat, how: Repayment, t: nat): real
    requires rate >= 0.0 && n > 0
  {
    if t == 0 then 0.0 else InterestIn(principal, rate, n, how, t - 1) + InterestAt(principal, rate, n, how, t - 1)
  }

  // ---- The closed form ----

  function BalanceAfter(principal: real, rate: real, term: nat, paid: nat): real
    requires rate >= 0.0
  {
    if principal <= 0.0 || paid >= term then 0.0
    else
      var i, m := rate / 12.0, Pmt(principal, rate, term);
      if i == 0.0 then principal - m * (paid as real)
      else
        var g := Pow(1.0 + i, paid);
        Max(0.0, principal * g - m * (g - 1.0) / i)
  }

  /** The closed form is the schedule's balance, for every loan and month; only for a negative
      principal, before any payment, does it say 0 instead. */
  lemma ClosedForm(principal: real, rate: real, n: nat, k: nat)
    requires rate >= 0.0 && n > 0 && k <= n
    ensures BalanceAfter(principal, rate, n, k) == Owed(principal, rate, n, Amortized, k) <==> principal >= 0.0 || k > 0
  {
    if principal < 0.0 {
      NegativeOwed(principal, rate, n, k);
    } else if principal == 0.0 {
      NothingOwed(rate, n, k);
    } else if k == n {
      PaidOff(principal, rate, n, Amortized);
    } else if rate == 0.0 {
      EqualParts(principal, rate, n, Amortized, k);
      ZeroRate(principal, n, k);
    } else {
      LevelOwed(principal, rate, n, k);
      LevelBalance(principal, rate, n, k);
    }
  }

  lemma LevelBalance(principal: real, rate: real, n: nat, k: nat)
    requires principal > 0.0 && rate > 0.0 && k < n
    ensures BalanceAfter(principal, rate, n, k) == Level(principal, rate / 12.0, Pmt(principal, rate, n), k)
  {
    hide Pmt, Pow, Level;
    var i, m, g := rate / 12.0, Pmt(principal, rate, n), Pow(1.0 + rate / 12.0, k);
    LevelClosed(principal, i, m, k);
    LevelShare(principal, rate, n, k);
    DivideBy(i, Level(principal, i, m, k), principal, g, m);
  }

  lemma DivideBy(i: real, u: real, p: real, g: real, m: real)
    requires i > 0.0 && i * u == p * i * g - m * (g - 1.0)
    ensures p * g - m * (g - 1.0) / i == u
  {
    Quotient(m * (g - 1.0), i);
    var q := m * (g - 1.0) / i;
    assert i * (p * g - q) == i * u;
    Cancel(i, p * g - q, u);
  }

  lemma ZeroRate(principal: real, n: nat, k: nat)
    requires principal > 0.0 && k < n
    ensures BalanceAfter(principal, 0.0, n, k) == Times(principal / (n as real), n - k)
  {
    var part := principal / (n as real);
    Quotient(principal, n as real);
    assert Pmt(principal, 0.0, n) == part;
    assert part * ((n - k) as real) == part * (n as real) - part * (k as real);
  }

  lemma {:induction false} NegativeOwed(principal: real, rate: real, n: nat, k: nat)
    requires rate >= 0.0 && principal < 0.0 && n > 0
    ensures Owed(principal, rate, n, Amortized, k) == if k == 0 then principal else 0.0
  {
    if k > 0 {
      NegativeOwed(principal, rate, n, k - 1);
      var i, before := rate / 12.0, Owed(principal, rate, n, Amortized, k - 1);
      assert Pmt(principal, rate, n) == 0.0;
      assert before + before * i <= 0.0 by { NonPositive(before, i); }
    }
  }

  lemma NonPositive(a: real, i: real)
    requires a <= 0.0 && i >= 0.0
    ensures a + a * i <= 0.0
  {
  }
}
