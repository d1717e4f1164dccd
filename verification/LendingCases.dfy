/** The cases the loan limit's own tests are about. */
module LendingCases {
  import opened Amortisation
  import opened Lending

  // ---- A growth over thirty years ----

  lemma {:induction false} PowAdds(x: real, a: nat, b: nat)
    ensures Pow(x, a + b) == Pow(x, a) * Pow(x, b)
  {
    if a > 0 {
      PowAdds(x, a - 1, b);
      Reordered(x, Pow(x, a - 1), Pow(x, b));
    }
  }

  lemma Reordered(x: real, y: real, z: real)
    ensures x * (y * z) == x * y * z
  {
  }

  lemma {:induction false} Bernoulli(i: real, n: nat)
    requires i >= 0.0
    ensures Pow(1.0 + i, n) >= 1.0 + i * (n as real)
  {
    if n > 0 {
      Bernoulli(i, n - 1);
      var g, low := Pow(1.0 + i, n - 1), 1.0 + i * ((n - 1) as real);
      Larger(1.0 + i, low, g);
      assert (1.0 + i) * low == 1.0 + i * (n as real) + i * (i * ((n - 1) as real));
      Product(i, (n - 1) as real);
      Product(i, i * ((n - 1) as real));
    }
  }

  lemma Larger(x: real, a: real, b: real)
    requires x >= 0.0 && a <= b
    ensures x * a <= x * b
  {
    Product(x, b - a);
    assert x * (b - a) == x * b - x * a;
  }

  lemma Squares(x: real, y: real, n: nat)
    requires Pow(x, n) >= y >= 0.0
    ensures Pow(x, n + n) >= y * y
  {
    var g := Pow(x, n);
    PowAdds(x, n, n);
    Larger(g, y, g);
    Larger(y, y, g);
  }

  /** At seven per cent, more than six and a half times in thirty years. */
  lemma ThirtyYears()
    ensures Pow(1.0 + 0.07 / 12.0, 360) >= 6.6
  {
    hide Pow;
    var x := 1.0 + 0.07 / 12.0;
    Bernoulli(0.07 / 12.0, 36);
    assert Pow(x, 36) >= 1.21;
    Squares(x, 1.21, 36);
    Squares(x, 1.46, 72);
    PowAdds(x, 144, 36);
    Larger(Pow(x, 36), 2.13, Pow(x, 144));
    Larger(2.13, 1.21, Pow(x, 36));
    Squares(x, 2.57, 180);
  }

  /** A yearly payment of 8.26 per cent is then enough. */
  lemma Affordable(loan: real, room: real)
    requires loan > 0.0 && 0.0826 * loan < room
    ensures DebtService(loan, 0.07, 360, Amortized) < room
  {
    hide Pmt, Pow;
    var i, g, m := 0.07 / 12.0, Pow(1.0 + 0.07 / 12.0, 360), Pmt(loan, 0.07, 360);
    ThirtyYears();
    PaymentEquation(loan, 0.07, 360);
    if m >= 1.18 * (loan * i) {
      Larger(g - 1.0, 1.18 * (loan * i), m);
      assert 1.18 * (loan * i) * (g - 1.0) == (loan * i) * (1.18 * (g - 1.0));
      Positive(loan, i);
      Larger(loan * i, g + 0.001, 1.18 * (g - 1.0));
      assert loan * i * (g + 0.001) == loan * i * g + loan * i * 0.001;
    }
  }

  lemma RoomFor(loan: real, room: real)
    requires loan > 0.0 && 0.0826 * loan < room
    ensures Pv(room / 12.0, 0.07, 360) >= loan
  {
    hide Pv, Pmt;
    var most := Pv(room / 12.0, 0.07, 360);
    Affordable(loan, room);
    PvInverts(room / 12.0, 0.07, 360);
    if most < loan {
      ServiceGrows(most, loan, 0.07, 360, Amortized);
    }
  }

  // ---- The cases ----

  const Seoul := Region(true, true)
  const Incheon := Region(false, true)
  const Elsewhere := Region(false, false)

  function Asks(income: real, price: real, region: Region, buyer: Buyer): Application {
    Application(price, region, buyer, income, 0.0, 0.04, 360, Amortized, Variable, Bank, true)
  }

  lemma Exactly(amount: real, least: real, k: int)
    requires InMillions(amount) && amount <= least < amount + 1000000.0 && least == (k as real) * 1000000.0
    ensures amount == least
  {
    var f := (amount / 1000000.0).Floor;
    assert (f as real) * 1000000.0 <= (k as real) * 1000000.0 < ((f + 1) as real) * 1000000.0;
    assert f <= k < f + 1;
  }

  /** Without a home in a regulated region: 40 per cent of the price, when the income allows. */
  lemma WithoutHome(amount: real, dsr: Amount)
    requires Granted(Asks(100000000.0, 1200000000.0, Seoul, NoHome), amount, dsr)
    ensures amount == 480000000.0
  {
    var i := Asks(100000000.0, 1200000000.0, Seoul, NoHome);
    assert i.StressedRate() == 0.07 && i.Room() == 40000000.0;
    RoomFor(480000000.0, 40000000.0);
    ThreeBounds(i, dsr);
    Exactly(amount, 480000000.0, 480);
  }

  /** A cap below the share of the price, and an income that carries it. */
  lemma CapBinds(i: Application, amount: real, dsr: Amount, cap: real, k: int)
    requires i.how == Amortized && i.livesIn && i.StressedRate() == 0.07 && Term(i.region, i.months) == 360
    requires Granted(i, amount, dsr) && Cap(i.region, i.price) == Finite(cap) && cap == (k as real) * 1000000.0
    requires 100000000.0 < cap <= i.price * Ltv(i.region, i.buyer) && 0.0826 * cap < i.Room()
    ensures amount == cap
  {
    hide InMillions, Pv, Bounds, Ltv, Cap;
    RoomFor(cap, i.Room());
    ThreeBounds(i, dsr);
    Exactly(amount, cap, k);
  }

  /** For a first home 70 per cent, but at most 600 million won. */
  lemma FirstHome(amount: real, dsr: Amount)
    requires Granted(Asks(200000000.0, 1200000000.0, Seoul, First), amount, dsr)
    ensures amount == 600000000.0
  {
    var i := Asks(200000000.0, 1200000000.0, Seoul, First);
    assert i.StressedRate() == 0.07 && i.Room() == 80000000.0;
    CapBinds(i, amount, dsr, 600000000.0, 600);
  }

  /** And at most 400 million above a price of 1.5 billion, 200 million above 2.5 billion. */
  lemma DearHome(amount: real, dsr: Amount)
    requires Granted(Asks(500000000.0, 2000000000.0, Seoul, First), amount, dsr)
    ensures amount == 400000000.0
  {
    var i := Asks(500000000.0, 2000000000.0, Seoul, First);
    assert i.StressedRate() == 0.07 && i.Room() == 200000000.0;
    CapBinds(i, amount, dsr, 400000000.0, 400);
  }

  lemma DearerHome(amount: real, dsr: Amount)
    requires Granted(Asks(500000000.0, 3000000000.0, Seoul, First), amount, dsr)
    ensures amount == 200000000.0
  {
    var i := Asks(500000000.0, 3000000000.0, Seoul, First);
    assert i.StressedRate() == 0.07 && i.Room() == 200000000.0;
    CapBinds(i, amount, dsr, 200000000.0, 200);
  }

  /** Who has a home and keeps it gets nothing in the capital region. */
  lemma KeepsHome(amount: real, dsr: Amount)
    requires Granted(Asks(100000000.0, 800000000.0, Incheon, One), amount, dsr)
    ensures amount == 0.0
  {
    ThreeBounds(Asks(100000000.0, 800000000.0, Incheon, One), dsr);
  }

  /** A loan that cannot exceed 100 million is not held to the income. */
  lemma SmallHome(amount: real, dsr: Amount)
    requires Granted(Asks(10000000.0, 140000000.0, Elsewhere, NoHome), amount, dsr)
    ensures amount == 98000000.0
  {
    ThreeBounds(Asks(10000000.0, 140000000.0, Elsewhere, NoHome), dsr);
    Exactly(amount, 98000000.0, 98);
  }

  /** Outside the capital region the rate is tested with 0.75 points more, inside with 3, and a rate that is
      fixed with none. */
  lemma TestedRates(amount: real, dsr: Amount)
    requires Granted(Asks(50000000.0, 500000000.0, Elsewhere, NoHome), amount, dsr)
    ensures dsr == Finite(Pv(20000000.0 / 12.0, 0.0475, 360))
    ensures Asks(50000000.0, 500000000.0, Incheon, NoHome).StressedRate() == 0.07
    ensures Asks(50000000.0, 500000000.0, Incheon, NoHome).(rateType := Fixed).StressedRate() == 0.04
  {
    var i := Asks(50000000.0, 500000000.0, Elsewhere, NoHome);
    assert i.StressedRate() == 0.0475 && i.Room() == 20000000.0;
  }

  /** Loans of more than thirty years count as thirty in the capital region, and others as what they are. */
  lemma LongTerms(i: Application, amount: real, dsr: Amount)
    requires i.StressedRate() >= 0.0 && Granted(i, amount, dsr) && i.months > 360
    ensures i.region.Restricted() ==> Granted(i.(months := 360), amount, dsr)
    ensures !i.region.Restricted() && i.how == Amortized && dsr.Finite? && i.Room() > 0.0 ==>
              dsr.won == Pv(i.Room() / 12.0, i.StressedRate(), i.months)
  {
    hide Pv, Bisected, DebtService, Stress, InMillions, Bounds;
    var j := i.(months := 360);
    SameBounds(i, j, dsr);
    assert j.StressedRate() == i.StressedRate() && j.Room() == i.Room();
    if dsr.Finite? && i.region.Restricted() {
      assert Term(j.region, j.months) == Term(i.region, i.months) == 360;
      assert UsesRoom(j, dsr.won) <==> UsesRoom(i, dsr.won);
    }
  }

  /** Who does not move in gets nothing where loans are restricted, and as much as others elsewhere. */
  lemma MovesIn(i: Application, amount: real, dsr: Amount)
    requires i.StressedRate() >= 0.0 && Granted(i, amount, dsr) && !i.livesIn
    ensures i.region.regulated || i.region.capital ==> amount == 0.0
    ensures !i.region.regulated && !i.region.capital ==> Granted(i.(livesIn := true), amount, dsr)
  {
    hide Pv, Bisected, DebtService, Stress, InMillions, Cap, Ltv;
    var j := i.(livesIn := true);
    if i.region.Restricted() {
      assert Finite(0.0) in Bounds(i, dsr);
    } else {
      FreeBounds(i, j, dsr);
      assert j.StressedRate() == i.StressedRate() && j.Room() == i.Room();
      if dsr.Finite? {
        assert UsesRoom(j, dsr.won) <==> UsesRoom(i, dsr.won);
      }
    }
  }

  /** The policy's order: who has less gets more, a region that is regulated or in the capital area gets no more
      than one that is not, the surer the rate the milder its test, and banks look closer than others. */
  lemma PolicyIsOrdered(r: Region, price: real, dearer: real)
    requires price <= dearer
    ensures Ltv(r, First) >= Ltv(r, NoHome) == Ltv(r, OneDispose) > Ltv(r, One) == Ltv(r, Multi) >= 0.0
    ensures forall b :: Ltv(Seoul, b) <= Ltv(Incheon, b) <= Ltv(Elsewhere, b)
    ensures Stress(r, Variable) > Stress(r, Mixed) > Stress(r, Periodic) > Stress(r, Fixed) == 0.0
    ensures 0.0 < DsrLimit(Bank) < DsrLimit(NonBank) < 1.0
    ensures Cap(r, price) == Unlimited <==> !r.Restricted()
    ensures r.Restricted() ==> Cap(r, price).won >= Cap(r, dearer).won >= 200000000.0
    ensures Cap(Incheon, price) == Finite(600000000.0)
    ensures Cap(Seoul, price).won >= 600000000.0 <==> price <= 1500000000.0
    ensures Cap(Seoul, price).won > 200000000.0 <==> price <= 2500000000.0
  {
    forall b ensures Ltv(Seoul, b) <= Ltv(Incheon, b) <= Ltv(Elsewhere, b) {
      match b
      case First =>
      case NoHome =>
      case OneDispose =>
      case One =>
      case Multi =>
    }
  }

  lemma FreeBounds(i: Application, j: Application, dsr: Amount)
    requires j == i.(livesIn := j.livesIn) && !i.region.Restricted()
    ensures Bounds(j, dsr) == Bounds(i, dsr) && (SmallShare(j) <==> SmallShare(i))
  {
  }

  lemma SameBounds(i: Application, j: Application, dsr: Amount)
    requires j == i.(months := j.months)
    ensures Bounds(j, dsr) == Bounds(i, dsr) && (SmallShare(j) <==> SmallShare(i))
  {
  }

  lemma ThreeBounds(i: Application, dsr: Amount)
    ensures var bs, share, cap := Bounds(i, dsr), Finite(i.price * Ltv(i.region, i.buyer)), Cap(i.region, i.price);
            && share in bs && cap in bs && dsr in bs
            && forall b | b in bs :: b == share || b == cap || b == dsr || (b == Finite(0.0) && !i.livesIn)
  {
    HasBounds(i, dsr);
  }
}
