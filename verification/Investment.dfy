/** Grants, loans and payback of an investment. */
module Investment {
  import opened Basics
  import opened Rounding

  datatype Formula = FixedCzk(amountCzk: real) | OtherFormula

  datatype GrantTerms = GrantTerms(
    subsidyRatePct: Option<real>,
    maximumAmountCzk: Option<real>,
    formula: Formula)

  datatype Loan = Loan(
    aprPct: real,
    feesCzk: real,
    minimumAmountCzk: Option<real>,
    maximumAmountCzk: Option<real>,
    termMonthsMin: int,
    termMonthsMax: int,
    principalCzk: real,
    termMonths: int)

  datatype Assessment = Assessment(
    capexCzk: real,
    grantCzk: real,
    netInvestmentCzk: real,
    loanPrincipalCzk: real,
    monthlyPaymentCzk: real,
    totalFinancingCostCzk: real,
    effectiveInvestmentCzk: real,
    annualSavingsCzk: real,
    simplePaybackYears: Option<real>)

  datatype InvestmentError = CapexInvalid | LoanTermInvalid | LoanAmountInvalid

  // ---- the grant ----

  function RawGrant(capexCzk: real, terms: GrantTerms): real {
    if terms.formula.FixedCzk? then terms.formula.amountCzk
    else if terms.subsidyRatePct.Some? then capexCzk * terms.subsidyRatePct.value / 100.0
    else 0.0
  }

  function CalculateGrantCzk(capexCzk: real, terms: Option<GrantTerms>): real {
    match terms
    case None => 0.0
    case Some(t) => Round(Max(0.0, Min(capexCzk, Cap(RawGrant(capexCzk, t), t.maximumAmountCzk))), HALER)
  }

  lemma RoundZero()
    ensures Round(0.0, HALER) == 0.0
  {
    assert Scaled(0.0, HALER) == 0;
  }

  /** A grant is never negative and never more than the investment, to the haler; nor
      more than its published maximum. */
  lemma GrantWithinCapex(capexCzk: real, terms: Option<GrantTerms>)
    requires capexCzk >= 0.0
    ensures 0.0 <= CalculateGrantCzk(capexCzk, terms) <= Round(capexCzk, HALER)
    ensures terms.Some? && terms.value.maximumAmountCzk.Some? && terms.value.maximumAmountCzk.value >= 0.0 ==>
      CalculateGrantCzk(capexCzk, terms) <= Round(terms.value.maximumAmountCzk.value, HALER)
  {
    hide Round, RawGrant;
    RoundZero();
    RoundMonotone(0.0, capexCzk, HALER);
    if terms.Some? {
      var amount := Max(0.0, Min(capexCzk, Cap(RawGrant(capexCzk, terms.value), terms.value.maximumAmountCzk)));
      RoundMonotone(0.0, amount, HALER);
      RoundMonotone(amount, capexCzk, HALER);
      if terms.value.maximumAmountCzk.Some? && terms.value.maximumAmountCzk.value >= 0.0 {
        RoundMonotone(amount, terms.value.maximumAmountCzk.value, HALER);
      }
    }
  }

  // ---- powers of the monthly growth factor ----

  function Pow(base: real, n: nat): real {
    if n == 0 then 1.0 else Pow(base, n - 1) * base
  }

  lemma {:induction false} PowPositive(base: real, n: nat)
    requires base > 0.0
    ensures Pow(base, n) > 0.0
  {
    if n > 0 {
      PowPositive(base, n - 1);
      MulPositive(Pow(base, n - 1), base);
    }
  }

  /** Growth by a positive rate exceeds one, by a negative rate stays below. */
  lemma {:induction false} PowAgainstOne(rate: real, n: nat)
    requires rate > -1.0 && n > 0
    ensures rate > 0.0 ==> Pow(1.0 + rate, n) > 1.0
    ensures rate < 0.0 ==> Pow(1.0 + rate, n) < 1.0
  {
    if n > 1 {
      PowAgainstOne(rate, n - 1);
      PowPositive(1.0 + rate, n - 1);
      Grow(Pow(1.0 + rate, n - 1), rate);
    }
  }

  lemma Grow(p: real, rate: real)
    requires p > 0.0
    ensures rate > 0.0 ==> p * (1.0 + rate) > p
    ensures rate < 0.0 ==> p * (1.0 + rate) < p
  {
    assert p * (1.0 + rate) == p + p * rate;
    if rate > 0.0 { MulPositive(p, rate); }
    if rate < 0.0 { MulPositive(p, -rate); }
  }

  /** A growth factor `p` reduced by `k` months' simple interest. */
  function Reduced(p: real, rate: real, k: real): real {
    p * (1.0 - k * rate)
  }

  /** Bernoulli's inequality for negative exponents, in the form the payment needs. */
  lemma {:induction false} Bernoulli(rate: real, n: nat)
    requires rate > -1.0
    ensures Reduced(Pow(1.0 + rate, n), rate, n as real) <= 1.0
    ensures n > 0 && rate != 0.0 ==> Reduced(Pow(1.0 + rate, n), rate, n as real) < 1.0
  {
    if n > 0 {
      Bernoulli(rate, n - 1);
      PowPositive(1.0 + rate, n - 1);
      BernoulliStep(Pow(1.0 + rate, n - 1), Pow(1.0 + rate, n), rate, (n - 1) as real);
      hide Reduced, Pow;
      assert (n - 1) as real + 1.0 == n as real;
    }
  }

  lemma BernoulliStep(p: real, nextP: real, rate: real, k: real)
    requires p > 0.0 && k >= 0.0 && nextP == p * (1.0 + rate) && Reduced(p, rate, k) <= 1.0
    ensures Reduced(nextP, rate, k + 1.0) <= 1.0
    ensures rate != 0.0 ==> Reduced(nextP, rate, k + 1.0) < 1.0
  {
    var square := rate * rate;
    var loss := (k + 1.0) * square;
    SquareSign(rate, square);
    MulNonNegative(k + 1.0, square);
    MulNonNegative(p, loss);
    if rate != 0.0 {
      MulPositive(k + 1.0, square);
      MulPositive(p, loss);
    }
    ReducedStep(p, rate, k, loss);
    hide Reduced;
  }

  /** A month of compound growth against a month of simple interest loses `loss`. */
  lemma ReducedStep(p: real, rate: real, k: real, loss: real)
    requires loss == (k + 1.0) * (rate * rate)
    ensures Reduced(p * (1.0 + rate), rate, k + 1.0) == Reduced(p, rate, k) - p * loss
  {
    assert (1.0 + rate) * (1.0 - (k + 1.0) * rate) == 1.0 - k * rate - (k + 1.0) * (rate * rate);
    calc {
      Reduced(p * (1.0 + rate), rate, k + 1.0);
      p * ((1.0 + rate) * (1.0 - (k + 1.0) * rate));
      p * (1.0 - k * rate - loss);
      Reduced(p, rate, k) - p * loss;
    }
  }

  lemma SquareSign(x: real, square: real)
    requires square == x * x
    ensures square >= 0.0 && (x != 0.0 ==> square > 0.0)
  {
    if x > 0.0 {
      calc { square; x * x; > { MulPositive(x, x); } 0.0; }
    } else if x < 0.0 {
      calc { square; x * x; (-x) * (-x); > { MulPositive(-x, -x); } 0.0; }
    }
  }

  // ---- the loan ----

  function MonthlyRate(aprPct: real): real {
    aprPct / 100.0 / 12.0
  }

  /** `1 - (1 + rate) ** -months`. */
  function AnnuityShare(rate: real, months: nat): real
    requires rate > -1.0 && months > 0
  {
    PowPositive(1.0 + rate, months);
    1.0 - 1.0 / Pow(1.0 + rate, months)
  }

  lemma ShareTimesPow(rate: real, months: nat)
    requires rate > -1.0 && months > 0
    ensures Pow(1.0 + rate, months) > 0.0
    ensures AnnuityShare(rate, months) * Pow(1.0 + rate, months) == Pow(1.0 + rate, months) - 1.0
    ensures rate > 0.0 ==> AnnuityShare(rate, months) > 0.0
    ensures rate < 0.0 ==> AnnuityShare(rate, months) < 0.0
  {
    PowPositive(1.0 + rate, months);
    PowAgainstOne(rate, months);
    InverseAgainstOne(Pow(1.0 + rate, months));
  }

  lemma InverseAgainstOne(p: real)
    requires p > 0.0
    ensures (1.0 - 1.0 / p) * p == p - 1.0
    ensures p > 1.0 ==> 1.0 - 1.0 / p > 0.0
    ensures p < 1.0 ==> 1.0 - 1.0 / p < 0.0
  {
    var inverse := 1.0 / p;
    assert inverse * p == 1.0;
    assert (1.0 - inverse) * p == p - inverse * p;
    if p > 1.0 && inverse >= 1.0 {
      MulMonotone(1.0, inverse, p);
    }
    if p < 1.0 && inverse <= 1.0 {
      MulMonotone(inverse, 1.0, p);
    }
  }

  function MonthlyPayment(principal: real, rate: real, months: nat): real
    requires rate > -1.0 && months > 0
  {
    if rate == 0.0 then principal / months as real
    else
      ShareTimesPow(rate, months);
      principal * rate / AnnuityShare(rate, months)
  }

  /** What is still owed after `k` monthly payments. */
  function Balance(principal: real, rate: real, payment: real, k: nat): real {
    if k == 0 then principal else MonthLater(Balance(principal, rate, payment, k - 1), rate, payment)
  }

  /** One month: interest is added, then the payment is taken off. */
  function MonthLater(balance: real, rate: real, payment: real): real {
    balance * (1.0 + rate) - payment
  }

  lemma {:induction false} InterestFreeBalance(principal: real, payment: real, k: nat)
    ensures Balance(principal, 0.0, payment, k) == principal - k as real * payment
  {
    if k > 0 {
      InterestFreeBalance(principal, payment, k - 1);
      assert (k - 1) as real * payment + payment == k as real * payment;
    }
  }

  /** A balance `b` after growth by the factor `p`, when the first month's interest
      exceeds the payment by `excess`. */
  predicate ClosedForm(b: real, p: real, rate: real, payment: real, excess: real) {
    b * rate == p * excess + payment
  }

  lemma {:induction false} BalanceClosedForm(principal: real, rate: real, payment: real, k: nat, excess: real)
    requires excess == principal * rate - payment
    ensures ClosedForm(Balance(principal, rate, payment, k), Pow(1.0 + rate, k), rate, payment, excess)
  {
    hide MonthLater;
    if k > 0 {
      BalanceClosedForm(principal, rate, payment, k - 1, excess);
      hide ClosedForm;
      ClosedFormStep(Balance(principal, rate, payment, k - 1), Pow(1.0 + rate, k - 1), Pow(1.0 + rate, k), rate,
                     payment, excess);
    }
  }

  lemma ClosedFormStep(b: real, p: real, nextP: real, rate: real, payment: real, excess: real)
    requires ClosedForm(b, p, rate, payment, excess) && nextP == p * (1.0 + rate)
    ensures ClosedForm(MonthLater(b, rate, payment), nextP, rate, payment, excess)
  {
    calc {
      MonthLater(b, rate, payment) * rate;
      (b * (1.0 + rate) - payment) * rate;
      b * rate * (1.0 + rate) - payment * rate;
      (p * excess + payment) * (1.0 + rate) - payment * rate;
      p * (1.0 + rate) * excess + payment;
      nextP * excess + payment;
    }
  }

  /** AMORTISATION. Paying the computed amount for the whole term leaves a balance of
      exactly zero. */
  lemma PaymentClearsTheLoan(principal: real, rate: real, months: nat)
    requires rate > -1.0 && months > 0
    ensures Balance(principal, rate, MonthlyPayment(principal, rate, months), months) == 0.0
  {
    var payment := MonthlyPayment(principal, rate, months);
    if rate == 0.0 {
      InterestFreeBalance(principal, payment, months);
    } else {
      BalanceClosedForm(principal, rate, payment, months, principal * rate - payment);
      ShareTimesPow(rate, months);
      var share, p := AnnuityShare(rate, months), Pow(1.0 + rate, months);
      PaymentBalancesInterest(principal * rate, share, p);
      var rest := Balance(principal, rate, payment, months);
      assert rest * rate == 0.0;
    }
  }

  lemma PaymentBalancesInterest(interest: real, share: real, p: real)
    requires share != 0.0 && share * p == p - 1.0
    ensures p * (interest - interest / share) + interest / share == 0.0
  {
    var payment := interest / share;
    assert payment * share == interest;
    calc {
      p * (interest - payment) + payment;
      p * interest - payment * (p - 1.0);
      p * interest - payment * (share * p);
      p * interest - payment * share * p;
      0.0;
    }
  }

  /** All instalments together cover the principal exactly when the rate is not
      negative, and exceed it exactly when the rate is positive. */
  lemma TotalPaidCoversPrincipal(principal: real, rate: real, months: nat)
    requires rate > -1.0 && months > 0 && principal > 0.0
    ensures MonthlyPayment(principal, rate, months) * months as real >= principal <==> rate >= 0.0
    ensures MonthlyPayment(principal, rate, months) * months as real > principal <==> rate > 0.0
  {
    var n := months as real;
    if rate == 0.0 {
      DivTimes(principal, n);
    } else {
      ShareTimesPow(rate, months);
      Bernoulli(rate, months);
      var share, p := AnnuityShare(rate, months), Pow(1.0 + rate, months);
      InterestExceedsShare(p, share, n * rate);
      CompareTotal(principal, rate, n, share);
    }
  }

  lemma InterestExceedsShare(p: real, share: real, interest: real)
    requires p > 0.0 && share * p == p - 1.0 && p * (1.0 - interest) < 1.0
    ensures share < interest
  {
    assert p * interest > share * p;
    if share >= interest {
      MulMonotone(interest, share, p);
    }
  }

  lemma CompareTotal(principal: real, rate: real, n: real, share: real)
    requires principal > 0.0 && share < n * rate && (rate > 0.0 ==> share > 0.0) && (rate < 0.0 ==> share < 0.0)
    requires rate != 0.0
    ensures principal * rate / share * n >= principal <==> rate > 0.0
    ensures principal * rate / share * n > principal <==> rate > 0.0
  {
    var payment := principal * rate / share;
    assert payment * share == principal * rate;
    assert payment * n * share == principal * (n * rate);
    MulPositive(principal, n * rate - share);
    assert payment * n * share > principal * share;
    var total := payment * n;
    if share > 0.0 {
      if total < principal { MulMonotone(total, principal, share); }
    } else {
      if total >= principal { MulMonotone(principal, total, -share); }
    }
  }

  // ---- the assessment ----

  function NetInvestment(capexCzk: real, grant: Option<GrantTerms>): real {
    Max(0.0, capexCzk - CalculateGrantCzk(capexCzk, grant))
  }

  function LoanPrincipal(net: real, loan: Loan): real {
    Min(Cap(net, loan.maximumAmountCzk), loan.principalCzk)
  }

  function FinancingCost(net: real, loan: Option<Loan>): real
    requires loan.Some? ==> loan.value.termMonths > 0 && MonthlyRate(loan.value.aprPct) > -1.0
  {
    match loan
    case None => 0.0
    case Some(l) =>
      MonthlyPayment(LoanPrincipal(net, l), MonthlyRate(l.aprPct), l.termMonths) * l.termMonths as real
      - LoanPrincipal(net, l) + l.feesCzk
  }

  /** `calculateInvestmentAssessment`. A loan without a month of term, or with a rate
      of -100 % or less a month, has no finite payment in the source. */
  function CalculateInvestmentAssessment(capexCzk: real, annualSavingsCzk: real, grant: Option<GrantTerms>,
                                         loan: Option<Loan>): Result<Assessment, InvestmentError>
    requires loan.Some? ==> loan.value.termMonths > 0 && MonthlyRate(loan.value.aprPct) > -1.0
  {
    if capexCzk < 0.0 then Err(CapexInvalid)
    else
      var net := NetInvestment(capexCzk, grant);
      if loan.Some? && !(loan.value.termMonthsMin <= loan.value.termMonths <= loan.value.termMonthsMax)
      then Err(LoanTermInvalid)
      else if loan.Some? && loan.value.minimumAmountCzk.Some?
              && LoanPrincipal(net, loan.value) < loan.value.minimumAmountCzk.value
      then Err(LoanAmountInvalid)
      else
        var principal := if loan.None? then 0.0 else LoanPrincipal(net, loan.value);
        var payment := if loan.None? then 0.0
                       else MonthlyPayment(principal, MonthlyRate(loan.value.aprPct), loan.value.termMonths);
        var financing := FinancingCost(net, loan);
        var savings := Max(0.0, annualSavingsCzk);
        Ok(Assessment(
          Round(capexCzk, HALER),
          CalculateGrantCzk(capexCzk, grant),
          Round(net, HALER),
          Round(principal, HALER),
          Round(payment, HALER),
          Round(financing, HALER),
          Round(net + financing, HALER),
          Round(savings, HALER),
          if savings > 0.0 then Some(Round((net + financing) / savings, HALER)) else None))
  }

  /** An accepted loan keeps its published terms: its length, its largest and smallest
      amount, what was asked for and what is needed; and the published payment is the
      rounding of one that repays it to zero. */
  lemma AcceptedLoanKeepsItsTerms(capexCzk: real, annualSavingsCzk: real, grant: Option<GrantTerms>, loan: Loan)
    requires loan.termMonths > 0 && MonthlyRate(loan.aprPct) > -1.0
    requires CalculateInvestmentAssessment(capexCzk, annualSavingsCzk, grant, Some(loan)).Ok?
    ensures var a := CalculateInvestmentAssessment(capexCzk, annualSavingsCzk, grant, Some(loan)).value;
      && loan.termMonthsMin <= loan.termMonths <= loan.termMonthsMax
      && a.loanPrincipalCzk <= a.netInvestmentCzk
      && a.loanPrincipalCzk <= Round(loan.principalCzk, HALER)
      && (loan.maximumAmountCzk.Some? ==> a.loanPrincipalCzk <= Round(loan.maximumAmountCzk.value, HALER))
      && (loan.minimumAmountCzk.Some? ==> Round(loan.minimumAmountCzk.value, HALER) <= a.loanPrincipalCzk)
      && exists principal, payment ::
           && a.loanPrincipalCzk == Round(principal, HALER) && a.monthlyPaymentCzk == Round(payment, HALER)
           && Balance(principal, MonthlyRate(loan.aprPct), payment, loan.termMonths) == 0.0
  {
    hide Round, Balance, MonthlyPayment, MonthlyRate;
    var net := NetInvestment(capexCzk, grant);
    var principal := LoanPrincipal(net, loan);
    var payment := MonthlyPayment(principal, MonthlyRate(loan.aprPct), loan.termMonths);
    RoundMonotone(principal, net, HALER);
    RoundMonotone(principal, loan.principalCzk, HALER);
    if loan.maximumAmountCzk.Some? { RoundMonotone(principal, loan.maximumAmountCzk.value, HALER); }
    if loan.minimumAmountCzk.Some? { RoundMonotone(loan.minimumAmountCzk.value, principal, HALER); }
    PaymentClearsTheLoan(principal, MonthlyRate(loan.aprPct), loan.termMonths);
  }

  /** The assessment fails exactly for a negative price, a term outside the loan's range,
      or a financed amount below its minimum, and the first of these is reported. */
  lemma AssessmentFailsExactly(capexCzk: real, annualSavingsCzk: real, grant: Option<GrantTerms>, loan: Option<Loan>)
    requires loan.Some? ==> loan.value.termMonths > 0 && MonthlyRate(loan.value.aprPct) > -1.0
    ensures var r := CalculateInvestmentAssessment(capexCzk, annualSavingsCzk, grant, loan);
      var tooShortOrLong := loan.Some?
        && (loan.value.termMonths < loan.value.termMonthsMin || loan.value.termMonthsMax < loan.value.termMonths);
      && (r == Err(CapexInvalid) <==> capexCzk < 0.0)
      && (r == Err(LoanTermInvalid) <==> capexCzk >= 0.0 && tooShortOrLong)
      && (r == Err(LoanAmountInvalid) <==>
            capexCzk >= 0.0 && !tooShortOrLong && loan.Some? && loan.value.minimumAmountCzk.Some?
            && var minimum := loan.value.minimumAmountCzk.value;
            || NetInvestment(capexCzk, grant) < minimum
            || loan.value.principalCzk < minimum
            || (loan.value.maximumAmountCzk.Some? && loan.value.maximumAmountCzk.value < minimum))
      && (r.Ok? && r.value.simplePaybackYears.Some? ==> annualSavingsCzk > 0.0)
      && (r.Ok? && loan.None? ==> r.value.effectiveInvestmentCzk == r.value.netInvestmentCzk
                                  && r.value.totalFinancingCostCzk == 0.0)
  {
    hide MonthlyPayment, MonthlyRate, NetInvestment, Round;
    RoundZero();
  }

  lemma PaymentIsLinear(principal: real, rate: real, months: nat)
    requires rate > -1.0 && months > 0
    ensures MonthlyPayment(-principal, rate, months) == -MonthlyPayment(principal, rate, months)
  {
    hide AnnuityShare;
    if rate != 0.0 {
      ShareTimesPow(rate, months);
      assert (-principal) * rate == -(principal * rate);
      NegatedQuotient(principal * rate, AnnuityShare(rate, months));
    } else {
      NegatedQuotient(principal, months as real);
    }
  }

  lemma NegatedQuotient(a: real, b: real)
    requires b != 0.0
    ensures (-a) / b == -(a / b)
  {
  }

  /** Borrowing a positive amount never makes the investment cheaper than its net price plus
      the fees exactly when the yearly rate is not negative; without an amount the cost is
      the fees, and for a negative amount the sign turns round. */
  lemma FinancingCostsAtLeastItsFees(net: real, loan: Loan)
    requires loan.termMonths > 0 && MonthlyRate(loan.aprPct) > -1.0
    ensures var principal := LoanPrincipal(net, loan);
      FinancingCost(net, Some(loan)) >= loan.feesCzk
      <==> || principal == 0.0
           || (principal > 0.0 && loan.aprPct >= 0.0)
           || (principal < 0.0 && loan.aprPct <= 0.0)
  {
    var principal, rate, n := LoanPrincipal(net, loan), MonthlyRate(loan.aprPct), loan.termMonths;
    assert rate >= 0.0 <==> loan.aprPct >= 0.0;
    assert rate > 0.0 <==> loan.aprPct > 0.0;
    hide LoanPrincipal, MonthlyRate;
    var paid := MonthlyPayment(principal, rate, n) * n as real;
    PaymentIsLinear(principal, rate, n);
    hide MonthlyPayment;
    NegatedTotal(MonthlyPayment(principal, rate, n), n as real);
    if principal > 0.0 {
      TotalPaidCoversPrincipal(principal, rate, n);
    } else if principal < 0.0 {
      TotalPaidCoversPrincipal(-principal, rate, n);
    }
  }

  lemma NegatedTotal(payment: real, n: real)
    ensures (-payment) * n == -(payment * n)
    ensures payment == 0.0 ==> payment * n == 0.0
  {
  }

  /** The same in the published figures: the effective investment is at least the net
      investment, and at least net investment plus fees before rounding. */
  lemma PublishedEffectiveInvestment(capexCzk: real, annualSavingsCzk: real, grant: Option<GrantTerms>, loan: Loan)
    requires loan.termMonths > 0 && loan.aprPct >= 0.0 && loan.feesCzk >= 0.0
    requires loan.principalCzk >= 0.0 && (loan.maximumAmountCzk.Some? ==> loan.maximumAmountCzk.value >= 0.0)
    requires CalculateInvestmentAssessment(capexCzk, annualSavingsCzk, grant, Some(loan)).Ok?
    ensures var a := CalculateInvestmentAssessment(capexCzk, annualSavingsCzk, grant, Some(loan)).value;
      && a.netInvestmentCzk <= a.effectiveInvestmentCzk
      && Round(NetInvestment(capexCzk, grant) + loan.feesCzk, HALER) <= a.effectiveInvestmentCzk
  {
    hide Round, FinancingCost, MonthlyPayment, NetInvestment;
    var net := NetInvestment(capexCzk, grant);
    NetIsNotNegative(capexCzk, grant);
    assert LoanPrincipal(net, loan) >= 0.0;
    hide LoanPrincipal;
    var financing := FinancingCost(net, Some(loan));
    FinancingCostsAtLeastItsFees(net, loan);
    RoundMonotone(net, net + financing, HALER);
    RoundMonotone(net + loan.feesCzk, net + financing, HALER);
  }

  lemma NetIsNotNegative(capexCzk: real, grant: Option<GrantTerms>)
    ensures NetInvestment(capexCzk, grant) >= 0.0
  {
  }
}
