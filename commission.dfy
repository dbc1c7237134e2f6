/** The commission a record earns, as the four record views compute it when a
    record is created (app.py, the POST branches of vendas, cobrancas,
    consultas and procedimentos). Amounts are exact reals. */
module Commission {

  /** Sales: "Talão" pays half the amount, "Cartão" 5%, "PIX" a fifth of a
      twelfth, and every other sale type nothing. */
  function SaleCommission(saleType: string, amount: real): real
  {
    if saleType == "Talão" then amount * 0.50
    else if saleType == "Cartão" then amount * 0.05
    else if saleType == "PIX" then (amount / 12.0) * 0.20
    else 0.0
  }

  /** Collections pay 3% of the negotiated amount. */
  function CollectionCommission(amount: real): real
  {
    amount * 0.03
  }

  /** Consultations and procedures pay a fixed fee. */
  const ConsultationCommission: real := 20.00
  const ProcedureCommission: real := 200.00

  /** The rate each paying sale type earns, written as exact fractions. */
  const SaleRates: map<string, real> := map["Talão" := 1.0 / 2.0, "Cartão" := 1.0 / 20.0, "PIX" := 1.0 / 60.0]

  /** A sale earns its type's rate times the amount, and nothing when the type
      has no rate. */
  lemma SaleCommissionFollowsRates(saleType: string, amount: real)
    ensures SaleCommission(saleType, amount) == if saleType in SaleRates then amount * SaleRates[saleType] else 0.0
  {
  }

  /** For a non-negative amount a sale earns between nothing and half of it,
      and earns something exactly when the amount is positive and the type
      pays. */
  lemma SaleCommissionBounds(saleType: string, amount: real)
    requires amount >= 0.0
    ensures 0.0 <= SaleCommission(saleType, amount) <= amount / 2.0
    ensures SaleCommission(saleType, amount) > 0.0 <==> amount > 0.0 && saleType in SaleRates
  {
    SaleCommissionFollowsRates(saleType, amount);
  }

  /** Commissions are linear: splitting an amount over two records of one
      type earns what one record for the whole amount earns. */
  lemma CommissionsAreLinear(saleType: string, a: real, b: real)
    ensures SaleCommission(saleType, a + b) == SaleCommission(saleType, a) + SaleCommission(saleType, b)
    ensures CollectionCommission(a + b) == CollectionCommission(a) + CollectionCommission(b)
  {
  }

  /** Worked values: a card sale of 1000 earns 50, a collection of 500 earns
      15, an installment-book sale of 1000 earns 500 and a PIX sale of 1200
      earns 20. */
  lemma CommissionExamples()
    ensures SaleCommission("Cartão", 1000.0) == 50.0
    ensures CollectionCommission(500.0) == 15.0
    ensures SaleCommission("Talão", 1000.0) == 500.0
    ensures SaleCommission("PIX", 1200.0) == 20.0
    ensures SaleCommission("Boleto", 1000.0) == 0.0
  {
  }
}
