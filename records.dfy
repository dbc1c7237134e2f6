/** The four kinds of commission record (models.py: Vendas, Cobrancas,
    Consultas, Procedimentos) and the store the record views append to. */
module Records {
  import opened Wrappers
  import opened Commission

  datatype Date = Date(year: int, month: int, day: int)

  /** A Python datetime.date: years MINYEAR..MAXYEAR, months 1..12. */
  type PyDate = d: Date | 1 <= d.year <= 9999 && 1 <= d.month <= 12 && 1 <= d.day <= 31
    witness Date(1970, 1, 1)

  /** One row of one of the four category tables. Every row has an owner, a
      client, a date column and a stored commission; the date is None where
      the column is NULL, which the ALTER TABLE migrations can leave behind. */
  datatype Record =
    | Sale(owner: nat, client: string, date: Option<PyDate>, saleType: string, total: real, commission: real)
    | Collection(owner: nat, client: string, date: Option<PyDate>, negotiated: real, commission: real)
    | Consultation(owner: nat, client: string, date: Option<PyDate>, status: string, commission: real)
    | Procedure(owner: nat, client: string, date: Option<PyDate>, procedureType: Option<string>, commission: real)

  /** The four tables, as the report reads them. */
  datatype Tables = Tables(sales: seq<Record>, collections: seq<Record>, consultations: seq<Record>, procedures: seq<Record>)

  /** A record's stored commission is the one its category's formula gives. */
  predicate CommissionConsistent(r: Record)
  {
    match r
    case Sale(_, _, _, saleType, total, c) => c == SaleCommission(saleType, total)
    case Collection(_, _, _, negotiated, c) => c == CollectionCommission(negotiated)
    case Consultation(_, _, _, _, c) => c == ConsultationCommission
    case Procedure(_, _, _, _, c) => c == ProcedureCommission
  }

  /** The record store behind the four record views. Each table holds only
      its own kind of record, and every stored commission follows its formula. */
  class Ledger {
    var sales: seq<Record>
    var collections: seq<Record>
    var consultations: seq<Record>
    var procedures: seq<Record>

    ghost predicate Valid()
      reads this
    {
      && (forall i :: 0 <= i < |sales| ==> sales[i].Sale? && CommissionConsistent(sales[i]))
      && (forall i :: 0 <= i < |collections| ==> collections[i].Collection? && CommissionConsistent(collections[i]))
      && (forall i :: 0 <= i < |consultations| ==> consultations[i].Consultation? && CommissionConsistent(consultations[i]))
      && (forall i :: 0 <= i < |procedures| ==> procedures[i].Procedure? && CommissionConsistent(procedures[i]))
    }

    constructor ()
      ensures Valid()
      ensures sales == [] && collections == [] && consultations == [] && procedures == []
    {
      sales, collections, consultations, procedures := [], [], [], [];
    }

    /** A new sale, dated by the column default with the UTC date
        (datetime.utcnow), with its commission chosen by sale type. */
    method AddSale(owner: nat, client: string, saleType: string, total: real, utcToday: PyDate)
      requires Valid()
      modifies this
      ensures Valid()
      ensures sales == old(sales) + [Sale(owner, client, Some(utcToday), saleType, total, SaleCommission(saleType, total))]
      ensures collections == old(collections) && consultations == old(consultations) && procedures == old(procedures)
    {
      var commission := SaleCommission(saleType, total);
      sales := sales + [Sale(owner, client, Some(utcToday), saleType, total, commission)];
    }

    /** A new collection, dated with the UTC date, earning 3% of the negotiated amount. */
    method AddCollection(owner: nat, client: string, negotiated: real, utcToday: PyDate)
      requires Valid()
      modifies this
      ensures Valid()
      ensures collections == old(collections) + [Collection(owner, client, Some(utcToday), negotiated, CollectionCommission(negotiated))]
      ensures sales == old(sales) && consultations == old(consultations) && procedures == old(procedures)
    {
      var commission := CollectionCommission(negotiated);
      collections := collections + [Collection(owner, client, Some(utcToday), negotiated, commission)];
    }

    /** A new consultation, dated with the UTC date, status "Realizada", fixed fee 20.00. */
    method AddConsultation(owner: nat, client: string, utcToday: PyDate)
      requires Valid()
      modifies this
      ensures Valid()
      ensures consultations == old(consultations) + [Consultation(owner, client, Some(utcToday), "Realizada", ConsultationCommission)]
      ensures sales == old(sales) && collections == old(collections) && procedures == old(procedures)
    {
      consultations := consultations + [Consultation(owner, client, Some(utcToday), "Realizada", ConsultationCommission)];
    }

    /** A new procedure, dated with the UTC date, with the type as submitted (None when
        the form leaves it out), fixed fee 200.00. */
    method AddProcedure(owner: nat, client: string, procedureType: Option<string>, utcToday: PyDate)
      requires Valid()
      modifies this
      ensures Valid()
      ensures procedures == old(procedures) + [Procedure(owner, client, Some(utcToday), procedureType, ProcedureCommission)]
      ensures sales == old(sales) && collections == old(collections) && consultations == old(consultations)
    {
      procedures := procedures + [Procedure(owner, client, Some(utcToday), procedureType, ProcedureCommission)];
    }
  }
}
