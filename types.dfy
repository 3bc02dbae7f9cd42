/** The record shapes of the debt tracker (types.ts). */
module Types {
  import opened Wrappers

  /** The closed status enumeration. PARTIAL is declared, but no operation produces it. */
  datatype DebtStatus = PENDING | PAID | PARTIAL

  /** One persisted debt. `dueDate` and `category` are optional; `date` is the ISO creation
      timestamp. JavaScript numbers are modelled as reals (no floating point rounding). */
  datatype Debt = Debt(
    id: string,
    personName: string,
    amount: real,
    description: string,
    date: string,
    dueDate: Option<string>,
    status: DebtStatus,
    category: Option<string>)

  /** The structured guess returned by the text analysis service. Here `category` is always
      present and only `dueDate` is optional. */
  datatype DebtAnalysis = DebtAnalysis(
    personName: string,
    amount: real,
    description: string,
    dueDate: Option<string>,
    confidenceScore: real,
    category: string)

  /** No record of `ds` has a negative amount (the code does not enforce this; lemmas assume it). */
  predicate AllNonNegative(ds: seq<Debt>)
  {
    forall i :: 0 <= i < |ds| ==> ds[i].amount >= 0.0
  }

  /** Some record of `ds` carries `id`. */
  predicate HasId(ds: seq<Debt>, id: string)
  {
    exists i :: 0 <= i < |ds| && ds[i].id == id
  }

  /** No two records of `ds` share an id (what fresh uuids give in practice). */
  predicate UniqueIds(ds: seq<Debt>)
  {
    forall i, j :: 0 <= i < j < |ds| ==> ds[i].id != ds[j].id
  }

  /** No record of `ds` is PARTIAL. */
  predicate NoPartial(ds: seq<Debt>)
  {
    forall i :: 0 <= i < |ds| ==> ds[i].status != PARTIAL
  }
}
