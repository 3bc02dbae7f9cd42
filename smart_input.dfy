/** The quick-add box (components/SmartInput.tsx): free text goes to the analysis service and
    a confident enough answer becomes a new PENDING record at the head of the ledger. */
module SmartInput {
  import opened Wrappers
  import opened Types
  import opened Ledger

  /** The characters `String.prototype.trim` removes: ECMAScript's WhiteSpace (tab, vertical
      tab, form feed, space, no-break space, byte order mark and the space separators) and its
      LineTerminators (line feed, carriage return, line and paragraph separators). */
  predicate IsWhitespace(c: char)
  {
    var n := c as int;
    n == 0x09 || n == 0x0A || n == 0x0B || n == 0x0C || n == 0x0D || n == 0x20 ||
    n == 0xA0 || n == 0x1680 || (0x2000 <= n <= 0x200A) || n == 0x2028 || n == 0x2029 ||
    n == 0x202F || n == 0x205F || n == 0x3000 || n == 0xFEFF
  }

  /** `s` without its leading whitespace: a suffix of `s` that does not start with whitespace
      and whose cut-off prefix is all whitespace. */
  function TrimStart(s: string): (r: string)
    ensures |r| <= |s| && r == s[|s| - |r|..]
    ensures forall i :: 0 <= i < |s| - |r| ==> IsWhitespace(s[i])
    ensures r != [] ==> !IsWhitespace(r[0])
  {
    if s != [] && IsWhitespace(s[0]) then TrimStart(s[1..]) else s
  }

  /** `s` without its trailing whitespace: a prefix of `s` that does not end with whitespace
      and whose cut-off suffix is all whitespace. */
  function TrimEnd(s: string): (r: string)
    ensures |r| <= |s| && r == s[..|r|]
    ensures forall i :: |r| <= i < |s| ==> IsWhitespace(s[i])
    ensures r != [] ==> !IsWhitespace(r[|r| - 1])
  {
    if s != [] && IsWhitespace(s[|s| - 1]) then TrimEnd(s[..|s| - 1]) else s
  }

  /** `text.trim()`: neither end of the result is whitespace, and the result is empty exactly
      when the whole text is whitespace. */
  function Trim(s: string): (r: string)
    ensures |r| <= |s|
    ensures r != [] ==> !IsWhitespace(r[0]) && !IsWhitespace(r[|r| - 1])
    ensures r == [] <==> forall i :: 0 <= i < |s| ==> IsWhitespace(s[i])
  {
    var front := TrimStart(s);
    assert front != [] ==> front[0] == s[|s| - |front|];
    TrimEnd(front)
  }

  /** The trimmed text is the middle of the text: a contiguous slice of it, with only
      whitespace cut before it and after it. */
  lemma {:induction false} TrimIsMiddle(s: string)
    ensures var a := |s| - |TrimStart(s)|;
      a + |Trim(s)| <= |s| && Trim(s) == s[a..a + |Trim(s)|] &&
      (forall i :: 0 <= i < a ==> IsWhitespace(s[i])) &&
      (forall i :: a + |Trim(s)| <= i < |s| ==> IsWhitespace(s[i]))
  {
    var front := TrimStart(s);
    var a := |s| - |front|;
    var r := TrimEnd(front);
    assert r == Trim(s);
    assert front == s[a..];
    forall i | a + |r| <= i < |s| ensures IsWhitespace(s[i]) {
      assert s[i] == front[i - a];
    }
  }

  /** The guard `!text.trim()`: the trimmed text is the empty (falsy) string, which happens
      exactly when every character of the text is whitespace. */
  predicate IsBlank(text: string)
    ensures IsBlank(text) <==> forall i :: 0 <= i < |text| ==> IsWhitespace(text[i])
  {
    Trim(text) == []
  }

  /** The confidence threshold; a score must be strictly above it. */
  const Threshold: real := 0.5

  /** The acceptance test `analysis && analysis.confidenceScore > 0.5`. */
  predicate Accepts(analysis: Option<DebtAnalysis>)
    ensures analysis.None? ==> !Accepts(analysis)
    ensures analysis.Some? && analysis.value.confidenceScore <= Threshold ==> !Accepts(analysis)
    ensures analysis.Some? && analysis.value.confidenceScore > Threshold ==> Accepts(analysis)
  {
    analysis.Some? && analysis.value.confidenceScore > Threshold
  }

  /** The message shown when the analysis is missing or not confident enough. */
  const ErrorMessage: string := "Não consegui entender. Tente: 'Nome' me deve 'Valor' por 'Motivo'."

  /** The `newDebt` literal: a fresh id and timestamp, PENDING, the analysis' fields copied. */
  function NewDebt(a: DebtAnalysis, id: string, now: string): (d: Debt)
    ensures d.id == id && d.date == now && d.status == PENDING
    ensures d.personName == a.personName && d.amount == a.amount && d.description == a.description
    ensures d.dueDate == a.dueDate && d.category == Some(a.category)
  {
    Debt(id, a.personName, a.amount, a.description, now, a.dueDate, PENDING, Some(a.category))
  }

  /** What one press of the add button comes to. */
  datatype Outcome =
    | Ignored          // blank text: nothing requested, nothing changed
    | Added(debt: Debt) // the new record handed to the ledger
    | Rejected         // no analysis or too little confidence: the error is shown

  /** The decision `handleSmartAdd` takes, given the answer of the analysis service, the id
      the uuid generator yields and the current time. */
  function Decide(text: string, analysis: Option<DebtAnalysis>, id: string, now: string): (o: Outcome)
    ensures o.Ignored? <==> IsBlank(text)
    ensures o.Added? <==> !IsBlank(text) && analysis.Some? && analysis.value.confidenceScore > Threshold
    ensures o.Added? ==> o.debt == NewDebt(analysis.value, id, now)
  {
    if IsBlank(text) then Ignored
    else if Accepts(analysis) then Added(NewDebt(analysis.value, id, now))
    else Rejected
  }

  /** A score of exactly the threshold is turned down; any score above it is taken. */
  lemma ThresholdIsStrict(text: string, a: DebtAnalysis, id: string, now: string)
    requires !IsBlank(text)
    ensures a.confidenceScore == Threshold ==> Decide(text, Some(a), id, now) == Rejected
    ensures a.confidenceScore > Threshold ==> Decide(text, Some(a), id, now).Added?
  {
  }

  /** The component's own state cells. */
  class SmartInputState {
    var text: string
    var loading: bool
    var error: string

    constructor ()
      ensures text == "" && !loading && error == ""
    {
      text, loading, error := "", false, "";
    }

    /** `handleSmartAdd`. The awaited answer of the analysis service is `analysis`; `requested`
        tells whether the service was asked at all. Adding goes through `ledger.AddDebt`,
        the `onAddDebt` callback. */
    method HandleSmartAdd(analysis: Option<DebtAnalysis>, freshId: string, now: string, ledger: LedgerStore)
      returns (requested: bool)
      requires ledger.Valid()
      modifies this, ledger, ledger.storage
      ensures ledger.Valid()
      ensures requested <==> !IsBlank(old(text))
      ensures Decide(old(text), analysis, freshId, now).Ignored? ==>
        text == old(text) && loading == old(loading) && error == old(error) &&
        ledger.debts == old(ledger.debts) && ledger.storage.writes == old(ledger.storage.writes)
      ensures Decide(old(text), analysis, freshId, now).Added? ==>
        text == "" && !loading && error == "" &&
        ledger.debts == AddTo(old(ledger.debts), Decide(old(text), analysis, freshId, now).debt) &&
        ledger.storage.writes == old(ledger.storage.writes) + 1
      ensures Decide(old(text), analysis, freshId, now).Rejected? ==>
        text == old(text) && !loading && error == ErrorMessage &&
        ledger.debts == old(ledger.debts) && ledger.storage.writes == old(ledger.storage.writes)
    {
      if IsBlank(text) {
        return false;
      }
      requested := true;
      loading := true;
      error := "";
      if Accepts(analysis) {
        var newDebt := NewDebt(analysis.value, freshId, now);
        ledger.AddDebt(newDebt);
        text := "";
      } else {
        error := ErrorMessage;
      }
      loading := false;
    }
  }

  /** An accepted record is PENDING and carries a category, so a ledger without PARTIAL records
      stays without them, and a fresh id keeps the ids unique. */
  lemma AddedKeepsInvariants(ds: seq<Debt>, text: string, analysis: Option<DebtAnalysis>, id: string, now: string)
    requires Decide(text, analysis, id, now).Added?
    requires NoPartial(ds) && UniqueIds(ds) && !HasId(ds, id)
    ensures Decide(text, analysis, id, now).debt.category.Some?
    ensures NoPartial(AddTo(ds, Decide(text, analysis, id, now).debt))
    ensures UniqueIds(AddTo(ds, Decide(text, analysis, id, now).debt))
  {
    var d := Decide(text, analysis, id, now).debt;
    UpdatersKeepNoPartial(ds, d, id);
    AddFreshKeepsUnique(ds, d);
  }
}
