# Cobrai debt ledger — a Dafny model

Cobrai ("CobraAí") keeps a list of informal debts: who owes how much, for what, and by when.
Free text typed into a quick-add box goes to a text analysis service. A confident enough answer
becomes a new PENDING record at the head of the list. Each record can be marked paid or deleted.
A statistics panel sums the list into a total, a received part and a pending part, and shows
the last two as a two-slice chart. The list is saved to browser storage after every change and
restored on start.

This project models that core:

- `types.dfy` (module `Types`): the closed `DebtStatus` enumeration (PENDING, PAID, PARTIAL)
  and the `Debt` and `DebtAnalysis` records. Optional fields (`dueDate`, `category` of `Debt`;
  `dueDate` of `DebtAnalysis`) are `Option`s. Amounts and the confidence score are reals.
- `ledger.dfy` (module `Ledger`): the three updaters of the application root as pure functions
  (`AddTo`, `MarkPaidIn`, `DeleteFrom`), the start-up fallback `Restore`, a `Storage` class
  for the storage slot, and a `LedgerStore` class whose methods replace the list and then save
  it, as the persistence effect does.
- `stats.dfy` (module `Stats`): the panel's folds (`FoldAmounts` is `reduce`, `PaidOnly` is
  `filter`), `ComputeStats` and the two-entry `Distribution`. They are proved against a plain
  head-first `Sum`.
- `ledger_stats.dfy` (module `LedgerStats`): how each updater moves the statistics.
- `smart_input.dfy` (module `SmartInput`): JavaScript's `trim` and the blank-text guard, the
  acceptance rule (`confidenceScore > 0.5`), the construction of the new record, the pure
  decision `Decide`, and the handler `HandleSmartAdd` over the component's state cells
  (`text`, `loading`, `error`).

Three behaviours of the code shape the model:

- Deleting asks for confirmation inside `deleteDebt` itself (App.tsx:30). `DeleteDebt` takes
  the answer as a parameter and changes nothing when it is false.
- Restoring does not fall back to an empty list on a malformed saved value: `JSON.parse` would
  throw (App.tsx:12). The model's slot holds either nothing or a list, so it has no malformed
  case and claims no fail-soft parsing.
- Nothing checks that amounts are positive or that ids are unique. Lemmas that need either
  property take it as a hypothesis (`AllNonNegative`, `UniqueIds`, a fresh id).

## Model

| member | source | states |
|---|---|---|
| `Ledger.AddTo` | App.tsx:19-21 | the new list is one longer, has the new record at index 0, and the old records follow unchanged and in order |
| `Ledger.MarkPaidIn` | App.tsx:23-27 | same length and order; each record with the id equals its old self with status PAID; each other record is unchanged |
| `Ledger.MarkPaidIdempotent` | App.tsx:25 | marking the same id twice equals marking it once |
| `Ledger.MarkPaidAbsent` | App.tsx:25 | marking an id no record carries leaves the list unchanged |
| `Ledger.DeleteFrom` | App.tsx:31 | the result is no longer than the list; each kept record was in the list and has a different id, so no record with the id remains |
| `Ledger.DeleteKeepsOthers` | App.tsx:31 | every record whose id differs is kept, even when ids repeat |
| `Ledger.DeleteMultiset` | App.tsx:31 | counted with multiplicity, every copy of a record with the id is dropped and every copy of any other record is kept |
| `Ledger.DeleteAbsent` | App.tsx:31 | deleting an id no record carries leaves the list unchanged |
| `Ledger.DeleteAppend` | App.tsx:31 | deleting distributes over concatenation, so the kept records stay in their relative order |
| `Ledger.DeleteExactlyOne` | App.tsx:31 | with unique ids, deleting the id of record k gives exactly the list without record k, in order |
| `Ledger.DeleteLength` | App.tsx:31 | with unique ids, the length drops by one when the id is present and stays the same when it is absent |
| `Ledger.AddFreshKeepsUnique` | App.tsx:20 | prepending a record with a fresh id keeps ids unique |
| `Ledger.DeleteKeepsUnique` | App.tsx:31 | deleting keeps ids unique |
| `Ledger.UpdatersKeepNoPartial` | App.tsx:19-31 | no updater produces a PARTIAL record: a ledger without PARTIAL keeps none after adding a non-PARTIAL record, marking paid or deleting |
| `Ledger.Restore` | App.tsx:11-12 | with nothing saved the start-up list is empty; otherwise it is the saved list |
| `Ledger.Storage.constructor` | App.tsx:11 | the slot starts with what was saved before, and no write has happened yet |
| `Ledger.LedgerStore.constructor` | App.tsx:10-17 | the list is the saved one, or empty when nothing was saved; the mount effect writes it back once, so the slot holds the list |
| `Ledger.LedgerStore.Persist` | App.tsx:15-17 | the slot holds the whole current list, and one more write has happened |
| `Ledger.LedgerStore.AddDebt` | App.tsx:19-21 | the list becomes `AddTo` of the old list; one write; the slot holds the new list |
| `Ledger.LedgerStore.MarkAsPaid` | App.tsx:23-27 | the list becomes `MarkPaidIn` of the old list; one write; the slot holds the new list |
| `Ledger.LedgerStore.DeleteDebt` | App.tsx:29-33 | when confirmed, the list becomes `DeleteFrom` of the old list with one write; otherwise nothing changes and nothing is written |
| `Ledger.Reload` | App.tsx:10-17 | a store restarted over the same storage restores the same list |
| `Stats.FoldAmounts` | components/Stats.tsx:16 | the `reduce` left fold from an initial accumulator equals that accumulator plus the sum of the amounts |
| `Stats.PaidOnly` | components/Stats.tsx:17-18 | the filter keeps only PAID records, each taken from the list, and is never longer |
| `Stats.UnpaidOnly` | components/Stats.tsx:20 | the records that are not PAID, PARTIAL included, each taken from the list |
| `Stats.PaidOnlyKeepsPaid` | components/Stats.tsx:17-18 | every PAID record of the list is kept by the filter |
| `Stats.UnpaidOnlyKeepsUnpaid` | components/Stats.tsx:20 | every record that is not PAID is kept by the not-PAID selection |
| `Stats.PaidOnlyMultiset` | components/Stats.tsx:17-18 | counted with multiplicity, the filter keeps exactly the PAID records, every copy of each |
| `Stats.ComputeStats` | components/Stats.tsx:15-23 | total is the sum of all amounts, received the sum over PAID records, and an empty ledger gives all zeros |
| `Stats.SumAppend` | components/Stats.tsx:16 | the sum of a concatenation is the sum of the sums |
| `Stats.SumSplit` | components/Stats.tsx:16-20 | every amount is in exactly one of the paid and unpaid sums |
| `Stats.PendingIsUnpaidSum` | components/Stats.tsx:20 | pending is total minus received, which is the sum over records that are not PAID |
| `Stats.SumNonNegative` | components/Stats.tsx:16 | with no negative amount the sum is not negative |
| `Stats.StatsBounds` | components/Stats.tsx:16-20 | with no negative amount, 0 <= received <= total and pending >= 0 |
| `Stats.Distribution` | components/Stats.tsx:25-28 | exactly two entries, "Recebido" with received first, then "Pendente" with pending |
| `Stats.DistributionCoversTotal` | components/Stats.tsx:25-28 | the two slices add up to the total, and neither is negative when no amount is |
| `Stats.TwoRecordExample` | components/Stats.tsx:15-28 | 50 pending and 30 paid give total 80, received 30, pending 50 and the slices 30 and 50 |
| `LedgerStats.MarkPaidKeepsTotal` | components/Stats.tsx:16 | marking paid (App.tsx:25) leaves the total unchanged |
| `LedgerStats.MarkPaidMovesAmount` | components/Stats.tsx:17-19 | with unique ids, marking a not-yet-paid record paid (App.tsx:25) adds its amount to the received sum |
| `LedgerStats.MarkPaidStats` | components/Stats.tsx:16-20 | with unique ids, marking a not-yet-paid record paid (App.tsx:25) keeps the total and moves its amount from pending to received |
| `LedgerStats.AddPendingStats` | components/Stats.tsx:16-20 | prepending a PENDING record (App.tsx:20) raises total and pending by its amount and leaves received unchanged |
| `LedgerStats.PaidOnlyAppend` | components/Stats.tsx:17-18 | the PAID filter distributes over concatenation |
| `LedgerStats.DeleteTotal` | components/Stats.tsx:16 | with unique ids, deleting a record (App.tsx:31) takes its amount off the sum of amounts |
| `LedgerStats.DeleteReceived` | components/Stats.tsx:17-19 | with unique ids, deleting a record (App.tsx:31) takes its amount off the received sum exactly when it was PAID |
| `LedgerStats.DeleteStats` | components/Stats.tsx:16-20 | with unique ids, deleting a record (App.tsx:31) takes its amount off the total, and off received if it was PAID or off pending otherwise |
| `SmartInput.TrimStart` | components/SmartInput.tsx:17 | the result is a suffix that does not start with whitespace, and only whitespace was cut |
| `SmartInput.TrimEnd` | components/SmartInput.tsx:17 | the result is a prefix that does not end with whitespace, and only whitespace was cut |
| `SmartInput.Trim` | components/SmartInput.tsx:17 | neither end of the trimmed text is whitespace, it is no longer than the text, and it is empty exactly when the text is all whitespace |
| `SmartInput.TrimIsMiddle` | components/SmartInput.tsx:17 | the trimmed text is a contiguous slice of the text, and everything cut before and after it is whitespace |
| `SmartInput.IsBlank` | components/SmartInput.tsx:17 | the guard holds exactly when every character is JavaScript whitespace |
| `SmartInput.Accepts` | components/SmartInput.tsx:24 | a missing analysis and a score of at most 0.5 are refused; any score above 0.5 is taken |
| `SmartInput.NewDebt` | components/SmartInput.tsx:25-34 | the new record has the given id and timestamp, is PENDING, copies name, amount, description and due date, and always has a category |
| `SmartInput.Decide` | components/SmartInput.tsx:16-42 | blank text is ignored; otherwise a record is added exactly when an analysis exists with score above 0.5, and that record is `NewDebt` of it; otherwise rejected |
| `SmartInput.ThresholdIsStrict` | components/SmartInput.tsx:24 | on non-blank text a score of exactly 0.5 is rejected and any higher score is accepted |
| `SmartInput.SmartInputState.constructor` | components/SmartInput.tsx:12-14 | the text and error start empty and loading starts false |
| `SmartInput.SmartInputState.HandleSmartAdd` | components/SmartInput.tsx:16-42 | blank text changes nothing and asks nothing; on acceptance the ledger gets the record in one add with one write, the text is cleared and the error stays empty; on rejection the ledger is unchanged and the error message is set; loading ends false on both non-blank paths |
| `SmartInput.AddedKeepsInvariants` | components/SmartInput.tsx:25-35 | an accepted record has a category and is not PARTIAL, and with a fresh id keeps the ledger's ids unique |

## Left out

- The text analysis service (services/geminiService.ts) and its JSON reply: the answer is the `Option<DebtAnalysis>` parameter of `HandleSmartAdd` and `Decide`.
- The financial advice call and its effect (components/Stats.tsx:30-36): a fire-and-forget foreign call with fallback strings that never touches the ledger.
- `uuidv4`, `new Date().toISOString()` and `window.confirm`: parameters (an id, an opaque timestamp string, a confirmation flag). Freshness of the id is a hypothesis of the lemmas that need it, because the code never checks it.
- `localStorage` and `JSON.stringify`/`JSON.parse`: the slot holds the list itself, so a save followed by a load is the identity. A malformed or `"null"` saved value, on which the code throws or breaks, has no counterpart.
- Floating point: JavaScript numbers (IEEE-754 doubles) are modelled as reals, so sums are exact and no rounding is modelled. Currency and date formatting are left out too.
- SmartInput.SmartInputState.HandleSmartAdd: modelled as one step, with the analysis as a parameter. Mark-paid and delete operations made while the analysis is awaited (components/SmartInput.tsx:22) are not modelled. The code's updater (App.tsx:20) adds the record to the list as it stands when the answer arrives, which can differ from the list at the start of the handler; the model's contract speaks of the list at the start.
- React's state machinery: setter calls are modelled as immediate assignments. Re-renders, effect scheduling beyond "write after every change" and batching are not modelled.
- components/DebtList.tsx: presentation only. Its mark-paid button is shown only for PENDING records, a display gate; `MarkAsPaid` itself is unconditional as in App.tsx.
- `handleKeyDown` (Enter submits), the text area's `onChange` editing and the disabled state of the button: input plumbing around `HandleSmartAdd`.
- `DashboardStats` (types.ts:27-31): declared and never used.
- Tab navigation, the spinner and all markup.
