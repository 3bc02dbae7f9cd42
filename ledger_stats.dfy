/** How the ledger's updaters (App.tsx) move the panel's statistics (components/Stats.tsx). */
module LedgerStats {
  import opened Types
  import opened Stats
  import opened Ledger

  /** Marking records paid changes no amount, so the total stays the same. */
  lemma {:induction false} MarkPaidKeepsTotal(ds: seq<Debt>, id: string)
    ensures Sum(MarkPaidIn(ds, id)) == Sum(ds)
  {
    if ds != [] {
      MarkPaidKeepsTotal(ds[1..], id);
      assert MarkPaidIn(ds, id)[1..] == MarkPaidIn(ds[1..], id);
    }
  }

  /** Received part of a ledger that starts with `d`. */
  lemma {:induction false} PaidOnlyCons(d: Debt, ds: seq<Debt>)
    ensures PaidOnly([d] + ds) == (if d.status == PAID then [d] else []) + PaidOnly(ds)
  {
    assert ([d] + ds)[1..] == ds;
  }

  /** Sum of a ledger that starts with `d`. */
  lemma {:induction false} SumCons(d: Debt, ds: seq<Debt>)
    ensures Sum([d] + ds) == d.amount + Sum(ds)
  {
    assert ([d] + ds)[1..] == ds;
  }

  /** With unique ids, marking the not-yet-paid record `k` paid adds its amount to the
      received sum. */
  lemma {:induction false} MarkPaidMovesAmount(ds: seq<Debt>, k: nat)
    requires UniqueIds(ds) && k < |ds| && ds[k].status != PAID
    ensures Sum(PaidOnly(MarkPaidIn(ds, ds[k].id))) == Sum(PaidOnly(ds)) + ds[k].amount
  {
    var id, rest := ds[k].id, ds[1..];
    var head, marked := MarkOne(ds[0], id), MarkPaidIn(ds[1..], id);
    assert MarkPaidIn(ds, id) == [head] + marked;
    assert ds == [ds[0]] + rest;
    PaidOnlyCons(ds[0], rest);
    PaidOnlyCons(head, marked);
    if k == 0 {
      UniqueIdElsewhere(ds, 0);
      MarkPaidAbsent(rest, id);
      assert PaidOnly(ds) == PaidOnly(rest);
      SumCons(head, PaidOnly(rest));
    } else {
      UniqueTail(ds);
      assert rest[k - 1] == ds[k];
      MarkPaidMovesAmount(rest, k - 1);
      assert head == ds[0];
      if ds[0].status == PAID {
        SumCons(ds[0], PaidOnly(rest));
        SumCons(ds[0], PaidOnly(marked));
      } else {
        assert PaidOnly(ds) == PaidOnly(rest);
        assert PaidOnly([head] + marked) == PaidOnly(marked);
      }
    }
  }

  /** The statistics after marking record `k` (unique id, not yet paid) as paid. */
  lemma {:induction false} MarkPaidStats(ds: seq<Debt>, k: nat)
    requires UniqueIds(ds) && k < |ds| && ds[k].status != PAID
    ensures ComputeStats(MarkPaidIn(ds, ds[k].id)).total == ComputeStats(ds).total
    ensures ComputeStats(MarkPaidIn(ds, ds[k].id)).received == ComputeStats(ds).received + ds[k].amount
    ensures ComputeStats(MarkPaidIn(ds, ds[k].id)).pending == ComputeStats(ds).pending - ds[k].amount
  {
    MarkPaidKeepsTotal(ds, ds[k].id);
    MarkPaidMovesAmount(ds, k);
  }

  /** Prepending a PENDING record raises total and pending by its amount; received stays. */
  lemma {:induction false} AddPendingStats(ds: seq<Debt>, debt: Debt)
    requires debt.status == PENDING
    ensures ComputeStats(AddTo(ds, debt)).total == ComputeStats(ds).total + debt.amount
    ensures ComputeStats(AddTo(ds, debt)).received == ComputeStats(ds).received
    ensures ComputeStats(AddTo(ds, debt)).pending == ComputeStats(ds).pending + debt.amount
  {
    assert AddTo(ds, debt) == [debt] + ds;
    SumCons(debt, ds);
    PaidOnlyCons(debt, ds);
    assert [] + PaidOnly(ds) == PaidOnly(ds);
  }

  /** The paid part distributes over concatenation. */
  lemma {:induction false} PaidOnlyAppend(a: seq<Debt>, b: seq<Debt>)
    ensures PaidOnly(a + b) == PaidOnly(a) + PaidOnly(b)
  {
    if a == [] {
      assert a + b == b;
    } else {
      var head := if a[0].status == PAID then [a[0]] else [];
      assert (a + b)[0] == a[0];
      assert (a + b)[1..] == a[1..] + b;
      assert PaidOnly(a + b) == head + PaidOnly(a[1..] + b);
      PaidOnlyAppend(a[1..], b);
      assert PaidOnly(a) == head + PaidOnly(a[1..]);
      assert head + (PaidOnly(a[1..]) + PaidOnly(b)) == (head + PaidOnly(a[1..])) + PaidOnly(b);
    }
  }

  /** Taking record `x` out from between `before` and `after` takes its amount off the sum. */
  lemma {:induction false} SumRemoveOne(before: seq<Debt>, x: Debt, after: seq<Debt>)
    ensures Sum(before + ([x] + after)) == Sum(before + after) + x.amount
  {
    SumAppend(before, [x] + after);
    SumCons(x, after);
    SumAppend(before, after);
  }

  /** Taking record `x` out takes its amount off the received sum exactly when it is PAID. */
  lemma {:induction false} ReceivedRemoveOne(before: seq<Debt>, x: Debt, after: seq<Debt>)
    ensures Sum(PaidOnly(before + ([x] + after)))
      == Sum(PaidOnly(before + after)) + (if x.status == PAID then x.amount else 0.0)
  {
    PaidOnlyAppend(before, [x] + after);
    PaidOnlyCons(x, after);
    PaidOnlyAppend(before, after);
    if x.status == PAID {
      SumRemoveOne(PaidOnly(before), x, PaidOnly(after));
    } else {
      assert [] + PaidOnly(after) == PaidOnly(after);
    }
  }

  /** With unique ids, deleting record `k` takes its amount off the sum. */
  lemma {:induction false} DeleteTotal(ds: seq<Debt>, k: nat)
    requires UniqueIds(ds) && k < |ds|
    ensures Sum(DeleteFrom(ds, ds[k].id)) == Sum(ds) - ds[k].amount
  {
    var x, before, after := ds[k], ds[..k], ds[k + 1..];
    DeleteExactlyOne(ds, k);
    assert ds == before + ([x] + after);
    SumRemoveOne(before, x, after);
  }

  /** With unique ids, deleting record `k` takes its amount off the received sum when PAID. */
  lemma {:induction false} DeleteReceived(ds: seq<Debt>, k: nat)
    requires UniqueIds(ds) && k < |ds|
    ensures Sum(PaidOnly(DeleteFrom(ds, ds[k].id)))
      == Sum(PaidOnly(ds)) - (if ds[k].status == PAID then ds[k].amount else 0.0)
  {
    var x, before, after := ds[k], ds[..k], ds[k + 1..];
    DeleteExactlyOne(ds, k);
    assert ds == before + ([x] + after);
    ReceivedRemoveOne(before, x, after);
  }

  /** With unique ids, deleting record `k` takes its amount off the total, and off received
      when it was PAID or off pending otherwise. */
  lemma {:induction false} DeleteStats(ds: seq<Debt>, k: nat)
    requires UniqueIds(ds) && k < |ds|
    ensures ComputeStats(DeleteFrom(ds, ds[k].id)).total == ComputeStats(ds).total - ds[k].amount
    ensures ComputeStats(DeleteFrom(ds, ds[k].id)).received
      == ComputeStats(ds).received - (if ds[k].status == PAID then ds[k].amount else 0.0)
    ensures ComputeStats(DeleteFrom(ds, ds[k].id)).pending
      == ComputeStats(ds).pending - (if ds[k].status == PAID then 0.0 else ds[k].amount)
  {
    DeleteTotal(ds, k);
    DeleteReceived(ds, k);
  }
}
