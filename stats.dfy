/** The statistics panel's aggregation (components/Stats.tsx): folds over the ledger. */
module Stats {
  import opened Types

  /** Reference definition: the sum of the amounts of `ds`, head first. */
  function Sum(ds: seq<Debt>): real
  {
    if ds == [] then 0.0 else ds[0].amount + Sum(ds[1..])
  }

  /** `ds.reduce((acc, curr) => acc + curr.amount, acc)`: a left fold from the first record. */
  function FoldAmounts(ds: seq<Debt>, acc: real): (r: real)
    ensures r == acc + Sum(ds)
  {
    if ds == [] then acc else FoldAmounts(ds[1..], acc + ds[0].amount)
  }

  /** `ds.filter(d => d.status === DebtStatus.PAID)`. */
  function PaidOnly(ds: seq<Debt>): (r: seq<Debt>)
    ensures |r| <= |ds|
    ensures forall i :: 0 <= i < |r| ==> r[i] in ds && r[i].status == PAID
  {
    if ds == [] then []
    else (if ds[0].status == PAID then [ds[0]] else []) + PaidOnly(ds[1..])
  }

  /** The records whose status is not PAID (PENDING and PARTIAL alike). */
  function UnpaidOnly(ds: seq<Debt>): (r: seq<Debt>)
    ensures |r| <= |ds|
    ensures forall i :: 0 <= i < |r| ==> r[i] in ds && r[i].status != PAID
  {
    if ds == [] then []
    else (if ds[0].status != PAID then [ds[0]] else []) + UnpaidOnly(ds[1..])
  }

  /** The PAID filter keeps every PAID record. */
  lemma {:induction false} PaidOnlyKeepsPaid(ds: seq<Debt>)
    ensures forall i :: 0 <= i < |ds| && ds[i].status == PAID ==> ds[i] in PaidOnly(ds)
  {
    if ds != [] {
      var rest := ds[1..];
      PaidOnlyKeepsPaid(rest);
      var head := if ds[0].status == PAID then [ds[0]] else [];
      assert PaidOnly(ds) == head + PaidOnly(rest);
      forall i | 0 <= i < |ds| && ds[i].status == PAID ensures ds[i] in PaidOnly(ds) {
        if i > 0 {
          assert ds[i] == rest[i - 1];
          assert ds[i] in PaidOnly(rest);
        }
      }
    }
  }

  /** The not-PAID selection keeps every record that is not PAID. */
  lemma {:induction false} UnpaidOnlyKeepsUnpaid(ds: seq<Debt>)
    ensures forall i :: 0 <= i < |ds| && ds[i].status != PAID ==> ds[i] in UnpaidOnly(ds)
  {
    if ds != [] {
      var rest := ds[1..];
      UnpaidOnlyKeepsUnpaid(rest);
      var head := if ds[0].status != PAID then [ds[0]] else [];
      assert UnpaidOnly(ds) == head + UnpaidOnly(rest);
      forall i | 0 <= i < |ds| && ds[i].status != PAID ensures ds[i] in UnpaidOnly(ds) {
        if i > 0 {
          assert ds[i] == rest[i - 1];
          assert ds[i] in UnpaidOnly(rest);
        }
      }
    }
  }

  /** Counted with multiplicity, the PAID filter keeps exactly the PAID records. */
  lemma {:induction false} PaidOnlyMultiset(ds: seq<Debt>, x: Debt)
    ensures multiset(PaidOnly(ds))[x] == if x.status == PAID then multiset(ds)[x] else 0
  {
    if ds != [] {
      var rest := ds[1..];
      PaidOnlyMultiset(rest, x);
      var head := if ds[0].status == PAID then [ds[0]] else [];
      assert PaidOnly(ds) == head + PaidOnly(rest);
      assert ds == [ds[0]] + rest;
      assert multiset(ds) == multiset([ds[0]]) + multiset(rest);
      assert multiset(PaidOnly(ds)) == multiset(head) + multiset(PaidOnly(rest));
    }
  }

  /** The `stats` object of the panel. */
  datatype Summary = Summary(total: real, received: real, pending: real)

  /** The memoised `stats` computation: two folds and a difference. */
  function ComputeStats(ds: seq<Debt>): (s: Summary)
    ensures s.total == Sum(ds)
    ensures s.received == Sum(PaidOnly(ds))
    ensures ds == [] ==> s == Summary(0.0, 0.0, 0.0)
  {
    var total := FoldAmounts(ds, 0.0);
    var received := FoldAmounts(PaidOnly(ds), 0.0);
    Summary(total, received, total - received)
  }

  /** One slice of the distribution chart. */
  datatype Slice = Slice(name: string, value: real)

  /** The two-entry `data` array fed to the pie chart: received first, then pending. */
  function Distribution(s: Summary): (d: seq<Slice>)
    ensures |d| == 2 && d[0].name == "Recebido" && d[1].name == "Pendente"
    ensures d[0].value == s.received && d[1].value == s.pending
  {
    [Slice("Recebido", s.received), Slice("Pendente", s.pending)]
  }

  /** Sum distributes over concatenation. */
  lemma {:induction false} SumAppend(a: seq<Debt>, b: seq<Debt>)
    ensures Sum(a + b) == Sum(a) + Sum(b)
  {
    if a == [] {
      assert a + b == b;
    } else {
      assert (a + b)[1..] == a[1..] + b;
      SumAppend(a[1..], b);
    }
  }

  /** Every amount is counted once: in the paid part or in the unpaid part. */
  lemma {:induction false} SumSplit(ds: seq<Debt>)
    ensures Sum(ds) == Sum(PaidOnly(ds)) + Sum(UnpaidOnly(ds))
  {
    if ds != [] {
      SumSplit(ds[1..]);
      var rest := ds[1..];
      if ds[0].status == PAID {
        assert PaidOnly(ds) == [ds[0]] + PaidOnly(rest);
        assert UnpaidOnly(ds) == UnpaidOnly(rest);
        assert ([ds[0]] + PaidOnly(rest))[1..] == PaidOnly(rest);
      } else {
        assert PaidOnly(ds) == PaidOnly(rest);
        assert UnpaidOnly(ds) == [ds[0]] + UnpaidOnly(rest);
        assert ([ds[0]] + UnpaidOnly(rest))[1..] == UnpaidOnly(rest);
      }
    }
  }

  /** `pending` is the sum over the records that are not PAID, so PARTIAL counts as pending. */
  lemma PendingIsUnpaidSum(ds: seq<Debt>)
    ensures ComputeStats(ds).pending == Sum(UnpaidOnly(ds))
    ensures ComputeStats(ds).pending == ComputeStats(ds).total - ComputeStats(ds).received
  {
    SumSplit(ds);
  }

  /** With no negative amount, a sum is not negative. */
  lemma {:induction false} SumNonNegative(ds: seq<Debt>)
    requires AllNonNegative(ds)
    ensures Sum(ds) >= 0.0
  {
    if ds != [] {
      assert AllNonNegative(ds[1..]) by {
        forall i | 0 <= i < |ds[1..]| ensures ds[1..][i].amount >= 0.0 {
          assert ds[1..][i] == ds[i + 1];
        }
      }
      SumNonNegative(ds[1..]);
    }
  }

  /** A subsequence selected by a filter keeps non-negativity. */
  lemma MembersNonNegative(ds: seq<Debt>, sub: seq<Debt>)
    requires AllNonNegative(ds)
    requires forall i :: 0 <= i < |sub| ==> sub[i] in ds
    ensures AllNonNegative(sub)
  {
    forall i | 0 <= i < |sub| ensures sub[i].amount >= 0.0 {
      var j :| 0 <= j < |ds| && ds[j] == sub[i];
    }
  }

  /** With no negative amount: 0 <= received <= total and pending >= 0. */
  lemma StatsBounds(ds: seq<Debt>)
    requires AllNonNegative(ds)
    ensures 0.0 <= ComputeStats(ds).received <= ComputeStats(ds).total
    ensures ComputeStats(ds).pending >= 0.0
  {
    SumSplit(ds);
    MembersNonNegative(ds, PaidOnly(ds));
    MembersNonNegative(ds, UnpaidOnly(ds));
    SumNonNegative(PaidOnly(ds));
    SumNonNegative(UnpaidOnly(ds));
  }

  /** The chart's two slices add up to the total owed, and neither is negative when no amount is. */
  lemma DistributionCoversTotal(ds: seq<Debt>)
    ensures Distribution(ComputeStats(ds))[0].value + Distribution(ComputeStats(ds))[1].value == Sum(ds)
    ensures AllNonNegative(ds) ==>
      Distribution(ComputeStats(ds))[0].value >= 0.0 && Distribution(ComputeStats(ds))[1].value >= 0.0
  {
    if AllNonNegative(ds) {
      StatsBounds(ds);
    }
  }

  /** A two-record ledger: 50 pending and 30 paid give total 80, received 30, pending 50. */
  lemma TwoRecordExample(a: Debt, b: Debt)
    requires a.amount == 50.0 && a.status == PENDING
    requires b.amount == 30.0 && b.status == PAID
    ensures ComputeStats([a, b]) == Summary(80.0, 30.0, 50.0)
    ensures Distribution(ComputeStats([a, b])) == [Slice("Recebido", 30.0), Slice("Pendente", 50.0)]
  {
    assert [a, b][1..] == [b];
    assert PaidOnly([a, b]) == [b] by {
      assert PaidOnly([b]) == [b];
    }
  }
}
