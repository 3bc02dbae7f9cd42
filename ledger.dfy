/** The ledger held by the application root (App.tsx): the pure updaters handed to the state
    setter, the storage slot the ledger is saved to, and the store that owns the list. */
module Ledger {
  import opened Wrappers
  import opened Types

  /** `addDebt`'s updater `[debt, ...prev]`: the new record first, the old ones after it. */
  function AddTo(prev: seq<Debt>, debt: Debt): (r: seq<Debt>)
    ensures |r| == |prev| + 1 && r[0] == debt
    ensures forall i :: 0 <= i < |prev| ==> r[i + 1] == prev[i]
  {
    [debt] + prev
  }

  /** The callback of `markAsPaid`'s `map`. */
  function MarkOne(d: Debt, id: string): Debt
  {
    if d.id == id then d.(status := PAID) else d
  }

  /** `markAsPaid`'s updater: every record with `id` becomes PAID, nothing else moves or changes. */
  function MarkPaidIn(ds: seq<Debt>, id: string): (r: seq<Debt>)
    ensures |r| == |ds|
    ensures forall i :: 0 <= i < |ds| && ds[i].id == id ==> r[i] == ds[i].(status := PAID)
    ensures forall i :: 0 <= i < |ds| && ds[i].id != id ==> r[i] == ds[i]
  {
    if ds == [] then [] else [MarkOne(ds[0], id)] + MarkPaidIn(ds[1..], id)
  }

  /** `deleteDebt`'s updater `prev.filter(d => d.id !== id)`. */
  function DeleteFrom(ds: seq<Debt>, id: string): (r: seq<Debt>)
    ensures |r| <= |ds|
    ensures forall i :: 0 <= i < |r| ==> r[i] in ds && r[i].id != id
  {
    if ds == [] then []
    else (if ds[0].id != id then [ds[0]] else []) + DeleteFrom(ds[1..], id)
  }

  /** The initial state: the saved list, or the empty list when nothing was saved. */
  function Restore(slot: Option<seq<Debt>>): (r: seq<Debt>)
    ensures slot.None? ==> r == []
    ensures slot.Some? ==> r == slot.value
  {
    match slot
    case None => []
    case Some(saved) => saved
  }

  /** Marking a record paid twice is the same as marking it once. */
  lemma {:induction false} MarkPaidIdempotent(ds: seq<Debt>, id: string)
    ensures MarkPaidIn(MarkPaidIn(ds, id), id) == MarkPaidIn(ds, id)
  {
    if ds != [] {
      MarkPaidIdempotent(ds[1..], id);
      assert MarkPaidIn(ds, id)[1..] == MarkPaidIn(ds[1..], id);
    }
  }

  /** Marking an id that no record carries leaves the list as it was. */
  lemma {:induction false} MarkPaidAbsent(ds: seq<Debt>, id: string)
    requires !HasId(ds, id)
    ensures MarkPaidIn(ds, id) == ds
  {
    if ds != [] {
      MarkPaidAbsent(ds[1..], id);
    }
  }

  /** Deleting an id that no record carries leaves the list as it was. */
  lemma {:induction false} DeleteAbsent(ds: seq<Debt>, id: string)
    requires !HasId(ds, id)
    ensures DeleteFrom(ds, id) == ds
  {
    if ds != [] {
      assert ds[0].id != id;
      DeleteAbsent(ds[1..], id);
      assert ds == [ds[0]] + ds[1..];
    }
  }

  /** Deleting keeps every record whose id differs, repeated ids or not. */
  lemma {:induction false} DeleteKeepsOthers(ds: seq<Debt>, id: string)
    ensures forall i :: 0 <= i < |ds| && ds[i].id != id ==> ds[i] in DeleteFrom(ds, id)
  {
    if ds != [] {
      var rest := ds[1..];
      DeleteKeepsOthers(rest, id);
      var tail := DeleteFrom(rest, id);
      var head := if ds[0].id != id then [ds[0]] else [];
      assert DeleteFrom(ds, id) == head + tail;
      forall i | 0 <= i < |ds| && ds[i].id != id ensures ds[i] in DeleteFrom(ds, id) {
        if i > 0 {
          assert ds[i] == rest[i - 1];
          assert ds[i] in tail;
        }
      }
    }
  }

  /** Counted with multiplicity, deleting drops every copy of a record with the id and keeps
      every copy of every other record. */
  lemma {:induction false} DeleteMultiset(ds: seq<Debt>, id: string, x: Debt)
    ensures multiset(DeleteFrom(ds, id))[x] == if x.id == id then 0 else multiset(ds)[x]
  {
    if ds != [] {
      var rest := ds[1..];
      DeleteMultiset(rest, id, x);
      var head := if ds[0].id != id then [ds[0]] else [];
      assert DeleteFrom(ds, id) == head + DeleteFrom(rest, id);
      assert ds == [ds[0]] + rest;
      assert multiset(ds) == multiset([ds[0]]) + multiset(rest);
      assert multiset(DeleteFrom(ds, id)) == multiset(head) + multiset(DeleteFrom(rest, id));
    }
  }

  /** Deleting keeps the relative order: it distributes over concatenation. */
  lemma {:induction false} DeleteAppend(a: seq<Debt>, b: seq<Debt>, id: string)
    ensures DeleteFrom(a + b, id) == DeleteFrom(a, id) + DeleteFrom(b, id)
  {
    if a == [] {
      assert a + b == b;
    } else {
      assert (a + b)[0] == a[0];
      assert (a + b)[1..] == a[1..] + b;
      DeleteAppend(a[1..], b, id);
    }
  }

  /** With unique ids, the id of record `k` occurs neither before nor after it. */
  lemma UniqueIdElsewhere(ds: seq<Debt>, k: nat)
    requires UniqueIds(ds) && k < |ds|
    ensures !HasId(ds[..k], ds[k].id) && !HasId(ds[k + 1..], ds[k].id)
  {
    forall i | 0 <= i < k ensures ds[..k][i].id != ds[k].id {
      assert ds[..k][i] == ds[i];
    }
    var after := ds[k + 1..];
    forall i | 0 <= i < |after| ensures after[i].id != ds[k].id {
      assert after[i] == ds[k + 1 + i];
    }
  }

  /** With unique ids, deleting the id of record `k` removes exactly that record and keeps the
      others in their order. */
  lemma {:induction false} DeleteExactlyOne(ds: seq<Debt>, k: nat)
    requires UniqueIds(ds) && k < |ds|
    ensures DeleteFrom(ds, ds[k].id) == ds[..k] + ds[k + 1..]
  {
    var id, before, after := ds[k].id, ds[..k], ds[k + 1..];
    UniqueIdElsewhere(ds, k);
    assert ds == before + ([ds[k]] + after);
    DeleteAppend(before, [ds[k]] + after, id);
    DeleteAppend([ds[k]], after, id);
    DeleteAbsent(before, id);
    DeleteAbsent(after, id);
    assert DeleteFrom([ds[k]], id) == [] by {
      assert [ds[k]][1..] == [];
    }
    var mid := DeleteFrom([ds[k]] + after, id);
    assert mid == after;
    assert DeleteFrom(ds, id) == DeleteFrom(before, id) + mid;
  }

  /** With unique ids, deleting shortens the list by one when the id is present and by none
      when it is absent. */
  lemma DeleteLength(ds: seq<Debt>, id: string)
    requires UniqueIds(ds)
    ensures HasId(ds, id) ==> |DeleteFrom(ds, id)| == |ds| - 1
    ensures !HasId(ds, id) ==> |DeleteFrom(ds, id)| == |ds|
  {
    if HasId(ds, id) {
      var k :| 0 <= k < |ds| && ds[k].id == id;
      DeleteExactlyOne(ds, k);
    } else {
      DeleteAbsent(ds, id);
    }
  }

  /** Dropping the first record keeps the ids unique. */
  lemma UniqueTail(ds: seq<Debt>)
    requires UniqueIds(ds) && ds != []
    ensures UniqueIds(ds[1..])
  {
    var rest := ds[1..];
    forall i, j | 0 <= i < j < |rest| ensures rest[i].id != rest[j].id {
      assert rest[i] == ds[i + 1] && rest[j] == ds[j + 1];
    }
  }

  /** Prepending a record whose id is fresh keeps the ids unique. */
  lemma AddFreshKeepsUnique(ds: seq<Debt>, debt: Debt)
    requires UniqueIds(ds) && !HasId(ds, debt.id)
    ensures UniqueIds(AddTo(ds, debt))
  {
    var r := AddTo(ds, debt);
    forall i, j | 0 <= i < j < |r| ensures r[i].id != r[j].id {
      if i == 0 {
        assert r[j] == ds[j - 1];
      } else {
        assert r[i] == ds[i - 1] && r[j] == ds[j - 1];
      }
    }
  }

  /** Deleting keeps the ids unique. */
  lemma {:induction false} DeleteKeepsUnique(ds: seq<Debt>, id: string)
    requires UniqueIds(ds)
    ensures UniqueIds(DeleteFrom(ds, id))
  {
    if ds != [] {
      var rest := ds[1..];
      UniqueTail(ds);
      DeleteKeepsUnique(rest, id);
      if ds[0].id != id {
        var tail := DeleteFrom(rest, id);
        var r := [ds[0]] + tail;
        assert DeleteFrom(ds, id) == r;
        forall i, j | 0 <= i < j < |r| ensures r[i].id != r[j].id {
          if i == 0 {
            assert r[j] == tail[j - 1];
            assert tail[j - 1] in rest;
            var m :| 0 <= m < |rest| && rest[m] == tail[j - 1];
            assert rest[m] == ds[m + 1];
          } else {
            assert r[i] == tail[i - 1] && r[j] == tail[j - 1];
          }
        }
      } else {
        assert DeleteFrom(ds, id) == DeleteFrom(rest, id);
      }
    }
  }

  /** No operation produces PARTIAL: a ledger free of it stays free of it under every updater,
      provided the prepended record is not PARTIAL either. */
  lemma UpdatersKeepNoPartial(ds: seq<Debt>, debt: Debt, id: string)
    requires NoPartial(ds) && debt.status != PARTIAL
    ensures NoPartial(AddTo(ds, debt))
    ensures NoPartial(MarkPaidIn(ds, id))
    ensures NoPartial(DeleteFrom(ds, id))
  {
    var r := DeleteFrom(ds, id);
    forall i | 0 <= i < |r| ensures r[i].status != PARTIAL {
      assert r[i] in ds;
    }
    var a := AddTo(ds, debt);
    forall i | 1 <= i < |a| ensures a[i].status != PARTIAL {
      assert a[i] == ds[i - 1];
    }
  }

  /** The browser storage slot under the ledger's key. `slot` is `None` while nothing is saved;
      `writes` counts the `setItem` calls. Serialisation to and from JSON is the identity here. */
  class Storage {
    var slot: Option<seq<Debt>>
    var writes: nat

    constructor (saved: Option<seq<Debt>>)
      ensures slot == saved && writes == 0
    {
      slot := saved;
      writes := 0;
    }
  }

  /** The `debts` state cell of the application root, saved to `storage` after every change. */
  class LedgerStore {
    var debts: seq<Debt>
    const storage: Storage

    /** What the persistence effect keeps true: the slot holds the current list. */
    ghost predicate Valid()
      reads this, storage
    {
      storage.slot == Some(debts)
    }

    /** Start-up: restore the saved list (or `[]`), then the effect saves it once. */
    constructor (storage: Storage)
      modifies storage
      ensures this.storage == storage
      ensures debts == Restore(old(storage.slot))
      ensures storage.writes == old(storage.writes) + 1
      ensures Valid()
    {
      this.storage := storage;
      debts := Restore(storage.slot);
      new;
      Persist();
    }

    /** The effect `localStorage.setItem(key, JSON.stringify(debts))`. */
    method Persist()
      modifies storage
      ensures storage.slot == Some(debts)
      ensures storage.writes == old(storage.writes) + 1
    {
      storage.slot := Some(debts);
      storage.writes := storage.writes + 1;
    }

    method AddDebt(debt: Debt)
      requires Valid()
      modifies this, storage
      ensures Valid()
      ensures debts == AddTo(old(debts), debt)
      ensures storage.writes == old(storage.writes) + 1
    {
      debts := AddTo(debts, debt);
      Persist();
    }

    method MarkAsPaid(id: string)
      requires Valid()
      modifies this, storage
      ensures Valid()
      ensures debts == MarkPaidIn(old(debts), id)
      ensures storage.writes == old(storage.writes) + 1
    {
      debts := MarkPaidIn(debts, id);
      Persist();
    }

    /** `confirmed` is the answer to the confirmation dialog. */
    method DeleteDebt(id: string, confirmed: bool)
      requires Valid()
      modifies this, storage
      ensures Valid()
      ensures debts == if confirmed then DeleteFrom(old(debts), id) else old(debts)
      ensures storage.writes == old(storage.writes) + (if confirmed then 1 else 0)
    {
      if confirmed {
        debts := DeleteFrom(debts, id);
        Persist();
      }
    }
  }

  /** Reloading the application over the same storage restores the list it had. */
  method Reload(store: LedgerStore) returns (reloaded: LedgerStore)
    requires store.Valid()
    modifies store.storage
    ensures fresh(reloaded) && reloaded.storage == store.storage
    ensures reloaded.debts == store.debts
    ensures reloaded.Valid() && store.Valid()
  {
    reloaded := new LedgerStore(store.storage);
  }
}
