/**
 * The hosted table store, reduced to what the dashboard relies on: three tables of rows,
 * newest first (the order of `created_at` descending), and the equality filters of its queries.
 * Whether a remote call succeeds is a parameter of the operation that makes it.
 */
module TableStore {
  import opened Wrappers
  import opened Seqs
  import opened Records
  import opened Ledger

  class Store {
    var members: seq<Member>
    var transactions: seq<Transaction>
    var checkins: seq<CheckIn>
    /** The id the next inserted transaction receives. */
    var nextId: int

    /**
     * Every transaction id was handed out before, so a new one is fresh, and the table, newest
     * first, lists the ids in decreasing order.
     */
    ghost predicate Valid()
      reads this`transactions, this`nextId
    {
      IdsBelow(transactions, nextId) && IdsDescending(transactions)
    }

    constructor ()
      ensures Valid()
      ensures members == [] && transactions == [] && checkins == [] && nextId == 1
    {
      members, transactions, checkins, nextId := [], [], [], 1;
    }

    /** `insert` into `transactions`: the new row, with a fresh id, comes first. */
    method InsertTransaction(tx: TxInput) returns (row: Transaction)
      requires Valid()
      modifies this
      ensures Valid()
      ensures row == TxRow(old(nextId), tx)
      ensures forall i :: 0 <= i < |old(transactions)| ==> old(transactions)[i].id != row.id
      ensures transactions == [row] + old(transactions) && nextId == old(nextId) + 1
      ensures members == old(members) && checkins == old(checkins)
    {
      row := TxRow(nextId, tx);
      transactions := [row] + transactions;
      nextId := nextId + 1;
    }

    /** `delete().eq('id', id)` on `transactions`. */
    method DeleteTransaction(id: int)
      requires Valid()
      modifies this`transactions
      ensures Valid()
      ensures transactions == WithoutId(old(transactions), id)
    {
      WithoutIdKeepsOrder(transactions, id);
      transactions := WithoutId(transactions, id);
    }

    /** `insert` into `checkins`. */
    method InsertCheckIn(c: CheckIn)
      modifies this`checkins
      ensures checkins == [c] + old(checkins)
    {
      checkins := [c] + checkins;
    }

    /** Replaces the members table after an update or insert. */
    method SetMembers(rows: seq<Member>)
      modifies this`members
      ensures members == rows
    {
      members := rows;
    }
  }

  predicate IdsBelow(rows: seq<Transaction>, bound: int) {
    forall i :: 0 <= i < |rows| ==> rows[i].id < bound
  }

  predicate IdsDescending(rows: seq<Transaction>) {
    forall i, j :: 0 <= i < j < |rows| ==> rows[i].id > rows[j].id
  }

  /** The transactions left after deleting the one with `id`. */
  function WithoutId(rows: seq<Transaction>, id: int): (r: seq<Transaction>)
    ensures forall i :: 0 <= i < |r| ==> r[i].id != id && r[i] in rows
    ensures forall j :: 0 <= j < |rows| && rows[j].id != id ==> rows[j] in r
  {
    Filter(rows, (t: Transaction) => t.id != id)
  }

  /** `select('*').eq('dni', dni)`: the member rows with exactly that dni, in table order. */
  function RowsWithDni(rows: seq<Member>, dni: string): (r: seq<Member>)
    ensures forall i :: 0 <= i < |r| ==> r[i].dni == dni && r[i] in rows
    ensures forall j :: 0 <= j < |rows| && rows[j].dni == dni ==> rows[j] in r
  {
    Filter(rows, (m: Member) => m.dni == dni)
  }

  /** The first member row with that dni (`find`, or the first row of an `eq` query). */
  function FirstWithDni(rows: seq<Member>, dni: string): (r: Option<Member>)
    ensures r.Some? ==> r.value.dni == dni && r.value in rows
    ensures r.None? <==> forall j :: 0 <= j < |rows| ==> rows[j].dni != dni
    ensures r.Some? ==> exists i :: 0 <= i < |rows| && rows[i] == r.value && NoDniBefore(rows, dni, i)
  {
    match FindIndex(rows, (m: Member) => m.dni == dni)
    case Some(i) => assert NoDniBefore(rows, dni, i); Some(rows[i])
    case None => None
  }

  /** No row before position `i` carries the dni. */
  predicate NoDniBefore(rows: seq<Member>, dni: string, i: int) {
    forall j :: 0 <= j < i && j < |rows| ==> rows[j].dni != dni
  }

  /** The first row of the `eq` query is the first matching row of the table. */
  lemma {:induction false} FirstOfQueryIsFirstMatch(rows: seq<Member>, dni: string)
    ensures RowsWithDni(rows, dni) == [] <==> FirstWithDni(rows, dni).None?
    ensures RowsWithDni(rows, dni) != [] ==> RowsWithDni(rows, dni)[0] == FirstWithDni(rows, dni).value
  {
    if rows != [] {
      FirstOfQueryIsFirstMatch(rows[1..], dni);
    }
  }

  /** One step of the delete filter. */
  lemma WithoutIdStep(rows: seq<Transaction>, id: int)
    requires rows != []
    ensures WithoutId(rows, id) == (if rows[0].id != id then [rows[0]] else []) + WithoutId(rows[1..], id)
  {
  }

  /** Deleting keeps the ids in decreasing order. */
  lemma {:induction false} WithoutIdKeepsOrder(rows: seq<Transaction>, id: int)
    requires IdsDescending(rows)
    ensures IdsDescending(WithoutId(rows, id))
  {
    if rows != [] {
      assert IdsDescending(rows[1..]);
      WithoutIdKeepsOrder(rows[1..], id);
      WithoutIdStep(rows, id);
      var rest := WithoutId(rows[1..], id);
      forall i | 0 <= i < |rest|
        ensures rest[i].id < rows[0].id
      {
        assert rest[i] in rows[1..];
      }
      PrependKeepsOrder(rows[0], rest);
    }
  }

  /** A row with an id above all of a descending sequence's can go in front of it. */
  lemma PrependKeepsOrder(t: Transaction, rows: seq<Transaction>)
    requires IdsDescending(rows)
    requires forall i :: 0 <= i < |rows| ==> rows[i].id < t.id
    ensures IdsDescending([t] + rows)
  {
    forall i, j | 0 <= i < j < |[t] + rows|
      ensures ([t] + rows)[i].id > ([t] + rows)[j].id
    {
      if i > 0 {
        assert ([t] + rows)[i] == rows[i - 1];
      }
      assert ([t] + rows)[j] == rows[j - 1];
    }
  }

  /** The ids after the first are all smaller, so deleting the first row's id drops it alone. */
  lemma DeleteFirst(rows: seq<Transaction>)
    requires IdsDescending(rows) && rows != []
    ensures WithoutId(rows, rows[0].id) == rows[1..]
  {
    var id := rows[0].id;
    WithoutIdStep(rows, id);
    assert forall j :: 0 <= j < |rows[1..]| ==> rows[1..][j].id != id;
    FilterKeepsAll(rows[1..], (t: Transaction) => t.id != id);
  }

  /**
   * With distinct ids, deleting the row at `k` removes exactly its amount from the sum of its
   * type and leaves every other row's amount.
   */
  lemma {:induction false} DeleteSubtracts(rows: seq<Transaction>, k: nat, ty: TxType)
    requires IdsDescending(rows) && k < |rows|
    ensures SumOfType(WithoutId(rows, rows[k].id), ty) == SumOfType(rows, ty) - Contribution(rows[k], ty)
  {
    if k == 0 {
      DeleteFirst(rows);
    } else {
      var id := rows[k].id;
      assert rows[1..][k - 1] == rows[k];
      assert IdsDescending(rows[1..]);
      DeleteSubtracts(rows[1..], k - 1, ty);
      WithoutIdStep(rows, id);
      assert rows[0].id != id;
      var rest := WithoutId(rows[1..], id);
      assert ([rows[0]] + rest)[1..] == rest;
    }
  }
}
