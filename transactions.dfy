/**
 * The transactions hook: its copy of today's transactions and the income / expense / balance
 * of that copy, refreshed after every insert and delete.
 */
module Transactions {
  import opened Calendar
  import opened DateText
  import opened Records
  import opened Ledger
  import opened TableStore

  class TransactionsHook {
    /** The hook's copy: the rows dated today, newest first. */
    var transactions: seq<Transaction>
    var todaySummary: Summary
    const store: Store

    constructor (store: Store)
      ensures this.store == store && transactions == [] && todaySummary == Summary(0, 0, 0)
    {
      this.store := store;
      transactions, todaySummary := [], Summary(0, 0, 0);
    }

    /**
     * `fetchTodayTransactions`: the rows dated with today's 'yyyy-MM-dd' replace the copy and
     * the summary is recomputed from them; a failed read keeps both.
     */
    method FetchTodayTransactions(today: Date, ok: bool)
      requires Valid(today)
      modifies this`transactions, this`todaySummary
      ensures ok ==> transactions == RowsDated(store.transactions, FormatYmd(today))
                     && todaySummary == SummaryOf(transactions)
      ensures !ok ==> transactions == old(transactions) && todaySummary == old(todaySummary)
    {
      if ok {
        transactions := RowsDated(store.transactions, FormatYmd(today));
        todaySummary := SummaryOf(transactions);
      }
    }

    /** `addTransaction`: insert the row, then re-read today's rows; a failed insert changes nothing. */
    method AddTransaction(input: TxInput, today: Date, insertOk: bool, fetchOk: bool)
      requires Valid(today) && store.Valid()
      modifies store, this`transactions, this`todaySummary
      ensures store.Valid()
      ensures store.transactions == if insertOk then [TxRow(old(store.nextId), input)] + old(store.transactions)
                                    else old(store.transactions)
      ensures store.members == old(store.members) && store.checkins == old(store.checkins)
      ensures insertOk && fetchOk ==> transactions == RowsDated(store.transactions, FormatYmd(today))
                                      && todaySummary == SummaryOf(transactions)
      ensures !(insertOk && fetchOk) ==> transactions == old(transactions) && todaySummary == old(todaySummary)
    {
      if !insertOk {
        return;
      }
      var _ := store.InsertTransaction(input);
      FetchTodayTransactions(today, fetchOk);
    }

    /** `deleteTransaction`: delete by id, then re-read today's rows; a failed delete changes nothing. */
    method DeleteTransaction(id: int, today: Date, deleteOk: bool, fetchOk: bool)
      requires Valid(today) && store.Valid()
      modifies store`transactions, this`transactions, this`todaySummary
      ensures store.Valid()
      ensures store.transactions == if deleteOk then WithoutId(old(store.transactions), id)
                                    else old(store.transactions)
      ensures deleteOk && fetchOk ==> transactions == RowsDated(store.transactions, FormatYmd(today))
                                      && todaySummary == SummaryOf(transactions)
      ensures !(deleteOk && fetchOk) ==> transactions == old(transactions) && todaySummary == old(todaySummary)
    {
      if !deleteOk {
        return;
      }
      store.DeleteTransaction(id);
      FetchTodayTransactions(today, fetchOk);
    }
  }

  // ---------------------------------------------------------------------------------------------
  // Properties

  /**
   * A row dated with the fetched day comes first in the re-read copy and adds its amount to
   * its side of the summary; a row dated otherwise leaves the copy as it was.
   */
  lemma AddedRowShiftsSummary(rows: seq<Transaction>, row: Transaction, key: string)
    ensures row.date == key ==> RowsDated([row] + rows, key) == [row] + RowsDated(rows, key)
    ensures row.date == key ==>
      SummaryOf(RowsDated([row] + rows, key)).income
        == SummaryOf(RowsDated(rows, key)).income + Contribution(row, Income)
      && SummaryOf(RowsDated([row] + rows, key)).expense
        == SummaryOf(RowsDated(rows, key)).expense + Contribution(row, Expense)
    ensures row.date != key ==> RowsDated([row] + rows, key) == RowsDated(rows, key)
  {
    assert ([row] + rows)[1..] == rows;
    var rest := RowsDated(rows, key);
    assert ([row] + rest)[1..] == rest;
  }

  /**
   * Deleting a stored row removes its amount from the table's totals, and no row with its id
   * is left to be re-read.
   */
  lemma DeleteRemovesRow(rows: seq<Transaction>, k: nat, key: string)
    requires IdsDescending(rows) && k < |rows|
    ensures SummaryOf(WithoutId(rows, rows[k].id)).income == SummaryOf(rows).income - Contribution(rows[k], Income)
    ensures SummaryOf(WithoutId(rows, rows[k].id)).expense == SummaryOf(rows).expense - Contribution(rows[k], Expense)
    ensures forall t :: t in RowsDated(WithoutId(rows, rows[k].id), key) ==> t.id != rows[k].id
  {
    DeleteSubtracts(rows, k, Income);
    DeleteSubtracts(rows, k, Expense);
    RowsDatedExactly(WithoutId(rows, rows[k].id), key);
  }
}
