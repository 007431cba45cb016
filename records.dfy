/**
 * The rows of the three tables the dashboard reads and writes: members, transactions and
 * check-ins. Store-assigned columns (`created_at`, `updated_at`, the members' and check-ins'
 * numeric ids) are not modelled; a transaction keeps its id because it is deleted by id.
 * Money is a whole number of pesos.
 */
module Records {
  import opened Wrappers

  datatype Member = Member(
    dni: string,
    name: string,
    phone: Option<string>,
    membershipType: string,
    startDate: string,
    expiryDate: string)

  datatype TxType = Income | Expense

  datatype Transaction = Transaction(
    id: int,
    txType: TxType,
    amount: int,
    concept: string,
    date: string,
    time: string)

  datatype CheckIn = CheckIn(
    memberDni: string,
    memberName: string,
    checkInTime: string,
    membershipStatus: string)

  /** What a caller hands to `saveMember`: a member without the store's own columns. */
  datatype MemberInput = MemberInput(
    dni: string,
    name: string,
    phone: Option<string>,
    membershipType: string,
    startDate: string,
    expiryDate: string)

  /** What a caller hands to `addTransaction`: a transaction without its id. */
  datatype TxInput = TxInput(txType: TxType, amount: int, concept: string, date: string, time: string)

  /** The row a transaction input becomes under the id the store gives it. */
  function TxRow(id: int, tx: TxInput): Transaction {
    Transaction(id, tx.txType, tx.amount, tx.concept, tx.date, tx.time)
  }

  /** The four plan keys the members table accepts. */
  const LegacyKeys: seq<string> := ["mensual", "trimestral", "semestral", "anual"]

  predicate IsLegacyKey(k: string) {
    k in LegacyKeys
  }

  /** The fallback price list kept for backwards compatibility. */
  function DefaultPrice(k: string): (price: int)
    ensures price in {15000, 40000, 75000, 140000}
    ensures !IsLegacyKey(k) ==> price == 15000
  {
    if k == "mensual" then 15000
    else if k == "trimestral" then 40000
    else if k == "semestral" then 75000
    else if k == "anual" then 140000
    else 15000
  }
}
