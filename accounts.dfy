/** The account handlers of the routing sample, as functions of the state store.

    The state store is a map from account id to the stored account record; a
    key that is absent is what the store's lookup reports as `null`. Each
    handler is one atomic step: it takes the store before the request and the
    already-parsed request, and yields the HTTP response together with the
    store after the request.
 */
module Accounts {

  datatype Option<+T> = None | Some(value: T)

  /** The stored account record: its identifier and its balance. */
  datatype Account = Account(id: string, balance: real)

  /** The body of a deposit or withdraw request: target account and signed amount. */
  datatype Transaction = Transaction(id: string, amount: real)

  /** The key-value state store, keyed by account id. */
  type Store = map<string, Account>

  /** Response status codes the handlers produce (200 is the framework's default). */
  const OK: int := 200
  const BAD_REQUEST: int := 400
  const NOT_FOUND: int := 404

  /** The status code and, on success, the account echoed as the JSON body. */
  datatype Response = Response(status: int, body: Option<Account>)

  /** What a handler yields: the response and the store after the request. */
  datatype Outcome = Outcome(response: Response, store: Store)

  /** An account that a handler looks up exists exactly when its key is in the store. */
  function GetState(m: Store, key: string): (r: Option<Account>)
    ensures r.None? <==> key !in m
    ensures r.Some? ==> r.value == m[key]
  {
    if key in m then Some(m[key]) else None
  }

  /** `m` and `m'` hold the same entry (or both none) under key `j`. */
  ghost predicate SameEntry(m: Store, m': Store, j: string) {
    (j !in m && j !in m') || (j in m && j in m' && m[j] == m'[j])
  }

  /** Every key other than `k` is untouched between `m` and `m'`. */
  ghost predicate UnchangedExcept(m: Store, m': Store, k: string) {
    forall j :: j != k ==> SameEntry(m, m', j)
  }

  /** Every account is stored under its own id. */
  ghost predicate WellKeyed(m: Store) {
    forall k :: k in m ==> m[k].id == k
  }

  /** GET {id}: 404 when the account is absent, otherwise the stored account as it is.
      The store is never changed. */
  function Balance(m: Store, id: string): (r: Outcome)
    ensures r.store == m
    ensures r.response.status == NOT_FOUND <==> id !in m
    ensures id !in m ==> r.response.body == None
    ensures id in m ==> r.response == Response(OK, Some(m[id]))
  {
    match GetState(m, id)
    case None => Outcome(Response(NOT_FOUND, None), m)
    case Some(account) => Outcome(Response(OK, Some(account)), m)
  }

  /** POST deposit: the account is looked up and, when absent, a fresh one with the
      transaction's id and a zero balance is built; only then is a negative amount
      rejected, so a rejected deposit stores nothing (not even the fresh account).
      Otherwise the amount is added and the account is saved under the transaction's id. */
  function Deposit(m: Store, tx: Transaction): (r: Outcome)
    ensures r.response.status == BAD_REQUEST <==> tx.amount < 0.0
    ensures tx.amount < 0.0 ==> r.store == m && r.response.body == None
    ensures tx.amount >= 0.0 ==>
      && r.response.status == OK
      && tx.id in r.store
      && r.response.body == Some(r.store[tx.id])
      && r.store.Keys == m.Keys + {tx.id}
    ensures tx.amount >= 0.0 && tx.id in m ==>
      r.store[tx.id] == Account(m[tx.id].id, m[tx.id].balance + tx.amount)
    ensures tx.amount >= 0.0 && tx.id !in m ==>
      r.store[tx.id] == Account(tx.id, tx.amount)
    ensures UnchangedExcept(m, r.store, tx.id)
  {
    var account := match GetState(m, tx.id)
      case None => Account(tx.id, 0.0)
      case Some(a) => a;
    if tx.amount < 0.0 then
      Outcome(Response(BAD_REQUEST, None), m)
    else
      var saved := account.(balance := account.balance + tx.amount);
      Outcome(Response(OK, Some(saved)), m[tx.id := saved])
  }

  /** POST withdraw: 404 for an absent account comes first, whatever the amount;
      then a negative amount is rejected with 400. Otherwise the amount is
      subtracted with no floor, so the balance may become negative, and the
      account is saved under the transaction's id. */
  function Withdraw(m: Store, tx: Transaction): (r: Outcome)
    ensures r.response.status == NOT_FOUND <==> tx.id !in m
    ensures r.response.status == BAD_REQUEST <==> tx.id in m && tx.amount < 0.0
    ensures (tx.id !in m || tx.amount < 0.0) ==> r.store == m && r.response.body == None
    ensures tx.id in m && tx.amount >= 0.0 ==>
      && r.response.status == OK
      && r.store == m[tx.id := Account(m[tx.id].id, m[tx.id].balance - tx.amount)]
      && r.response.body == Some(r.store[tx.id])
    ensures UnchangedExcept(m, r.store, tx.id)
    ensures r.store.Keys == m.Keys
  {
    match GetState(m, tx.id)
    case None => Outcome(Response(NOT_FOUND, None), m)
    case Some(account) =>
      if tx.amount < 0.0 then
        Outcome(Response(BAD_REQUEST, None), m)
      else
        var saved := account.(balance := account.balance - tx.amount);
        Outcome(Response(OK, Some(saved)), m[tx.id := saved])
  }

  /** Withdrawing what was just deposited into an existing account restores the
      store exactly, and echoes the account as it was before the deposit. */
  lemma DepositThenWithdraw(m: Store, tx: Transaction)
    requires tx.id in m && tx.amount >= 0.0
    ensures Withdraw(Deposit(m, tx).store, tx).store == m
    ensures Withdraw(Deposit(m, tx).store, tx).response == Response(OK, Some(m[tx.id]))
  {
  }

  /** Depositing what was just withdrawn from an existing account restores the store. */
  lemma WithdrawThenDeposit(m: Store, tx: Transaction)
    requires tx.id in m && tx.amount >= 0.0
    ensures Deposit(Withdraw(m, tx).store, tx).store == m
    ensures Deposit(Withdraw(m, tx).store, tx).response == Response(OK, Some(m[tx.id]))
  {
  }

  /** After a successful deposit or withdrawal, a balance query for the same id
      returns exactly the account the handler echoed. */
  lemma BalanceEchoesSaved(m: Store, tx: Transaction)
    ensures Deposit(m, tx).response.status == OK ==>
      Balance(Deposit(m, tx).store, tx.id).response == Deposit(m, tx).response
    ensures Withdraw(m, tx).response.status == OK ==>
      Balance(Withdraw(m, tx).store, tx.id).response == Withdraw(m, tx).response
  {
  }

  /** No handler breaks the invariant that accounts are stored under their own id:
      an account a deposit creates carries the transaction's id, and an update keeps
      the stored id. */
  lemma HandlersKeepWellKeyed(m: Store, tx: Transaction, id: string)
    requires WellKeyed(m)
    ensures WellKeyed(Balance(m, id).store)
    ensures WellKeyed(Deposit(m, tx).store)
    ensures WellKeyed(Withdraw(m, tx).store)
  {
  }
}
