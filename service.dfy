/** The routing sample's handlers as they run against the mutable state store:
    each method reads the account, returns early on an error, updates the
    account it read and saves it back in place. Each is proved against the
    matching function of `Accounts`, whose contracts state the handler rules.
 */
module Service {
  import opened Accounts

  class StateStore {
    /** The contents of the state store, keyed by account id. */
    var accounts: Store

    constructor (initial: Store)
      ensures accounts == initial
    {
      accounts := initial;
    }

    /** The store's lookup: an absent key is reported as `None`. */
    method GetStateAsync(key: string) returns (account: Option<Account>)
      ensures account == GetState(accounts, key)
      ensures account.None? <==> key !in accounts
      ensures account.Some? ==> account.value == accounts[key]
    {
      if key in accounts {
        account := Some(accounts[key]);
      } else {
        account := None;
      }
    }

    /** The store's save: overwrite the entry under `key`. */
    method SaveStateAsync(key: string, account: Account)
      modifies this
      ensures accounts == old(accounts)[key := account]
    {
      accounts := accounts[key := account];
    }

    /** GET {id}; reads the store and never changes it. */
    method Balance(id: string) returns (response: Response)
      ensures response == Accounts.Balance(accounts, id).response
      ensures response.status == NOT_FOUND <==> id !in accounts
      ensures id in accounts ==> response == Response(OK, Some(accounts[id]))
    {
      var account := GetStateAsync(id);
      if account.None? {
        response := Response(NOT_FOUND, None);
        return;
      }
      response := Response(OK, Some(account.value));
    }

    /** POST deposit, as one atomic step. */
    method Deposit(transaction: Transaction) returns (response: Response)
      modifies this
      ensures Outcome(response, accounts) == Accounts.Deposit(old(accounts), transaction)
      ensures transaction.amount < 0.0 ==> accounts == old(accounts)
      ensures UnchangedExcept(old(accounts), accounts, transaction.id)
    {
      var found := GetStateAsync(transaction.id);
      var account: Account;
      if found.None? {
        account := Account(transaction.id, 0.0);
      } else {
        account := found.value;
      }

      if transaction.amount < 0.0 {
        response := Response(BAD_REQUEST, None);
        return;
      }

      account := account.(balance := account.balance + transaction.amount);
      SaveStateAsync(transaction.id, account);
      response := Response(OK, Some(account));
    }

    /** POST withdraw, as one atomic step. */
    method Withdraw(transaction: Transaction) returns (response: Response)
      modifies this
      ensures Outcome(response, accounts) == Accounts.Withdraw(old(accounts), transaction)
      ensures (transaction.id !in old(accounts) || transaction.amount < 0.0) ==> accounts == old(accounts)
      ensures UnchangedExcept(old(accounts), accounts, transaction.id)
    {
      var found := GetStateAsync(transaction.id);
      if found.None? {
        response := Response(NOT_FOUND, None);
        return;
      }
      var account := found.value;

      if transaction.amount < 0.0 {
        response := Response(BAD_REQUEST, None);
        return;
      }

      account := account.(balance := account.balance - transaction.amount);
      SaveStateAsync(transaction.id, account);
      response := Response(OK, Some(account));
    }
  }
}
