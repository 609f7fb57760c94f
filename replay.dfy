/** Sequences of requests routed to the three handlers (GET {id}, POST deposit,
    POST withdraw), each handled as one atomic step on the store. The lemmas
    state what holds of the store after any such sequence.
 */
module Replay {
  import opened Accounts

  datatype Request =
    | BalanceRequest(id: string)
    | DepositRequest(tx: Transaction)
    | WithdrawRequest(tx: Transaction)

  /** The account id a request addresses. */
  function Target(req: Request): string {
    match req
    case BalanceRequest(id) => id
    case DepositRequest(tx) => tx.id
    case WithdrawRequest(tx) => tx.id
  }

  /** Route one request to its handler. */
  function Handle(m: Store, req: Request): (r: Outcome)
    ensures UnchangedExcept(m, r.store, Target(req))
    ensures m.Keys <= r.store.Keys
  {
    match req
    case BalanceRequest(id) => Balance(m, id)
    case DepositRequest(tx) => Deposit(m, tx)
    case WithdrawRequest(tx) => Withdraw(m, tx)
  }

  /** The store after handling `reqs` in order, starting from `m`. */
  function Run(m: Store, reqs: seq<Request>): Store
    decreases |reqs|
  {
    if reqs == [] then m else Run(Handle(m, reqs[0]).store, reqs[1..])
  }

  /** What a request does to the balance of account `k` once that account exists:
      an accepted deposit adds, an accepted withdrawal subtracts, anything else
      (a query, a negative amount, another account) leaves it alone. */
  function Movement(k: string, req: Request): real {
    match req
    case BalanceRequest(_) => 0.0
    case DepositRequest(tx) => if tx.id == k && tx.amount >= 0.0 then tx.amount else 0.0
    case WithdrawRequest(tx) => if tx.id == k && tx.amount >= 0.0 then -tx.amount else 0.0
  }

  /** The sum of the movements of `reqs` on account `k`. */
  function Net(k: string, reqs: seq<Request>): real
    decreases |reqs|
  {
    if reqs == [] then 0.0 else Movement(k, reqs[0]) + Net(k, reqs[1..])
  }

  /** One step on an existing account changes its balance by exactly its movement. */
  lemma HandleMovement(m: Store, req: Request, k: string)
    requires k in m
    ensures k in Handle(m, req).store
    ensures Handle(m, req).store[k] == Account(m[k].id, m[k].balance + Movement(k, req))
  {
  }

  /** Accounts are never removed: every key present before a sequence of requests
      is present after it. */
  lemma {:induction false} RunKeepsKeys(m: Store, reqs: seq<Request>)
    ensures m.Keys <= Run(m, reqs).Keys
    decreases |reqs|
  {
    if reqs != [] {
      RunKeepsKeys(Handle(m, reqs[0]).store, reqs[1..]);
    }
  }

  /** Requests for other accounts leave account `k` exactly as it was, present or absent. */
  lemma {:induction false} RunFrame(m: Store, reqs: seq<Request>, k: string)
    requires forall i :: 0 <= i < |reqs| ==> Target(reqs[i]) != k
    ensures SameEntry(m, Run(m, reqs), k)
    decreases |reqs|
  {
    if reqs != [] {
      var m1 := Handle(m, reqs[0]).store;
      assert Target(reqs[0]) != k;
      assert SameEntry(m, m1, k);
      RunFrame(m1, reqs[1..], k);
    }
  }

  /** The ledger property: for an account that exists, the balance after any sequence
      of requests is the balance before plus the accepted deposits minus the accepted
      withdrawals addressed to it, and its stored id is unchanged. */
  lemma {:induction false} RunLedger(m: Store, reqs: seq<Request>, k: string)
    requires k in m
    ensures k in Run(m, reqs)
    ensures Run(m, reqs)[k] == Account(m[k].id, m[k].balance + Net(k, reqs))
    decreases |reqs|
  {
    if reqs != [] {
      var m1 := Handle(m, reqs[0]).store;
      HandleMovement(m, reqs[0], k);
      RunLedger(m1, reqs[1..], k);
    }
  }

  /** Only an accepted deposit creates an account: a withdrawal, a query or a rejected
      deposit on an absent account leaves it absent. */
  lemma {:induction false} RunCreatesOnlyByDeposit(m: Store, reqs: seq<Request>, k: string)
    requires k !in m
    requires forall i :: 0 <= i < |reqs| ==>
      !(reqs[i].DepositRequest? && reqs[i].tx.id == k && reqs[i].tx.amount >= 0.0)
    ensures k !in Run(m, reqs)
    decreases |reqs|
  {
    if reqs != [] {
      var m1 := Handle(m, reqs[0]).store;
      assert !(reqs[0].DepositRequest? && reqs[0].tx.id == k && reqs[0].tx.amount >= 0.0);
      assert k !in m1;
      RunCreatesOnlyByDeposit(m1, reqs[1..], k);
    }
  }

  /** Starting from a store where every account sits under its own id, that stays
      so after any sequence of requests. */
  lemma {:induction false} RunKeepsWellKeyed(m: Store, reqs: seq<Request>)
    requires WellKeyed(m)
    ensures WellKeyed(Run(m, reqs))
    decreases |reqs|
  {
    if reqs != [] {
      var req := reqs[0];
      match req {
        case BalanceRequest(id) => HandlersKeepWellKeyed(m, Transaction(id, 0.0), id);
        case DepositRequest(tx) => HandlersKeepWellKeyed(m, tx, tx.id);
        case WithdrawRequest(tx) => HandlersKeepWellKeyed(m, tx, tx.id);
      }
      RunKeepsWellKeyed(Handle(m, req).store, reqs[1..]);
    }
  }
}
