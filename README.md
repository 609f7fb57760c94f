# Account handlers of the routing sample

The ASP.NET Core routing sample of the Dapr .NET SDK exposes three HTTP
handlers over a Dapr key-value state store named `statestore`:

- `GET {id}` (**Balance**) returns the stored account, or 404 when there is none;
- `POST deposit` (**Deposit**, also subscribed to the `deposit` topic) looks up the
  account, builds a fresh one with a zero balance when it is missing, rejects a
  negative amount with 400, and otherwise adds the amount and saves the account;
- `POST withdraw` (**Withdraw**, also subscribed to the `withdraw` topic) answers 404
  for a missing account before it looks at the amount, rejects a negative amount
  with 400, and otherwise subtracts the amount (with no overdraft floor) and saves
  the account.

The model has three modules:

- `Accounts` (`accounts.dfy`): the account and transaction records, the store as a
  `map<string, Account>` (a key that is absent is what `GetStateAsync` reports as
  `null`), and each handler as a function from the store and the parsed request to
  the response (status code and echoed account) and the new store. Their contracts
  state the handler rules: check order, error cases, the arithmetic on the balance
  and that only the entry under the transaction's id can change. Lemmas relate the
  handlers to each other (deposit and withdraw undo each other on an existing
  account; a balance query after a successful update returns the echoed account;
  accounts stay stored under their own id).
- `Service` (`service.dfy`): the class `StateStore` whose `accounts` field is the
  store. Its methods follow the handlers statement by statement (lookup, early
  returns, update of the account that was read, save) and are proved equal to the
  functions of `Accounts`.
- `Replay` (`replay.dfy`): sequences of requests routed to the handlers, one atomic
  step each. Lemmas over any sequence: accounts are never removed; requests for
  other ids leave an account untouched; an existing account's balance is its old
  balance plus accepted deposits minus accepted withdrawals; only an accepted
  deposit creates an account; accounts stay stored under their own id.

An existing account is saved with the `Id` it was loaded with, not overwritten
with the transaction's id (the code saves the loaded object); only an account
that the deposit creates takes the transaction's id. The model keeps that.

## Model

| member | source | states |
|---|---|---|
| `Accounts.GetState` | samples/AspNetCore/RoutingSample/Startup.cs:128-129 | the lookup yields nothing exactly when the key is absent, otherwise the stored account |
| `Accounts.Balance` | samples/AspNetCore/RoutingSample/Startup.cs:123-137 | the store is unchanged; status 404 iff the id is absent (no body); otherwise 200 with exactly the stored account |
| `Accounts.Deposit` | samples/AspNetCore/RoutingSample/Startup.cs:139-163 | 400 iff the amount is negative, and then the store is unchanged even for a missing account; otherwise 200, the key is added if missing, the stored balance is the old one (zero for a new account, whose id is the transaction's) plus the amount, the body is the stored account, and no other key changes |
| `Accounts.Withdraw` | samples/AspNetCore/RoutingSample/Startup.cs:165-188 | 404 iff the account is missing, whatever the amount; 400 iff it exists and the amount is negative; in both cases the store is unchanged; otherwise 200, the balance becomes old minus amount with no floor, the body is the stored account, no other key changes and no key is added |
| `Accounts.DepositThenWithdraw` | samples/AspNetCore/RoutingSample/Startup.cs:139-188 | on an existing account a withdrawal of what was just deposited restores the store exactly and echoes the original account |
| `Accounts.WithdrawThenDeposit` | samples/AspNetCore/RoutingSample/Startup.cs:139-188 | on an existing account a deposit of what was just withdrawn restores the store exactly and echoes the original account |
| `Accounts.BalanceEchoesSaved` | samples/AspNetCore/RoutingSample/Startup.cs:123-188 | after a successful deposit or withdrawal, a balance query for that id returns the same response the update echoed |
| `Accounts.HandlersKeepWellKeyed` | samples/AspNetCore/RoutingSample/Startup.cs:146-159 | if every account is stored under its own id, that still holds after any handler |
| `Service.StateStore.constructor` | samples/AspNetCore/RoutingSample/Startup.cs:33 | the store starts with the given contents |
| `Service.StateStore.GetStateAsync` | samples/AspNetCore/RoutingSample/Startup.cs:128 | the store's lookup, reporting an absent key as `None`, otherwise the stored account |
| `Service.StateStore.SaveStateAsync` | samples/AspNetCore/RoutingSample/Startup.cs:159 | overwrites exactly the entry under the key |
| `Service.StateStore.Balance` | samples/AspNetCore/RoutingSample/Startup.cs:123-137 | read-only; returns the response of `Accounts.Balance`: 404 iff absent, otherwise the stored account |
| `Service.StateStore.Deposit` | samples/AspNetCore/RoutingSample/Startup.cs:139-163 | response and new store are those of `Accounts.Deposit` on the old store; a negative amount leaves the store unchanged; other keys never change |
| `Service.StateStore.Withdraw` | samples/AspNetCore/RoutingSample/Startup.cs:165-188 | response and new store are those of `Accounts.Withdraw` on the old store; a missing account or a negative amount leaves the store unchanged; other keys never change |
| `Replay.Handle` | samples/AspNetCore/RoutingSample/Startup.cs:90-92 | routing a request to its handler changes no key but the one it addresses and removes no key |
| `Replay.HandleMovement` | samples/AspNetCore/RoutingSample/Startup.cs:139-188 | one request on an existing account keeps its id and changes its balance by exactly the accepted amount (plus for a deposit, minus for a withdrawal, zero otherwise) |
| `Replay.RunKeepsKeys` | samples/AspNetCore/RoutingSample/Startup.cs:139-188 | no sequence of requests removes an account |
| `Replay.RunFrame` | samples/AspNetCore/RoutingSample/Startup.cs:139-188 | requests that address other ids leave an account's entry (or its absence) exactly as it was |
| `Replay.RunLedger` | samples/AspNetCore/RoutingSample/Startup.cs:139-188 | after any sequence of requests an existing account keeps its id and its balance is the old balance plus the accepted deposits minus the accepted withdrawals addressed to it |
| `Replay.RunCreatesOnlyByDeposit` | samples/AspNetCore/RoutingSample/Startup.cs:139-188 | an absent account stays absent unless some deposit with a non-negative amount addresses it |
| `Replay.RunKeepsWellKeyed` | samples/AspNetCore/RoutingSample/Startup.cs:139-188 | if every account is stored under its own id, that holds after any sequence of requests |

## Left out

- C# `decimal` is modelled as an unbounded `real`: its 28-29 significant digits, rounding and the `OverflowException` of `+=`/`-=` near its range limit are not modelled.
- JSON (de)serialisation of `Transaction` and `Account` and writing the response body: a request is an already-parsed transaction (or the route's id) and the response a returned status and account; a body that does not parse, or parses to `null`, is left to the framework's default error handling and is not modelled.
- The Dapr client's own checks (it rejects a null or empty key), the transport, `async`/`await`, and races between concurrent requests: the Dapr client is not part of this model, and each handler's read-modify-write is modelled as one atomic step although in reality it is not atomic.
- `twiliopostinjson` (Startup.cs lines 98-121): a wrapper over the Twilio library that writes XML; its 500 branch cannot be taken because the response object is never null.
- `ConfigureServices` and the pipeline setup in `Configure` (dependency injection, routing, CloudEvents middleware, topic subscription, controllers): framework configuration. Only the routing of the three paths to their handlers is kept, in `Replay.Handle`.
- `samples/Actor/ActorClient/Program.cs`: a linear script of remote actor proxy calls, raw HTTP requests, console output and a fixed delay, with no local logic.
- Response headers (the `application/json` content type) are not modelled.
