# Minimal_API todo server — a Dafny model of its request handlers

The server is an ASP.NET Core minimal API (`server/Program.cs`) over a MySQL
database with two tables. `Users` holds `Id`, `Username` and `Password`.
`Items` holds `Id`, `Name`, `IsComplete` and owner `UserId`.

- `POST /register` saves a new user under a username nobody has, then answers with a signed JWT.
- `POST /login` answers with a JWT for the first user whose username and password both match.
- The token's `id` claim is the user's key in decimal.
- Each `/items` endpoint reads the caller's key back from that claim (`getUserId`, which falls back to 0).
- Every item query uses that key as the only ownership filter and tag:
  - listing returns just the caller's items;
  - creating stamps the caller as owner, whatever owner the client sent;
  - updating and deleting find the item by its key *and* that owner, and answer "Task not found or unauthorized" otherwise.

The model has these modules:

- `Nullable`: C#'s nullable values and the `??` operator.
- `Int32Text`: the `int` type, `int.ToString()` and `int.TryParse` with the default number style and the invariant culture.
- `Query`: the Entity Framework queries as pure functions over a table held as a sequence in store order: `FirstOrDefaultAsync` (`First`, the position of the first matching row), `Where(...).ToListAsync()` (`Where`) and `Remove` (`RemoveAt`).
- `Models`: the `User` and `Item` records (`server/User.cs`, `server/Item.cs`).
- `Jwt`:
  - the claims of a token `CreateJWT` issues;
  - `getUserId`;
  - `Principal`, the claims the bearer middleware attaches to a request that presents a token.
- `TodoApi`: the class `TodoStore`. Its fields are the two tables and their auto-increment counters; each endpoint is a method, and `Valid()` is the database invariant.
  - `Valid()` requires unique keys, unique usernames and every key below its counter.
  - Every state-changing handler keeps `Valid()`.
  - The handlers' contracts state each reply and the whole new state in terms of the query functions.
  - Lemmas relate those functions: round trips, preservation facts, and "other users' lists are unchanged".
- `Scenarios`: request sequences stated from the handlers' contracts alone:
  - register then log in;
  - register twice;
  - delete twice;
  - one user cannot see, update or delete another's item;
  - the walk-through in which alice adds "buy milk" and completes it, bob sees nothing, and bob's delete returns 404.

Time (`DateTime.UtcNow`) is a parameter `now`, in whole seconds. The settings
`Jwt:Issuer`, `Jwt:Audience` and whether `Jwt:Key` can sign are a `Config` parameter.

Where the repository's design description and the code differ, the model follows the code:

- The description says a username must be non-empty. `/register` does not check this: an empty or null username is saved like any other, as long as no user already has it.
- The description says a missing signing key fails at process startup. In the code, `CreateJWT` reads `Jwt:Key` on every call. So an unusable key makes `/login` and `/register` fail with a server error on each request. By then `/register` has already saved the user.
- The description says a new item's completion flag defaults to false. `POST /items` stores `IsComplete` exactly as sent, which may be null. The walk-through sends `false` explicitly.

## Model

| member | source | states |
|---|---|---|
| Nullable.Coalesce | server/Program.cs:115 | `a ?? b`: the value of `a` when it has one, `b` otherwise |
| Nullable.CoalesceOption | server/Program.cs:255-256 | `a ?? b` on two nullables: `a` when it has a value, otherwise `b` |
| Int32Text.ToDecimal | server/Program.cs:114 | `int.ToString()`: non-empty; a leading `-` exactly for negative numbers; decimal digits otherwise |
| Int32Text.TryParse | server/Program.cs:230 | `int.TryParse` fails on a null string, on a string of white space only, and on a string with a character that is not white space, a sign or a digit |
| Int32Text.ParseToDecimal | server/Program.cs:114 | parsing the decimal text `ToString` prints for any `int` gives back that `int` |
| Int32Text.ToDecimalInjective | server/Program.cs:114 | two `int`s with the same decimal text are equal |
| Int32Text.DigitsValueOfNatDigits | server/Program.cs:114 | the digits printed for a natural number denote that number |
| Query.First | server/Program.cs:141 | `FirstOrDefaultAsync(p)`: a position whose row satisfies `p` with no earlier row satisfying it, or none exactly when no row satisfies `p` |
| Query.Where | server/Program.cs:236 | `Where(p)`: only rows of the table that satisfy `p`, and every row that satisfies `p` |
| Query.WhereConcat | server/Program.cs:236 | filtering a concatenation is the concatenation of the filtered parts, so store order is kept |
| Query.WhereAll | server/Program.cs:236 | when every row satisfies `p`, the filter returns the table itself, in order |
| Query.WhereNone | server/Program.cs:236 | when no row satisfies `p`, the filter returns nothing |
| Query.WhereAppend | server/Program.cs:243 | appending a row adds it at the end of a filtered list exactly when it satisfies the filter |
| Query.RemoveAt | server/Program.cs:269 | `Remove`: one row fewer; the rows before it are unchanged, and the rows after it move up by one |
| Query.WhereRemoveAt | server/Program.cs:269 | removing a row that fails the filter leaves the filtered list unchanged |
| Query.WhereUpdate | server/Program.cs:255-256 | replacing a row that fails the filter with another that fails it leaves the filtered list unchanged |
| Jwt.FindFirst | server/Program.cs:229 | `FindFirst(kind)?.Value`: the value of the first claim of that kind, or null exactly when there is no claim of that kind |
| Jwt.CreateJwt | server/Program.cs:107-131 | a token exists exactly when the key can sign. Its `id` claim is the decimal of the user's key, and its `name` claim is the username, or `Unknown` when that is null. It has no other subject claims. It is issued and valid from `now` and expires seven days later. Issuer and audience are the configured ones |
| Jwt.GetUserId | server/Program.cs:227-231 | the parsed `id` claim, or 0 when it is missing or does not parse |
| Jwt.Principal | server/Program.cs:61-74 | a validated request's claims begin with the token's subject claims |
| Jwt.GetUserIdOfIssued | server/Program.cs:227-231 | a principal carrying an issued token's subject claims after non-`id` claims resolves to the user's key |
| Jwt.GetUserIdOfPrincipal | server/Program.cs:227-231 | the principal of a token issued for a user resolves to that user's key |
| Jwt.IssuedIdsDistinct | server/Program.cs:114 | tokens for users with different keys carry different `id` claims |
| TodoApi.Patch | server/Program.cs:255-256 | keeps key and owner; takes `Name` and `IsComplete` from the input exactly where the input gives them |
| TodoApi.PatchIdempotent | server/Program.cs:255-256 | a PUT repeated with the same body changes nothing more |
| TodoApi.NewId | server/Program.cs:166-167 | the key a save assigns: key 0 takes the counter; any other key is kept and moves the counter past it. A duplicate key or an exhausted counter fails. The new key stays below the counter, and the counter never decreases |
| TodoApi.CounterKeyFree | server/Program.cs:243-244 | no item has a key at or above the counter |
| TodoApi.CounterUserKeyFree | server/Program.cs:166-167 | no user has a key at or above the counter |
| TodoApi.UserAppendValid | server/Program.cs:162-167 | saving a user with a new username under a free key keeps usernames and keys unique |
| TodoApi.ItemAppendValid | server/Program.cs:243-244 | saving an item under a free key keeps item keys unique |
| TodoApi.ItemUpdateValid | server/Program.cs:255-258 | patching an item keeps item keys unique |
| TodoApi.ItemRemoveValid | server/Program.cs:269-270 | removing an item keeps keys unique, and its key is then in use by no item |
| TodoApi.ForeignItemNotListed | server/Program.cs:236 | an item owned by someone else is never in the caller's list |
| TodoApi.ForeignItemUnreachable | server/Program.cs:251 | with unique keys, the owner-scoped lookup never finds another user's item by its key |
| TodoApi.TodoStore.constructor | server/Program.cs:17-19 | an empty database with both counters at 1 |
| TodoApi.TodoStore.Login | server/Program.cs:138-155 | 401 exactly when no user has both this username and this password. Otherwise a token issued for such a user; a server error only when the key cannot sign. The store is not changed |
| TodoApi.TodoStore.Register | server/Program.cs:159-174 | a taken username gives 400 `User already exists` and changes nothing. Otherwise exactly one user is appended, under the key `NewId` assigns, and the reply is a token for it. Usernames stay unique, and the token's principal resolves to the new user's key |
| TodoApi.TodoStore.ListItems | server/Program.cs:233-238 | 200 with exactly the items whose owner is the caller, in store order: every listed item is the caller's, and every item of the caller's is listed |
| TodoApi.TodoStore.CreateItem | server/Program.cs:240-246 | the item is appended under its new key with the caller as owner, whatever owner was sent. 201 at `/items/{id}`. The caller's list gains exactly that item, and every other user's list is unchanged |
| TodoApi.TodoStore.UpdateItem | server/Program.cs:248-260 | with no item of the caller's under that key: 404 `Task not found or unauthorized`, and nothing changes. Otherwise 204, and that item is patched. Every other row and every other user's list is unchanged |
| TodoApi.TodoStore.DeleteItem | server/Program.cs:262-272 | with no item of the caller's under that key: 404 `Task not found or unauthorized`, and nothing changes. Otherwise the reply is 200 `Deleted successfully` with the removed item. Exactly that row is removed; afterwards no item of the caller's has that key, and other users' lists are unchanged |
| Scenarios.RegisterThenLogin | server/Program.cs:138-174 | after a successful registration, logging in with the same credentials succeeds and resolves to the same key |
| Scenarios.RegisterTwice | server/Program.cs:159-174 | a second registration of a registered username gets 400 `User already exists` |
| Scenarios.DeleteTwice | server/Program.cs:262-272 | the second of two identical deletes always gets 404 |
| Scenarios.OthersCannotSee | server/Program.cs:233-246 | an item one user creates is absent from any other user's list |
| Scenarios.OthersCannotChange | server/Program.cs:240-272 | another user's update and delete of a newly created item both get 404, and the item stays |
| Scenarios.RegisterNewUser | server/Program.cs:159-174 | a new username without a client key is saved under the next counter value, and its principal resolves to that key |
| Scenarios.AliceAddsMilk | server/Program.cs:159-246 | on an empty server, alice gets key 1 and "buy milk" is saved as item 1 owned by her |
| Scenarios.BobRegisters | server/Program.cs:159-174 | bob then gets key 2, and the items are untouched |
| Scenarios.BothList | server/Program.cs:233-238 | alice lists exactly "buy milk", and bob lists nothing |
| Scenarios.AliceCompletes | server/Program.cs:248-260 | alice's PUT with only `isComplete: true` gets 204, and her list then shows the item completed |
| Scenarios.Walkthrough | server/Program.cs:138-272 | the whole walk-through: alice's list, bob's empty list, alice's update, her list after it, and bob's delete getting 404 |

## Left out

- JWT serialisation, the header and the HMAC-SHA256 signature (`WriteToken`, lines 109-110 and 128-130): a token is its claims record.
- Bearer middleware validation (lines 56-74 and 98-99), meaning the signature, issuer, audience and lifetime checks and the 401 that `RequireAuthorization` gives a request without a valid token. Handlers take the request's claims as a parameter, and `Jwt.Principal` models only the claim layout of a token that passed them.
- The clock: `DateTime.UtcNow` is the parameter `now` in whole seconds. Sub-second precision and the library's rounding of expiry times are not modelled.
- Entity Framework and MySQL themselves: asynchronous calls, change tracking, transactions and concurrent requests. Each handler is one atomic step on the store.
- `ToDoDbContext` and the database schema are not part of this model. A null username or password is stored, and Users stay unique by key and username, as the handlers alone ensure.
- `TodoApi.TodoStore.Login`: compares usernames and passwords by exact equality. Under the database's collation the comparison may ignore case or trailing spaces.
- `TodoApi.TodoStore.Register`: also uses exact equality for the existing-username lookup, for the same reason.
- Query order without `ORDER BY` is assumed to be store (insertion) order.
- `TodoApi.NewId`: a failed insert does not consume a counter value. MySQL's auto-increment may skip one after a failed insert.
- JSON binding of the request bodies and its 400 replies, Swagger, CORS and the startup configuration (lines 12-96).
- The commented-out, unscoped item endpoints (lines 177-218) are dead code.
- The client application under `client/` is not part of this model.
- `Int32Text.TryParse`: its contract states only the rejection cases; parsing is pinned down by `ParseToDecimal`. Its body follows `NumberStyles.Integer` in the invariant culture. It does not model culture-specific sign symbols or .NET's acceptance of trailing NUL characters.
- Passwords are stored and compared in plain text, as in the code. Hashing is not modelled.
