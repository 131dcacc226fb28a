# Invite codes: a Dafny model of the invite routes

The invite service keeps two tables. `UserAddress` is a registry of wallet
addresses. `InviteCodePool` holds invite codes, each with an optional creator
address, a creator type, an `is_used` flag and an optional redeemer
(`used_user`). Six HTTP routes work on them:

- `check_code` asks whether an unused row carries a code.
- `check_address` reports `is_used` of the first row an address redeemed.
- `activate` registers the address, then marks the first row carrying the code
  as used by that address.
- `generate_code` registers the creator address, if one is given, and inserts
  one unused row per generated code.
- `get_address_code` lists the unused codes an address created.
- `get_code_detail` returns the first row carrying a code.

The model has four files:

- `invite_pool.dfy` (module `InvitePool`): the row datatype and the pool as a
  sequence in storage order. It holds the ORM query primitives the routes use.
  `Filter` stands for `filter(...)`. `First` stands for `.first()`, meaning the
  first match in storage order. `Codes` stands for `values_list("code", flat=True)`.
  The module also holds the table invariants: distinct addresses,
  `is_used` set exactly when a redeemer is set, and every referenced address
  registered.
- `invite_handlers.dfy` (module `InviteHandlers`): the four queries as
  functions of the pool. It also holds the pool that `activate` and
  `generate_code` leave behind, and the responses they return. The routes
  raise in two places; those are modelled as `Err` results.
- `invite_routes.dfy` (module `InviteRoutes`): class `InviteStore`, whose
  fields `addresses` and `pool` are the two tables. Its methods
  `GetOrCreateAddress`, `Activate` and `GenerateCode` update the fields in
  place. Each method's contract ties the new state to the functions above and
  says that the table invariants are preserved. The client method
  `RedemptionFlow` generates a fresh code and then redeems it. It derives what
  the read-only routes answer at each step from those contracts and the
  lemmas alone.
- `invite_properties.dfy` (module `InviteProperties`): lemmas about sequences
  of route calls. For example, what `check_code`, `check_address`,
  `get_address_code` and `get_code_detail` answer after an activation or a
  generation.

Modelling choices:

- A foreign key to `UserAddress` is represented by the address string it points at.
- `generate_invite_code` is random. Its output, the list of code strings, is a
  parameter of `GenerateCode`.
- `bulk_create` is taken to return the inserted rows in input order.
- `if generate_in.address:` tests Python truthiness. An absent address and the
  empty string both mean "no creator", and in both cases no address is
  registered.
- The model does not assume that `code` is unique. The lemmas that need
  uniqueness state it as an explicit precondition (`CodeUnique`).
  `DuplicateCodeSurvivesActivation` shows what happens without it.

In the code, `.first().values("is_used")` yields `None` for an address that
redeemed nothing, and `current_user['is_used']` then raises. The fallback
`else False` suggests the answer was meant to be false. The model keeps the
raise and gives the corrected answer separately; see Findings.

## Model

| member | source | states |
|---|---|---|
| InvitePool.Filter | apps/invite/routes.py:87-89 | `filter(...)` keeps exactly the rows of the pool that satisfy the filter, and never more rows than the pool has |
| InvitePool.First | apps/invite/routes.py:40 | `.first()` finds nothing exactly when no row matches; otherwise it gives the index of the earliest matching row |
| InvitePool.FilterAppend | apps/invite/routes.py:87-89 | filtering the concatenation of two pools is the concatenation of the filtered pools, so results come back in storage order |
| InvitePool.FilterAll | apps/invite/routes.py:87-89 | a filter that every row passes returns the rows unchanged |
| InvitePool.FilterNone | apps/invite/routes.py:87-89 | a filter that no row passes returns nothing |
| InvitePool.FirstIsHeadOfFilter | apps/invite/routes.py:30 | when `.first()` finds a row, that row is the head of the filtered query |
| InvitePool.HasCode | apps/invite/routes.py:40 | the keyword filter `code=c` accepts exactly the rows carrying code c |
| InvitePool.UnusedWithCode | apps/invite/routes.py:22 | the keyword filter `code=c, is_used=False` accepts exactly the unused rows carrying code c |
| InvitePool.RedeemedBy | apps/invite/routes.py:30 | the keyword filter `used_user__address=a` accepts exactly the rows whose redeemer is a |
| InvitePool.UnusedCreatedBy | apps/invite/routes.py:88 | the keyword filter `creator_user__address=a, is_used=False` accepts exactly the unused rows whose creator is a; rows without a creator never pass |
| InvitePool.Codes | apps/invite/routes.py:89 | `values_list("code", flat=True)` gives one code per row, in row order |
| InvitePool.CodesAppend | apps/invite/routes.py:89 | the code list of a concatenation of rows is the concatenation of their code lists |
| InviteHandlers.CheckCode | apps/invite/routes.py:21-25 | `can_use` is true exactly when some row carries the code and is unused; an unknown code and a used code both give false |
| InviteHandlers.CheckAddress | apps/invite/routes.py:29-33 | raises exactly when no row names the address as redeemer; otherwise returns `is_used` of the first such row |
| InviteHandlers.GetAddressCode | apps/invite/routes.py:86-89 | a code is listed exactly when some row carries it, was created by the address and is unused |
| InviteHandlers.GetCodeDetail | apps/invite/routes.py:94-95 | null exactly when no row carries the code; otherwise the first row that carries it |
| InviteHandlers.Redeem | apps/invite/routes.py:46-47 | the found row becomes used and redeemed by the address; its code, creator and creator type stay |
| InviteHandlers.Activated | apps/invite/routes.py:40-48 | only the first row carrying the code changes. That row becomes used and redeemed by the address, whatever its previous state, and keeps its code, creator and creator type. No used flag is ever cleared, and the invariant that `is_used` is set exactly when a redeemer is set is preserved |
| InviteHandlers.ActivateReply | apps/invite/routes.py:41-51 | `is_success` is true exactly when some row carries the code; otherwise the error is "The code not exist!" |
| InviteHandlers.AddressGiven | apps/invite/routes.py:58 | `if generate_in.address:` is Python truthiness: an address is given exactly when it is neither absent nor the empty string |
| InviteHandlers.CreatorOf | apps/invite/routes.py:57-60 | the new rows' creator is either none or the given address; it is never the empty string, and every non-empty given address becomes the creator |
| InviteHandlers.NewRecords | apps/invite/routes.py:62-70 | one row per code, in the order of the code list. Each new row has the given creator and creator type, is unused and has no redeemer |
| InviteHandlers.GenerateResponse | apps/invite/routes.py:72-81 | raises exactly when some inserted row has no creator; otherwise it mirrors the inserted rows one for one (address, code, creator type, used flag) |
| InviteHandlers.IsActivated | apps/invite/routes.py:29-33 | corrected `check_address`: true exactly when the code as written answers true. On a consistent pool, true exactly when some row names the address as redeemer |
| InviteHandlers.GenerateResponseIntended | apps/invite/routes.py:73-81 | corrected `generate_code` response: mirrors every inserted row one for one, with a null address for a row without a creator. Whenever the code as written does not raise, it gives the same list |
| InviteRoutes.WithAddress | apps/invite/routes.py:38-39 | after get-or-create the registry holds the address and gains no other entry. An address already present leaves the registry unchanged (idempotent), and the registry never gains a duplicate |
| InviteRoutes.InviteStore.GetOrCreateAddress | apps/invite/routes.py:59-60 | the registry becomes `WithAddress` of the old registry; `created` holds exactly when the address was new; the pool is untouched |
| InviteRoutes.InviteStore.Activate | apps/invite/routes.py:37-51 | the address is registered whether or not the code exists. The pool becomes `Activated` of the old pool, the reply is `ActivateReply` of the old pool, and the table invariants are preserved |
| InviteRoutes.InviteStore.GenerateCode | apps/invite/routes.py:56-81 | the creator address is registered only when it is truthy. The new rows are appended after the existing rows, which are untouched. The response is `GenerateResponse` of the new rows, so the rows stay inserted even when building the response raises. The table invariants are preserved |
| InviteProperties.FirstRowIsHeadOfQuery | apps/invite/routes.py:30 | the row `get_code_detail` returns is the head of `filter(code=...)`, and the flag `check_address` returns is `is_used` of the head of `filter(used_user__address=...)` |
| InviteProperties.GeneratedCodeUsable | apps/invite/routes.py:22 | every code that `generate_code` inserts passes `check_code` right afterwards |
| InviteProperties.AddressCodesAfterGenerate | apps/invite/routes.py:87-89 | after a generation, the creator's `get_address_code` list is its old list followed by the new codes in order; every other address's list is unchanged |
| InviteProperties.GenerateReplyOfNewRecords | apps/invite/routes.py:58-81 | the `generate_code` response raises exactly when at least one code was generated without a creator. Otherwise it lists each new code with the creator, the creator type and `is_used` false |
| InviteProperties.ActivateUnknownCode | apps/invite/routes.py:40-45 | activating a code that no row carries changes no row and replies with "The code not exist!" |
| InviteProperties.ActivationConsumesCode | apps/invite/routes.py:46-48 | if at most one row carries the code, then after activation that code fails `check_code` |
| InviteProperties.ActivationKeepsOtherCodes | apps/invite/routes.py:40 | activating one code leaves `check_code` of every other code unchanged |
| InviteProperties.DuplicateCodeSurvivesActivation | apps/invite/routes.py:40 | with two rows carrying the same code, activation consumes only the first row, and `check_code` still answers true |
| InviteProperties.ReactivationOverwrites | apps/invite/routes.py:46-48 | `is_used` is never checked before activation. Activating an activated code succeeds again, and leaves the pool as if only the second address had activated it |
| InviteProperties.DetailAfterActivation | apps/invite/routes.py:94-95 | after a successful activation, `get_code_detail` shows the row as used and redeemed by the activating address |
| InviteProperties.CheckAddressNeverFalse | apps/invite/routes.py:32 | on a consistent pool, `check_address` either raises or answers true, never false |
| InviteProperties.CheckAddressAfterActivation | apps/invite/routes.py:29-33 | after a successful activation on a consistent pool, `check_address` of the activating address answers true |
| InviteProperties.AddressCodesAfterActivation | apps/invite/routes.py:87-89 | if at most one row carries the code, then after activation that code leaves every address's `get_address_code` list, and no other code enters or leaves any list |
| InviteProperties.FreshAddressCheckRaises | apps/invite/routes.py:30-32 | an address that redeemed nothing makes `check_address` raise where the corrected version answers false |
| InviteProperties.GenerateWithoutAddressRaises | apps/invite/routes.py:72-75 | generating one code without an address makes the response raise, where the corrected response lists the code with a null address |

## Left out

- FastAPI routing, `Request` objects and the `@limiter.limit('100/minute')` rate limiting. They are framework wiring with no logic of the core.
- `async`/`await`, transactions and concurrent activations of the same code. The model is one sequential state machine, and lost updates are the database's concern.
- Tortoise ORM persistence (`save`, `bulk_create`, the internals of `get_or_create`) and database constraints. `apps/invite/models.py` is not part of this model, so no unique constraint on `code` is assumed; the lemmas that need one require it explicitly.
- `generate_invite_code` (apps/invite/utils) is not part of this model. It is random, so its output list is a parameter, and the `code_number` it receives is not modelled.
- The Pydantic schemas `ActivateCodeIn`, `GenerateCodeIn`, `GenerateCodeOut` and `InviteCodePoolDetailOut` are not part of this model, nor is their validation. The creator type is a plain string, and `get_code_detail` returns the row itself.
- How a raised exception reaches the client (an HTTP 500). The model stops at the `Err` value.
- Logging and `settings`.

## Findings

| source | as written | input that shows it | evidently intended | confidence | as-written member | corrected member |
|---|---|---|---|---|---|---|
| apps/invite/routes.py:30-32 | `.first().values("is_used")` yields `None` when no row names the address as redeemer, and `current_user['is_used']` then raises | `check_address("0xA")` on a pool where no row was redeemed by `0xA`, for example an empty pool | answer `is_activated: false`, as the fallback `else False` suggests | medium, not executed | InviteHandlers.CheckAddress (shown by InviteProperties.FreshAddressCheckRaises) | InviteHandlers.IsActivated |
| apps/invite/routes.py:72-75 | the response reads `item.creator_user.address`, which raises for rows without a creator. The rows are already inserted by then | `generate_code` with no address (or `""`) and at least one code | list the rows with a null address, assuming the response schema admits one | medium, not executed | InviteHandlers.GenerateResponse (shown by InviteProperties.GenerateWithoutAddressRaises) | InviteHandlers.GenerateResponseIntended |
