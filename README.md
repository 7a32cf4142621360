# levelcrush-auth provider, modelled in Dafny

This project models `LevelCrushAuthService` (`src/modules/levelcrush-auth/service.ts`), a
Medusa authentication provider. It has three parts:

- **Local login:** email and password, checked against a bcrypt hash stored in an identity's provider metadata.
- **Delegated login:** through the LevelCrush auth server's Discord flow.
- **Callback:** turns the auth server's Discord claim into a provider identity by an update-first upsert keyed by the Discord id.

Files:

- `base.dfy`: `Option`, `Result`, `byte`.
- `text.dfy` (module `Text`): JavaScript's `trim` (with ECMAScript's white-space and line-terminator set) and `includes`. Also splitting at a separator.
- `uri.dfy` (module `Uri`): `encodeURIComponent`. That is UTF-8, then `%XY` with upper-case hexadecimal, for every character outside ASCII letters, digits and `- _ . ! ~ * ' ( )`. Percent-encoding itself is described in section 2.1 of RFC 3986. The module also holds a percent-decoder and a query-string reader. These exist only to state round trips.
- `token.dfy` (module `Token`): the pending-state key, `randomBytes(32).toString("hex")`, as lower-case hex of the 32 random bytes.
- `auth_model.dfy` (module `AuthModel`): options and `validateOptions`. Also the identity records and the identity store, the Discord claim and the metadata built from it, and the pending state. It also holds the login and callback URLs, the privilege gate, and the specification functions of the local-login search and of `upsert`.
- `auth_properties.dfy` (module `AuthProperties`): lemmas about those functions.
- `auth_service.dfy` (module `AuthService`): the class `LevelCrushAuthService`. Its fields are the identity store and the pending-state map. Its methods are `Update`, `Register`, `Authenticate` (with `FindLocalMatch`, the loop of the local branch), `ValidateCallback` and `Upsert`.

How the model represents what the service does not own:

- **Identity store:** `IdentityStore` holds the provider identities by `entity_id` and keeps the order in which they were created. `query.graph` is the identities whose `provider_metadata["discord.email"]` equals the email exactly (case-sensitive), listed in creation order.
- **Store `update`:** writes the metadata keys it is given into the stored bags and keeps the other keys. So `update` touches only `account.password`. `upsert` touches `discord.id`, `discord.email` and the whole user metadata. An existing password hash survives a Discord login.
- **Failing collaborators:** `Update` takes `fault: Option<string>` and the upsert takes a `StoreFault`. Either stands for a collaborator that fails with a message. For `Update` that is bcrypt or the store. For the upsert it is a non-NOT_FOUND error on update, or a failing create. NOT_FOUND itself comes from the map.
- **bcrypt:** a pair of functions, `hash(password, saltRounds)` and `compare(password, hash)`. Where a property needs it, the predicate `Sound` assumes that a hash is non-empty and matches its own password.
- **Claim endpoint:** its answer is the input `reply: Result<Claim>`. A failure covers the network and the JSON parse. `ValidateCallback` returns the request it sent (`sent`), which is `None` when the endpoint was not contacted.
- **Metadata bags:** typed records. An absent key, or a falsy value, is the empty string.

Behaviour kept as the code has it:

- **Privilege gate:** it refuses an admin or moderator claim on a login started from the admin surface (URL containing `auth/user`). An ordinary member passes there.
- **Admin callback target:** `backendUrl + "/app/login" + key`, with no `?` before the key. `?token=` + key is then appended again. `RedirectUrlShape` states this.
- **Upsert failures:** when `upsert` returns a failure, `validateCallback` answers `{success: false, userRedirect}` and drops the error text. A failing create is not caught inside `upsert`. It reaches `validateCallback`'s `catch` and is reported as "Unable to complete validation: " followed by the error's string form (`"<name>: <message>"`), with an empty user redirect. `CreateFails` and a failed claim `reply` carry that string form; `UpdateFails` carries the error's `message`, which `upsert` returns as is.
- **Pending state:** no operation removes it, so a token can be presented again after a successful callback. This is replay.
- **Options:** the provider options configured in `medusa-config.ts` have no `saltRounds`, so `ValidateOptions` rejects them with "Need Salt Rounds".
- **Required options and messages:** `validateOptions` requires `saltRounds` as well as the auth server, its secret and the store URL. `upsert` refuses a blank id with "No discord id found".
- **Untrimmed claim email:** `upsert` stores the claim's email as sent, while the local login queries the trimmed email it is given. An identity whose stored email has white space at either end can never be found by a local login. `PaddedEmailNeverMatches` states this.

## Model

| member | source | states |
|---|---|---|
| AuthModel.ValidateOptions | src/modules/levelcrush-auth/service.ts:58-83 | accepted iff authServer, authServerSecret, storeUrl and saltRounds are all present; otherwise the message is that of the first missing one in that order |
| AuthModel.Matching | src/modules/levelcrush-auth/service.ts:197-206 | every identity the query returns has exactly the queried `discord.email` and is in the store |
| AuthService.LevelCrushAuthService.constructor | src/modules/levelcrush-auth/service.ts:52-56 | the provider keeps the options, the hashing library and the two stores it is given |
| AuthService.LevelCrushAuthService.Update | src/modules/levelcrush-auth/service.ts:85-124 | no entity id: failure, store unchanged; absent, empty or non-string password: success, store unchanged; a collaborator error or an unknown id: failure with that message, store unchanged; otherwise only that identity's password hash becomes `hash(password, saltRounds)` and the updated identity is returned |
| AuthService.LevelCrushAuthService.Register | src/modules/levelcrush-auth/service.ts:126-136 | always the failure "This method is not supported at this moment.", and neither store is touched |
| AuthService.LevelCrushAuthService.FindLocalMatch | src/modules/levelcrush-auth/service.ts:197-223 | the loop returns the first identity, in query order, with a non-empty stored hash that the password matches, re-read from the store; none if there is no such identity |
| AuthService.LevelCrushAuthService.Authenticate | src/modules/levelcrush-auth/service.ts:180-262 | local branch iff the trimmed email and the password are non-empty: success with the first matching identity, else the single "Failed to find a match for those credentials" failure, and no state is written; delegated branch: exactly one state is added under the hex key, with `token` equal to the key, `admin` iff the URL contains `auth/user`, and the caller's redirect; the answer is a location on the auth server's Discord login page; every stored state stays under its own token |
| AuthService.LevelCrushAuthService.ValidateCallback | src/modules/levelcrush-auth/service.ts:264-333 | unknown token: "Failed to login or session expired"; a state under another token: "State mismatch"; in both cases the claim endpoint is not contacted and the identity store is unchanged; otherwise the token and secret go to `<authServer>/platform/discord/claim`; a failed call fails with an empty user redirect; an admin or moderator claim on an admin login is refused ("Insufficient authorization") with the store unchanged; otherwise the upsert decides store and answer, and upsert failures keep only the success flag; the pending store is never changed; with every state under its own token no mismatch can occur |
| AuthService.LevelCrushAuthService.Upsert | src/modules/levelcrush-auth/service.ts:335-394 | outcome and new store are those of the update-then-create upsert: blank id refused, another update error returned with its message, NOT_FOUND leads to create, a create error escapes |
| AuthProperties.WithPasswordKeepsValid | src/modules/levelcrush-auth/service.ts:108-115 | setting a password keeps every identity listed once under its own id, and adds or removes no identity |
| AuthProperties.ApplyClaimKeepsValid | src/modules/levelcrush-auth/service.ts:368-388 | a successful upsert keeps every identity listed once under its own id |
| AuthProperties.ApplyClaimEntry | src/modules/levelcrush-auth/service.ts:346-388 | after an upsert the untrimmed Discord id maps to an identity with that entity id, provider metadata holding the claim's id and email (and the old password hash, if any), user metadata copied from the claim; every other identity is unchanged |
| AuthProperties.UserMetadataCopiesClaim | src/modules/levelcrush-auth/service.ts:348-359 | the user metadata holds each of the ten claim fields under its own key |
| AuthProperties.ApplyClaimLastWriteWins | src/modules/levelcrush-auth/service.ts:368-388 | two upserts for the same Discord id leave the store the second alone leaves (the later email replaces the earlier one) |
| AuthProperties.UpsertIdempotent | src/modules/levelcrush-auth/service.ts:339-393 | repeating the same claim on a healthy store gives the same outcome and the same store |
| AuthProperties.UpsertBlankId | src/modules/levelcrush-auth/service.ts:339-344 | a Discord id made only of white space (or empty) is refused with "No discord id found" and the store unchanged, whatever the rest of the claim; any other id on a healthy store is upserted |
| AuthProperties.UpsertFailuresKeepStore | src/modules/levelcrush-auth/service.ts:368-388 | an upsert that does not succeed leaves the store unchanged; a non-NOT_FOUND update error is returned with its message; a failed create escapes only when the identity did not exist |
| AuthProperties.LocalLoginIff | src/modules/levelcrush-auth/service.ts:193 | the local branch is taken iff the email has a non-white-space character and the password is non-empty |
| AuthProperties.FirstVerifiedSpec | src/modules/levelcrush-auth/service.ts:209-231 | the search finds nothing iff the password opens none of the candidates; what it finds is the first candidate the password opens |
| AuthProperties.MatchingComplete | src/modules/levelcrush-auth/service.ts:197-206 | every stored identity whose email is the queried one is among the query results |
| AuthProperties.LoginAfterPasswordUpdate | src/modules/levelcrush-auth/service.ts:193-221 | after `update` sets a non-empty password, a login whose email trims to that identity's non-empty stored email takes the local branch and its search finds an identity |
| AuthProperties.LoginAfterDiscordLogin | src/modules/levelcrush-auth/service.ts:361-372 | a Discord login keeps a working local password: a login whose email trims to the claim's non-empty email, with a non-empty password that opened the identity, takes the local branch and its search finds an identity |
| AuthProperties.PaddedEmailNeverMatches | src/modules/levelcrush-auth/service.ts:194-206 | an identity whose stored email has white space at either end is never among the local login's candidates, whatever email is typed |
| AuthProperties.LoginLocationParams | src/modules/levelcrush-auth/service.ts:252-261 | the query of the login location reads back as token, redirectUrl and userRedirect, in that order, each decoded to exactly the value encoded |
| Uri.QueryOfThree | src/modules/levelcrush-auth/service.ts:254-260 | three `name=<encoded value>` parameters joined by `&` split back into exactly those three names and values, in order, when no name holds `&` or `=` |
| AuthProperties.RedirectUrlShape | src/modules/levelcrush-auth/service.ts:239-243 | admin surface: `backendUrl/app/login<key>?token=<key>`, the key glued to the path; otherwise `storeUrl/callback?token=<key>` |
| AuthProperties.StartStateFields | src/modules/levelcrush-auth/service.ts:236-250 | the stored state carries the key as its token, is admin iff the URL contains `auth/user` somewhere, and keeps the caller's redirect |
| AuthProperties.KeyedStateMatches | src/modules/levelcrush-auth/service.ts:245-250 | storing a started state keeps every pending state under its own token |
| Token.UnhexHex | src/modules/levelcrush-auth/service.ts:237 | the hex key reads back as the random bytes it was made from |
| Token.HexInjective | src/modules/levelcrush-auth/service.ts:237 | distinct random bytes give distinct keys, so no entropy is lost |
| Token.HexIsOwnEncoding | src/modules/levelcrush-auth/service.ts:240 | `encodeURIComponent` leaves a key unchanged |
| Uri.DecodeEncode | src/modules/levelcrush-auth/service.ts:256-260 | percent-decoding the output of `encodeURIComponent` gives back the input |
| Uri.EncodeHasNoSeparators | src/modules/levelcrush-auth/service.ts:256-260 | `encodeURIComponent` never emits `&` or `=` |
| Uri.EncodeOutput | src/modules/levelcrush-auth/service.ts:256-260 | `encodeURIComponent` emits only unreserved characters and `%` |
| Uri.ParamRoundTrip | src/modules/levelcrush-auth/service.ts:256-260 | a name without `=`, then `=`, then an encoded value reads back as that name and that value |
| Uri.EncodeUnreserved | src/modules/levelcrush-auth/service.ts:240 | a string of unreserved characters is its own encoding |
| Text.TrimSpec | src/modules/levelcrush-auth/service.ts:193-194 | `trim` gives the infix that neither starts nor ends with white space, and removes only white space around it |
| Text.TrimEmptyIffAllSpace | src/modules/levelcrush-auth/service.ts:339 | a string is blank after `trim` iff it is all white space |
| Text.TrimIdempotent | src/modules/levelcrush-auth/service.ts:194 | trimming the trimmed email changes nothing |
| Text.IncludesSpec | src/modules/levelcrush-auth/service.ts:236 | `includes` holds iff the text occurs at some position |

## Left out

- `register`'s code after the unconditional early return (`X-API-KEY` check, email and id checks): it cannot run.
- Asynchrony: every `await` is a sequential step, and concurrent requests on the shared stores are outside the model.
- The cryptographic strength of `crypto.randomBytes`: the 32 random bytes are an input.
- bcrypt's cost, its random salt, and how it reads `saltRounds` as a number: hashing is a deterministic function of password and rounds text. A bcrypt error is one of `Update`'s collaborator errors.
- The HTTP request and the JSON parsing of the claim: the answer is an input, and a failure covers both. A claim whose `discordId` is not a string makes `trim` throw inside the `try`. That case is one of the failures of this input.
- Values in the request body or options that are not strings (numbers, objects) are left out. A string body field is modelled, with `""` for an absent or falsy one.
- The framework's `retrieve` returns an auth identity that wraps the provider identity. The model returns the provider identity, re-read from the store by its id.
- The exact wording of the store's NOT_FOUND error belongs to the framework. `NotFoundMessage` stands in for it.
- The identity store's own atomicity and any expiry of pending states.
- Exceptions from the framework's services are left out where the code does not catch them: a throw from `query.graph`, `bcrypt.compare`, `retrieve` or `setState` in `authenticate`, or from `getState` in `validateCallback` (which runs before its `try`), ends the request with that error. `Authenticate` and `ValidateCallback` treat those calls as always answering.
- The order of `query.graph`'s results is not promised by the framework. The model lists matches in creation order, so "first" in `Authenticate`'s and `FindLocalMatch`'s contracts means first in creation order, and which of several identities with the same email and password a real store returns is not captured.
- The framework's `update` and `create` return an auth identity that wraps the provider identity. `Update` and `Upsert` return the provider identity as stored.
