/** `LevelCrushAuthService`, the `levelcrush-auth` authentication provider: a local
    email/password login over identities that carry a password hash, a delegated login
    through the LevelCrush auth server's Discord flow, and the callback that turns a
    Discord claim into a provider identity. The identity store and the pending-state store
    are fields the methods reassign; the random key, the claim endpoint's answer and store
    errors are inputs. */
module AuthService {

  import opened Base
  import opened Text
  import opened AuthModel
  import AuthProperties
  import Uri
  import Token

  const NoEntityIdMessage: string := "Cannot update provider identity without entity_id"
  const NotSupportedMessage: string := "This method is not supported at this moment."
  const ExpiredMessage: string := "Failed to login or session expired"
  const MismatchMessage: string := "State mismatch"
  const GateMessage: string := "Insufficient authorization"

  class LevelCrushAuthService {

    const options: Options
    const bcrypt: Bcrypt

    /** The provider identities of this provider. */
    var store: IdentityStore
    /** The pending login states, by key. Nothing here ever removes one. */
    var pending: map<string, PendingState>

    ghost predicate Valid()
      reads this
    {
      store.Valid()
    }

    constructor (options: Options, bcrypt: Bcrypt, store: IdentityStore, pending: map<string, PendingState>)
      requires store.Valid()
      ensures Valid()
      ensures this.options == options && this.bcrypt == bcrypt
      ensures this.store == store && this.pending == pending
    {
      this.options := options;
      this.bcrypt := bcrypt;
      this.store := store;
      this.pending := pending;
    }

    /** `update`: sets the password of an existing identity. Without an entity id it
        fails; without a (non-empty) password there is nothing to do; otherwise the hash of
        the password replaces the stored one and nothing else changes. A hashing or store
        error, or an unknown id, fails with the error's message. */
    method Update(entityId: string, password: Option<string>, fault: Option<string>) returns (r: AuthResponse)
      requires Valid()
      modifies this`store
      ensures Valid()
      ensures entityId == "" ==> r == Failed(NoEntityIdMessage) && store == old(store)
      ensures entityId != "" && (password.None? || password.value == "") ==>
        r == AuthResponse(true, None, None, None, None) && store == old(store)
      ensures entityId != "" && password.Some? && password.value != "" ==>
        if fault.Some? then r == Failed(fault.value) && store == old(store)
        else if entityId !in old(store).byId then r == Failed(NotFoundMessage(entityId)) && store == old(store)
        else
          && store == old(store).WithPassword(entityId, bcrypt.hash(password.value, options.saltRounds))
          && r == AuthResponse(true, Some(store.byId[entityId]), None, None, None)
    {
      if entityId == "" {
        return Failed(NoEntityIdMessage);
      }
      if password.None? || password.value == "" {
        return AuthResponse(true, None, None, None, None);
      }
      if fault.Some? {
        return Failed(fault.value);
      }
      var passwordHash := bcrypt.hash(password.value, options.saltRounds);
      if entityId !in store.byId {
        return Failed(NotFoundMessage(entityId));
      }
      AuthProperties.WithPasswordKeepsValid(store, entityId, passwordHash);
      store := store.WithPassword(entityId, passwordHash);
      r := AuthResponse(true, Some(store.byId[entityId]), None, None, None);
    }

    /** `register`: switched off; it always fails and touches neither store. */
    method Register() returns (r: AuthResponse)
      ensures r == Failed(NotSupportedMessage)
    {
      r := Failed(NotSupportedMessage);
    }

    /** The local login search: walks the identities whose email is `cleanEmail`, in the
        store's order, and returns (re-read from the store) the first one whose stored hash
        the password matches. */
    method FindLocalMatch(cleanEmail: string, password: string) returns (found: Option<Identity>)
      requires Valid()
      ensures found == FirstVerified(bcrypt, password, store.Query(cleanEmail))
    {
      var results := store.Query(cleanEmail);
      for i := 0 to |results|
        invariant FirstVerified(bcrypt, password, results) == FirstVerified(bcrypt, password, results[i..])
      {
        var identity := results[i];
        var accountPassword := identity.provider.passwordHash;
        if accountPassword != "" {
          var isMatch := bcrypt.compare(password, accountPassword);
          if isMatch {
            assert identity in store.byId.Values;
            ghost var k :| k in store.byId && store.byId[k] == identity;
            found := Some(store.byId[identity.entityId]);
            return;
          }
        }
        assert results[i..] == [results[i]] + results[i + 1..];
      }
      found := None;
    }

    /** `authenticate`. With a non-blank email and a password it is a local login: the
        first identity with that exact (trimmed) email whose hash the password matches, or
        one and the same failure for every other case, and no state is written. Otherwise
        it starts a delegated login: the hexadecimal key of `random` gets a pending state
        stored under it, and the answer sends the user to the auth server's Discord login
        page. */
    method Authenticate(url: string, redirect: string, email: string, password: string, random: seq<byte>)
      returns (r: AuthResponse)
      requires Valid()
      requires |random| == 32
      modifies this`pending
      ensures Valid() && store == old(store)
      ensures IsLocalLogin(email, password) ==>
        && pending == old(pending)
        && r == match FirstVerified(bcrypt, password, store.Query(Trim(email)))
                case Some(x) => AuthResponse(true, Some(x), None, None, None)
                case None => Failed(NoMatchMessage)
      ensures !IsLocalLogin(email, password) ==>
        var key := Token.Hex(random);
        && pending == old(pending)[key := StartState(options, url, key, redirect)]
        && r == AuthResponse(true, None, None,
                             Some(LoginLocation(options.authServer, key, RedirectUrl(options, url, key), redirect)),
                             None)
      ensures PendingKeyed(old(pending)) ==> PendingKeyed(pending)
    {
      var userRedirect := redirect;
      if Trim(email) != "" && password != "" {
        var cleanEmail := Trim(email);
        var found := FindLocalMatch(cleanEmail, password);
        if found.Some? {
          return AuthResponse(true, found, None, None, None);
        }
        return Failed(NoMatchMessage);
      }

      var isAdminPath := Includes(url, "auth/user");
      var stateKey := Token.Hex(random);
      var target := if Includes(url, "auth/user")
        then options.backendUrl + "/app/login" + Uri.Encode(stateKey)
        else options.storeUrl + "/callback";
      var redirectUrl := target + "?token=" + Uri.Encode(stateKey);

      pending := pending[stateKey := PendingState(redirectUrl, stateKey, isAdminPath, userRedirect)];

      var location := options.authServer + LoginPath + "?" + LoginQuery(stateKey, redirectUrl, userRedirect);
      r := AuthResponse(true, None, None, Some(location), None);
    }

    /** `validateCallback`. Without a pending state for the token it fails at once, and a
        state stored under another token fails as a mismatch; neither contacts the claim
        endpoint. Otherwise it sends the token to the claim endpoint (`sent`); a failed call
        fails with an empty user redirect; a claim with admin or moderator rights on a login
        started from the admin surface is refused; any other claim is upserted and the
        answer carries the state's user redirect. The pending state is never removed. */
    method ValidateCallback(inputToken: string, reply: Result<Claim>, fault: StoreFault)
      returns (r: AuthResponse, sent: Option<ClaimRequest>)
      requires Valid()
      modifies this`store
      ensures Valid() && pending == old(pending)
      ensures inputToken !in pending ==>
        r == Failed(ExpiredMessage) && sent == None && store == old(store)
      ensures inputToken in pending && pending[inputToken].token != inputToken ==>
        r == Failed(MismatchMessage) && sent == None && store == old(store)
      ensures inputToken in pending && pending[inputToken].token == inputToken ==>
        var st := pending[inputToken];
        && sent == Some(ClaimRequestFor(options, inputToken))
        && match reply
           case Failure(e) =>
             r == AuthResponse(false, None, Some(UnableMessage + e), None, Some("")) && store == old(store)
           case Success(c) =>
             if GateRefuses(c, st) then r == Failed(GateMessage) && store == old(store)
             else
               var (outcome, after) := UpsertResult(old(store), c, fault);
               r == CallbackResponse(outcome, st) && store == after
      ensures PendingKeyed(pending) ==> r.error != Some(MismatchMessage)
    {
      var authState := if inputToken in pending then Some(pending[inputToken]) else None;
      if authState.None? {
        return Failed(ExpiredMessage), None;
      }

      var token := authState.value.token;
      if token != inputToken {
        return Failed(MismatchMessage), None;
      }

      sent := Some(ClaimRequest(options.authServer + "/platform/discord/claim", options.authServerSecret, token));
      if reply.Failure? {
        r := AuthResponse(false, None, Some(UnableMessage + reply.error), None, Some(""));
        return;
      }
      var claimData := reply.value;

      if (claimData.isAdmin || claimData.isModerator) && authState.value.admin {
        r := Failed(GateMessage);
        return;
      }

      var outcome := Upsert(claimData, fault);
      match outcome {
        case Upserted(x) =>
          r := AuthResponse(true, Some(x), None, None, Some(authState.value.userRedirect));
        case UpsertFailed(_) =>
          r := AuthResponse(false, None, None, None, Some(authState.value.userRedirect));
        case UpsertThrew(e) =>
          r := AuthResponse(false, None, Some(UnableMessage + e), None, Some(""));
      }
    }

    /** `upsert`: refuses a blank Discord id; otherwise tries to update the identity under
        the (untrimmed) id and, when the store reports NOT_FOUND, creates it. Another update
        error is returned with its message; a create error escapes. */
    method Upsert(data: Claim, fault: StoreFault) returns (o: UpsertOutcome)
      requires Valid()
      modifies this`store
      ensures Valid()
      ensures (o, store) == UpsertResult(old(store), data, fault)
    {
      if |Trim(data.discordId)| == 0 {
        return UpsertFailed(NoDiscordIdMessage);
      }
      var entityId := data.discordId;
      var metadata := UserMetadataOf(data);

      if fault.UpdateFails? {
        return UpsertFailed(fault.message);
      }
      AuthProperties.ApplyClaimKeepsValid(store, data);
      if entityId in store.byId {
        var prev := store.byId[entityId];
        var updated := prev.(provider := prev.provider.(discordId := data.discordId, email := data.email),
                             user := Some(metadata));
        store := IdentityStore(store.byId[entityId := updated], store.created);
        o := Upserted(updated);
      } else {
        if fault.CreateFails? {
          return UpsertThrew(fault.message);
        }
        var createdIdentity := Identity(entityId, ProviderMetadata(data.discordId, data.email, ""), Some(metadata));
        store := IdentityStore(store.byId[entityId := createdIdentity], store.created + [entityId]);
        o := Upserted(createdIdentity);
      }
    }
  }
}
