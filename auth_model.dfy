/** The values the `levelcrush-auth` provider works with and the pure parts of its logic:
    the option check, the identity records and the identity store's contract, the
    Discord claim and the metadata built from it, the pending login state, the login and
    redirect URLs, and the specification of the local login search and of the upsert. */
module AuthModel {

  import opened Base
  import opened Text
  import Uri
  import Token

  // ---------------------------------------------------------------- options

  /** The provider options. A key that is absent (or falsy) is the empty string. */
  datatype Options = Options(
    authServer: string,
    authServerSecret: string,
    storeUrl: string,
    backendUrl: string,
    saltRounds: string,
    apiKey: string)

  datatype OptionsCheck = OptionsOk | MissingOption(message: string)

  /** The options the provider insists on, in the order they are checked, each paired
      with the message that reports it missing. */
  function RequiredOptions(o: Options): (r: seq<(string, string)>)
  {
    [ (o.authServer, "Need Auth Server defined"),
      (o.authServerSecret, "Need Auth Server Secret defined"),
      (o.storeUrl, "Need Storefront url "),
      (o.saltRounds, "Need Salt Rounds") ]
  }

  /** `validateOptions`: rejects the options exactly when a required one is missing, with
      the message of the first missing one. `backendUrl` and `apiKey` are not checked. */
  function ValidateOptions(o: Options): (r: OptionsCheck)
    ensures r.OptionsOk? <==>
      forall i :: 0 <= i < |RequiredOptions(o)| ==> RequiredOptions(o)[i].0 != ""
    ensures r.MissingOption? ==>
      exists i :: 0 <= i < |RequiredOptions(o)| && RequiredOptions(o)[i].0 == "" &&
        r.message == RequiredOptions(o)[i].1 &&
        forall j :: 0 <= j < i ==> RequiredOptions(o)[j].0 != ""
  {
    var req := RequiredOptions(o);
    assert req[0] == (o.authServer, "Need Auth Server defined");
    assert req[1] == (o.authServerSecret, "Need Auth Server Secret defined");
    assert req[2] == (o.storeUrl, "Need Storefront url ");
    assert req[3] == (o.saltRounds, "Need Salt Rounds");
    if o.authServer == "" then MissingOption("Need Auth Server defined")
    else if o.authServerSecret == "" then MissingOption("Need Auth Server Secret defined")
    else if o.storeUrl == "" then MissingOption("Need Storefront url ")
    else if o.saltRounds == "" then MissingOption("Need Salt Rounds")
    else OptionsOk
  }

  // ---------------------------------------------------------------- collaborators

  /** The password hashing library: `hash(password, saltRounds)` and
      `compare(password, hash)`. The salt rounds are passed as the configured text; reading
      them as a number belongs to the hashing side. */
  datatype Bcrypt = Bcrypt(hash: (string, string) -> string, compare: (string, string) -> bool)

  /** What the model assumes of the hashing library where a property needs it: a hash is
      never empty and the password it was made from compares equal to it. */
  ghost predicate Sound(b: Bcrypt)
  {
    forall pw, rounds :: b.hash(pw, rounds) != "" && b.compare(pw, b.hash(pw, rounds))
  }

  // ---------------------------------------------------------------- identities

  /** `provider_metadata` under the keys `discord.id`, `discord.email` and
      `account.password`; an absent key is the empty string. */
  datatype ProviderMetadata = ProviderMetadata(discordId: string, email: string, passwordHash: string)

  /** `user_metadata`: the profile snapshot copied from a Discord claim. */
  datatype UserMetadata = UserMetadata(
    discordId: string,
    handle: string,
    globalName: string,
    serverMember: bool,
    nicknames: seq<string>,
    admin: bool,
    moderator: bool,
    email: string,
    booster: bool,
    retired: bool)

  /** A provider identity of this provider. `user` is `None` for an identity that was set
      up without a profile. */
  datatype Identity = Identity(entityId: string, provider: ProviderMetadata, user: Option<UserMetadata>)

  /** The answer of the Discord claim endpoint. */
  datatype Claim = Claim(
    discordHandle: string,
    discordId: string,
    inServer: bool,
    email: string,
    isAdmin: bool,
    isModerator: bool,
    nicknames: seq<string>,
    globalName: string,
    isBooster: bool,
    isRetired: bool)

  /** The user metadata upsert writes for a claim: every field of the claim, under its
      `discord.*` key. */
  function UserMetadataOf(c: Claim): (u: UserMetadata)
  {
    UserMetadata(c.discordId, c.discordHandle, c.globalName, c.inServer, c.nicknames,
                 c.isAdmin, c.isModerator, c.email, c.isBooster, c.isRetired)
  }

  /** The provider identities of this provider, by `entity_id`, and the order in which
      they were created, which is the order the store's query lists them in. */
  datatype IdentityStore = IdentityStore(byId: map<string, Identity>, created: seq<string>)
  {
    /** Every identity is listed once, under its own `entity_id`. */
    ghost predicate Valid()
    {
      && (forall i, j :: 0 <= i < j < |created| ==> created[i] != created[j])
      && (forall k :: k in byId <==> k in created)
      && (forall k :: k in byId ==> byId[k].entityId == k)
    }

    /** The query the local login runs: the identities whose `discord.email` is exactly
      `email`, in store order. */
    function Query(email: string): (r: seq<Identity>)
    {
      Matching(created, byId, email)
    }

    /** The store after `update(entityId, {provider_metadata: {"account.password": h}})`:
        only the password hash of that identity changes. */
    function WithPassword(entityId: string, h: string): (s: IdentityStore)
      requires entityId in byId
    {
      IdentityStore(byId[entityId := byId[entityId].(provider := byId[entityId].provider.(passwordHash := h))], created)
    }

    /** The identity a claim leaves under its `discordId`: the stored one with the Discord
        id and email of its provider metadata and its whole user metadata replaced, or a
        new one with no password. */
    function Reconciled(c: Claim): (r: Identity)
    {
      if c.discordId in byId then
        var prev := byId[c.discordId];
        prev.(provider := prev.provider.(discordId := c.discordId, email := c.email),
             user := Some(UserMetadataOf(c)))
      else
        Identity(c.discordId, ProviderMetadata(c.discordId, c.email, ""), Some(UserMetadataOf(c)))
    }

    /** The store after a successful upsert of `c`: updated in place when the id is known,
        created (and appended to the creation order) otherwise. */
    function ApplyClaim(c: Claim): (r: IdentityStore)
    {
      IdentityStore(byId[c.discordId := Reconciled(c)],
                    if c.discordId in byId then created else created + [c.discordId])
    }
  }

  /** Keeps, in the order of `ids`, the identities whose email is `email`. */
  function Matching(ids: seq<string>, m: map<string, Identity>, email: string): (r: seq<Identity>)
    ensures forall i :: 0 <= i < |r| ==> r[i].provider.email == email && r[i] in m.Values
  {
    if ids == [] then []
    else
      var rest := Matching(ids[1..], m, email);
      if ids[0] in m && m[ids[0]].provider.email == email then [m[ids[0]]] + rest else rest
  }

  // ---------------------------------------------------------------- local login

  /** The local branch is taken when the trimmed email and the password are non-empty. */
  predicate IsLocalLogin(email: string, password: string)
  {
    Trim(email) != "" && password != ""
  }

  /** An identity the supplied password logs into: it has a stored hash and the password
      compares equal to it. */
  predicate Verifies(b: Bcrypt, password: string, x: Identity)
  {
    x.provider.passwordHash != "" && b.compare(password, x.provider.passwordHash)
  }

  /** The first identity of `s` the password logs into. */
  function FirstVerified(b: Bcrypt, password: string, s: seq<Identity>): (r: Option<Identity>)
  {
    if s == [] then None
    else if Verifies(b, password, s[0]) then Some(s[0])
    else FirstVerified(b, password, s[1..])
  }

  /** The store's NOT_FOUND message for an unknown `entity_id`. The framework's own
      wording is not part of this model; this text stands for it. */
  function NotFoundMessage(entityId: string): (r: string)
  {
    "Provider identity with entity_id " + entityId + " not found"
  }

  const NoMatchMessage: string := "Failed to find a match for those credentials"

  // ---------------------------------------------------------------- delegated login

  /** The pending login state, stored under its token. */
  datatype PendingState = PendingState(redirectUrl: string, token: string, admin: bool, userRedirect: string)

  /** Every pending state is stored under its own token. */
  ghost predicate PendingKeyed(p: map<string, PendingState>)
  {
    forall k :: k in p ==> p[k].token == k
  }

  /** A login started from the admin surface: its URL contains `auth/user`. */
  predicate IsAdminPath(url: string)
  {
    Includes(url, "auth/user")
  }

  /** Where the auth server sends the user back to: the backend's `/app/login` page for an
      admin login (the encoded key follows `/app/login` directly, without a `?`), the
      storefront's `/callback` page otherwise. */
  function CallbackTarget(o: Options, url: string, key: string): (r: string)
  {
    if IsAdminPath(url) then o.backendUrl + "/app/login" + Uri.Encode(key)
    else o.storeUrl + "/callback"
  }

  function RedirectUrl(o: Options, url: string, key: string): (r: string)
  {
    CallbackTarget(o, url, key) + "?token=" + Uri.Encode(key)
  }

  /** The state stored when a delegated login starts. */
  function StartState(o: Options, url: string, key: string, userRedirect: string): (r: PendingState)
  {
    PendingState(RedirectUrl(o, url, key), key, IsAdminPath(url), userRedirect)
  }

  const LoginPath: string := "/platform/discord/login"

  /** The query of the login location: the key, the callback URL and the user redirect,
      each encoded. */
  function LoginQuery(key: string, redirectUrl: string, userRedirect: string): (r: string)
  {
    Uri.Pair("token", key) + "&" + Uri.Pair("redirectUrl", redirectUrl) + "&" +
    Uri.Pair("userRedirect", userRedirect)
  }

  /** The location the user is sent to: the auth server's Discord login page. */
  function LoginLocation(authServer: string, key: string, redirectUrl: string, userRedirect: string): (r: string)
  {
    authServer + LoginPath + "?" + LoginQuery(key, redirectUrl, userRedirect)
  }

  // ---------------------------------------------------------------- callback

  /** The request sent to the claim endpoint: its URL, the `X-API-KEY` header and the token
      in the JSON body. */
  datatype ClaimRequest = ClaimRequest(url: string, apiKey: string, token: string)

  function ClaimRequestFor(o: Options, token: string): (r: ClaimRequest)
  {
    ClaimRequest(o.authServer + "/platform/discord/claim", o.authServerSecret, token)
  }

  /** The privilege gate as written: a claim with admin or moderator rights is refused on a
      login that started from the admin surface. */
  predicate GateRefuses(c: Claim, st: PendingState)
  {
    (c.isAdmin || c.isModerator) && st.admin
  }

  /** An error the identity store may raise besides NOT_FOUND. `UpdateFails` carries the
      error's `message`, which `upsert` returns; `CreateFails` carries the error's string
      form (`"<name>: <message>"`, e.g. `"Error: …"`), which is what `validateCallback`
      appends when the error escapes `upsert`. */
  datatype StoreFault = Healthy | UpdateFails(message: string) | CreateFails(message: string)

  /** The result of `upsert`: the identity, a failure it returns, or an error it lets
      escape (a failed create). */
  datatype UpsertOutcome = Upserted(identity: Identity) | UpsertFailed(error: string) | UpsertThrew(error: string)

  const NoDiscordIdMessage: string := "No discord id found"

  /** The outcome of `upsert` and the store it leaves. */
  function UpsertResult(s: IdentityStore, c: Claim, fault: StoreFault): (r: (UpsertOutcome, IdentityStore))
  {
    if Trim(c.discordId) == "" then (UpsertFailed(NoDiscordIdMessage), s)
    else if fault.UpdateFails? then (UpsertFailed(fault.message), s)
    else if c.discordId in s.byId || fault.Healthy? then
      (Upserted(s.ApplyClaim(c).byId[c.discordId]), s.ApplyClaim(c))
    else (UpsertThrew(fault.message), s)
  }

  // ---------------------------------------------------------------- responses

  /** The provider's answer to the framework. */
  datatype AuthResponse = AuthResponse(
    success: bool,
    authIdentity: Option<Identity>,
    error: Option<string>,
    location: Option<string>,
    userRedirect: Option<string>)

  function Failed(message: string): (r: AuthResponse)
  {
    AuthResponse(false, None, Some(message), None, None)
  }

  const UnableMessage: string := "Unable to complete validation: "

  /** What `validateCallback` answers once the claim has passed the gate: an upsert that
      returns keeps only its success flag and identity and adds the state's user redirect;
      an error that escapes it is reported like a failed claim call. */
  function CallbackResponse(o: UpsertOutcome, st: PendingState): (r: AuthResponse)
  {
    match o
    case Upserted(x) => AuthResponse(true, Some(x), None, None, Some(st.userRedirect))
    case UpsertFailed(_) => AuthResponse(false, None, None, None, Some(st.userRedirect))
    case UpsertThrew(e) => AuthResponse(false, None, Some(UnableMessage + e), None, Some(""))
  }
}
