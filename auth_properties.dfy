/** What the pure parts of the `levelcrush-auth` provider guarantee: the store stays
    well formed under every change the provider makes, upsert is last-write-wins and so
    idempotent, the local login search returns the first identity the password opens,
    a password set through `update` (or kept through a Discord login) opens the account,
    and the login URL carries the token and both redirects intact. */
module AuthProperties {

  import opened Base
  import opened Text
  import opened AuthModel
  import Uri
  import Token

  // ---------------------------------------------------------------- the store

  /** Setting a password keeps every identity listed once under its own id. */
  lemma WithPasswordKeepsValid(s: IdentityStore, entityId: string, h: string)
    requires s.Valid() && entityId in s.byId
    ensures s.WithPassword(entityId, h).Valid()
    ensures s.WithPassword(entityId, h).byId.Keys == s.byId.Keys
  {
  }

  /** A successful upsert keeps every identity listed once under its own id. */
  lemma ApplyClaimKeepsValid(s: IdentityStore, c: Claim)
    requires s.Valid()
    ensures s.ApplyClaim(c).Valid()
  {
    var t := s.ApplyClaim(c);
    if c.discordId !in s.byId {
      assert c.discordId !in s.created;
      forall i, j | 0 <= i < j < |t.created| ensures t.created[i] != t.created[j] {
        if j == |s.created| { assert t.created[i] == s.created[i]; }
      }
      forall k ensures k in t.byId <==> k in t.created {
        assert k in t.created <==> k in s.created || k == c.discordId;
      }
    }
  }

  /** After upserting `c` the store maps the untrimmed `discordId` to an identity whose
      provider metadata holds exactly the claim's id and email (and any password hash it
      had), whose user metadata is copied from the claim, and every other identity is left
      as it was. */
  lemma ApplyClaimEntry(s: IdentityStore, c: Claim)
    requires s.Valid()
    ensures var t := s.ApplyClaim(c);
      && c.discordId in t.byId
      && t.byId.Keys == s.byId.Keys + {c.discordId}
      && t.byId[c.discordId].entityId == c.discordId
      && t.byId[c.discordId].provider.discordId == c.discordId
      && t.byId[c.discordId].provider.email == c.email
      && t.byId[c.discordId].provider.passwordHash ==
           (if c.discordId in s.byId then s.byId[c.discordId].provider.passwordHash else "")
      && t.byId[c.discordId].user == Some(UserMetadataOf(c))
      && (forall k :: k in s.byId && k != c.discordId ==> t.byId[k] == s.byId[k])
  {
  }

  /** The user metadata of an upserted identity is the claim, field for field. */
  lemma UserMetadataCopiesClaim(c: Claim)
    ensures var u := UserMetadataOf(c);
      && u.discordId == c.discordId && u.handle == c.discordHandle
      && u.globalName == c.globalName && u.serverMember == c.inServer
      && u.nicknames == c.nicknames && u.admin == c.isAdmin && u.moderator == c.isModerator
      && u.email == c.email && u.booster == c.isBooster && u.retired == c.isRetired
  {
  }

  /** Last write wins: two successful upserts for the same Discord id leave the store the
      second alone would have left. */
  lemma ApplyClaimLastWriteWins(s: IdentityStore, c1: Claim, c2: Claim)
    requires s.Valid()
    requires c1.discordId == c2.discordId
    ensures s.ApplyClaim(c1).ApplyClaim(c2) == s.ApplyClaim(c2)
  {
    var id := c1.discordId;
    var t := s.ApplyClaim(c1);
    if id !in s.byId {
      assert t.Reconciled(c2) == s.Reconciled(c2);
    }
    assert t.byId[id := t.Reconciled(c2)] == s.byId[id := s.Reconciled(c2)];
  }

  /** Upserting the same claim twice, on a healthy store, answers the same and leaves the
      same store as upserting it once. */
  lemma {:induction false} UpsertIdempotent(s: IdentityStore, c: Claim)
    requires s.Valid()
    ensures var (o1, s1) := UpsertResult(s, c, Healthy);
      UpsertResult(s1, c, Healthy) == (o1, s1)
  {
    if Trim(c.discordId) != "" {
      ApplyClaimLastWriteWins(s, c, c);
    }
  }

  /** A `discordId` that is blank (all white space, or empty) is refused with "No discord
      id found" and the store is untouched, whatever else the claim says; any other id on a
      healthy store is upserted. */
  lemma {:induction false} UpsertBlankId(s: IdentityStore, c: Claim, fault: StoreFault)
    ensures AllSpace(c.discordId) ==> UpsertResult(s, c, fault) == (UpsertFailed(NoDiscordIdMessage), s)
    ensures !AllSpace(c.discordId) && fault.Healthy? ==>
      UpsertResult(s, c, fault) == (Upserted(s.ApplyClaim(c).byId[c.discordId]), s.ApplyClaim(c))
  {
    TrimEmptyIffAllSpace(c.discordId);
  }

  /** An upsert that does not succeed leaves the store as it was; a store error other than
      NOT_FOUND is returned with its message; a failed create escapes. */
  lemma UpsertFailuresKeepStore(s: IdentityStore, c: Claim, fault: StoreFault)
    ensures !UpsertResult(s, c, fault).0.Upserted? ==> UpsertResult(s, c, fault).1 == s
    ensures Trim(c.discordId) != "" && fault.UpdateFails? ==>
      UpsertResult(s, c, fault).0 == UpsertFailed(fault.message)
    ensures Trim(c.discordId) != "" && fault.CreateFails? ==>
      UpsertResult(s, c, fault).0 == (if c.discordId in s.byId then Upserted(s.ApplyClaim(c).byId[c.discordId])
                                      else UpsertThrew(fault.message))
  {
    if Trim(c.discordId) == "" {
    } else if fault.UpdateFails? {
    } else if c.discordId in s.byId || fault.Healthy? {
    } else {
    }
  }

  // ---------------------------------------------------------------- local login

  /** The local branch is taken exactly when the email has a character that is not white
      space and the password is not empty. */
  lemma LocalLoginIff(email: string, password: string)
    ensures IsLocalLogin(email, password) <==> !AllSpace(email) && password != ""
  {
    TrimEmptyIffAllSpace(email);
  }

  /** `i` is the first position of `s` whose identity the password opens. */
  predicate FirstVerifiedAt(b: Bcrypt, password: string, s: seq<Identity>, i: int)
  {
    0 <= i < |s| && Verifies(b, password, s[i]) &&
    forall j :: 0 <= j < i ==> !Verifies(b, password, s[j])
  }

  /** The search finds nothing exactly when the password opens none of the candidates, and
      what it finds is the first candidate the password opens. */
  lemma {:induction false} FirstVerifiedSpec(b: Bcrypt, password: string, s: seq<Identity>)
    ensures FirstVerified(b, password, s).None? <==> forall i :: 0 <= i < |s| ==> !Verifies(b, password, s[i])
    ensures FirstVerified(b, password, s).Some? ==>
      exists i :: FirstVerifiedAt(b, password, s, i) && FirstVerified(b, password, s).value == s[i]
  {
    if s != [] {
      FirstVerifiedSpec(b, password, s[1..]);
      if Verifies(b, password, s[0]) {
        assert FirstVerifiedAt(b, password, s, 0);
      } else {
        assert forall i :: 1 <= i < |s| ==> s[i] == s[1..][i - 1];
        if FirstVerified(b, password, s[1..]).Some? {
          var i :| FirstVerifiedAt(b, password, s[1..], i) && FirstVerified(b, password, s[1..]).value == s[1..][i];
          assert FirstVerifiedAt(b, password, s, i + 1);
        }
      }
    }
  }

  /** Every identity of `ids` whose email is `email` is among the query's results. */
  lemma {:induction false} MatchingComplete(ids: seq<string>, m: map<string, Identity>, email: string, k: string)
    requires k in ids && k in m && m[k].provider.email == email
    ensures m[k] in Matching(ids, m, email)
  {
    if ids[0] != k {
      MatchingComplete(ids[1..], m, email, k);
    }
  }

  /** A password set through `update` opens the account: a local login whose email trims
      to that identity's (non-empty) email, with that password, takes the local branch
      and finds an identity. */
  lemma LoginAfterPasswordUpdate(s: IdentityStore, b: Bcrypt, rounds: string, entityId: string,
                                 email: string, password: string)
    requires s.Valid() && Sound(b) && entityId in s.byId
    requires Trim(email) == s.byId[entityId].provider.email != "" && password != ""
    ensures var t := s.WithPassword(entityId, b.hash(password, rounds));
      IsLocalLogin(email, password) && FirstVerified(b, password, t.Query(Trim(email))).Some?
  {
    var t := s.WithPassword(entityId, b.hash(password, rounds));
    var e := Trim(email);
    assert Verifies(b, password, t.byId[entityId]);
    MatchingComplete(t.created, t.byId, e, entityId);
    var q := t.Query(e);
    var i :| 0 <= i < |q| && q[i] == t.byId[entityId];
    FirstVerifiedSpec(b, password, q);
  }

  /** A Discord login does not lock out a local password: after upserting a claim, a
      password that opened the identity opens it again through a local login whose email
      trims to the claim's (non-empty) email. */
  lemma LoginAfterDiscordLogin(s: IdentityStore, b: Bcrypt, c: Claim, email: string, password: string)
    requires s.Valid() && c.discordId in s.byId
    requires Verifies(b, password, s.byId[c.discordId])
    requires Trim(email) == c.email != "" && password != ""
    ensures IsLocalLogin(email, password) && FirstVerified(b, password, s.ApplyClaim(c).Query(Trim(email))).Some?
  {
    var t := s.ApplyClaim(c);
    ApplyClaimEntry(s, c);
    MatchingComplete(t.created, t.byId, c.email, c.discordId);
    var q := t.Query(c.email);
    var i :| 0 <= i < |q| && q[i] == t.byId[c.discordId];
    assert Verifies(b, password, q[i]);
    FirstVerifiedSpec(b, password, q);
  }

  /** The local login queries a trimmed email, so an identity whose stored email has
      white space at either end (as a claim email can, since `upsert` stores it as sent)
      is never among the candidates, whatever email is typed. */
  lemma PaddedEmailNeverMatches(s: IdentityStore, email: string, x: Identity)
    requires Trim(x.provider.email) != x.provider.email
    ensures x !in s.Query(Trim(email))
  {
    TrimIdempotent(email);
  }

  // ---------------------------------------------------------------- delegated login

  /** The location's query string reads back as the token, the callback URL and the user
      redirect, in that order, each decoded to exactly what was encoded. */
  lemma LoginLocationParams(key: string, redirectUrl: string, userRedirect: string)
    ensures Uri.QueryParams(LoginQuery(key, redirectUrl, userRedirect)) ==
      [("token", Some(key)), ("redirectUrl", Some(redirectUrl)), ("userRedirect", Some(userRedirect))]
  {
    Uri.QueryOfThree("token", key, "redirectUrl", redirectUrl, "userRedirect", userRedirect);
  }

  /** The callback URL stored for a fresh key: on the admin surface the key is glued to
      `/app/login` with no `?` and then appended again as `?token=`; elsewhere it is the
      storefront's `/callback?token=` followed by the key. */
  lemma {:induction false} RedirectUrlShape(o: Options, url: string, random: seq<byte>)
    ensures var key := Token.Hex(random);
      RedirectUrl(o, url, key) ==
        (if Includes(url, "auth/user") then o.backendUrl + "/app/login" + key + "?token=" + key
         else o.storeUrl + "/callback?token=" + key)
  {
    Token.HexIsOwnEncoding(random);
  }

  /** A state started for a key is stored under that key, is marked admin exactly when the
      URL contains `auth/user`, and keeps the caller's redirect. */
  lemma StartStateFields(o: Options, url: string, key: string, userRedirect: string)
    ensures StartState(o, url, key, userRedirect).token == key
    ensures StartState(o, url, key, userRedirect).admin <==> exists i :: OccursAt(url, "auth/user", i)
    ensures StartState(o, url, key, userRedirect).userRedirect == userRedirect
  {
    IncludesSpec(url, "auth/user");
  }

  /** Storing a newly started state under its key keeps every pending state stored under
      its own token. */
  lemma KeyedStateMatches(p: map<string, PendingState>, o: Options, url: string, key: string, userRedirect: string)
    requires PendingKeyed(p)
    ensures PendingKeyed(p[key := StartState(o, url, key, userRedirect)])
  {
  }
}
