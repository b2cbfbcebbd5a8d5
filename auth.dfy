/**
 * Credential checks and token issuance of `src/auth/auth.service.ts` over the
 * `User` table. Password hashing (bcrypt) and token signing (JSON Web Tokens,
 * RFC 7519) are library calls the model leaves uninterpreted: they are
 * function values handed to the service, and what the proofs need of them is
 * stated as predicates (`BcryptSound`, `JwtSound`).
 */
module Auth {
  import opened Wrappers
  import opened Roles
  import KeyValue

  type UserId = nat
  /** Seconds on the clock the service and the token library read. */
  type Time = int
  type Token = string
  /** A bcrypt digest. */
  type Digest = string

  /** A GitHub profile as the OAuth strategy hands it over; `emails` holds the
      `value` of each listed address and is absent when GitHub sent no list,
      `photos` likewise holds the photo URLs, `provider` is always "github" and
      `accessToken` is the GitHub OAuth token. The whole record is stored in the
      user's metadata. */
  datatype GithubProfile = GithubProfile(id: string, username: Option<string>, displayName: Option<string>,
                                         emails: Option<seq<string>>, photos: Option<seq<string>>,
                                         provider: string, accessToken: string)

  /** A value inside the JSON `metadata` column. */
  datatype MetaValue = Text(s: string) | Github(profile: GithubProfile)

  type Metadata = map<string, MetaValue>

  /** A row of the `User` table; a null `metadata` column is `None`. */
  datatype User = User(id: UserId, email: string, passwordHash: Option<Digest>, role: Role,
                       metadata: Option<Metadata>, lastLogin: Option<Time>)

  /** `user.passwordHash` is truthy: the user can log in with a password. */
  predicate HasPassword(u: User) {
    u.passwordHash.Some? && u.passwordHash.value != ""
  }

  /** The user as returned to clients: every column but `passwordHash`. */
  datatype PublicUser = PublicUser(id: UserId, email: string, role: Role, metadata: Option<Metadata>, lastLogin: Option<Time>)

  /** The claim set signed into both tokens (`sub` is the subject claim of section 4.1.2 of RFC 7519). */
  datatype Payload = Payload(sub: UserId, email: string, role: Role)

  datatype AuthTokens = AuthTokens(accessToken: Token, refreshToken: Token, user: PublicUser)

  /** The exceptions the service throws; each carries the message the client sees. */
  datatype AuthError =
    | EmailInUse            // 'User with this email already exists'
    | InvalidCredentials    // 'Invalid credentials'
    | EmailNotProvided      // 'Email not provided by GitHub'
    | ProfileWithoutEmails  // `emails[0]` read on a profile with no email list (a TypeError)
    | InvalidRefreshToken   // 'Invalid refresh token'

  /** bcrypt: `hash(password, salt)` and `compare(password, digest)`. */
  datatype Bcrypt = Bcrypt(hash: (string, nat) -> Digest, compare: (string, Digest) -> bool)

  /** A digest is never empty, and a password always matches a digest made from it. */
  ghost predicate BcryptSound(b: Bcrypt) {
    forall password, salt :: b.hash(password, salt) != "" && b.compare(password, b.hash(password, salt))
  }

  /** The token library: `sign(payload, secret, expiresAt)` and `verify(token, secret, now)`;
      `verify` is given the secret option exactly as the service passes it. */
  datatype Jwt = Jwt(sign: (Payload, string, Time) -> Token, verify: (Token, Option<string>, Time) -> Option<Payload>)

  /** A token verifies under the secret it was signed with, to its own claims, until it expires. */
  ghost predicate JwtSound(j: Jwt) {
    forall p, secret, exp, now ::
      j.verify(j.sign(p, secret, exp), Some(secret), now) == if now < exp then Some(p) else None
  }

  /** The environment variables the services read (`None`: unset). */
  datatype Env = Env(jwtSecret: Option<string>, jwtRefreshSecret: Option<string>)

  /** `a || b` on an optional string: an unset or empty value falls through. */
  function OrElse(a: Option<string>, b: string): (r: string)
    ensures a.Some? && a.value != "" ==> r == a.value
    ensures (a.None? || a.value == "") ==> r == b
  {
    if a.Some? && a.value != "" then a.value else b
  }

  /** The secret the JWT module signs access tokens with (`app.module.ts`). */
  function AccessSecret(env: Env): string {
    OrElse(env.jwtSecret, "default-secret-key")
  }

  /** The secret refresh tokens are signed with. */
  function RefreshSigningSecret(env: Env): string {
    OrElse(env.jwtRefreshSecret, OrElse(env.jwtSecret, "default-secret"))
  }

  /** Access tokens live 15 minutes, refresh tokens 7 days. */
  const AccessLifetime: int := 15 * 60
  const RefreshLifetime: int := 7 * 24 * 60 * 60

  function WithoutPassword(u: User): PublicUser {
    PublicUser(u.id, u.email, u.role, u.metadata, u.lastLogin)
  }

  function ClaimsOf(u: User): Payload {
    Payload(u.id, u.email, u.role)
  }

  /** `generateTokens`: both tokens carry `{sub, email, role}` of the user; the
      access token is signed with the module secret for 15 minutes, the refresh
      token with the refresh secret for 7 days; the user goes back without its hash. */
  function GenerateTokens(u: User, env: Env, jwt: Jwt, now: Time): (t: AuthTokens)
    ensures t.accessToken == jwt.sign(Payload(u.id, u.email, u.role), AccessSecret(env), now + AccessLifetime)
    ensures t.refreshToken == jwt.sign(Payload(u.id, u.email, u.role), RefreshSigningSecret(env), now + RefreshLifetime)
    ensures t.user.id == u.id && t.user.email == u.email && t.user.role == u.role
    ensures t.user.metadata == u.metadata && t.user.lastLogin == u.lastLogin
  {
    var claims := ClaimsOf(u);
    AuthTokens(jwt.sign(claims, AccessSecret(env), now + AccessLifetime),
               jwt.sign(claims, RefreshSigningSecret(env), now + RefreshLifetime),
               WithoutPassword(u))
  }

  /** Every user is stored under its own id, below the next id to hand out, and no two share an email. */
  ghost predicate UsersConsistent(users: map<UserId, User>, nextId: nat) {
    && (forall id :: id in users ==> users[id].id == id && id < nextId)
    && (forall a, b :: a in users && b in users && users[a].email == users[b].email ==> a == b)
  }

  /** Some user has this email. */
  ghost predicate EmailTaken(users: map<UserId, User>, email: string) {
    exists id :: id in users && users[id].email == email
  }

  /** The row `findUnique({ where: { email } })` answers. */
  ghost function UserByEmail(users: map<UserId, User>, email: string): (u: User)
    requires EmailTaken(users, email)
    ensures u in users.Values && u.email == email
  {
    var id :| id in users && users[id].email == email; users[id]
  }

  /** Email is a key of a consistent table: a row found by email is the one stored under its id. */
  lemma EmailIdentifiesUser(users: map<UserId, User>, nextId: nat, email: string, u: User)
    requires UsersConsistent(users, nextId)
    requires u in users.Values && u.email == email
    ensures EmailTaken(users, email) && u == UserByEmail(users, email)
    ensures u.id in users && users[u.id] == u
  {
    var id :| id in users && users[id] == u;
  }

  /** `validateUser`: the user whose id is the claim `sub`, or null. */
  function ValidateUser(users: map<UserId, User>, payload: Payload): (r: Option<User>)
    ensures r.Some? <==> payload.sub in users
    ensures r.Some? ==> r.value == users[payload.sub]
  {
    if payload.sub in users then Some(users[payload.sub]) else None
  }

  /** `refreshTokens`: verify with `JWT_REFRESH_SECRET` alone, look up `sub`, issue a
      fresh pair. Every failure surfaces as the one 'Invalid refresh token' error, and
      no blacklist is read or written. */
  function RefreshTokens(token: Token, users: map<UserId, User>, env: Env, jwt: Jwt, now: Time): (r: Result<AuthTokens, AuthError>)
    ensures r.Failure? ==> r.error == InvalidRefreshToken
    ensures r.Success? <==> jwt.verify(token, env.jwtRefreshSecret, now).Some? &&
                            jwt.verify(token, env.jwtRefreshSecret, now).value.sub in users
    ensures r.Success? ==> r.value == GenerateTokens(users[jwt.verify(token, env.jwtRefreshSecret, now).value.sub], env, jwt, now)
  {
    match jwt.verify(token, env.jwtRefreshSecret, now)
    case None => Failure(InvalidRefreshToken)
    case Some(payload) =>
      match ValidateUser(users, payload)
      case None => Failure(InvalidRefreshToken)
      case Some(u) =>
        var t := GenerateTokens(u, env, jwt, now);
        Success(t)
  }

  /** The access token a user is issued verifies under the module secret to the
      user's own claims for exactly its 15-minute lifetime. */
  lemma AccessTokenLifetime(u: User, env: Env, jwt: Jwt, issued: Time, t: Time)
    requires JwtSound(jwt)
    ensures jwt.verify(GenerateTokens(u, env, jwt, issued).accessToken, Some(AccessSecret(env)), t) ==
      if t < issued + AccessLifetime then Some(Payload(u.id, u.email, u.role)) else None
  {
  }

  /** With `JWT_REFRESH_SECRET` set, a refresh token issued to a user who still
      exists yields, any time within its 7 days, a fresh pair for the same subject;
      once those 7 days have passed it is refused. */
  lemma RefreshRoundTrip(u: User, users: map<UserId, User>, env: Env, jwt: Jwt, issued: Time, t: Time)
    requires JwtSound(jwt)
    requires env.jwtRefreshSecret.Some? && env.jwtRefreshSecret.value != ""
    requires u.id in users
    ensures t < issued + RefreshLifetime ==>
      RefreshTokens(GenerateTokens(u, env, jwt, issued).refreshToken, users, env, jwt, t) ==
        Success(GenerateTokens(users[u.id], env, jwt, t))
    ensures t >= issued + RefreshLifetime ==>
      RefreshTokens(GenerateTokens(u, env, jwt, issued).refreshToken, users, env, jwt, t) == Failure(InvalidRefreshToken)
  {
    assert RefreshSigningSecret(env) == env.jwtRefreshSecret.value;
    assert Some(RefreshSigningSecret(env)) == env.jwtRefreshSecret;
  }

  /** The pair a refresh returns is for the subject of the presented token: the
      new refresh token verifies to a payload with the same `sub`. */
  lemma RefreshKeepsSubject(token: Token, users: map<UserId, User>, nextId: nat, env: Env, jwt: Jwt, now: Time)
    requires JwtSound(jwt) && UsersConsistent(users, nextId)
    requires env.jwtRefreshSecret.Some? && env.jwtRefreshSecret.value != ""
    ensures var r := RefreshTokens(token, users, env, jwt, now);
      r.Success? ==>
        jwt.verify(r.value.refreshToken, env.jwtRefreshSecret, now) ==
          Some(jwt.verify(token, env.jwtRefreshSecret, now).value.(email := r.value.user.email, role := r.value.user.role))
  {
    assert Some(RefreshSigningSecret(env)) == env.jwtRefreshSecret;
  }

  /** Refreshing does not consult the blacklist: a refresh token that is
      blacklisted in the key-value store is still exchanged for a fresh pair. */
  lemma RefreshIgnoresBlacklist(u: User, users: map<UserId, User>, env: Env, jwt: Jwt, issued: Time, t: Time, store: KeyValue.Store)
    requires JwtSound(jwt)
    requires env.jwtRefreshSecret.Some? && env.jwtRefreshSecret.value != ""
    requires u.id in users && issued <= t < issued + RefreshLifetime
    requires KeyValue.Blacklisted(store, GenerateTokens(u, env, jwt, issued).refreshToken, t)
    ensures RefreshTokens(GenerateTokens(u, env, jwt, issued).refreshToken, users, env, jwt, t).Success?
  {
    RefreshRoundTrip(u, users, env, jwt, issued, t);
  }

  /** The first GitHub email: missing list, empty list and empty value are all refused. */
  function GithubEmail(profile: GithubProfile): (r: Result<string, AuthError>)
    ensures r.Success? <==> profile.emails.Some? && |profile.emails.value| > 0 && profile.emails.value[0] != ""
    ensures r.Success? ==> r.value == profile.emails.value[0]
    ensures r == Failure(ProfileWithoutEmails) <==> profile.emails.None?
  {
    match profile.emails
    case None => Failure(ProfileWithoutEmails)
    case Some(emails) =>
      if |emails| == 0 || emails[0] == "" then Failure(EmailNotProvided) else Success(emails[0])
  }

  /** The metadata of a user created from a GitHub profile: name `displayName || username`,
      the profile, and provider 'github'. An undefined name is left out of the JSON. */
  function NewGithubMetadata(profile: GithubProfile): (m: Metadata)
    ensures "githubProfile" in m && m["githubProfile"] == Github(profile)
    ensures "provider" in m && m["provider"] == Text("github")
    ensures profile.displayName.Some? && profile.displayName.value != "" ==> "name" in m && m["name"] == Text(profile.displayName.value)
    ensures (profile.displayName.None? || profile.displayName.value == "") ==>
      ("name" in m <==> profile.username.Some?) && (profile.username.Some? ==> m["name"] == Text(profile.username.value))
  {
    var base := map["githubProfile" := Github(profile), "provider" := Text("github")];
    if profile.displayName.Some? && profile.displayName.value != "" then base["name" := Text(profile.displayName.value)]
    else if profile.username.Some? then base["name" := Text(profile.username.value)]
    else base
  }

  /** `{ ...(metadata || {}), githubProfile: profile }`: every existing key is kept
      except `githubProfile`, which now holds the new profile. */
  function MergeGithubProfile(metadata: Option<Metadata>, profile: GithubProfile): (m: Metadata)
    ensures m.Keys == metadata.GetOr(map[]).Keys + {"githubProfile"}
    ensures "githubProfile" in m && m["githubProfile"] == Github(profile)
    ensures forall k :: k in metadata.GetOr(map[]) && k != "githubProfile" ==> m[k] == metadata.GetOr(map[])[k]
  {
    metadata.GetOr(map[])["githubProfile" := Github(profile)]
  }

  /** The `User` table together with the service's collaborators. */
  class AuthService {
    var users: map<UserId, User>
    var nextId: nat
    const env: Env
    const jwt: Jwt
    const bcrypt: Bcrypt
    /** The role a new row receives from the schema's column default. */
    const defaultRole: Role

    ghost predicate Valid()
      reads this
    {
      UsersConsistent(users, nextId)
    }

    constructor (env: Env, jwt: Jwt, bcrypt: Bcrypt, defaultRole: Role)
      ensures Valid() && users == map[]
      ensures this.env == env && this.jwt == jwt && this.bcrypt == bcrypt && this.defaultRole == defaultRole
    {
      users := map[];
      nextId := 0;
      this.env := env;
      this.jwt := jwt;
      this.bcrypt := bcrypt;
      this.defaultRole := defaultRole;
    }

    /** Insert a row under a fresh id. */
    method Create(email: string, passwordHash: Option<Digest>, metadata: Metadata) returns (u: User)
      requires Valid()
      requires !EmailTaken(users, email)
      modifies this
      ensures Valid()
      ensures u == User(old(nextId), email, passwordHash, defaultRole, Some(metadata), None)
      ensures old(nextId) !in old(users) && users == old(users)[u.id := u]
      ensures nextId == old(nextId) + 1
    {
      u := User(nextId, email, passwordHash, defaultRole, Some(metadata), None);
      users := users[nextId := u];
      nextId := nextId + 1;
    }

    /** `signup`: refuse a taken email; otherwise create one user holding the
        bcrypt digest of the password and `metadata.name`, and issue its tokens.
        No team is created. */
    method Signup(email: string, password: string, name: string, salt: nat, now: Time) returns (r: Result<AuthTokens, AuthError>)
      requires Valid()
      modifies this
      ensures Valid()
      ensures r.Failure? <==> EmailTaken(old(users), email)
      ensures r.Failure? ==> r.error == EmailInUse && users == old(users) && nextId == old(nextId)
      ensures r.Success? ==>
        var u := User(old(nextId), email, Some(bcrypt.hash(password, salt)), defaultRole, Some(map["name" := Text(name)]), None);
        old(nextId) !in old(users) && users == old(users)[u.id := u] && r.value == GenerateTokens(u, env, jwt, now)
    {
      if u :| u in users.Values && u.email == email {
        return Failure(EmailInUse);
      }
      var passwordHash := bcrypt.hash(password, salt);
      var u := Create(email, Some(passwordHash), map["name" := Text(name)]);
      r := Success(GenerateTokens(u, env, jwt, now));
    }

    /** `login`: unknown email, a user without a password (GitHub-only) and a wrong
        password all raise the same 'Invalid credentials'. On success only that
        user's `lastLogin` changes, and the tokens are built from the row as read
        before that update. */
    method Login(email: string, password: string, now: Time) returns (r: Result<AuthTokens, AuthError>)
      requires Valid()
      modifies this
      ensures Valid()
      ensures r.Failure? ==> r.error == InvalidCredentials && users == old(users)
      ensures nextId == old(nextId)
      ensures r.Success? <==>
        && EmailTaken(old(users), email)
        && HasPassword(UserByEmail(old(users), email))
        && bcrypt.compare(password, UserByEmail(old(users), email).passwordHash.value)
      ensures r.Success? ==>
        var u := UserByEmail(old(users), email);
        users == old(users)[u.id := u.(lastLogin := Some(now))] && r.value == GenerateTokens(u, env, jwt, now)
    {
      if u :| u in users.Values && u.email == email {
        EmailIdentifiesUser(users, nextId, email, u);
        if !HasPassword(u) || !bcrypt.compare(password, u.passwordHash.value) {
          return Failure(InvalidCredentials);
        }
        users := users[u.id := u.(lastLogin := Some(now))];
        r := Success(GenerateTokens(u, env, jwt, now));
      } else {
        return Failure(InvalidCredentials);
      }
    }


    /** `githubLogin`: find or create the user of the profile's first email. A new
        user gets GitHub metadata and no password; an existing one gets `lastLogin`
        and the profile merged into its metadata, keeping its other keys and its
        password digest. */
    method GithubLogin(profile: GithubProfile, now: Time) returns (r: Result<AuthTokens, AuthError>)
      requires Valid()
      modifies this
      ensures Valid()
      ensures r.Failure? <==> GithubEmail(profile).Failure?
      ensures r.Failure? ==> r.error == GithubEmail(profile).error && users == old(users)
      ensures nextId == if r.Success? && !EmailTaken(old(users), GithubEmail(profile).value) then old(nextId) + 1 else old(nextId)
      ensures r.Success? && !EmailTaken(old(users), GithubEmail(profile).value) ==>
        var u := User(old(nextId), GithubEmail(profile).value, None, defaultRole, Some(NewGithubMetadata(profile)), None);
        old(nextId) !in old(users) && users == old(users)[u.id := u] && r.value == GenerateTokens(u, env, jwt, now)
      ensures r.Success? && EmailTaken(old(users), GithubEmail(profile).value) ==>
        var old_u := UserByEmail(old(users), GithubEmail(profile).value);
        var u := old_u.(lastLogin := Some(now), metadata := Some(MergeGithubProfile(old_u.metadata, profile)));
        users == old(users)[u.id := u] && u.passwordHash == old_u.passwordHash && r.value == GenerateTokens(u, env, jwt, now)
    {
      var email := GithubEmail(profile);
      if email.Failure? {
        return Failure(email.error);
      }
      var u;
      if found :| found in users.Values && found.email == email.value {
        EmailIdentifiesUser(users, nextId, email.value, found);
        u := found.(lastLogin := Some(now), metadata := Some(MergeGithubProfile(found.metadata, profile)));
        users := users[u.id := u];
      } else {
        u := Create(email.value, None, NewGithubMetadata(profile));
      }
      r := Success(GenerateTokens(u, env, jwt, now));
    }
  }

  /** A user stored with the digest of a password passes every check of `login`
      for that email and password: signing up and then logging in succeeds. */
  lemma LoginAcceptsSignupPassword(users: map<UserId, User>, nextId: nat, b: Bcrypt, u: User, password: string, salt: nat)
    requires BcryptSound(b) && UsersConsistent(users, nextId)
    requires u in users.Values && u.passwordHash == Some(b.hash(password, salt))
    ensures EmailTaken(users, u.email) && UserByEmail(users, u.email) == u
    ensures HasPassword(u) && b.compare(password, u.passwordHash.value)
  {
    EmailIdentifiesUser(users, nextId, u.email, u);
  }
}
