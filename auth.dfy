/**
 * The credentials sign-in of web/src/lib/auth.ts: one configured user name, a
 * bcrypt hash that alone decides when it is set, and a plain fallback password
 * otherwise.  The environment is a parameter and bcrypt is an uninterpreted
 * comparison that may throw.
 */
module Auth {
  import opened Wrappers

  /** `process.env.LOCAL_USERNAME || "anoop@opsmx.io"`'s fallback. */
  const BuiltInUsername: string := "anoop@opsmx.io"

  /** The three settings read from the environment when the module loads. */
  datatype Config = Config(username: string, passwordHash: string, fallbackPassword: string)

  /** An environment variable with JavaScript's `||`: unset and empty both take the default. */
  function EnvOr(v: Option<string>, default: string): (r: string)
    ensures v.Some? && v.value != "" ==> r == v.value
    ensures (v.None? || v.value == "") ==> r == default
  {
    if v.Some? && v.value != "" then v.value else default
  }

  /** `LOCAL_USERNAME`, `LOCAL_PASSWORD_HASH` and `LOCAL_PASSWORD`. */
  function LoadConfig(localUsername: Option<string>, localPasswordHash: Option<string>, localPassword: Option<string>): (c: Config)
    ensures c.username != ""
  {
    Config(EnvOr(localUsername, BuiltInUsername), EnvOr(localPasswordHash, ""), EnvOr(localPassword, ""))
  }

  /** `bcrypt.compare(plain, hash)`: a verdict, or an error thrown. */
  type Bcrypt = (string, string) -> Result<bool, string>

  /** `verifyPassword(plain)`. */
  function VerifyPassword(plain: string, cfg: Config, bcrypt: Bcrypt): (ok: bool)
    ensures cfg.passwordHash != "" ==> (ok <==> bcrypt(plain, cfg.passwordHash) == Success(true))
    ensures cfg.passwordHash == "" ==> (ok <==> cfg.fallbackPassword != "" && plain == cfg.fallbackPassword)
  {
    if cfg.passwordHash != "" then
      match bcrypt(plain, cfg.passwordHash)
      case Failure(_) => false
      case Success(same) => same
    else if cfg.fallbackPassword != "" then plain == cfg.fallbackPassword
    else false
  }

  /** What the sign-in form sent; either field may be missing. */
  datatype Credentials = Credentials(username: Option<string>, password: Option<string>)

  datatype User = User(id: string, name: string, email: string)

  /** `String(credentials?.username || "")`. */
  function UsernameOf(credentials: Option<Credentials>): string {
    if credentials.Some? then EnvOr(credentials.value.username, "") else ""
  }

  /** `String(credentials?.password || "")`. */
  function PasswordOf(credentials: Option<Credentials>): string {
    if credentials.Some? then EnvOr(credentials.value.password, "") else ""
  }

  /** `authorize(credentials)`: the signed-in user, or `None` for `null`. */
  function Authorize(credentials: Option<Credentials>, cfg: Config, bcrypt: Bcrypt): (r: Option<User>)
    ensures r.Some? ==> r.value == User(cfg.username, cfg.username, cfg.username)
  {
    var username := UsernameOf(credentials);
    var password := PasswordOf(credentials);
    if username != cfg.username then None
    else if !VerifyPassword(password, cfg, bcrypt) then None
    else Some(User(username, username, username))
  }

  /** Sign-in succeeds exactly for the configured name with a password the check accepts. */
  lemma AuthorizeSpec(credentials: Option<Credentials>, cfg: Config, bcrypt: Bcrypt)
    ensures Authorize(credentials, cfg, bcrypt).Some? <==>
      UsernameOf(credentials) == cfg.username && VerifyPassword(PasswordOf(credentials), cfg, bcrypt)
  {
  }

  /** A different name is refused before the password is looked at: bcrypt is never consulted. */
  lemma WrongUserSkipsPassword(credentials: Option<Credentials>, cfg: Config, b1: Bcrypt, b2: Bcrypt)
    requires UsernameOf(credentials) != cfg.username
    ensures Authorize(credentials, cfg, b1) == Authorize(credentials, cfg, b2) == None
  {
  }

  /** No credentials at all read as an empty name and password, which never sign in with a loaded configuration. */
  lemma MissingCredentialsRefused(localUsername: Option<string>, localPasswordHash: Option<string>, localPassword: Option<string>,
                                  bcrypt: Bcrypt)
    ensures var cfg := LoadConfig(localUsername, localPasswordHash, localPassword);
      Authorize(None, cfg, bcrypt) == Authorize(Some(Credentials(None, Some(""))), cfg, bcrypt) == None
  {
  }

  /** With a hash configured, the fallback password plays no part. */
  lemma HashDecidesAlone(plain: string, cfg: Config, fallback: string, bcrypt: Bcrypt)
    requires cfg.passwordHash != ""
    ensures VerifyPassword(plain, cfg, bcrypt) == VerifyPassword(plain, cfg.(fallbackPassword := fallback), bcrypt)
  {
  }

  /** A bcrypt error counts as a wrong password, even when it is the fallback password. */
  lemma BcryptErrorFails(plain: string, cfg: Config, bcrypt: Bcrypt)
    requires cfg.passwordHash != "" && bcrypt(plain, cfg.passwordHash).Failure?
    ensures !VerifyPassword(plain, cfg, bcrypt)
  {
  }

  /** The built-in name applies when `LOCAL_USERNAME` is unset or empty. */
  lemma DefaultUsername(localPasswordHash: Option<string>, localPassword: Option<string>)
    ensures LoadConfig(None, localPasswordHash, localPassword).username == BuiltInUsername
    ensures LoadConfig(Some(""), localPasswordHash, localPassword).username == BuiltInUsername
  {
  }
}
