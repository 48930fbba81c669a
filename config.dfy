/** The fixed configuration constants the modelled code reads. Values read
    from the environment at start-up (page size, media base URL, token
    lifetimes) are parameters of the operations that use them. */
module Config {

  /** The closed list of event types; publishing any other type is refused. */
  const EVENT_TYPES: seq<string> := ["a-simple-event", "a-complex-event"]

  /** Profile pictures: allowed extensions (compared case-sensitively) and size limit. */
  const PROFILE_PIC_ALLOWED_EXTENSIONS: seq<string> := [".jpeg", ".jpg", ".png"]
  const PROFILE_PIC_MAX_SIZE: nat := 200 * 1024

  /** Lifetime in seconds of the cookie carrying a refreshed access token (7 days). */
  const JWT_COOKIE_MAX_AGE: nat := 604800
}
