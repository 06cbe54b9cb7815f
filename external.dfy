/**
 * The libraries and services the core calls but does not implement,
 * reduced to what one request observes of them: jsonwebtoken's `sign` and
 * `verify` (secrets, expiry and clock included), bcrypt's `hash` and
 * `compare` (the random salt is a parameter), and Cloudinary's answers to
 * an upload and to a `destroy`.
 */
module External {
  import opened Common
  import opened Entities

  /** Which configured secret (and expiry) a token is signed or verified with. */
  datatype Secret = AccessTokenSecret | RefreshTokenSecret

  /** `verify` answers the decoded claims, or nothing for a bad signature or an expired token. */
  datatype Jwt = Jwt(sign: (Claims, Secret) -> string, verify: (string, Secret) -> Option<Claims>)

  datatype Bcrypt = Bcrypt(hash: (string, nat) -> string, compare: (string, string) -> bool)

  /** Cloudinary's upload response: the stored file's URL and, for media, its duration. */
  datatype Uploaded = Uploaded(url: string, duration: Option<real>)

  /** The `result` of a Cloudinary `destroy` call. */
  datatype DestroyAnswer = DestroyOk | DestroyNotFound | DestroyFailed
}
