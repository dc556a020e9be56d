/**
 * The two foreign libraries the authentication code calls, as parameters:
 * python-jose's HS256 `jwt.encode` / `jwt.decode` under the application's secret key,
 * and passlib's bcrypt `CryptContext`. What the code relies on them for is stated
 * as the `JwtSound` and `HashSound` predicates that the lemmas take as hypotheses.
 */
module Crypto {
  import opened Wrappers
  import opened Values

  /**
   * `jwt.encode(claims, SECRET_KEY, algorithm=ALGORITHM)` and
   * `jwt.decode(token, SECRET_KEY, algorithms=[ALGORITHM])` at time `now` (seconds);
   * a decode that raises a `JWTError` is None.
   */
  datatype JwtCodec = JwtCodec(encode: Record -> string, decode: (string, int) -> Option<Record>)

  /** The claims `exp` carries, when it is an integer timestamp. */
  predicate Expires(claims: Record, exp: int) {
    "exp" in claims && claims["exp"] == Int(exp)
  }

  /** A `sub` claim is absent or a string: python-jose rejects any other `sub` when decoding. */
  predicate SubjectIsString(claims: Record) {
    "sub" !in claims || claims["sub"].Str?
  }

  /**
   * What python-jose guarantees under one key: a token it issued decodes to its claims
   * until `exp` has passed (`exp < now` is expired) and to nothing afterwards, and every
   * payload it hands back has passed the `sub` check.
   */
  ghost predicate JwtSound(codec: JwtCodec) {
    && (forall claims, exp, now :: Expires(claims, exp) && SubjectIsString(claims) ==>
          codec.decode(codec.encode(claims), now) == (if now <= exp then Some(claims) else None))
    && (forall token, now :: codec.decode(token, now).Some? ==> SubjectIsString(codec.decode(token, now).value))
  }

  /** bcrypt: `hash(password)` and `verify(password, hashed)`. */
  datatype PasswordContext = PasswordContext(hash: string -> string, verify: (string, string) -> bool)

  /** A hash verifies against the password it was made from. */
  ghost predicate HashSound(ctx: PasswordContext) {
    forall p :: ctx.verify(p, ctx.hash(p))
  }

  /**
   * `pwd_context.verify(plain, hashed)` on a column value: passlib answers False for a
   * NULL hash instead of raising.
   */
  predicate Verify(ctx: PasswordContext, plain: string, stored: Value) {
    stored.Str? && ctx.verify(plain, stored.s)
  }

  /** The hash of a password verifies against it; a missing hash verifies against nothing. */
  lemma VerifyHashed(ctx: PasswordContext, p: string, q: string)
    requires HashSound(ctx)
    ensures Verify(ctx, p, Str(ctx.hash(p)))
    ensures !Verify(ctx, q, Null)
  {
  }
}
