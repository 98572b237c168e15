/**
 * The JSON Web Token payload the auth service issues and the other services
 * read back, and the header scheme that carries it.
 */
module Tokens {
  /**
   * The payload of a decoded or verified token. The auth service signs
   * `sub`, `email` and `role` only, so the `name` of every token it issues
   * is "", and an order event's name comes from the users row or from the
   * local part of the email. The `email` claim is taken to be present.
   */
  datatype Claims = Claims(sub: int, email: string, name: string, role: string)

  const BearerPrefix: string := "Bearer "
}
