/**
 * Single-use tokens: a random UUID issued into one of the caches under a key
 * that names its purpose, and redeemed by popping that key.
 */
module Tokens {
  import opened Wrappers
  import opened Uuid

  /** What a token is for; each purpose has its own cache and key prefix. */
  datatype Purpose = Registration | PasswordReset | EmailChange

  /** Every token lives for five minutes. */
  const TokenLifetime: nat := 300

  function Prefix(p: Purpose): string
  {
    match p
    case Registration => "registration_token:"
    case PasswordReset => "reset_token:"
    case EmailChange => "email_token:"
  }

  /** The cache key of a token: its purpose's prefix followed by the token's text form. */
  function TokenName(p: Purpose, token: SerdeUuid): (k: string)
    ensures |k| == |Prefix(p)| + 36
    ensures k[..|Prefix(p)|] == Prefix(p)
    ensures Parse(k[|Prefix(p)|..]) == Some(token.bytes)
  {
    var k := Prefix(p) + Format(token.bytes);
    assert k[|Prefix(p)|..] == Format(token.bytes);
    ParseFormat(token.bytes);
    k
  }

  /** A token key determines both the purpose and the token. */
  lemma TokenNameInjective(p: Purpose, a: SerdeUuid, q: Purpose, b: SerdeUuid)
    ensures TokenName(p, a) == TokenName(q, b) ==> p == q && a == b
  {
    if TokenName(p, a) == TokenName(q, b) {
      assert Some(a.bytes) == Some(b.bytes);
    }
  }
}
