/**
 * The expiry arithmetic of the access-token cache: a token is stored with
 * expires_at = now + expires_in - 200 and reused while now < expires_at.
 */
module TokenCache {
  import opened Wrappers

  /** Seconds by which a cached token is retired before the issuer's expiry. */
  const SafetyMargin := 200

  datatype CachedToken = CachedToken(token: string, expiresAt: int)

  /** save_token_to_db's expires_at. */
  function ExpiresAt(now: int, expiresIn: int): (t: int)
    ensures t + SafetyMargin == now + expiresIn
    ensures t < now + expiresIn
  {
    now + expiresIn - 200
  }

  /** getAccessToken's cache test: the cached token while it has not expired, otherwise None (fetch a new one). */
  function CachedTokenFor(cached: Option<CachedToken>, now: int): (r: Option<string>)
    ensures r.Some? <==> cached.Some? && now < cached.value.expiresAt
    ensures r.Some? ==> r.value == cached.value.token
  {
    if cached.Some? && now < cached.value.expiresAt then Some(cached.value.token) else None
  }

  /**
   * A token saved at time savedAt with lifetime expiresIn is reused exactly
   * while fewer than expiresIn - 200 seconds have passed.
   */
  lemma SavedTokenLifetime(token: string, savedAt: int, expiresIn: int, now: int)
    ensures CachedTokenFor(Some(CachedToken(token, ExpiresAt(savedAt, expiresIn))), now)
         == (if now - savedAt < expiresIn - SafetyMargin then Some(token) else None)
  {
  }

  /**
   * The cache never serves a token the issuer has expired: whenever the
   * cached token is reused, at least SafetyMargin seconds of the issuer's
   * lifetime remain. With nothing cached a new token is always fetched.
   */
  lemma CachedTokenOutlivesUse(token: string, savedAt: int, expiresIn: int, now: int)
    ensures CachedTokenFor(Some(CachedToken(token, ExpiresAt(savedAt, expiresIn))), now).Some? ==>
      now + SafetyMargin < savedAt + expiresIn
    ensures CachedTokenFor(None, now).None?
  {
  }
}
