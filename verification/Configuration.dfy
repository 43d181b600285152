// The stored configuration. TTL defaults are in seconds; 0 means unset.
module Configuration {

  datatype Config = Config(address: string, tokenId: string, secret: string, defaultTtl: int, defaultMaxTtl: int)

  /** The scheme that a client insists on, in letters of either case. */
  predicate Https(address: string) {
    |address| >= 6 && address[5] == ':' && forall i :: 0 <= i < 5 ==> address[i] == "https"[i] || address[i] == "HTTPS"[i]
  }

  /** The checks of configWrite that need no server, those of building a client included. */
  predicate Complete(c: Config) {
    && Https(c.address) && c.tokenId != "" && c.secret != ""
    && c.defaultTtl >= 0 && c.defaultMaxTtl >= 0
    && (c.defaultTtl > 0 && c.defaultMaxTtl > 0 ==> c.defaultTtl <= c.defaultMaxTtl)
  }

  /** Nothing else keeps a config from being complete. */
  lemma CompleteSuffices(c: Config)
    requires |c.address| >= 6 && c.address[..6] == "https:" && c.tokenId != "" && c.secret != ""
    requires c.defaultTtl >= 0 && c.defaultMaxTtl >= 0
    requires c.defaultTtl == 0 || c.defaultMaxTtl == 0 || c.defaultTtl <= c.defaultMaxTtl
    ensures Complete(c)
  {
    assert forall i :: 0 <= i < 6 ==> c.address[i] == "https:"[i];
    assert forall i :: 0 <= i < 5 ==> "https:"[i] == "https"[i];
  }
}
