/**
  Process start-up in main.go: read the configuration, refuse to run
  without the photo server's URL and API key, and build the cache for a
  library of 85000 pages.
 */
module Startup {
  import opened Configuration
  import opened Cache

  /** The number of pages the cache draws from. */
  const DefaultMaxPage := 85000

  predicate HasCredentials(cfg: Config) {
    cfg.immichUrl != "" && cfg.immichApiKey != ""
  }

  /** The server starts exactly when both variables are set to non-empty values. */
  lemma CredentialsFromEnvironment(env: Environment)
    ensures HasCredentials(LoadConfig(env)) <==>
              "IMMICH_URL" in env && env["IMMICH_URL"] != "" && "IMMICH_API_KEY" in env && env["IMMICH_API_KEY"] != ""
  {
  }

  /**
    `main` up to the routes: `null` stands for the fatal exit on missing
    credentials; otherwise the new cache is empty and its cycle ends after
    850000 dispatches.
   */
  method Start(env: Environment) returns (cache: PhotoCache?)
    ensures cache == null <==> !HasCredentials(LoadConfig(env))
    ensures cache != null ==> fresh(cache) && cache.Valid() && cache.cfg == LoadConfig(env)
    ensures cache != null ==> cache.queue == [] && cache.shown == {} && cache.maxPage == DefaultMaxPage
    ensures cache != null ==> cache.Threshold() == 850000
  {
    var cfg := LoadConfig(env);
    if !HasCredentials(cfg) {
      return null;
    }
    cache := new PhotoCache(DefaultMaxPage, cfg);
  }
}
