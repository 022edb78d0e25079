/**
  The configuration loader of config.go. The process environment is a map
  from variable names to values; a missing variable reads as "", as
  `os.Getenv` does.
 */
module Configuration {
  import opened Wrappers
  import opened Decimal

  datatype Config = Config(immichUrl: string, immichApiKey: string, deviceModel: string, slideshowInterval: int, port: string)

  type Environment = map<string, string>

  const DefaultInterval := 15
  const DefaultPort := "3000"
  const DefaultDeviceModel := "iPhone 14 Pro"

  function Getenv(env: Environment, key: string): string {
    if key in env then env[key] else ""
  }

  /**
    `loadConfig`. The interval is the variable's value when that parses as a
    positive integer and 15 otherwise; port and device model fall back to
    their defaults when unset or empty; URL and key are copied verbatim.
   */
  function LoadConfig(env: Environment): (cfg: Config)
    ensures cfg.slideshowInterval > 0
    ensures cfg.slideshowInterval != DefaultInterval ==> Atoi(Getenv(env, "SLIDESHOW_INTERVAL")) == Some(cfg.slideshowInterval)
    ensures forall n :: Atoi(Getenv(env, "SLIDESHOW_INTERVAL")) == Some(n) && n > 0 ==> cfg.slideshowInterval == n
    ensures cfg.port != "" && cfg.deviceModel != ""
    ensures Getenv(env, "PORT") != "" ==> cfg.port == env["PORT"]
    ensures Getenv(env, "PORT") == "" ==> cfg.port == DefaultPort
    ensures Getenv(env, "DEVICE_MODEL") != "" ==> cfg.deviceModel == env["DEVICE_MODEL"]
    ensures Getenv(env, "DEVICE_MODEL") == "" ==> cfg.deviceModel == DefaultDeviceModel
    ensures cfg.immichUrl == Getenv(env, "IMMICH_URL") && cfg.immichApiKey == Getenv(env, "IMMICH_API_KEY")
  {
    var interval :=
      var v := Getenv(env, "SLIDESHOW_INTERVAL");
      if v != "" && Atoi(v).Some? && Atoi(v).value > 0 then Atoi(v).value else DefaultInterval;
    var port := if Getenv(env, "PORT") != "" then Getenv(env, "PORT") else DefaultPort;
    var deviceModel := if Getenv(env, "DEVICE_MODEL") == "" then DefaultDeviceModel else Getenv(env, "DEVICE_MODEL");
    Config(Getenv(env, "IMMICH_URL"), Getenv(env, "IMMICH_API_KEY"), deviceModel, interval, port)
  }

  /** Any positive number written in decimal, signed with '+' or not, becomes the interval. */
  lemma IntervalFromDecimal(env: Environment, n: nat)
    requires n > 0
    requires "SLIDESHOW_INTERVAL" in env
    requires env["SLIDESHOW_INTERVAL"] == NatToDecimal(n) || env["SLIDESHOW_INTERVAL"] == "+" + NatToDecimal(n)
    ensures LoadConfig(env).slideshowInterval == n
  {
  }

  /** Zero and negative numbers leave the default interval. */
  lemma IntervalRejectsNonPositive(env: Environment, n: nat)
    requires "SLIDESHOW_INTERVAL" in env
    requires env["SLIDESHOW_INTERVAL"] == "-" + NatToDecimal(n) || env["SLIDESHOW_INTERVAL"] == "0"
    ensures LoadConfig(env).slideshowInterval == DefaultInterval
  {
    AtoiReadsDecimal(n);
    AtoiReadsDecimal(0);
    assert NatToDecimal(0) == "0";
  }

  /** Text with a non-digit after its first character is no number and leaves the default interval. */
  lemma IntervalRejectsNonNumeric(env: Environment, i: nat)
    requires "SLIDESHOW_INTERVAL" in env
    requires 0 < i < |env["SLIDESHOW_INTERVAL"]| && !IsDigit(env["SLIDESHOW_INTERVAL"][i])
    ensures LoadConfig(env).slideshowInterval == DefaultInterval
  {
    AtoiRejectsNonDigit(env["SLIDESHOW_INTERVAL"], i);
  }
}
