/** Whether the hosted backend is configured (`src/lib/supabase.ts`): a
    predicate over the two build-time settings, the project URL and the
    anonymous key, and the choice of the client built from them. */
module Config {
  import opened Js
  import opened Text

  /** A build-time environment value: absent, a string, or some other
      JavaScript value (which the `typeof` tests reject). */
  datatype EnvValue = Unset | Str(s: string) | NonString

  datatype Settings = Settings(url: EnvValue, anonKey: EnvValue)

  /** The values the setup instructions tell the user to replace. */
  const PlaceholderUrl: string := "your_supabase_project_url"
  const PlaceholderKey: string := "your_supabase_anon_key"

  /** JavaScript truthiness of an environment value: a string's is that of
      `Js.Truthy`; a value of another type is taken as truthy. */
  predicate EnvTruthy(v: EnvValue) {
    match v
    case Unset => false
    case Str(s) => Truthy(Some(s))
    case NonString => true
  }

  /** `isSupabaseConfigured()`: both settings are strings with a
      non-whitespace character, neither is its placeholder (compared
      exactly, untrimmed), and the URL starts with the four letters
      `http` (a prefix test, not a scheme check). */
  function IsConfigured(cfg: Settings): (ok: bool)
    ensures ok <==>
      && cfg.url.Str? && cfg.anonKey.Str?
      && !IsBlank(cfg.url.s) && !IsBlank(cfg.anonKey.s)
      && cfg.url.s != PlaceholderUrl
      && cfg.anonKey.s != PlaceholderKey
      && |cfg.url.s| >= 4 && cfg.url.s[..4] == "http"
  {
    assert cfg.url.Str? ==> ("http" <= cfg.url.s <==> |cfg.url.s| >= 4 && cfg.url.s[..4] == "http");
    && EnvTruthy(cfg.url) && EnvTruthy(cfg.anonKey)
    && cfg.url.Str? && cfg.anonKey.Str?
    && Trim(cfg.url.s) != "" && Trim(cfg.anonKey.s) != ""
    && cfg.url.s != PlaceholderUrl
    && cfg.anonKey.s != PlaceholderKey
    && "http" <= cfg.url.s
  }

  /** The client the module exports. */
  datatype Client = Client(url: string, anonKey: string)

  /** The stand-in client built when the settings are unusable: a
      well-formed URL and key that no backend answers to. */
  const InvalidClient: Client := Client(
    "https://invalid-placeholder.supabase.co",
    "eyJhbGciOiJIUzI1NiIsInR5cCI6IkpXVCJ9.eyJpc3MiOiJzdXBhYmFzZSIsInJlZiI6ImludmFsaWQtcGxhY2Vob2xkZXIiLCJyb2xlIjoiYW5vbiIsImlhdCI6MTY0MTI2OTIwMCwiZXhwIjoxOTU2ODQ1MjAwfQ.invalid")

  /** The client is built from the settings exactly when they are
      configured; otherwise it is the stand-in. Either way its URL starts
      with `http`. */
  function MakeClient(cfg: Settings): (c: Client)
    ensures IsConfigured(cfg) ==> c == Client(cfg.url.s, cfg.anonKey.s)
    ensures !IsConfigured(cfg) ==> c == InvalidClient
    ensures "http" <= c.url
  {
    if IsConfigured(cfg) then Client(cfg.url.s, cfg.anonKey.s) else InvalidClient
  }

  /** A missing or non-string setting is never configured. */
  lemma MissingSettingNotConfigured(cfg: Settings)
    requires !cfg.url.Str? || !cfg.anonKey.Str?
    ensures !IsConfigured(cfg)
  {
  }

  /** A blank setting is never configured, whatever the other one is. */
  lemma BlankSettingNotConfigured(url: string, key: string)
    requires IsBlank(url) || IsBlank(key)
    ensures !IsConfigured(Settings(Str(url), Str(key)))
  {
  }

  /** The URL test is a prefix test, so `httpx:` passes. */
  lemma PrefixIsNotASchemeCheck()
    ensures IsConfigured(Settings(Str("httpx:"), Str("k")))
  {
    var url, key := "httpx:", "k";
    assert !IsWhitespace(url[0]) && !IsWhitespace(key[0]);
    assert |url| != |PlaceholderUrl| && |key| != |PlaceholderKey|;
    assert url[..4] == "http";
  }

  /** The placeholders are compared untrimmed, so the key placeholder with a
      trailing space is accepted. */
  lemma PlaceholderComparedUntrimmed()
    ensures IsConfigured(Settings(Str("https://x"), Str(PlaceholderKey + " ")))
  {
    var url, key := "https://x", PlaceholderKey + " ";
    assert !IsWhitespace(url[0]) && !IsWhitespace(key[0]);
    assert |url| != |PlaceholderUrl| && |key| != |PlaceholderKey|;
    assert url[..4] == "http";
  }
}
