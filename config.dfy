/** The dashboard configuration of app.js: the `DEFAULTS` record, the
    normalisation done when the settings form is submitted, and the overlay
    of stored values onto the defaults done by `loadConfig`. A configuration
    is a record of its four string properties; the stored object it is read
    from is a map from property names to strings. */
module Config {

  // Each default URL is written as host part + path part.
  const DefaultAlertsApi: string := "https://eonet.gsfc.nasa.gov" + "/api/v3/events?status=open"
  const DefaultTilesUrl: string := "https://{s}.tile.openstreetmap.org" + "/{z}/{x}/{y}.png"

  /** The four configuration properties every part of the dashboard reads. */
  datatype Settings = Settings(alertsApi: string, weatherApiKey: string, newsApiKey: string, tilesUrl: string)

  /** `DEFAULTS`. */
  const Defaults: Settings := Settings(DefaultAlertsApi, "", "", DefaultTilesUrl)

  /** The characters `String.prototype.trim` removes: ECMAScript WhiteSpace
      (tab, vertical tab, form feed, space, no-break space, byte order mark
      and the Zs space separators) and LineTerminator (LF, CR, U+2028, U+2029). */
  predicate IsJsWhitespace(c: char) {
    c == '\t' || c == '\n' || c == '\U{000B}' || c == '\U{000C}' || c == '\r' ||
    c == ' ' || c == '\U{00A0}' || c == '\U{1680}' ||
    ('\U{2000}' <= c <= '\U{200A}') ||
    c == '\U{2028}' || c == '\U{2029}' || c == '\U{202F}' || c == '\U{205F}' ||
    c == '\U{3000}' || c == '\U{FEFF}'
  }

  ghost predicate AllWhitespace(s: string) {
    forall k | 0 <= k < |s| :: IsJsWhitespace(s[k])
  }

  /** The length of the longest whitespace prefix. */
  function LeadingWhitespace(s: string): (n: nat)
    ensures n <= |s|
    ensures forall k | 0 <= k < n :: IsJsWhitespace(s[k])
    ensures n == |s| || !IsJsWhitespace(s[n])
  {
    if |s| > 0 && IsJsWhitespace(s[0]) then 1 + LeadingWhitespace(s[1..]) else 0
  }

  /** The length of the longest whitespace suffix. */
  function TrailingWhitespace(s: string): (n: nat)
    ensures n <= |s|
    ensures forall k | |s| - n <= k < |s| :: IsJsWhitespace(s[k])
    ensures n == |s| || !IsJsWhitespace(s[|s| - n - 1])
  {
    if |s| > 0 && IsJsWhitespace(s[|s| - 1]) then 1 + TrailingWhitespace(s[..|s| - 1]) else 0
  }

  /** `s.trim()`: `s` with its whitespace prefix and suffix removed. */
  function Trim(s: string): (r: string)
    ensures |r| <= |s|
    ensures r == [] || (!IsJsWhitespace(r[0]) && !IsJsWhitespace(r[|r| - 1]))
  {
    var t := s[LeadingWhitespace(s)..];
    t[..|t| - TrailingWhitespace(t)]
  }

  /** Trimming removes only whitespace, and only at the two ends: the
      result is a contiguous slice of `s` with whitespace alone before it and
      after it. */
  lemma TrimRemovesOnlyWhitespace(s: string)
    ensures exists i, j | 0 <= i <= j <= |s| ::
      Trim(s) == s[i..j] && AllWhitespace(s[..i]) && AllWhitespace(s[j..])
  {
    var n := LeadingWhitespace(s);
    var t := s[n..];
    var m := TrailingWhitespace(t);
    var j := n + (|t| - m);
    assert Trim(s) == s[n..j];
    assert AllWhitespace(s[..n]) by {
      forall k | 0 <= k < n ensures IsJsWhitespace(s[..n][k]) {
        assert s[..n][k] == s[k];
      }
    }
    assert AllWhitespace(s[j..]) by {
      forall k | 0 <= k < |s| - j ensures IsJsWhitespace(s[j..][k]) {
        assert s[j..][k] == t[|t| - m + k];
      }
    }
  }

  /** A string without whitespace at either end is its own trim. */
  lemma TrimUnchanged(s: string)
    requires s == [] || (!IsJsWhitespace(s[0]) && !IsJsWhitespace(s[|s| - 1]))
    ensures Trim(s) == s
  {
    assert LeadingWhitespace(s) == 0;
    assert TrailingWhitespace(s) == 0;
  }

  lemma TrimIdempotent(s: string)
    ensures Trim(Trim(s)) == Trim(s)
  {
    TrimUnchanged(Trim(s));
  }

  /** `v || d` on strings: the empty string is falsy, so the result is `v`
      unless `v` is empty, and it is empty only when both are. */
  function OrDefault(v: string, d: string): (r: string)
    ensures r == v || r == d
    ensures v != "" ==> r == v
    ensures r == "" <==> v == "" && d == ""
  {
    if v == "" then d else v
  }

  predicate IsTrimmed(s: string) {
    Trim(s) == s
  }

  /** The configuration object built by the settings form's submit handler.
      `f` holds the four form fields as typed; they have the same names and
      type as the configuration's properties, and the form is initialised
      from the current configuration itself.
      Each value is the trimmed field, so none carries surrounding
      whitespace; the two URLs fall back to their defaults when the trimmed
      field is empty and so are never empty; the two API keys have no
      fallback. */
  function SubmitConfig(f: Settings): (c: Settings)
    ensures IsTrimmed(c.alertsApi) && IsTrimmed(c.weatherApiKey) && IsTrimmed(c.newsApiKey) && IsTrimmed(c.tilesUrl)
    ensures c.alertsApi != "" && c.tilesUrl != ""
    ensures Trim(f.alertsApi) != "" ==> c.alertsApi == Trim(f.alertsApi)
    ensures Trim(f.alertsApi) == "" ==> c.alertsApi == Defaults.alertsApi
    ensures Trim(f.tilesUrl) != "" ==> c.tilesUrl == Trim(f.tilesUrl)
    ensures Trim(f.tilesUrl) == "" ==> c.tilesUrl == Defaults.tilesUrl
    ensures c.weatherApiKey == Trim(f.weatherApiKey)
    ensures c.newsApiKey == Trim(f.newsApiKey)
  {
    DefaultsTrimmed();
    TrimIdempotent(f.alertsApi);
    TrimIdempotent(f.weatherApiKey);
    TrimIdempotent(f.newsApiKey);
    TrimIdempotent(f.tilesUrl);
    Settings(
      OrDefault(Trim(f.alertsApi), DefaultAlertsApi),
      Trim(f.weatherApiKey),
      Trim(f.newsApiKey),
      OrDefault(Trim(f.tilesUrl), DefaultTilesUrl))
  }

  /** A concatenation whose outer characters are not whitespace is its own
      trim. */
  lemma TrimUnchangedJoin(a: string, b: string)
    requires a != [] && b != [] && !IsJsWhitespace(a[0]) && !IsJsWhitespace(b[|b| - 1])
    ensures IsTrimmed(a + b)
  {
    var s := a + b;
    assert s[0] == a[0] && s[|s| - 1] == b[|b| - 1];
    TrimUnchanged(s);
  }

  /** Neither default URL carries surrounding whitespace. */
  lemma DefaultsTrimmed()
    ensures IsTrimmed(DefaultAlertsApi) && IsTrimmed(DefaultTilesUrl)
  {
    TrimUnchangedJoin("https://eonet.gsfc.nasa.gov", "/api/v3/events?status=open");
    TrimUnchangedJoin("https://{s}.tile.openstreetmap.org", "/{z}/{x}/{y}.png");
  }

  /** Opening the settings form, which shows the current configuration, and
      submitting it unedited keeps the configuration a previous submit
      produced. */
  lemma ResubmitUnchanged(f: Settings)
    ensures SubmitConfig(SubmitConfig(f)) == SubmitConfig(f)
  {
  }

  /** What the JSON text in storage parses to, as seen by object spread: its
      own string-valued fields (none for a parsed number, boolean or null). */
  datatype Parsed = Malformed | Fields(fields: map<string, string>)

  /** The outcome of reading the `dm_config` entry.
      - StorageError: `localStorage` threw.
      - NoEntry: there is no entry (`getItem` gives null).
      - Stored: its text, with what parsing that text gives. */
  datatype StoreRead = StorageError | NoEntry | Stored(raw: string, parsed: Parsed)

  /** Whether `loadConfig` overlays parsed fields: the text is non-empty
      (truthy) and parses. */
  predicate Overlays(read: StoreRead) {
    read.Stored? && read.raw != "" && read.parsed.Fields?
  }

  /** One property of `{ ...DEFAULTS, ...fields }`: the stored value when the
      stored object has the property, else the default. */
  function Overlay(fields: map<string, string>, key: string, default: string): string {
    if key in fields then fields[key] else default
  }

  /** `loadConfig()`. When stored fields are overlaid, each stored property
      overrides its default and every other property keeps its default;
      otherwise (storage failing, no entry, empty text, text that does not
      parse) the result is exactly `DEFAULTS`. */
  function LoadConfig(read: StoreRead): (c: Settings)
    ensures !Overlays(read) ==> c == Defaults
    ensures Overlays(read) ==>
      c.alertsApi == Overlay(read.parsed.fields, "alertsApi", Defaults.alertsApi) &&
      c.weatherApiKey == Overlay(read.parsed.fields, "weatherApiKey", Defaults.weatherApiKey) &&
      c.newsApiKey == Overlay(read.parsed.fields, "newsApiKey", Defaults.newsApiKey) &&
      c.tilesUrl == Overlay(read.parsed.fields, "tilesUrl", Defaults.tilesUrl)
    ensures Overlays(read) ==>
      ToObject(c) == map k | k in ToObject(Defaults).Keys :: (ToObject(Defaults) + read.parsed.fields)[k]
    ensures Overlays(read) && read.parsed.fields.Keys !! {"alertsApi", "weatherApiKey", "newsApiKey", "tilesUrl"} ==> c == Defaults
  {
    match read
    case Stored(raw, Fields(m)) =>
      if raw == "" then Defaults
      else Settings(
        Overlay(m, "alertsApi", Defaults.alertsApi),
        Overlay(m, "weatherApiKey", Defaults.weatherApiKey),
        Overlay(m, "newsApiKey", Defaults.newsApiKey),
        Overlay(m, "tilesUrl", Defaults.tilesUrl))
    case _ => Defaults
  }

  /** The object `saveConfig` serialises: the four properties. */
  function ToObject(c: Settings): (m: map<string, string>)
    ensures m.Keys == {"alertsApi", "weatherApiKey", "newsApiKey", "tilesUrl"}
  {
    map["alertsApi" := c.alertsApi, "weatherApiKey" := c.weatherApiKey,
        "newsApiKey" := c.newsApiKey, "tilesUrl" := c.tilesUrl]
  }

  /** Saving a configuration and loading it again gives it back. `raw` is the
      stored JSON text, which is never empty. */
  lemma SaveThenLoad(c: Settings, raw: string)
    requires raw != ""
    ensures LoadConfig(Stored(raw, Fields(ToObject(c)))) == c
  {
  }
}
