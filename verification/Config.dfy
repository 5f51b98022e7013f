/**
 * The configuration block of the backup job and what safe mode does with it:
 * coerce each setting to a usable value, then stop on a missing backup
 * location or user and warn about a weak password.
 */
module Config {
  import opened Wrappers
  import opened Php
  import opened Naming

  /** The settings at the top of the script. */
  datatype Settings = Settings(
    host: string,
    user: string,
    password: string,
    database: string,
    compressed: Value,
    retention: Value,
    retentionLimit: Value,
    location: string,
    safeMode: bool)

  /** The retention limit in days used when the configured one is not numeric. */
  const DefaultRetentionDays := 30

  /** The two fatal configuration errors safe mode can raise (the empty-location one is kept for completeness). */
  datatype ConfigError = EmptyLocation | MissingLocation | EmptyUser

  /** The settings the job goes on with, and whether the password warning was raised. */
  datatype Started = Started(settings: Settings, weakPassword: bool)

  /** The settings after safe mode's coercions have been applied. */
  predicate Coerced(c: Settings) {
    && !EmptyString(c.host)
    && IsBool(c.compressed)
    && IsBool(c.retention)
    && IsNumeric(c.retentionLimit)
    && EndsWith(c.location, "/")
  }

  /**
   * Safe mode's coercion: an empty host becomes localhost, a non-boolean flag
   * becomes true, a non-numeric limit becomes 30 and a missing trailing '/'
   * is added to the location; a setting that is already valid is kept.
   */
  function Sanitise(c: Settings): (r: Settings)
    ensures Coerced(r)
    ensures r.host == (if EmptyString(c.host) then "localhost" else c.host)
    ensures r.compressed == (if IsBool(c.compressed) then c.compressed else Bool(true))
    ensures r.retention == (if IsBool(c.retention) then c.retention else Bool(true))
    ensures r.retentionLimit == (if IsNumeric(c.retentionLimit) then c.retentionLimit else Int(DefaultRetentionDays))
    ensures EndsWith(c.location, "/") ==> r.location == c.location
    ensures !EndsWith(c.location, "/") ==> r.location == c.location + "/"
    ensures r.user == c.user && r.password == c.password && r.database == c.database && r.safeMode == c.safeMode
  {
    c.(
      host := if !EmptyString(c.host) then c.host else "localhost",
      compressed := if IsBool(c.compressed) then c.compressed else Bool(true),
      retention := if IsBool(c.retention) then c.retention else Bool(true),
      retentionLimit := if IsNumeric(c.retentionLimit) then c.retentionLimit else Int(DefaultRetentionDays),
      location := if LastChar(c.location) == "/" then c.location else c.location + "/")
  }

  /** Coercion changes nothing in settings that are already coerced. */
  lemma SanitiseKeepsCoerced(c: Settings)
    requires Coerced(c)
    ensures Sanitise(c) == c
  {
  }

  /** Coercing twice is coercing once; in particular the separator is never doubled. */
  lemma SanitiseIdempotent(c: Settings)
    ensures Sanitise(Sanitise(c)) == Sanitise(c)
  {
    SanitiseKeepsCoerced(Sanitise(c));
  }

  /** The coerced location is never empty, so the emptiness check that follows cannot fire. */
  lemma SanitisedLocationNotEmpty(c: Settings)
    ensures !EmptyString(Sanitise(c).location)
    ensures c.location == "" ==> Sanitise(c).location == "/"
  {
    var r := Sanitise(c);
    assert r.location[|r.location| - 1] == '/';
  }

  /** The password warning: empty, or shorter than six bytes as `strlen` counts them. */
  predicate WeakPassword(password: string) {
    EmptyString(password) || Strlen(password) < 6
  }

  /**
   * The start of the job. Without safe mode the settings are used as written.
   * With it they are coerced, then the job stops if the location is empty or
   * is not a directory (`directories` are the paths is_dir accepts) or the user
   * is empty; a weak password only raises a warning.
   */
  function Startup(c: Settings, directories: set<string>): (r: Result<Started, ConfigError>)
    ensures !c.safeMode ==> r == Ok(Started(c, false))
    ensures c.safeMode ==> (r.Ok? <==> Sanitise(c).location in directories && !EmptyString(c.user))
    ensures c.safeMode && Sanitise(c).location !in directories ==> r == Err(MissingLocation)
    ensures c.safeMode && Sanitise(c).location in directories && EmptyString(c.user) ==> r == Err(EmptyUser)
    ensures r.Ok? && c.safeMode ==> r.value.settings == Sanitise(c) && Coerced(r.value.settings)
    ensures r.Ok? && c.safeMode ==> (r.value.weakPassword <==> Strlen(c.password) < 6)
  {
    if !c.safeMode then Ok(Started(c, false))
    else
      var s := Sanitise(c);
      if EmptyString(s.location) then Err(EmptyLocation)
      else if s.location !in directories then Err(MissingLocation)
      else if EmptyString(s.user) then Err(EmptyUser)
      else Ok(Started(s, WeakPassword(s.password)))
  }

  /** Startup never reports an empty location: coercion has already added a '/'. */
  lemma StartupNeverEmptyLocation(c: Settings, directories: set<string>)
    ensures Startup(c, directories) != Err(EmptyLocation)
  {
    SanitisedLocationNotEmpty(c);
  }
}
