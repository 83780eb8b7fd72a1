/**
 * The settings of the API (api/app/core/config.py): their default values
 * and the validator that turns a comma-separated `CORS_ORIGINS` string into
 * a list.
 */
module Config {
  import opened Strings

  /** The process-wide settings the API reads. */
  datatype Settings = Settings(
    appName: string,
    appVersion: string,
    debug: bool,
    host: string,
    port: int,
    databaseUrl: string,
    corsOrigins: seq<string>,
    secretKey: string,
    algorithm: string,
    accessTokenExpireMinutes: int,
    smtpHost: string,
    smtpPort: int,
    smtpUsername: string,
    smtpPassword: string,
    smtpFromEmail: string,
    smtpUseTls: bool,
    contactEmailRecipient: string)

  const DEFAULT_CORS_ORIGINS: seq<string> := ["http://localhost:3000", "http://localhost:8000"]

  /** The values every setting has when the environment does not override it. */
  const DEFAULT_SETTINGS: Settings := Settings(
    "FastAPI Boilerplate", "1.0.0", false, "0.0.0.0", 8000, "sqlite:///./app.db",
    DEFAULT_CORS_ORIGINS,
    "your-secret-key-change-in-production", "HS256", 30,
    "smtp.gmail.com", 587, "", "", "", true, "")

  /** The defaults the validator and the mailer rely on. */
  lemma DefaultSettingsValues()
    ensures |DEFAULT_SETTINGS.corsOrigins| == 2
    ensures DEFAULT_SETTINGS.corsOrigins[0] == "http://localhost:3000"
    ensures DEFAULT_SETTINGS.corsOrigins[1] == "http://localhost:8000"
    ensures DEFAULT_SETTINGS.smtpPort == 587 && DEFAULT_SETTINGS.smtpUseTls
    ensures DEFAULT_SETTINGS.smtpHost == "smtp.gmail.com"
    ensures DEFAULT_SETTINGS.smtpFromEmail == "" && DEFAULT_SETTINGS.contactEmailRecipient == ""
    ensures DEFAULT_SETTINGS.appName == "FastAPI Boilerplate"
  {
  }

  /**
   * What the `CORS_ORIGINS` validator receives: a string, or a list. The
   * settings library decodes an environment value of a list field as JSON
   * before the validator runs, so the string case is a JSON string or a
   * string passed to the constructor.
   */
  datatype OriginsInput = Text(s: string) | Items(items: seq<string>)

  /** Every piece with its surrounding white space stripped. */
  function StripAll(pieces: seq<string>): (r: seq<string>)
    ensures |r| == |pieces|
    ensures forall k :: 0 <= k < |r| ==> r[k] == Trim(pieces[k], PyWhitespace)
  {
    seq(|pieces|, k requires 0 <= k < |pieces| => Trim(pieces[k], PyWhitespace))
  }

  /**
   * `parse_cors_origins`: a list passes through unchanged; a string gives one
   * entry per comma-separated piece (empty pieces included), each stripped,
   * so there is one entry more than there are commas and no entry starts or
   * ends with white space.
   */
  function ParseCorsOrigins(v: OriginsInput): (origins: seq<string>)
    ensures v.Items? ==> origins == v.items
    ensures v.Text? ==> |origins| == |Split(v.s, ",")| == CountChar(v.s, ',') + 1
    ensures v.Text? ==> forall k :: 0 <= k < |origins| ==>
      origins[k] == Trim(Split(v.s, ",")[k], PyWhitespace)
  {
    match v
    case Text(s) =>
      SplitCount(s, ',');
      StripAll(Split(s, ","))
    case Items(items) => items
  }

  /** An entry holds no comma and neither starts nor ends with white space. */
  lemma OriginsAreStrippedPieces(s: string)
    ensures var origins := ParseCorsOrigins(Text(s));
      forall k :: 0 <= k < |origins| ==>
        ',' !in origins[k]
        && (origins[k] != "" ==> !IsPyWhitespace(origins[k][0]) && !IsPyWhitespace(origins[k][|origins[k]| - 1]))
  {
    var pieces := Split(s, ",");
    SplitPiecesFree(s, ",");
    forall k | 0 <= k < |pieces| ensures ',' !in Trim(pieces[k], PyWhitespace) {
      var t := Trim(pieces[k], PyWhitespace);
      var i := TrimOffset(pieces[k], PyWhitespace);
      TrimIsStretch(pieces[k], PyWhitespace);
      forall m | 0 <= m < |t| ensures t[m] != ',' {
        assert !OccursAt(",", pieces[k], i + m);
        CharOccursAt(',', pieces[k], i + m);
      }
    }
  }

  /**
   * Writing a list of origins (without commas or surrounding white space) as
   * one comma-separated string and parsing it gives the list back.
   */
  lemma ParseJoinedOrigins(origins: seq<string>)
    requires |origins| >= 1
    requires forall k :: 0 <= k < |origins| ==> ',' !in origins[k] && Trim(origins[k], PyWhitespace) == origins[k]
    ensures ParseCorsOrigins(Text(Join(origins, ","))) == origins
  {
    JoinSplitRoundTrip(origins, ',');
  }

  /** An empty piece between two commas is kept as an empty entry. */
  lemma EmptyPiecesKept(a: string, b: string)
    requires ',' !in a && ',' !in b
    requires Trim(a, PyWhitespace) == a && Trim(b, PyWhitespace) == b
    ensures ParseCorsOrigins(Text(a + ",," + b)) == [a, "", b]
  {
    var rest := [','] + b;
    SplitOfFree(b, ',');
    SplitPieceThenSeparator([], ',', b);
    assert [] + [','] + b == rest;
    assert Split(rest, [',']) == [[], b];
    SplitPieceThenSeparator(a, ',', rest);
    assert a + [','] + rest == a + ",," + b by {
      assert ",," == [','] + [','];
      assert a + ([','] + [',']) + b == a + [','] + ([','] + b);
    }
    var pieces := Split(a + ",," + b, [',']);
    assert pieces == [a, [], b];
    TrimOfTrimmed([], PyWhitespace);
    StripThree(a, [], b);
  }

  lemma StripThree(x: string, y: string, z: string)
    ensures StripAll([x, y, z]) == [Trim(x, PyWhitespace), Trim(y, PyWhitespace), Trim(z, PyWhitespace)]
  {
  }
}
