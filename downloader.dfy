/**
 * downloader.py, the raw-HTTP variant: the routine table, the request
 * payload built by `set_data`, the verify flag computed in `main` and the
 * name `download_app` saves the archive under. The HTTP calls themselves
 * (`make_app`, the GET and the file write of `download_app`) are not part
 * of this model; the response header is passed in as data.
 */
module Downloader {
  import opened Python
  import opened FileNames
  import Utils

  /** `URI_DOWNLOADAPP`, written as the appmaker prefix and the last
      segment "downloadapp". */
  const UriAppmaker: string := "/services/data/appmaker"
  const UriDownloadApp: string := UriAppmaker + "/downloadapp"

  /** `routines`: routine name to the server-side routine identifier. */
  const Routines: map<PyValue, string> := map[
    PyStr("index_time_properties") := "make_index_time_properties:makeIndexTimeProperties",
    PyStr("on_prem") := "make_on_prem:makeOnPrem"
  ]

  const SpecHead: string := "{\"include_indexes\":"
  const SpecSep: string := ", \"include_properties\":"

  /** The `spec` template of `set_data`, filled with two rendered values:
      the JSON object's opening, the two values in order, and its closing
      brace. */
  function SpecText(indexes: string, properties: string): (r: string)
    ensures |r| == |SpecHead| + |indexes| + |SpecSep| + |properties| + 1
    ensures r[..|SpecHead|] == SpecHead && r[|r| - 1] == '}'
    ensures r[|SpecHead|..|SpecHead| + |indexes|] == indexes
  {
    SpecHead + indexes + SpecSep + properties + "}"
  }

  /** `str(value).lower()`: how a configuration value enters the template.
      It is as long as `str(value)`; a bool becomes a JSON boolean and None
      becomes `none`. */
  function Render(v: PyValue): (r: string)
    ensures |r| == |Str(v)|
    ensures v.PyBool? ==> r == (if v.b then "true" else "false")
    ensures v == PyNone ==> r == "none"
  {
    LowerStrOfConstants();
    Lower(Str(v))
  }

  /** `set_data(config, routines)` over the flat configuration mapping. */
  function SetData(config: map<string, PyValue>): (r: Result<map<string, string>>)
    ensures r.Err? <==> Get(config, "app.routine") !in Routines
    ensures r.Err? ==> r.error == KeyError
    ensures r.Ok? ==> r.value.Keys <= {"routine", "spec"} && "routine" in r.value
    ensures r.Ok? ==> r.value["routine"] == Routines[Get(config, "app.routine")]
    ensures r.Ok? ==> ("spec" in r.value <==> Get(config, "app.routine") == PyStr("index_time_properties"))
  {
    var indexes := Render(Get(config, "app.indexes"));
    var properties := Render(Get(config, "app.properties"));
    var routine := Get(config, "app.routine");
    if routine !in Routines then Err(KeyError)
    else
      var data := map["routine" := Routines[routine]];
      if routine == PyStr("index_time_properties")
      then Ok(data["spec" := SpecText(indexes, properties)])
      else Ok(data)
  }

  /** The two routines map to their identifiers; only index_time_properties
      carries a spec, built from the rendered indexes and properties values. */
  lemma SetDataRoutines(config: map<string, PyValue>)
    ensures Get(config, "app.routine") == PyStr("index_time_properties") ==>
      SetData(config) == Ok(map[
        "routine" := "make_index_time_properties:makeIndexTimeProperties",
        "spec" := SpecText(Render(Get(config, "app.indexes")), Render(Get(config, "app.properties")))])
    ensures Get(config, "app.routine") == PyStr("on_prem") ==>
      SetData(config) == Ok(map["routine" := "make_on_prem:makeOnPrem"])
  {
  }

  /** A missing routine, None, or a name outside the table fails the lookup. */
  lemma SetDataUnknownRoutine(config: map<string, PyValue>, name: string)
    requires name != "index_time_properties" && name != "on_prem"
    ensures "app.routine" !in config ==> SetData(config) == Err(KeyError)
    ensures SetData(config["app.routine" := PyNone]) == Err(KeyError)
    ensures SetData(config["app.routine" := PyStr(name)]) == Err(KeyError)
  {
  }

  /** indexes True and properties False give the documented spec literal. */
  lemma SetDataScenario(config: map<string, PyValue>)
    requires Get(config, "app.routine") == PyStr("index_time_properties")
    requires Get(config, "app.indexes") == PyBool(true)
    requires Get(config, "app.properties") == PyBool(false)
    ensures SetData(config).Ok?
    ensures SetData(config).value["spec"] == "{\"include_indexes\":true, \"include_properties\":false}"
  {
    LowerStrOfConstants();
    assert Render(PyBool(true)) == "true";
    assert Render(PyBool(false)) == "false";
    assert SetData(config).value["spec"] == SpecText("true", "false");
    SpecTextOfFlags();
  }

  /** The filled template as one literal. Kept apart so that the literal
      is unfolded in a small proof of its own rather than without bound in
      the lemma above. */
  lemma SpecTextOfFlags()
    ensures SpecText("true", "false") == "{\"include_indexes\":true, \"include_properties\":false}"
  {
  }

  /** Values are not validated: "yes" and None go in as `yes` and `none`,
      which the template's reader does not accept as booleans. */
  lemma SetDataNotValidated(config: map<string, PyValue>)
    requires Get(config, "app.routine") == PyStr("index_time_properties")
    requires Get(config, "app.indexes") == PyStr("yes")
    requires Get(config, "app.properties") == PyNone
    ensures SetData(config).Ok?
    ensures SetData(config).value["spec"] == SpecText("yes", "none")
    ensures DecodeSpec(SetData(config).value["spec"]) == None
  {
    assert Lower("yes") == "yes";
    DecodeSpecRejectsYes("none");
  }

  /** A spec whose first value is `yes` is not read as JSON booleans. */
  lemma DecodeSpecRejectsYes(y: string)
    ensures DecodeSpec(SpecText("yes", y)) == None
  {
    var s := SpecText("yes", y);
    var mid := s[|SpecHead|..|s| - 1];
    assert mid[..3] == "yes";
    assert mid[..4][0] == 'y' != "true"[0];
    assert mid[..5][0] == 'y' != "false"[0];
  }

  // ---------------------------------------------------------------------
  // Reading the spec back

  /** Reads a JSON `true` or `false` at the start of `t`. */
  function JsonBoolPrefix(t: string): Option<(bool, string)> {
    if |t| >= 4 && t[..4] == "true" then Some((true, t[4..]))
    else if |t| >= 5 && t[..5] == "false" then Some((false, t[5..]))
    else None
  }

  /** Reads a spec of the template's shape back into its two JSON booleans;
      None for anything else. */
  function DecodeSpec(s: string): Option<(bool, bool)> {
    if |s| < |SpecHead| + 1 || s[..|SpecHead|] != SpecHead || s[|s| - 1] != '}' then None
    else
      match JsonBoolPrefix(s[|SpecHead|..|s| - 1])
      case None => None
      case Some((a, rest)) =>
        if |rest| < |SpecSep| || rest[..|SpecSep|] != SpecSep then None
        else
          var tail := rest[|SpecSep|..];
          if tail == "true" then Some((a, true))
          else if tail == "false" then Some((a, false))
          else None
  }

  /** A JSON boolean followed by any text is read off the front. */
  lemma JsonBoolPrefixOf(x: string, rest: string)
    requires x == "true" || x == "false"
    ensures JsonBoolPrefix(x + rest) == Some((x == "true", rest))
  {
    var t := x + rest;
    assert t[..|x|] == x;
    assert t[|x|..] == rest;
    if x == "false" {
      assert t[..4][0] == 'f' != "true"[0];
    }
  }

  /** A spec filled with JSON literals reads back as those literals. */
  lemma {:induction false} DecodeSpecText(x: string, y: string)
    requires x == "true" || x == "false"
    requires y == "true" || y == "false"
    ensures DecodeSpec(SpecText(x, y)) == Some((x == "true", y == "true"))
  {
    var s := SpecText(x, y);
    assert s[..|SpecHead|] == SpecHead;
    var mid := s[|SpecHead|..|s| - 1];
    assert mid == x + (SpecSep + y);
    var rest := SpecSep + y;
    JsonBoolPrefixOf(x, rest);
    assert rest[..|SpecSep|] == SpecSep;
    assert rest[|SpecSep|..] == y;
  }

  /** Python's booleans render as JSON's: the spec of two flags reads back as
      those flags. */
  lemma SpecRoundTrip(a: bool, b: bool)
    ensures DecodeSpec(SpecText(Render(PyBool(a)), Render(PyBool(b)))) == Some((a, b))
  {
    LowerStrOfConstants();
    DecodeSpecText(Render(PyBool(a)), Render(PyBool(b)));
  }

  /** When both configured values render as "true" or "false" (Python
      booleans, or the strings "True"/"False" the defaults use), the server
      reads the same flags `str2bool` would derive. */
  lemma SpecAgreesWithStr2Bool(config: map<string, PyValue>)
    requires Get(config, "app.routine") == PyStr("index_time_properties")
    requires Render(Get(config, "app.indexes")) in ["true", "false"]
    requires Render(Get(config, "app.properties")) in ["true", "false"]
    ensures SetData(config).Ok?
    ensures DecodeSpec(SetData(config).value["spec"])
      == Some((Utils.Str2Bool(Get(config, "app.indexes")), Utils.Str2Bool(Get(config, "app.properties"))))
  {
    var x := Render(Get(config, "app.indexes"));
    var y := Render(Get(config, "app.properties"));
    Str2BoolOfRendered(Get(config, "app.indexes"));
    Str2BoolOfRendered(Get(config, "app.properties"));
    DecodeSpecText(x, y);
  }

  /** A value rendered as a JSON boolean is true for `str2bool` exactly when
      it renders as `true`. */
  lemma Str2BoolOfRendered(v: PyValue)
    requires Render(v) in ["true", "false"]
    ensures Render(v) == "true" || Render(v) == "false"
    ensures Utils.Str2Bool(v) <==> Render(v) == "true"
  {
    assert Utils.Str2Bool(v) == (Render(v) in Utils.TruthWords);
    assert "false" !in Utils.TruthWords;
  }

  // ---------------------------------------------------------------------
  // The verify flag of `main`

  /** `ssl_verify(str2bool(config.get("ssl.verify")))`. */
  function VerifySetting(config: map<string, PyValue>): (r: PyValue)
    ensures !Truthy(r)
  {
    Utils.SslVerify(PyBool(Utils.Str2Bool(Get(config, "ssl.verify"))))
  }

  /** Configuring "true" still yields None: the HTTP client is handed None
      rather than True. */
  lemma VerifySettingIgnoresTrue(config: map<string, PyValue>)
    requires Get(config, "ssl.verify") == PyStr("true")
    ensures Utils.Str2Bool(Get(config, "ssl.verify"))
    ensures VerifySetting(config) == PyNone
  {
    assert Lower("true") == "true";
  }

  /** The flag as evidently intended, with `ssl_verify` returning it. */
  function VerifySettingIntended(config: map<string, PyValue>): (r: PyValue)
    ensures r.PyBool? && (r.b <==> Utils.Str2Bool(Get(config, "ssl.verify")))
  {
    Utils.SslVerifyIntended(PyBool(Utils.Str2Bool(Get(config, "ssl.verify"))))
  }

  // ---------------------------------------------------------------------
  // The saved file name

  /** The name `download_app` writes the archive under, given the response's
      `Content-Disposition` header (None when absent) and the configured
      extension (None when unset). The fallback branch reads
      `URL_DOWNLOADAPP`, a name that is never defined, so it raises; after
      the header is split, `name + '.' + extension` raises TypeError for an
      extension that is not a string. */
  function SavedName(contentDisposition: Option<string>, extension: PyValue): (r: Result<string>)
    ensures contentDisposition.None? ==> r == Err(NameError)
    ensures contentDisposition.Some? && !Contains(contentDisposition.value, FilenameMarker) ==> r == Err(IndexError)
    ensures contentDisposition.Some? ==>
      (r.Err? <==> !Contains(contentDisposition.value, FilenameMarker) || !extension.PyStr?)
    ensures r.Err? ==> r.error in {NameError, IndexError, TypeError}
    ensures r.Ok? ==>
              && extension.PyStr?
              && |extension.s| < |r.value|
              && r.value[|r.value| - |extension.s| - 1..] == "." + extension.s
  {
    match contentDisposition
    case None => Err(NameError)
    case Some(header) =>
      match HeaderFilename(header)
      case Err(e) => Err(e)
      case Ok(filename) =>
        if !extension.PyStr? then Err(TypeError) else Ok(ReplaceExtension(filename, extension.s))
  }

  /** The name is the text between the first marker and the next one, with
      its extension forced; an unset extension raises TypeError. */
  lemma SavedNameFromHeader(a: string, b: string, extension: PyValue)
    requires !Contains(a, FilenameMarker)
    ensures extension.PyStr? ==>
              SavedName(Some(a + FilenameMarker + b), extension)
              == Ok(ReplaceExtension(Split(b, FilenameMarker)[0], extension.s))
    ensures !extension.PyStr? ==> SavedName(Some(a + FilenameMarker + b), extension) == Err(TypeError)
  {
    HeaderFilenameAfterMarker(a, b);
  }

  /** "attachment; filename=foo.tar" with tgz is saved as foo.tgz. */
  lemma SavedNameExample()
    ensures SavedName(Some("attachment; filename=foo.tar"), PyStr("tgz")) == Ok("foo.tgz")
  {
    assert "attachment; filename=foo.tar" == "attachment; " + FilenameMarker + "foo.tar";
    NoMarkerWithoutEquals("attachment; ");
    NoMarkerWithoutEquals("foo.tar");
    HeaderFilenameSingleMarker("attachment; ", "foo.tar");
    ReplaceExtensionSingle();
  }

  /** The fallback as evidently intended: the last segment of
      `URI_DOWNLOADAPP`, "downloadapp", with the extension appended. */
  function SavedNameCorrected(contentDisposition: Option<string>, extension: PyValue): (r: Result<string>)
    ensures contentDisposition.Some? ==> r == SavedName(contentDisposition, extension)
    ensures contentDisposition.None? ==> (r.Ok? <==> extension.PyStr?)
    ensures contentDisposition.None? && r.Err? ==> r.error == TypeError
  {
    match contentDisposition
    case None =>
      var parts := Split(UriDownloadApp, "/");
      if !extension.PyStr? then Err(TypeError)
      else Ok(ReplaceExtension(parts[|parts| - 1], extension.s))
    case Some(_) => SavedName(contentDisposition, extension)
  }

  /** Without the header the corrected code saves "downloadapp." + extension. */
  lemma SavedNameCorrectedFallback(extension: string)
    ensures SavedNameCorrected(None, PyStr(extension)) == Ok("downloadapp." + extension)
  {
    var parts := Split(UriDownloadApp, "/");
    UriLastSegment();
    var leaf := parts[|parts| - 1];
    assert leaf == "downloadapp";
    assert forall k | 0 <= k < |leaf| :: leaf[k] != '.';
    ReplaceExtensionAppends(leaf, extension);
    assert leaf + "." == "downloadapp.";
  }

  /** `URI_DOWNLOADAPP.split("/")[-1]` is "downloadapp". */
  lemma UriLastSegment()
    ensures var parts := Split(UriDownloadApp, "/"); parts[|parts| - 1] == "downloadapp"
  {
    assert "/" == ['/'];
    assert "/downloadapp" == "/" + "downloadapp";
    SplitLastOnChar(UriDownloadApp, UriAppmaker, '/', "downloadapp");
  }
}
