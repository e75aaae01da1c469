/**
 * distributed_configuration_downloader/downloader.py, the SDK-based variant:
 * its own routine table, `set_data` over the `app` section of the
 * configuration (keys without the `app.` prefix) and the management URL
 * that `main` displays. Login, the download itself and `make_config` are
 * not part of this model.
 */
module DcdDownloader {
  import opened Python
  import Downloader

  /** `routines`: the same two entries as the raw-HTTP variant (a third,
      content_pack, is commented out in `routines`). */
  const Routines: map<PyValue, string> := map[
    PyStr("index_time_properties") := "make_index_time_properties:makeIndexTimeProperties",
    PyStr("on_prem") := "make_on_prem:makeOnPrem"
  ]

  /** `set_data(args, routines)` over the `app` section. */
  function SetData(args: map<string, PyValue>): (r: Result<map<string, string>>)
    ensures r.Err? <==> Get(args, "routine") !in Routines
    ensures r.Err? ==> r.error == KeyError
    ensures r.Ok? ==> r.value.Keys <= {"routine", "spec"} && "routine" in r.value
    ensures r.Ok? ==> r.value["routine"] == Routines[Get(args, "routine")]
    ensures r.Ok? ==> ("spec" in r.value <==> Get(args, "routine") == PyStr("index_time_properties"))
  {
    var indexes := Downloader.Render(Get(args, "indexes"));
    var properties := Downloader.Render(Get(args, "properties"));
    var routine := Get(args, "routine");
    if routine !in Routines then Err(KeyError)
    else
      var params := map["routine" := Routines[routine]];
      if routine == PyStr("index_time_properties")
      then Ok(params["spec" := Downloader.SpecText(indexes, properties)])
      else Ok(params)
  }

  /** The two routines map to their identifiers; the spec is the shared
      template filled with the rendered indexes and properties values. */
  lemma SetDataRoutines(args: map<string, PyValue>)
    ensures Get(args, "routine") == PyStr("index_time_properties") ==>
      SetData(args) == Ok(map[
        "routine" := "make_index_time_properties:makeIndexTimeProperties",
        "spec" := Downloader.SpecText(Downloader.Render(Get(args, "indexes")), Downloader.Render(Get(args, "properties")))])
    ensures Get(args, "routine") == PyStr("on_prem") ==>
      SetData(args) == Ok(map["routine" := "make_on_prem:makeOnPrem"])
  {
  }

  /** An absent routine, None, or a name outside the table fails the lookup. */
  lemma SetDataUnknownRoutine(args: map<string, PyValue>, name: string)
    requires name != "index_time_properties" && name != "on_prem"
    ensures "routine" !in args ==> SetData(args) == Err(KeyError)
    ensures SetData(args["routine" := PyNone]) == Err(KeyError)
    ensures SetData(args["routine" := PyStr(name)]) == Err(KeyError)
  {
  }

  /** Python's True and False enter the template as `true` and `false`. */
  lemma SetDataOfFlags(args: map<string, PyValue>, a: bool, b: bool)
    requires Get(args, "routine") == PyStr("index_time_properties")
    requires Get(args, "indexes") == PyBool(a) && Get(args, "properties") == PyBool(b)
    ensures SetData(args).Ok?
    ensures SetData(args).value["spec"] == Downloader.SpecText(if a then "true" else "false", if b then "true" else "false")
    ensures Downloader.DecodeSpec(SetData(args).value["spec"]) == Some((a, b))
  {
    LowerStrOfConstants();
    Downloader.SpecRoundTrip(a, b);
  }

  /** Both variants build the same payload from the same three values, the
      raw-HTTP one reading them under `app.`-prefixed keys. */
  lemma SetDataAgrees(config: map<string, PyValue>, args: map<string, PyValue>)
    requires Get(config, "app.indexes") == Get(args, "indexes")
    requires Get(config, "app.properties") == Get(args, "properties")
    requires Get(config, "app.routine") == Get(args, "routine")
    ensures Downloader.SetData(config) == SetData(args)
  {
    assert Routines == Downloader.Routines;
  }

  // ---------------------------------------------------------------------
  // The management URL displayed by `main`

  /** `scheme + "://" + host + ":" + str(port)` over the `splunk` section:
      `+` on a str and anything else raises TypeError, so the scheme and the
      host must be strings; the port goes through `str()` and may be
      anything. */
  function MgmtUrl(splunk: map<string, PyValue>): (r: Result<string>)
    ensures r.Ok? <==> Get(splunk, "scheme").PyStr? && Get(splunk, "host").PyStr?
    ensures r.Err? ==> r.error == TypeError
    ensures r.Ok? ==> |r.value| == |Get(splunk, "scheme").s| + 3 + |Get(splunk, "host").s| + 1 + |Str(Get(splunk, "port"))|
  {
    var scheme := Get(splunk, "scheme");
    var host := Get(splunk, "host");
    if !scheme.PyStr? || !host.PyStr? then Err(TypeError)
    else Ok(scheme.s + "://" + host.s + ":" + Str(Get(splunk, "port")))
  }

  /** Reads a displayed URL back: the scheme before the first "://", the
      port after the last ":", the host in between. */
  function ParseMgmtUrl(url: string): Option<(string, string, string)> {
    match Find(url, "://")
    case None => None
    case Some(i) =>
      var rest := url[i + 3..];
      var j := RFind(rest, ':');
      if j < 0 then None else Some((url[..i], rest[..j], rest[j + 1..]))
  }

  /** The first "://" is the one right after a scheme without ":". */
  lemma FindSchemeSeparator(scheme: string, rest: string)
    requires ':' !in scheme
    ensures Find(scheme + "://" + rest, "://") == Some(|scheme|)
  {
    var url := scheme + "://" + rest;
    assert OccursAt(url, "://", |scheme|) by {
      assert url[|scheme|..|scheme| + 3] == "://";
    }
    forall j | 0 <= j < |scheme| ensures !OccursAt(url, "://", j) {
      assert url[j..j + 3][0] == scheme[j] != "://"[0];
    }
  }

  /** The last ":" is the one before a port text without ":". */
  lemma RFindPortSeparator(host: string, port: string)
    requires ':' !in port
    ensures RFind(host + ":" + port, ':') == |host|
  {
    RFindAppend(host + ":", port, ':');
    RFindAppend(host, ":", ':');
  }

  /** With no ":" in the scheme or the port text, the displayed URL reads
      back as its three parts; the host may hold anything. */
  lemma MgmtUrlRoundTrip(splunk: map<string, PyValue>)
    requires Get(splunk, "scheme").PyStr? && Get(splunk, "host").PyStr?
    requires ':' !in Get(splunk, "scheme").s && ':' !in Str(Get(splunk, "port"))
    ensures ParseMgmtUrl(MgmtUrl(splunk).value)
      == Some((Get(splunk, "scheme").s, Get(splunk, "host").s, Str(Get(splunk, "port"))))
  {
    var scheme := Get(splunk, "scheme").s;
    var host := Get(splunk, "host").s;
    var port := Str(Get(splunk, "port"));
    var rest := host + ":" + port;
    var url := scheme + "://" + rest;
    assert scheme + "://" + host + ":" + port == url;
    FindSchemeSeparator(scheme, rest);
    assert url[|scheme| + 3..] == rest;
    RFindPortSeparator(host, port);
    assert url[..|scheme|] == scheme;
    assert rest[..|host|] == host;
    assert rest[|host| + 1..] == port;
  }

  /** The text of an integer, None or a bool never holds a ":", so for such a
      port only the scheme matters for reading the URL back. */
  lemma PortTextHasNoColon(port: PyValue)
    requires !port.PyStr?
    ensures ':' !in Str(port)
  {
    match port
    case PyInt(n) =>
      var t := IntToString(n);
      assert forall k | 0 <= k < |t| :: t[k] == '-' || IsDecimalDigit(t[k]);
    case _ =>
  }
}
