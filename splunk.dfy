/**
 * distributed_configuration_downloader/splunk.py: the part of the SDK
 * wrapper that is computation rather than REST traffic.
 *  - `KVCollection._make_list` folds a collection's flat content
 *    (`field.<name>` -> text) into a small dictionary; `fields` and
 *    `accelerated_fields` call it with their prefix.
 *  - `DistributedConfigurationManagement.download_app` picks the request
 *    body and derives the name the archive is saved under.
 * The collection's content and the response's header are passed in as
 * data; `make_app`, the GET and the file write are not part of this model.
 */
module Splunk {
  import opened Python
  import opened FileNames
  import Downloader
  import DcdDownloader

  // ---------------------------------------------------------------------
  // KVCollection._make_list

  /** The value stored for a matching key: digit-only text becomes an int,
      other text is stripped. A value that is not a string has neither
      `isdigit` nor `strip`, so the handler for the first AttributeError
      raises a second one. Text that `isdigit` accepts but `int` does not
      (a superscript digit, say) raises ValueError, which nothing catches,
      and so does decimal text longer than CPython's digit limit. */
  function ConvertValue(v: PyValue): (r: Result<PyValue>)
    ensures r.Ok? <==>
      (v.PyStr? && (IsDigits(v.s) ==> AllDecimalDigits(v.s) && |v.s| <= IntMaxStrDigits))
    ensures r.Err? ==> (r.error == AttributeError <==> !v.PyStr?)
    ensures r.Err? ==> r.error == AttributeError || r.error == ValueError
    ensures r.Ok? ==> (r.value.PyInt? <==> IsDigits(v.s))
    ensures r.Ok? && r.value.PyInt? ==> 0 <= r.value.i
    ensures r.Ok? && r.value.PyStr? ==> |r.value.s| <= |v.s|
  {
    match v
    case PyStr(s) =>
      if IsDigits(s) then
        if AllDecimalDigits(s) && |s| <= IntMaxStrDigits then Ok(PyInt(DigitsValue(s)))
        else Err(ValueError)
      else Ok(PyStr(Strip(s)))
    case _ => Err(AttributeError)
  }

  /** The text `str(n)` writes converts back to `n`, unless it has more
      digits than `int()` accepts. */
  lemma ConvertValueOfNumber(n: nat)
    ensures |NatToString(n)| <= IntMaxStrDigits
      ==> ConvertValue(PyStr(NatToString(n))) == Ok(PyInt(n))
    ensures |NatToString(n)| > IntMaxStrDigits
      ==> ConvertValue(PyStr(NatToString(n))) == Err(ValueError)
  {
    DigitsValueOfNatToString(n);
  }

  /** A digit text without a leading zero is stored as the number whose
      text it is. */
  lemma ConvertValueOfDigits(s: string)
    requires |s| > 0 && AllDecimalDigits(s) && (s[0] != '0' || |s| == 1)
    ensures |s| <= IntMaxStrDigits ==>
      (ConvertValue(PyStr(s)).Ok? && ConvertValue(PyStr(s)).value.PyInt?
       && NatToString(ConvertValue(PyStr(s)).value.i) == s)
    ensures |s| > IntMaxStrDigits ==> ConvertValue(PyStr(s)) == Err(ValueError)
  {
    NatToStringOfDigitsValue(s);
  }

  /** Decimal text longer than CPython's digit limit passes `isdigit` and
      raises ValueError in `int`, which nothing catches. */
  lemma ConvertValueTooLong(s: string)
    requires AllDecimalDigits(s) && |s| > IntMaxStrDigits
    ensures ConvertValue(PyStr(s)) == Err(ValueError)
  {
  }

  /** A superscript two raises ValueError: `isdigit` accepts it, `int`
      does not. The character enters as a parameter pinned by `requires`,
      so that the verifier does not unfold a literal text without bound;
      the other `requires x == ...` lemmas and the literal-equality
      helpers of this model have the same purpose. */
  lemma ConvertValueSuperscript(t: string)
    requires t == [0xB2 as char]
    ensures ConvertValue(PyStr(t)) == Err(ValueError)
  {
    assert IsNonDecimalDigit(t[0]) && !IsDecimalDigit(t[0]);
  }

  /** Other text loses its surrounding whitespace and nothing else. */
  lemma ConvertValueStrips(w1: string, t: string, w2: string)
    requires AllSpace(w1) && AllSpace(w2)
    requires t == [] || (!IsSpace(t[0]) && !IsSpace(t[|t| - 1]))
    requires !IsDigits(w1 + t + w2)
    ensures ConvertValue(PyStr(w1 + t + w2)) == Ok(PyStr(t))
  {
    StripPadded(w1, t, w2);
  }

  /** "12" becomes the int 12, while " 12" is not digit-only and becomes the
      string "12". */
  lemma ConvertValueExamples()
    ensures ConvertValue(PyStr("12")) == Ok(PyInt(12))
    ensures ConvertValue(PyStr(" 12")) == Ok(PyStr("12"))
  {
    assert DigitsValue("12") == 12 by {
      assert "12"[..1] == "1";
      assert "1"[..0] == "";
    }
    assert " 12" == " " + "12" + "";
    assert !IsDigits(" 12") by { assert !IsDecimalDigit(" 12"[0]); }
    ConvertValueStrips(" ", "12", "");
  }

  /** `k.split(".")[1]`: the text between the first and the second dot;
      IndexError for a key without a dot. */
  function SecondSegment(k: string): (r: Result<string>)
    ensures r.Ok? <==> Contains(k, ".")
    ensures r.Err? ==> r.error == IndexError
    ensures r.Ok? ==> !Contains(r.value, ".")
  {
    SplitHasSecondPiece(k, ".");
    SplitPiecesLackSeparator(k, ".");
    var parts := Split(k, ".");
    if |parts| < 2 then Err(IndexError) else Ok(parts[1])
  }

  /** For `a.b` followed by nothing or by a further dotted part, the second
      segment is `b`. */
  lemma SecondSegmentOf(a: string, b: string, c: string)
    requires '.' !in a && '.' !in b && (c == [] || c[0] == '.')
    ensures SecondSegment(a + "." + b + c) == Ok(b)
  {
    assert "." == ['.'];
    assert a + "." + b + c == a + "." + (b + c);
    SingleCharFirst(a, '.', b + c);
    SplitAfterFirst(a, ".", b + c);
    FirstPieceBeforeDot(b, c);
  }

  /** The first piece of `b + c` split on dots is `b` when `b` has no dot
      and `c` is empty or starts with one. */
  lemma FirstPieceBeforeDot(b: string, c: string)
    requires '.' !in b && (c == [] || c[0] == '.')
    ensures Split(b + c, ".")[0] == b
  {
    assert "." == ['.'];
    if c == [] {
      assert b + c == b;
      forall j | 0 <= j <= |b| - 1 ensures !OccursAt(b, ".", j) {
        assert b[j..j + 1] == [b[j]];
      }
      SplitWithoutSeparator(b, ".");
    } else {
      assert b + c == b + "." + c[1..];
      SingleCharFirst(b, '.', c[1..]);
      SplitAfterFirst(b, ".", c[1..]);
    }
  }

  /** "field.a.b" gives "a". */
  lemma SecondSegmentExample()
    ensures SecondSegment("field.a.b") == Ok("a")
  {
    assert "field.a.b" == "field" + "." + "a" + ".b";
    SecondSegmentOf("field", "a", ".b");
  }

  /** One turn of the loop on the dictionary built so far: keys that do
      not match are skipped; for a matching key the value is converted
      first and the key split second. */
  function Step(m: map<string, PyValue>, item: (string, PyValue), field: string): (r: Result<map<string, PyValue>>)
    ensures r.Err? ==> StartsWith(item.0, field)
    ensures r.Err? ==> r.error in {AttributeError, ValueError, IndexError}
    ensures r.Ok? ==> m.Keys <= r.value.Keys
  {
    if !StartsWith(item.0, field) then Ok(m)
    else
      match ConvertValue(item.1)
      case Err(e) => Err(e)
      case Ok(x) =>
        match SecondSegment(item.0)
        case Err(e) => Err(e)
        case Ok(name) => Ok(m[name := x])
  }

  /** The dictionary `_make_list` holds after the loop has gone through
      `items` in order, or the exception that ended the loop. Later keys
      overwrite earlier ones. */
  function Collect(items: seq<(string, PyValue)>, field: string): (r: Result<map<string, PyValue>>)
    ensures r.Err? ==> r.error in {AttributeError, ValueError, IndexError}
    decreases |items|
  {
    if |items| == 0 then Ok(map[])
    else
      match Collect(items[..|items| - 1], field)
      case Err(e) => Err(e)
      case Ok(m) => Step(m, items[|items| - 1], field)
  }

  /** `resutls or None`: None when nothing matched. */
  function MakeListSpec(content: seq<(string, PyValue)>, field: string): (r: Result<Option<map<string, PyValue>>>)
    ensures r.Err? <==> Collect(content, field).Err?
    ensures r.Ok? ==> (r.value.None? <==> forall i | 0 <= i < |content| :: !StartsWith(content[i].0, field))
    ensures r.Ok? && r.value.Some? ==> r.value.value == Collect(content, field).value
  {
    match Collect(content, field)
    case Err(e) => Err(e)
    case Ok(m) =>
      CollectEmptyIffNoMatch(content, field);
      if m == map[] then Ok(None) else Ok(Some(m))
  }

  /** A completed loop leaves the dictionary empty exactly when no key
      matched, since every match stores an entry and none is removed. */
  lemma {:induction false} CollectEmptyIffNoMatch(items: seq<(string, PyValue)>, field: string)
    requires Collect(items, field).Ok?
    ensures Collect(items, field).value == map[] <==> forall i | 0 <= i < |items| :: !StartsWith(items[i].0, field)
    decreases |items|
  {
    if |items| > 0 {
      var prefix := items[..|items| - 1];
      var last := items[|items| - 1];
      assert forall i | 0 <= i < |prefix| :: prefix[i] == items[i];
      CollectEmptyIffNoMatch(prefix, field);
      var m := Collect(prefix, field).value;
      if StartsWith(last.0, field) {
        var name := SecondSegment(last.0).value;
        assert name in Collect(items, field).value;
      }
    }
  }

  /** Every stored value is an int or a string. */
  lemma {:induction false} CollectValuesConverted(items: seq<(string, PyValue)>, field: string)
    requires Collect(items, field).Ok?
    ensures forall name | name in Collect(items, field).value ::
      Collect(items, field).value[name].PyInt? || Collect(items, field).value[name].PyStr?
    decreases |items|
  {
    if |items| > 0 {
      CollectValuesConverted(items[..|items| - 1], field);
    }
  }

  /** Once the loop has raised, the remaining items change nothing. */
  lemma {:induction false} CollectStopsAt(items: seq<(string, PyValue)>, field: string, n: nat)
    requires n <= |items| && Collect(items[..n], field).Err?
    ensures Collect(items, field) == Collect(items[..n], field)
    decreases |items| - n
  {
    if n < |items| {
      var prefix := items[..|items| - 1];
      assert prefix[..n] == items[..n];
      CollectStopsAt(prefix, field, n);
    } else {
      assert items[..n] == items;
    }
  }

  /** An item that stops the loop: its key matches and either its value
      cannot be converted or its key has no dot. */
  predicate Fails(item: (string, PyValue), field: string) {
    StartsWith(item.0, field) && (ConvertValue(item.1).Err? || SecondSegment(item.0).Err?)
  }

  /** The exception a failing item raises: the value is converted before
      the key is split, so a value that cannot be converted wins over a
      missing dot. */
  function FailureOf(item: (string, PyValue)): (e: PyError)
    ensures e == AttributeError <==> !item.1.PyStr?
    ensures e == AttributeError || e == ValueError || e == IndexError
  {
    if ConvertValue(item.1).Err? then ConvertValue(item.1).error else IndexError
  }

  /** The loop completes exactly when no item fails. */
  lemma {:induction false} CollectOkIffNoFailure(items: seq<(string, PyValue)>, field: string)
    ensures Collect(items, field).Ok? <==> forall i | 0 <= i < |items| :: !Fails(items[i], field)
    decreases |items|
  {
    if |items| > 0 {
      var prefix := items[..|items| - 1];
      CollectOkIffNoFailure(prefix, field);
      assert forall i | 0 <= i < |prefix| :: prefix[i] == items[i];
    }
  }

  /** The exception is the one of the first failing item. */
  lemma {:induction false} CollectFailsAtFirst(items: seq<(string, PyValue)>, field: string, i: nat)
    requires i < |items| && Fails(items[i], field)
    requires forall j | 0 <= j < i :: !Fails(items[j], field)
    ensures Collect(items, field) == Err(FailureOf(items[i]))
  {
    var upto := items[..i + 1];
    var prefix := items[..i];
    assert upto[..i] == prefix;
    assert forall j | 0 <= j < i :: prefix[j] == items[j];
    CollectOkIffNoFailure(prefix, field);
    assert upto[i] == items[i];
    assert Collect(upto, field) == Err(FailureOf(items[i]));
    CollectStopsAt(items, field, i + 1);
  }

  /** Some matching item of `items` has `name` as its second segment. */
  predicate NamedBy(items: seq<(string, PyValue)>, field: string, name: string) {
    exists i | 0 <= i < |items| :: StartsWith(items[i].0, field) && SecondSegment(items[i].0) == Ok(name)
  }

  /** A name is given by `items` when it is given by all but the last item
      or by the last one. */
  lemma NamedBySplit(items: seq<(string, PyValue)>, field: string, name: string)
    requires |items| > 0
    ensures NamedBy(items, field, name) <==>
      || NamedBy(items[..|items| - 1], field, name)
      || (StartsWith(items[|items| - 1].0, field) && SecondSegment(items[|items| - 1].0) == Ok(name))
  {
    var n := |items| - 1;
    var prefix := items[..n];
    if NamedBy(prefix, field, name) {
      var i :| 0 <= i < n && StartsWith(prefix[i].0, field) && SecondSegment(prefix[i].0) == Ok(name);
      assert prefix[i] == items[i];
    }
    if NamedBy(items, field, name) {
      var i :| 0 <= i < |items| && StartsWith(items[i].0, field) && SecondSegment(items[i].0) == Ok(name);
      if i < n {
        assert prefix[i] == items[i];
      }
    }
  }

  /** The keys of the result are the second segments of the matching keys. */
  lemma {:induction false} CollectKeys(items: seq<(string, PyValue)>, field: string)
    requires Collect(items, field).Ok?
    ensures forall name :: name in Collect(items, field).value <==> NamedBy(items, field, name)
    decreases |items|
  {
    if |items| > 0 {
      var n := |items| - 1;
      CollectKeys(items[..n], field);
      forall name ensures name in Collect(items, field).value <==> NamedBy(items, field, name) {
        NamedBySplit(items, field, name);
      }
    }
  }

  /** The value kept for a name is the converted value of the last matching
      item with that second segment. */
  lemma {:induction false} CollectLastWins(items: seq<(string, PyValue)>, field: string, i: nat)
    requires Collect(items, field).Ok?
    requires i < |items| && StartsWith(items[i].0, field)
    requires forall j | i < j < |items| ::
      !(StartsWith(items[j].0, field) && SecondSegment(items[j].0) == SecondSegment(items[i].0))
    ensures SecondSegment(items[i].0).Ok? && ConvertValue(items[i].1).Ok?
    ensures SecondSegment(items[i].0).value in Collect(items, field).value
    ensures Collect(items, field).value[SecondSegment(items[i].0).value] == ConvertValue(items[i].1).value
    decreases |items|
  {
    CollectOkIffNoFailure(items, field);
    assert !Fails(items[i], field);
    var prefix := items[..|items| - 1];
    assert forall j | 0 <= j < |prefix| :: prefix[j] == items[j];
    if i < |items| - 1 {
      CollectOkIffNoFailure(prefix, field);
      CollectLastWins(prefix, field, i);
    }
  }

  /** A collection whose content the SDK has loaded. Its content is only
      read here; the items are in the order the service returned them. */
  class KVCollection {
    const content: seq<(string, PyValue)>

    constructor(content: seq<(string, PyValue)>)
      ensures this.content == content
    {
      this.content := content;
    }

    /** `_make_list(field)`: the loop, with its early exit when an item
        raises. */
    method MakeList(field: string) returns (r: Result<Option<map<string, PyValue>>>)
      ensures r == MakeListSpec(content, field)
    {
      var results: map<string, PyValue> := map[];
      var i := 0;
      while i < |content|
        invariant 0 <= i <= |content|
        invariant Collect(content[..i], field) == Ok(results)
      {
        var (k, v) := content[i];
        assert content[..i + 1][..i] == content[..i];
        assert content[..i + 1][i] == content[i];
        if StartsWith(k, field) {
          var value := ConvertValue(v);
          if value.Err? {
            CollectStopsAt(content, field, i + 1);
            return Err(value.error);
          }
          var name := SecondSegment(k);
          if name.Err? {
            CollectStopsAt(content, field, i + 1);
            return Err(name.error);
          }
          results := results[name.value := value.value];
        }
        i := i + 1;
      }
      assert content[..i] == content;
      if results == map[] {
        r := Ok(None);
      } else {
        r := Ok(Some(results));
      }
    }

    /** The `fields` property. */
    method Fields() returns (r: Result<Option<map<string, PyValue>>>)
      ensures r == MakeListSpec(content, "field")
    {
      r := MakeList("field");
    }

    /** The `accelerated_fields` property. */
    method AcceleratedFields() returns (r: Result<Option<map<string, PyValue>>>)
      ensures r == MakeListSpec(content, "accelerated_fields")
    {
      r := MakeList("accelerated_fields");
    }
  }

  // ---------------------------------------------------------------------
  // download_app: the request body

  /** What `download_app` sends: the reply of `make_app(params)`, or the
      given parameters themselves. */
  datatype Body = MadeApp(params: map<string, PyValue>) | Given(params: map<string, PyValue>)

  /** The body chosen for `params` (None when the caller left the default):
      `params.get("routine")` on None raises AttributeError. */
  function SelectBody(params: Option<map<string, PyValue>>): (r: Result<Body>)
    ensures r.Err? <==> params.None?
    ensures r.Err? ==> r.error == AttributeError
    ensures r.Ok? ==> r.value.params == params.value
    ensures r.Ok? ==> (r.value.MadeApp? <==> Truthy(Get(params.value, "routine")))
  {
    match params
    case None => Err(AttributeError)
    case Some(p) => if Truthy(Get(p, "routine")) then Ok(MadeApp(p)) else Ok(Given(p))
  }

  /** A dictionary of strings seen as a dictionary of Python values. */
  function AsValues(m: map<string, string>): (r: map<string, PyValue>)
    ensures r.Keys == m.Keys
    ensures forall k | k in m :: r[k] == PyStr(m[k])
  {
    map k | k in m :: PyStr(m[k])
  }

  /** The parameters `set_data` builds always name a routine, so the body
      is always made by `make_app`. */
  lemma SelectBodyOfSetData(args: map<string, PyValue>)
    requires DcdDownloader.SetData(args).Ok?
    ensures SelectBody(Some(AsValues(DcdDownloader.SetData(args).value))).value.MadeApp?
  {
    var params := DcdDownloader.SetData(args).value;
    assert params["routine"] in DcdDownloader.Routines.Values;
    assert params["routine"] != "";
  }

  /** Parameters without a routine, or with an empty one, are sent as they
      are. */
  lemma SelectBodyWithoutRoutine(p: map<string, PyValue>)
    requires "routine" !in p || p["routine"] == PyStr("")
    ensures SelectBody(Some(p)) == Ok(Given(p))
  {
  }

  // ---------------------------------------------------------------------
  // download_app: the saved file name

  /** `PATH_DOWNLOADAPP`, written as the appmaker prefix and the last
      segment "downloadapp". */
  const PathAppmaker: string := "/services/data/appmaker"
  const PathDownloadApp: string := PathAppmaker + "/downloadapp"

  /** The prefix every saved name gets. */
  const SplunkPrefix: string := "Splunk_"

  /** `PATH_DOWNLOADAPP.split("/")[-1]` is "downloadapp". */
  lemma PathLastSegment()
    ensures var parts := Split(PathDownloadApp, "/"); parts[|parts| - 1] == "downloadapp"
  {
    assert "/" == ['/'];
    assert "/downloadapp" == "/" + "downloadapp";
    SplitLastOnChar(PathDownloadApp, PathAppmaker, '/', "downloadapp");
  }

  /** The name before the prefix: the header's `filename=` text, or the
      last segment of the download path with the extension appended, where
      `"." + extension` raises TypeError for an extension that is not a
      string. */
  function BaseName(contentDisposition: Option<string>, extension: PyValue): (r: Result<string>)
    ensures contentDisposition.Some? ==>
              (r.Err? <==> !Contains(contentDisposition.value, FilenameMarker))
    ensures contentDisposition.Some? && r.Err? ==> r.error == IndexError
    ensures contentDisposition.None? ==> (r.Err? <==> !extension.PyStr?)
    ensures contentDisposition.None? && r.Err? ==> r.error == TypeError
    ensures contentDisposition.None? && extension.PyStr? ==> r == Ok("downloadapp." + extension.s)
  {
    match contentDisposition
    case None =>
      var parts := Split(PathDownloadApp, "/");
      PathLastSegment();
      assert parts[|parts| - 1] + "." == "downloadapp.";
      if !extension.PyStr? then Err(TypeError) else Ok(parts[|parts| - 1] + "." + extension.s)
    case Some(header) => HeaderFilename(header)
  }

  /** The name `download_app` writes the archive under: "Splunk_" before
      the base name, then the last extension replaced by the caller's. A
      header without the marker raises IndexError; otherwise an extension
      that is not a string raises TypeError. */
  function SavedName(contentDisposition: Option<string>, extension: PyValue): (r: Result<string>)
    ensures r.Err? <==>
              || (contentDisposition.Some? && !Contains(contentDisposition.value, FilenameMarker))
              || !extension.PyStr?
    ensures r.Err? ==>
              r.error == (if contentDisposition.Some? && !Contains(contentDisposition.value, FilenameMarker)
                          then IndexError else TypeError)
    ensures r.Ok? ==> StartsWith(r.value, SplunkPrefix)
    ensures r.Ok? ==>
              && extension.PyStr?
              && |extension.s| < |r.value|
              && r.value[|r.value| - |extension.s| - 1..] == "." + extension.s
  {
    match BaseName(contentDisposition, extension)
    case Err(e) => Err(e)
    case Ok(base) =>
      if !extension.PyStr? then Err(TypeError)
      else
        PrefixSurvives(base, extension.s);
        Ok(ReplaceExtension(SplunkPrefix + base, extension.s))
  }

  /** Forcing an extension onto a prefixed name keeps the prefix. */
  lemma PrefixSurvives(base: string, extension: string)
    ensures StartsWith(ReplaceExtension(SplunkPrefix + base, extension), SplunkPrefix)
  {
    var named := SplunkPrefix + base;
    SplitextKeepsPrefix(SplunkPrefix, base);
    var r := ReplaceExtension(named, extension);
    assert r[..|SplunkPrefix|] == Splitext(named).0[..|SplunkPrefix|];
  }

  /** The name is "Splunk_" and the text between the first marker and the
      next one, with its extension forced; an unset extension raises
      TypeError. */
  lemma SavedNameFromHeader(a: string, b: string, extension: PyValue)
    requires !Contains(a, FilenameMarker)
    ensures extension.PyStr? ==>
              SavedName(Some(a + FilenameMarker + b), extension)
              == Ok(ReplaceExtension(SplunkPrefix + Split(b, FilenameMarker)[0], extension.s))
    ensures !extension.PyStr? ==> SavedName(Some(a + FilenameMarker + b), extension) == Err(TypeError)
  {
    HeaderFilenameAfterMarker(a, b);
  }

  /** Forcing the extension of a prefixed name keeps the prefix and the
      stem. */
  lemma ReplaceExtensionPrefixed(stem: string, e: string, extension: string)
    requires '.' !in e && '/' !in e && '/' !in stem
    ensures ReplaceExtension(SplunkPrefix + (stem + "." + e), extension) == SplunkPrefix + (stem + "." + extension)
  {
    assert SplunkPrefix + (stem + "." + e) == (SplunkPrefix + stem) + "." + e;
    assert SplunkPrefix + (stem + "." + extension) == (SplunkPrefix + stem) + "." + extension;
    assert '/' !in SplunkPrefix;
    HasStemPlain(SplunkPrefix + stem);
    ReplaceExtensionKeepsStem(SplunkPrefix + stem, e, extension);
  }

  /** For a header name with a real stem and a plain extension, this variant
      saves exactly the other variant's name with "Splunk_" in front. */
  lemma SavedNameAddsPrefix(a: string, stem: string, e: string, extension: string)
    requires !Contains(a, FilenameMarker) && !Contains(stem + "." + e, FilenameMarker)
    requires '.' !in e && '/' !in e && '/' !in stem && HasStem(stem)
    ensures Downloader.SavedName(Some(a + FilenameMarker + (stem + "." + e)), PyStr(extension))
      == Ok(stem + "." + extension)
    ensures SavedName(Some(a + FilenameMarker + (stem + "." + e)), PyStr(extension))
      == Ok(SplunkPrefix + (stem + "." + extension))
  {
    var b := stem + "." + e;
    SplitWithoutSeparator(b, FilenameMarker);
    Downloader.SavedNameFromHeader(a, b, PyStr(extension));
    ReplaceExtensionKeepsStem(stem, e, extension);
    SavedNameFromHeader(a, b, PyStr(extension));
    ReplaceExtensionPrefixed(stem, e, extension);
  }

  /** Any name the base yields is the prefixed base with its extension
      forced. */
  lemma SavedNameOfBase(contentDisposition: Option<string>, extension: string)
    requires BaseName(contentDisposition, PyStr(extension)).Ok?
    ensures SavedName(contentDisposition, PyStr(extension))
      == Ok(ReplaceExtension(SplunkPrefix + BaseName(contentDisposition, PyStr(extension)).value, extension))
  {
  }

  /** The fallback name with the prefix, spelled out. Literal equalities
      such as this one and `TarGzText` sit in lemmas of their own, and the
      example lemmas below take their literal as a parameter pinned by
      `requires`, so that no proof unfolds a literal text without bound. */
  lemma FallbackText(tail: string)
    ensures SplunkPrefix + ("downloadapp." + tail) == "Splunk_downloadapp." + tail
  {
    assert SplunkPrefix + "downloadapp." == "Splunk_downloadapp.";
  }

  /** Without the header and with an extension free of dots, the name is
      "Splunk_downloadapp." + extension. */
  lemma SavedNameFallbackPlain(extension: string)
    requires '.' !in extension && '/' !in extension
    ensures SavedName(None, PyStr(extension)) == Ok("Splunk_downloadapp." + extension)
  {
    SavedNameOfBase(None, extension);
    FallbackText(extension);
    ForcePlainOnFallback(extension);
  }

  lemma ForcePlainOnFallback(extension: string)
    requires '.' !in extension && '/' !in extension
    ensures ReplaceExtension("Splunk_downloadapp." + extension, extension) == "Splunk_downloadapp." + extension
  {
    var stem := "Splunk_downloadapp";
    assert "Splunk_downloadapp." + extension == stem + "." + extension;
    HasStemPlain(stem);
    ReplaceExtensionKeepsStem(stem, extension, extension);
  }

  /** Without the header and with an extension x.y, only y is taken for the
      old extension, so x appears twice. */
  lemma SavedNameFallbackDotted(x: string, y: string)
    requires '/' !in x && '.' !in y && '/' !in y
    ensures SavedName(None, PyStr(x + "." + y)) == Ok("Splunk_downloadapp." + x + "." + x + "." + y)
  {
    SavedNameOfBase(None, x + "." + y);
    FallbackText(x + "." + y);
    ForceDottedOnFallback(x, y);
  }

  lemma ForceDottedOnFallback(x: string, y: string)
    requires '/' !in x && '.' !in y && '/' !in y
    ensures ReplaceExtension("Splunk_downloadapp." + (x + "." + y), x + "." + y)
      == "Splunk_downloadapp." + x + "." + x + "." + y
  {
    var extension := x + "." + y;
    var stem := "Splunk_downloadapp." + x;
    assert "Splunk_downloadapp." + extension == stem + "." + y;
    assert '/' !in "Splunk_downloadapp.";
    assert '/' !in stem;
    HasStemPlain(stem);
    ReplaceExtensionKeepsStem(stem, y, extension);
    assert stem + "." + extension == "Splunk_downloadapp." + x + "." + x + "." + y;
  }

  /** spl gives "Splunk_downloadapp.spl". */
  lemma SavedNameFallbackSpl(extension: string)
    requires extension == "spl"
    ensures SavedName(None, PyStr(extension)) == Ok("Splunk_downloadapp.spl")
  {
    SavedNameFallbackPlain(extension);
    assert "Splunk_downloadapp." + extension == "Splunk_downloadapp.spl";
  }

  /** "tar.gz" gives "Splunk_downloadapp.tar.tar.gz". The extension is a
      parameter pinned by `requires`, for the reason given at
      `FallbackText`. */
  lemma SavedNameFallbackTarGz(extension: string)
    requires extension == "tar.gz"
    ensures SavedName(None, PyStr(extension)) == Ok("Splunk_downloadapp.tar.tar.gz")
  {
    assert extension == "tar" + "." + "gz";
    SavedNameFallbackDotted("tar", "gz");
    TarGzText();
  }

  lemma TarGzText()
    ensures "Splunk_downloadapp." + "tar" + "." + "tar" + "." + "gz" == "Splunk_downloadapp.tar.tar.gz"
  {
  }

  /** A header name that is only a dotfile, such as ".bashrc": the other
      variant keeps it whole and appends the extension (".bashrc.tgz"),
      while here the prefix turns the leading dot into an extension and the
      name becomes "Splunk_." + extension ("Splunk_.tgz"). */
  lemma SavedNameDotfile(a: string, name: string, extension: string)
    requires !Contains(a, FilenameMarker) && '.' !in name && '/' !in name
    requires !Contains("." + name, FilenameMarker)
    ensures Downloader.SavedName(Some(a + FilenameMarker + ("." + name)), PyStr(extension))
      == Ok("." + name + "." + extension)
    ensures SavedName(Some(a + FilenameMarker + ("." + name)), PyStr(extension))
      == Ok(SplunkPrefix + "." + extension)
  {
    SplitWithoutSeparator("." + name, FilenameMarker);
    Downloader.SavedNameFromHeader(a, "." + name, PyStr(extension));
    SplitextDotfile(name);
    SavedNameFromHeader(a, "." + name, PyStr(extension));
    ForceOnPrefixedDotfile(name, extension);
  }

  lemma ForceOnPrefixedDotfile(name: string, extension: string)
    requires '.' !in name && '/' !in name
    ensures ReplaceExtension(SplunkPrefix + ("." + name), extension) == SplunkPrefix + "." + extension
  {
    assert "" + "." + name == "." + name;
    ReplaceExtensionPrefixed("", name, extension);
    assert SplunkPrefix + ("" + "." + extension) == SplunkPrefix + "." + extension;
  }
}
