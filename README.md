# Splunk distributed configuration downloader, modelled in Dafny

The downloader asks a Splunk server's "distributed configuration management"
app maker to build an app, then downloads the archive. It comes in two
variants:

- `downloader.py` (with `src/utils.py`) speaks raw HTTP;
- `distributed_configuration_downloader/` goes through the Splunk SDK. It
  has its own `downloader.py`, `utils.py` and a `splunk.py` wrapper around
  the SDK's classes.

This project models the computation in both variants:

- the truth-string parser `str2bool` and the SSL flag helper `ssl_verify`;
- the routine table and the request payload `set_data` builds, including
  the JSON `spec` text;
- the management URL the SDK variant displays;
- the name each `download_app` saves the archive under. This covers the
  `Content-Disposition` `filename=` text, the fallback name and the
  `os.path.splitext` extension replacement;
- `KVCollection._make_list`, which folds a KV store collection's flat
  `field.<name>` entries into a dictionary, with the `fields` and
  `accelerated_fields` properties built on it;
- the choice of request body in the SDK variant's `download_app`.

Python's own behaviour is modelled where the code depends on it:

- dynamic values (None, bool, int, str) and the exceptions the modelled
  code can raise (`KeyError`, `IndexError`, `NameError`, `AttributeError`,
  `TypeError`, `ValueError`);
- `str()`, `str.lower()`, `dict.get`, truthiness;
- `str.split`, `str.strip`, `str.isdigit`, `int()` on digit strings;
- POSIX `os.path.splitext`.

An operation that raises returns `Err(error)`; one that completes returns
`Ok(value)`.

Modules, one per file:

- `Python` (python.dfy): the slice of the language described above.
- `FileNames` (file_names.dfy): the `filename=` extraction, `splitext` and
  extension replacement shared by both `download_app` functions.
- `Utils` (utils.dfy): `src/utils.py`.
- `DcdUtils` (dcd_utils.dfy): `distributed_configuration_downloader/utils.py`.
- `Downloader` (downloader.dfy): `downloader.py`.
- `DcdDownloader` (dcd_downloader.dfy): `distributed_configuration_downloader/downloader.py`.
- `Splunk` (splunk.dfy): `distributed_configuration_downloader/splunk.py`.

`_make_list` updates a local dictionary in a loop. It is modelled as the
method `Splunk.KVCollection.MakeList`, whose `while` loop keeps the
dictionary built so far equal to `Collect` of the items seen. `Collect` is
the fold that specifies the loop. It makes the same decisions in the same
order:

- keys that do not start with the field are skipped;
- for a matching key the value is converted first and the key split
  second, so a non-string value raises `AttributeError` even when the key
  has no dot;
- text that `isdigit()` accepts but `int()` rejects raises `ValueError`,
  which the `except AttributeError` does not catch. Such text is a
  superscript two, say, or a decimal text longer than CPython's default
  limit of 4300 digits (`sys.int_max_str_digits`);
- a later key with the same second segment overwrites the earlier one.

Where the code and its evident intent differ, the model follows the code:

- The fallback name in downloader.py:68 evidently means
  `URI_DOWNLOADAPP.split("/")[-1]`, the last segment of the download
  endpoint, but it reads an undefined name and raises NameError (see
  Findings).
- The docstring of `ssl_verify` (src/utils.py:51-52) promises True when
  verification is enabled, but the function returns None for a truthy
  flag (see Findings).
- The SDK variant puts `Splunk_` in front of every saved name before
  replacing the extension (distributed_configuration_downloader/splunk.py:183-186).
  So a dotfile header name such as `.bashrc` loses its base and becomes
  `Splunk_.` + extension, while the raw-HTTP variant keeps it as
  `.bashrc.` + extension.

## Model

| member | source | states |
|---|---|---|
| Python.Get | downloader.py:154-156 | `dict.get` gives the stored value, and None for an absent key |
| Python.Truthy | distributed_configuration_downloader/splunk.py:167 | the falsy values are exactly None, False, 0 and the empty string |
| Python.Str | downloader.py:154-155 | a string prints as itself, any other value as a non-empty text, an integer with a leading minus exactly when negative |
| Python.NatToString | distributed_configuration_downloader/downloader.py:82 | `str(n)` is a non-empty run of decimal digits, one digit exactly below 10 |
| Python.IntToString | distributed_configuration_downloader/downloader.py:82 | `str(i)` is non-empty and starts with a minus sign exactly for negative `i` |
| Python.DigitsValueOfNatToString | distributed_configuration_downloader/splunk.py:47 | `int(str(n)) == n` for every non-negative `n` |
| Python.DigitsValue | distributed_configuration_downloader/splunk.py:47 | `int(s)` on ASCII digits is at least the value of the first digit |
| Python.NatToStringOfDigitsValue | distributed_configuration_downloader/splunk.py:47 | `str(int(s)) == s` for every digit text without a leading zero |
| Python.IsDigits | distributed_configuration_downloader/splunk.py:47 | `isdigit()` holds for every non-empty ASCII digit text, and a text it holds for has no whitespace at either end |
| Python.IsSpace | distributed_configuration_downloader/splunk.py:47 | the whitespace `strip()` removes includes blank, tab and line breaks, and is never a digit or a dot |
| Python.Lower | src/utils.py:70 | `lower()` keeps the length |
| Python.LowerOfUpper | src/utils.py:70 | lower-casing an upper-cased text equals lower-casing the text |
| Python.LowerOfLower | src/utils.py:70 | `lower()` is idempotent |
| Python.LowerOfIntToString | src/utils.py:70 | the text of an integer has no letters to lower |
| Python.LowerStrOfConstants | downloader.py:154-155 | True, False and None render as `true`, `false` and `none` |
| Python.Split | distributed_configuration_downloader/splunk.py:47 | `split` on a non-empty separator always yields at least one piece |
| Python.StartsWith | distributed_configuration_downloader/splunk.py:45 | `k.startswith(field)` holds exactly when `field` occurs in `k` at index 0 |
| Python.StartsWithConcat | distributed_configuration_downloader/splunk.py:45 | a text starts with a prefix exactly when it is that prefix followed by the rest |
| Python.JoinSplit | distributed_configuration_downloader/splunk.py:47 | joining the pieces of `split` with the separator gives back the text |
| Python.SplitPiecesLackSeparator | distributed_configuration_downloader/splunk.py:47 | no piece of `split` contains the separator |
| Python.SplitHasSecondPiece | distributed_configuration_downloader/splunk.py:47 | `split` yields a second piece exactly when the separator occurs |
| Python.SplitAfterFirst | downloader.py:66 | when the separator first occurs after `a`, the pieces are `a` followed by the pieces of the rest |
| Python.SplitWithoutSeparator | downloader.py:66 | a text without the separator splits into itself alone |
| Python.SplitLastOnChar | downloader.py:68 | the last piece of `split` on a character is the text after its last occurrence |
| Python.RFind | downloader.py:70 | the last occurrence of a character, or -1: nothing after it matches |
| Python.RFindAppend | downloader.py:70 | the last occurrence in `s + t` lies in `t` when `t` has one, else it is the one in `s` |
| Python.StripLeft | distributed_configuration_downloader/splunk.py:47 | `lstrip()` drops exactly the leading whitespace and keeps a suffix |
| Python.StripRight | distributed_configuration_downloader/splunk.py:47 | `rstrip()` drops exactly the trailing whitespace and keeps a prefix |
| Python.Strip | distributed_configuration_downloader/splunk.py:47 | `strip()` never grows the text and leaves no whitespace at either end |
| Python.StripPadded | distributed_configuration_downloader/splunk.py:47 | stripping whitespace padding gives back exactly the padded text |
| FileNames.HeaderFilename | downloader.py:64-66 | `split("filename=")[1]` succeeds exactly when the header has the marker, raises IndexError otherwise, and never holds a marker |
| FileNames.HeaderFilenameAfterMarker | distributed_configuration_downloader/splunk.py:177-179 | whatever precedes the first marker, the name is the text between it and the next marker, untrimmed and unquoted |
| FileNames.NoMarkerBefore | downloader.py:66 | no marker can begin inside a text that holds none, even reaching into the marker that follows |
| FileNames.NoMarkerWithoutEquals | downloader.py:66 | a text without `=` holds no marker |
| FileNames.HeaderFilenameSingleMarker | downloader.py:64-66 | with a single marker the name is everything after it |
| FileNames.HeaderFilenameTwoMarkers | downloader.py:64-66 | with two markers the name stops where the second begins |
| FileNames.HeaderFilenameMissingMarker | downloader.py:66 | a header without the marker raises IndexError |
| FileNames.Splitext | downloader.py:70 | root and extension concatenate to the path; the extension is empty or a dot followed by no dot or slash; an extension is split off only when the final component of the root holds something other than dots |
| FileNames.SplitextOfDotted | downloader.py:70 | `stem.e` with a real stem splits into `stem` and `.e` |
| FileNames.SplitextWithoutDot | downloader.py:70 | a path without a dot has no extension |
| FileNames.SplitextDotfile | downloader.py:70 | a leading dot does not start an extension |
| FileNames.SplitextKeepsPrefix | distributed_configuration_downloader/splunk.py:183-185 | a dot-free prefix of the path survives in the root |
| FileNames.ReplaceExtension | downloader.py:70-71 | the new name is the root, a dot and the extension, and ends in `.` + extension |
| FileNames.ReplaceExtensionKeepsStem | downloader.py:70-71 | `stem.e` becomes `stem.x` |
| FileNames.ReplaceExtensionAppends | downloader.py:70-71 | a name without a dot gains the extension |
| FileNames.ReplaceExtensionRoundTrip | downloader.py:70-71 | splitting the new name again gives the kept root and the new extension, so forcing the same extension twice changes nothing |
| FileNames.HasStemPlain | downloader.py:70 | a name that does not start with a dot and has no slash has a stem |
| FileNames.ReplaceExtensionSingle | downloader.py:70-71 | `foo.tar` with `tgz` gives `foo.tgz` |
| FileNames.ReplaceExtensionDouble | downloader.py:70-71 | `foo.tar.gz` with `tgz` gives `foo.tar.tgz`: only the last extension goes |
| FileNames.ReplaceExtensionNone | downloader.py:70-71 | `foo` with `spl` gives `foo.spl` |
| FileNames.ReplaceExtensionDotfile | downloader.py:70-71 | `.bashrc` with `tgz` gives `.bashrc.tgz` |
| Utils.LowerEqualsIff | src/utils.py:70 | lowering a text gives a lower-case word exactly when the text spells that word in any mix of cases |
| Utils.Str2Bool | src/utils.py:60-70 | true exactly when `str(v)` spells "yes", "true", "t" or "1" in any mix of cases, with nothing trimmed |
| Utils.Str2BoolIgnoresCase | src/utils.py:70 | upper- or lower-casing the text first changes nothing |
| Utils.Str2BoolAcceptsMixedCase | src/utils.py:65-70 | "TRUE", "Yes" and "T" are true |
| Utils.Str2BoolRejects | src/utils.py:70 | "", "no", "y", " true", "true " and " 1" are false: nothing is trimmed |
| Utils.Str2BoolOfBool | src/utils.py:70 | a bool maps to itself, `str2bool` of a `str2bool` result is unchanged, and None is false |
| Utils.Str2BoolOfInt | src/utils.py:70 | of the integers only 1 is true |
| Utils.SslVerify | src/utils.py:44-58 | a falsy flag comes back unchanged, a truthy one gives None, and the result is never truthy |
| Utils.SslVerifyDropsTrue | src/utils.py:55-58 | `ssl_verify(True)` is None, whereas the documented result is True |
| Utils.SslVerifyIntended | src/utils.py:44-53 | the documented helper: the result is truthy exactly when the flag is, and a bool comes back as itself |
| DcdUtils.SslVerify | distributed_configuration_downloader/utils.py:6-20 | as in src/utils.py: falsy flags come back, truthy ones give None |
| DcdUtils.Str2Bool | distributed_configuration_downloader/utils.py:22-32 | true exactly when `str(v)` spells one of the four truth words in any mix of cases |
| DcdUtils.CopiesAgree | distributed_configuration_downloader/utils.py:17-32 | both copies of `str2bool` and `ssl_verify` agree on every input |
| DcdUtils.Str2BoolIgnoresCaseNotSpace | distributed_configuration_downloader/utils.py:32 | case does not matter, but whitespace does |
| DcdUtils.SslVerifyOfBool | distributed_configuration_downloader/utils.py:17-20 | False comes back as False and True as None |
| Downloader.SetData | downloader.py:136-159 | the payload is built exactly when the routine is in the table and raises KeyError otherwise; its keys are `routine` and possibly `spec`; the routine maps to its table entry; `spec` is present exactly for index_time_properties |
| Downloader.Render | downloader.py:154-155 | `str(v).lower()` is as long as `str(v)`; a bool becomes `true` or `false` and None becomes `none` |
| Downloader.SpecText | downloader.py:158 | the spec opens with the `include_indexes` key, carries the indexes text right after it, has the length of its parts and closes with `}` |
| Downloader.SetDataRoutines | downloader.py:17-20 | each of the two routines gives its identifier; only index_time_properties gets the spec built from the rendered values |
| Downloader.SetDataUnknownRoutine | downloader.py:156 | a missing routine, None or a name outside the table raises KeyError |
| Downloader.SetDataScenario | downloader.py:153-158 | indexes True and properties False give `{"include_indexes":true, "include_properties":false}` |
| Downloader.SetDataNotValidated | downloader.py:154-158 | "yes" and None enter the spec as `yes` and `none`, which do not read back as JSON booleans |
| Downloader.DecodeSpecRejectsYes | downloader.py:158 | a spec whose first value is `yes` does not read back as JSON booleans |
| Downloader.JsonBoolPrefixOf | downloader.py:158 | a JSON boolean followed by any text is read off the front |
| Downloader.DecodeSpecText | downloader.py:158 | a spec filled with JSON literals reads back as those literals |
| Downloader.SpecRoundTrip | downloader.py:154-158 | the spec of two Python booleans reads back as those booleans |
| Downloader.SpecAgreesWithStr2Bool | downloader.py:154-158 | when both values render as `true` or `false`, the spec carries the flags `str2bool` would derive from them |
| Downloader.Str2BoolOfRendered | src/utils.py:70 | a value rendering as a JSON boolean is true for `str2bool` exactly when it renders as `true` |
| Downloader.VerifySetting | downloader.py:168 | the verify flag `main` computes is never truthy |
| Downloader.VerifySettingIgnoresTrue | downloader.py:168 | configuring "true" still hands the HTTP client None rather than True |
| Downloader.VerifySettingIntended | downloader.py:168 | with the documented `ssl_verify`, the flag is a bool equal to `str2bool` of the setting |
| Downloader.SavedName | downloader.py:64-71 | without the header the fallback raises NameError; with it, IndexError exactly when the marker is missing, else TypeError exactly when the extension is not a string; a name ends in `.` + extension |
| Downloader.SavedNameFromHeader | downloader.py:64-71 | the name is the text between the first marker and the next, with its extension forced; an extension that is not a string raises TypeError |
| Downloader.SavedNameExample | downloader.py:64-71 | `attachment; filename=foo.tar` with `tgz` is saved as `foo.tgz` |
| Downloader.SavedNameCorrected | downloader.py:64-71 | the evidently intended code: the same result whenever the header is present; without it, a name exactly when the extension is a string, TypeError otherwise |
| Downloader.SavedNameCorrectedFallback | downloader.py:68-71 | without the header the intended code saves `downloadapp.` + extension |
| Downloader.UriLastSegment | downloader.py:15 | the last segment of the download URI is `downloadapp` |
| DcdDownloader.SetData | distributed_configuration_downloader/downloader.py:46-69 | the payload is built exactly when the routine is in the table and raises KeyError otherwise; the routine maps to its table entry; `spec` is present exactly for index_time_properties |
| DcdDownloader.SetDataRoutines | distributed_configuration_downloader/downloader.py:10-14 | each of the two routines gives its identifier; only index_time_properties gets the spec |
| DcdDownloader.SetDataUnknownRoutine | distributed_configuration_downloader/downloader.py:66 | a missing routine, None or a name outside the table raises KeyError |
| DcdDownloader.SetDataOfFlags | distributed_configuration_downloader/downloader.py:64-68 | Python booleans enter the spec as `true`/`false` and read back as themselves |
| DcdDownloader.SetDataAgrees | distributed_configuration_downloader/downloader.py:63-69 | both variants build the same payload from the same three values |
| DcdDownloader.MgmtUrl | distributed_configuration_downloader/downloader.py:82 | the URL is built exactly when scheme and host are strings, raises TypeError otherwise, and has the length of its parts |
| DcdDownloader.MgmtUrlRoundTrip | distributed_configuration_downloader/downloader.py:82 | with no `:` in the scheme or the port text, the URL reads back as scheme, host and port |
| DcdDownloader.PortTextHasNoColon | distributed_configuration_downloader/downloader.py:82 | an integer, None or bool port prints without `:` |
| Splunk.ConvertValue | distributed_configuration_downloader/splunk.py:46-49 | a value converts exactly when it is a string that, whenever `isdigit()` holds, is ASCII decimal text of at most 4300 digits; a non-string raises AttributeError, other failures ValueError; the result is an int exactly when digit-only, a non-negative one; other text only shrinks |
| Splunk.ConvertValueOfNumber | distributed_configuration_downloader/splunk.py:47 | the text of a number converts back to that number, or raises ValueError when it has more than 4300 digits |
| Splunk.ConvertValueOfDigits | distributed_configuration_downloader/splunk.py:47 | a digit text without a leading zero is stored as the number whose text it is, or raises ValueError beyond 4300 digits |
| Splunk.ConvertValueTooLong | distributed_configuration_downloader/splunk.py:46-49 | decimal text longer than 4300 digits raises ValueError in `int()`, which the handler does not catch |
| Splunk.ConvertValueSuperscript | distributed_configuration_downloader/splunk.py:46-49 | a superscript two passes `isdigit()` and raises ValueError in `int()`, which the handler does not catch |
| Splunk.ConvertValueStrips | distributed_configuration_downloader/splunk.py:47 | other text loses its surrounding whitespace and nothing else |
| Splunk.ConvertValueExamples | distributed_configuration_downloader/splunk.py:47 | "12" becomes 12 while " 12" becomes the string "12" |
| Splunk.SecondSegment | distributed_configuration_downloader/splunk.py:47 | `k.split(".")[1]` succeeds exactly when the key has a dot, raises IndexError otherwise, and holds no dot |
| Splunk.SecondSegmentOf | distributed_configuration_downloader/splunk.py:47 | `a.b` followed by nothing or a further dotted part gives `b` |
| Splunk.FirstPieceBeforeDot | distributed_configuration_downloader/splunk.py:47 | the first piece of a split on dots is the dot-free text before the first dot |
| Splunk.SecondSegmentExample | distributed_configuration_downloader/splunk.py:47 | `field.a.b` gives `a` |
| Splunk.Step | distributed_configuration_downloader/splunk.py:45-49 | one turn of the loop raises only for a matching key, only AttributeError, ValueError or IndexError, and never removes a key |
| Splunk.Collect | distributed_configuration_downloader/splunk.py:44-49 | the loop over the items in order raises only AttributeError, ValueError or IndexError; CollectKeys, CollectLastWins and CollectFailsAtFirst state what it builds |
| Splunk.MakeListSpec | distributed_configuration_downloader/splunk.py:42-50 | raises exactly when the loop raises; the result is None exactly when no key matches, else the collected dictionary |
| Splunk.CollectEmptyIffNoMatch | distributed_configuration_downloader/splunk.py:43-50 | a completed loop leaves the dictionary empty exactly when no key matched |
| Splunk.CollectValuesConverted | distributed_configuration_downloader/splunk.py:47 | every stored value is an int or a string |
| Splunk.CollectStopsAt | distributed_configuration_downloader/splunk.py:44-49 | once an item has raised, the remaining items change nothing |
| Splunk.FailureOf | distributed_configuration_downloader/splunk.py:46-49 | a failing item raises AttributeError exactly when its value is not a string, else ValueError or IndexError |
| Splunk.CollectOkIffNoFailure | distributed_configuration_downloader/splunk.py:44-49 | the loop completes exactly when no matching item has an unconvertible value or a dot-free key |
| Splunk.CollectFailsAtFirst | distributed_configuration_downloader/splunk.py:44-49 | the exception raised is that of the first failing item, the value's error winning over a missing dot |
| Splunk.NamedBySplit | distributed_configuration_downloader/splunk.py:44-47 | a name is given by the items exactly when it is given by all but the last or by the last |
| Splunk.CollectKeys | distributed_configuration_downloader/splunk.py:44-47 | the dictionary's keys are exactly the second segments of the matching keys |
| Splunk.CollectLastWins | distributed_configuration_downloader/splunk.py:44-47 | the value kept for a name is the converted value of the last matching item giving that name |
| Splunk.KVCollection.constructor | distributed_configuration_downloader/splunk.py:40-41 | the collection holds the given content |
| Splunk.KVCollection.MakeList | distributed_configuration_downloader/splunk.py:42-50 | the loop returns exactly the specified result, including the exception and the empty-means-None case |
| Splunk.KVCollection.Fields | distributed_configuration_downloader/splunk.py:56-58 | `fields` is the list built for the prefix `field` |
| Splunk.KVCollection.AcceleratedFields | distributed_configuration_downloader/splunk.py:52-54 | `accelerated_fields` is the list built for the prefix `accelerated_fields` |
| Splunk.SelectBody | distributed_configuration_downloader/splunk.py:167-170 | without parameters `params.get` raises AttributeError; otherwise `make_app` makes the body exactly when the routine is truthy |
| Splunk.SelectBodyOfSetData | distributed_configuration_downloader/downloader.py:85-88 | the parameters `set_data` builds always go through `make_app` |
| Splunk.SelectBodyWithoutRoutine | distributed_configuration_downloader/splunk.py:167-170 | parameters without a routine, or with an empty one, are sent as given |
| Splunk.PathLastSegment | distributed_configuration_downloader/splunk.py:18 | the last segment of the download path is `downloadapp` |
| Splunk.BaseName | distributed_configuration_downloader/splunk.py:177-181 | with the header, IndexError exactly when it lacks the marker; without it, TypeError exactly when the extension is not a string, else `downloadapp.` + extension |
| Splunk.SavedName | distributed_configuration_downloader/splunk.py:177-186 | IndexError exactly when the header lacks the marker, otherwise TypeError exactly when the extension is not a string; a name starts with `Splunk_` and ends in `.` + extension |
| Splunk.PrefixSurvives | distributed_configuration_downloader/splunk.py:183-186 | forcing an extension onto a prefixed name keeps the prefix |
| Splunk.SavedNameFromHeader | distributed_configuration_downloader/splunk.py:177-186 | the name is `Splunk_` and the text between the first marker and the next, with its extension forced; an extension that is not a string raises TypeError |
| Splunk.ReplaceExtensionPrefixed | distributed_configuration_downloader/splunk.py:183-186 | forcing the extension of a prefixed name keeps the prefix and the stem |
| Splunk.SavedNameAddsPrefix | distributed_configuration_downloader/splunk.py:177-186 | for a header name with a stem and a plain extension, this variant saves the other variant's name with `Splunk_` in front |
| Splunk.SavedNameOfBase | distributed_configuration_downloader/splunk.py:183-186 | every name is the prefixed base with its extension forced |
| Splunk.SavedNameFallbackPlain | distributed_configuration_downloader/splunk.py:181-186 | without the header and with a dot-free extension the name is `Splunk_downloadapp.` + extension |
| Splunk.SavedNameFallbackDotted | distributed_configuration_downloader/splunk.py:181-186 | without the header and with an extension `x.y`, `x` appears twice in the name |
| Splunk.SavedNameFallbackSpl | distributed_configuration_downloader/splunk.py:181-186 | `spl` gives `Splunk_downloadapp.spl` |
| Splunk.SavedNameFallbackTarGz | distributed_configuration_downloader/splunk.py:181-186 | `tar.gz` gives `Splunk_downloadapp.tar.tar.gz` |
| Splunk.SavedNameDotfile | distributed_configuration_downloader/splunk.py:183-186 | a dotfile header name: the other variant keeps it and appends the extension, while this one keeps only `Splunk_` and the extension |

## Left out

- HTTP and the SDK's REST traffic are not modelled. This covers `make_app`
  in both variants, the GET and the file write in both `download_app`
  functions, `login` and `logout`. The `Content-Disposition` header and a
  collection's content enter the model as parameters.
- `ensure_directory`, `make_config`, the configuration manager and
  `get_token` (src/authent.py) are filesystem, argument-parsing or network
  code. src/config_manager is not part of this model.
- `main` in both variants is not modelled as a whole. Only the values it
  computes are: the verify flag (`Downloader.VerifySetting`) and the
  displayed URL (`DcdDownloader.MgmtUrl`).
- `urllib3.disable_warnings` in `ssl_verify` is a process-wide side
  effect. Only the returned value is modelled.
- The `Splunk` service class (distributed_configuration_downloader/splunk.py:20-38)
  passes its keyword arguments to the SDK's `Service`. Its four properties
  only wrap the service in `Collections`, `Lookups`, `LookupsFile` and
  `DistributedConfigurationManagement`. None of it is modelled, since it
  is SDK plumbing without computation of its own. `Collections`, `Lookup`,
  `Lookups` and `LookupsFile` only pass a path to their base class and are
  left out too. So is `LookupFile`, since it runs a search and writes CSV.
- `Python.Lower`: only ASCII letters are lowered. Python's full Unicode
  case mapping is not modelled.
- `Python.IsDigits`: `isdigit()` holds here for exactly these characters:
  - the ASCII digits;
  - U+00B2, U+00B3, U+00B9, U+1369-1371, U+19DA, U+2070 and U+2074-2079;
  - U+2080-2089, U+2460-2468, U+2474-247C, U+2488-2490, U+24EA,
    U+24F5-24FD and U+24FF;
  - U+2776-277E, U+2780-2788 and U+278A-2792;
  - U+10A40-10A43, U+10E60-10E68, U+11052-1105A and U+1F100-1F10A.

  Every other character counts as a non-digit. That includes the decimal
  digits of other scripts (Arabic-Indic, Devanagari, fullwidth and so on).
- `Splunk.ConvertValue` inherits that table. A value made of decimal digits
  of another script is stored stripped instead of as an int, although both
  `isdigit()` and `int()` accept it. A digit-type character outside the
  listed ranges is stored stripped too, although `int()` would raise
  ValueError on it.
- `Python.Str` prints every int. CPython's `str()` of an int with more than
  4300 digits raises ValueError (`sys.int_max_str_digits`), and that error
  is not modelled.
- Python values are None, bool, int and str. Bytes, floats and
  containers as configuration or collection values are not modelled.
  Python's bool being a subclass of int (`True == 1` as a dictionary key)
  is not modelled either.
- `FileNames.Splitext` follows POSIX `os.path.splitext`. Windows path
  rules are not modelled.
- `Splunk.KVCollection` holds the collection's content as a sequence of
  key/value pairs in the order the dictionary yields them. The SDK's state
  object and its loading are not modelled.
- `Splunk.KVCollection.MakeList`: the collection's content is read-only
  here, as in the source. The method's result is a fresh dictionary.

## Findings

| source | as written | input that shows it | evidently intended | confidence | as-written member | corrected member |
|---|---|---|---|---|---|---|
| downloader.py:68 | the fallback reads `URL_DOWNLOADAPP`, a name defined nowhere, so it raises NameError | a response without a `Content-Disposition` header | the last segment of `URI_DOWNLOADAPP`, so the archive is saved as `downloadapp.` + extension | not executed | Downloader.SavedName | Downloader.SavedNameCorrected |
| src/utils.py:55-58 | `ssl_verify` returns only inside `if not verify`, so a truthy flag gives None | `ssl_verify(True)`, which `main` gets from `ssl.verify = true` (downloader.py:168) | return the flag, as the docstring says, so the HTTP client is handed True rather than None and verification can be turned on | not executed | Utils.SslVerifyDropsTrue | Utils.SslVerifyIntended |
