/**
 * distributed_configuration_downloader/utils.py: the second copy of
 * `str2bool` and `ssl_verify`, kept by the SDK-based variant. It is modelled
 * as written and proved to agree with src/utils.py on every input.
 */
module DcdUtils {
  import opened Python
  import Utils

  const TruthWords: seq<string> := ["yes", "true", "t", "1"]

  /** `str2bool(v)`: true exactly when `str(v)` spells one of the truth
      words in any mix of cases. */
  function Str2Bool(v: PyValue): (r: bool)
    ensures r <==>
      || Utils.SpellsIgnoringCase(Str(v), "yes")
      || Utils.SpellsIgnoringCase(Str(v), "true")
      || Utils.SpellsIgnoringCase(Str(v), "t")
      || Utils.SpellsIgnoringCase(Str(v), "1")
  {
    Utils.LowerEqualsIff(Str(v), "yes");
    Utils.LowerEqualsIff(Str(v), "true");
    Utils.LowerEqualsIff(Str(v), "t");
    Utils.LowerEqualsIff(Str(v), "1");
    Lower(Str(v)) in TruthWords
  }

  /** `ssl_verify(verify)`: falsy flags come back, truthy ones give None. */
  function SslVerify(verify: PyValue): (r: PyValue)
    ensures !Truthy(r)
    ensures !Truthy(verify) ==> r == verify
    ensures Truthy(verify) ==> r == PyNone
  {
    if !Truthy(verify) then verify else PyNone
  }

  /** Both copies of the helpers agree on every input. */
  lemma CopiesAgree(v: PyValue)
    ensures Str2Bool(v) == Utils.Str2Bool(v)
    ensures SslVerify(v) == Utils.SslVerify(v)
  {
  }

  /** Case-insensitive, and no whitespace is stripped: " 1" is false. */
  lemma Str2BoolIgnoresCaseNotSpace(s: string)
    ensures Str2Bool(PyStr(Upper(s))) == Str2Bool(PyStr(s))
    ensures !Str2Bool(PyStr(" 1")) && !Str2Bool(PyStr("true "))
  {
    CopiesAgree(PyStr(s));
    CopiesAgree(PyStr(Upper(s)));
    Utils.Str2BoolIgnoresCase(s);
    Utils.Str2BoolRejects();
  }

  /** `ssl_verify(False)` is False and `ssl_verify(True)` is None. */
  lemma SslVerifyOfBool()
    ensures SslVerify(PyBool(false)) == PyBool(false)
    ensures SslVerify(PyBool(true)) == PyNone
  {
  }
}
