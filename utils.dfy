/**
 * src/utils.py: parsing a truth string (`str2bool`) and the SSL flag helper
 * (`ssl_verify`). The `urllib3.disable_warnings` side effect of
 * `ssl_verify` is not modelled; only its return value is.
 */
module Utils {
  import opened Python

  /** The spellings `str2bool` accepts as true, in lower case. */
  const TruthWords: seq<string> := ["yes", "true", "t", "1"]

  /** `str2bool(v)`: true exactly when `str(v)` spells "yes", "true", "t"
      or "1" in any mix of cases; nothing is trimmed first. */
  function Str2Bool(v: PyValue): (r: bool)
    ensures r <==>
      || SpellsIgnoringCase(Str(v), "yes")
      || SpellsIgnoringCase(Str(v), "true")
      || SpellsIgnoringCase(Str(v), "t")
      || SpellsIgnoringCase(Str(v), "1")
  {
    LowerEqualsIff(Str(v), "yes");
    LowerEqualsIff(Str(v), "true");
    LowerEqualsIff(Str(v), "t");
    LowerEqualsIff(Str(v), "1");
    Lower(Str(v)) in TruthWords
  }

  /** Reference reading of "equal ignoring case": `s` spells the lower-case
      word `w`, each letter either as written or as its upper-case form. */
  ghost predicate SpellsIgnoringCase(s: string, w: string) {
    && |s| == |w|
    && forall k | 0 <= k < |s| ::
         s[k] == w[k] || ('a' <= w[k] <= 'z' && s[k] as int == w[k] as int - 32)
  }

  ghost predicate IsLowerCase(w: string) {
    forall k | 0 <= k < |w| :: !('A' <= w[k] <= 'Z')
  }

  /** Lower-casing `s` gives the lower-case word `w` exactly when `s` spells
      `w` ignoring case. */
  lemma LowerEqualsIff(s: string, w: string)
    requires IsLowerCase(w)
    ensures Lower(s) == w <==> SpellsIgnoringCase(s, w)
  {
    if SpellsIgnoringCase(s, w) {
      forall k | 0 <= k < |s| ensures Lower(s)[k] == w[k] {
        if s[k] != w[k] {
          assert LowerChar(s[k]) as int == s[k] as int + 32;
        }
      }
    }
    if Lower(s) == w {
      forall k | 0 <= k < |s|
        ensures s[k] == w[k] || ('a' <= w[k] <= 'z' && s[k] as int == w[k] as int - 32)
      {
        assert LowerChar(s[k]) == w[k];
      }
    }
  }

  /** Case does not matter: upper-casing or lower-casing the text first
      changes nothing. */
  lemma Str2BoolIgnoresCase(s: string)
    ensures Str2Bool(PyStr(Upper(s))) == Str2Bool(PyStr(s))
    ensures Str2Bool(PyStr(Lower(s))) == Str2Bool(PyStr(s))
  {
    LowerOfUpper(s);
    LowerOfLower(s);
  }

  /** "TRUE", "Yes" and "T" are true. */
  lemma Str2BoolAcceptsMixedCase()
    ensures Str2Bool(PyStr("TRUE")) && Str2Bool(PyStr("Yes")) && Str2Bool(PyStr("T"))
  {
  }

  /** "", "no", "y", " true", "true " and " 1" are false: no trimming. */
  lemma Str2BoolRejects()
    ensures !Str2Bool(PyStr("")) && !Str2Bool(PyStr("no")) && !Str2Bool(PyStr("y"))
    ensures !Str2Bool(PyStr(" true")) && !Str2Bool(PyStr("true ")) && !Str2Bool(PyStr(" 1"))
  {
    assert " true"[0] != "true"[0];
    assert " 1"[0] != "1"[0];
  }

  /** Python's booleans print as "True" and "False", so a bool maps to itself
      and `str2bool(str2bool(v)) == str2bool(v)`; None is false. */
  lemma Str2BoolOfBool(b: bool, v: PyValue)
    ensures Str2Bool(PyBool(b)) == b
    ensures Str2Bool(PyBool(Str2Bool(v))) == Str2Bool(v)
    ensures !Str2Bool(PyNone)
  {
    LowerStrOfConstants();
  }

  /** Of the integers only 1 is true: str(0) is "0", and every other integer
      prints as a second digit or a minus sign more. */
  lemma Str2BoolOfInt(n: int)
    ensures Str2Bool(PyInt(n)) <==> n == 1
  {
    var r := IntToString(n);
    LowerOfIntToString(n);
    assert Str2Bool(PyInt(n)) == (r in TruthWords);
    if n < 0 {
      assert r[0] == '-';
    } else {
      assert r == NatToString(n);
      assert IsDecimalDigit(r[0]);
      if n < 10 {
        assert r == [DigitChar(n)];
      }
    }
  }

  /** `ssl_verify(verify)`: a falsy flag comes back unchanged; for a truthy
      one control falls off the end of the function, so the caller gets
      None. Either way the result is never truthy. */
  function SslVerify(verify: PyValue): (r: PyValue)
    ensures !Truthy(r)
    ensures !Truthy(verify) ==> r == verify
    ensures Truthy(verify) ==> r == PyNone
  {
    if !Truthy(verify) then verify else PyNone
  }

  /** `ssl_verify(True)` is None, while the documented result is True. */
  lemma SslVerifyDropsTrue()
    ensures SslVerify(PyBool(true)) == PyNone
    ensures SslVerifyIntended(PyBool(true)) == PyBool(true)
  {
  }

  /** `ssl_verify` as documented: the flag comes back in both branches. */
  function SslVerifyIntended(verify: PyValue): (r: PyValue)
    ensures Truthy(r) <==> Truthy(verify)
    ensures forall b: bool :: verify == PyBool(b) ==> r == PyBool(b)
  {
    verify
  }
}
