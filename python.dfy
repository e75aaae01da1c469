/**
 * The slice of the Python language and its string methods that the
 * downloader's helpers rely on: a dynamically typed value, the exceptions
 * the helpers can raise, `str()`, `str.lower()`, `dict.get`, truthiness,
 * `str.find`/`rfind`/`split`/`strip`/`isdigit` and `int()` on digit strings.
 */
module Python {

  /** The values that reach the helpers from configuration and HTTP replies. */
  datatype PyValue = PyNone | PyBool(b: bool) | PyInt(i: int) | PyStr(s: string)

  /** The exceptions the modelled code can raise. */
  datatype PyError = KeyError | IndexError | NameError | AttributeError | TypeError | ValueError

  datatype Option<+T> = None | Some(value: T)

  /** A computation that either returns a value or raises an exception. */
  datatype Result<+T> = Ok(value: T) | Err(error: PyError)

  /** Python's truth test (`if v:`, `not v`, `x or y`). */
  predicate Truthy(v: PyValue)
    ensures !Truthy(v) <==> v == PyNone || v == PyBool(false) || v == PyInt(0) || v == PyStr("")
  {
    match v
    case PyNone => false
    case PyBool(b) => b
    case PyInt(i) => i != 0
    case PyStr(s) => s != ""
  }

  /** `d.get(key)`: the stored value, or None when the key is absent. */
  function Get(d: map<string, PyValue>, key: string): (v: PyValue)
    ensures key !in d ==> v == PyNone
    ensures key in d ==> v == d[key]
  {
    if key in d then d[key] else PyNone
  }

  // ---------------------------------------------------------------------
  // Decimal digits, str(int) and int(str)

  predicate IsDecimalDigit(c: char) {
    '0' <= c <= '9'
  }

  predicate AllDecimalDigits(s: string) {
    forall k | 0 <= k < |s| :: IsDecimalDigit(s[k])
  }

  function DigitChar(d: nat): (c: char)
    requires d < 10
    ensures IsDecimalDigit(c) && c as int - '0' as int == d
  {
    ('0' as int + d) as char
  }

  /** `str(n)` for a non-negative integer: its decimal digits, no leading zero. */
  function NatToString(n: nat): (r: string)
    ensures 1 <= |r| && AllDecimalDigits(r)
    ensures |r| == 1 <==> n < 10
    decreases n
  {
    if n < 10 then [DigitChar(n)] else NatToString(n / 10) + [DigitChar(n % 10)]
  }

  /** `str(i)` for any integer: a minus sign before the digits of a negative one. */
  function IntToString(i: int): (r: string)
    ensures 1 <= |r|
    ensures i < 0 <==> r[0] == '-'
  {
    if i < 0 then "-" + NatToString(-i) else NatToString(i)
  }

  /** `int(s)` for a string of ASCII decimal digits (leading zeros allowed). */
  function DigitsValue(s: string): (n: nat)
    requires AllDecimalDigits(s)
    ensures |s| > 0 ==> n >= s[0] as int - '0' as int
    decreases |s|
  {
    if s == [] then 0
    else DigitsValue(s[..|s| - 1]) * 10 + (s[|s| - 1] as int - '0' as int)
  }

  /** `int(str(n)) == n`: reading back the digits `str` writes gives the number. */
  lemma {:induction false} DigitsValueOfNatToString(n: nat)
    ensures DigitsValue(NatToString(n)) == n
    decreases n
  {
    if n >= 10 {
      var r := NatToString(n);
      assert r[..|r| - 1] == NatToString(n / 10);
      DigitsValueOfNatToString(n / 10);
    }
  }

  /** `str(int(s)) == s` for a digit string without a leading zero. */
  lemma {:induction false} NatToStringOfDigitsValue(s: string)
    requires |s| > 0 && AllDecimalDigits(s) && (s[0] != '0' || |s| == 1)
    ensures NatToString(DigitsValue(s)) == s
    decreases |s|
  {
    if |s| > 1 {
      var prefix := s[..|s| - 1];
      NatToStringOfDigitsValue(prefix);
      var n := DigitsValue(s);
      assert n / 10 == DigitsValue(prefix) && n % 10 == s[|s| - 1] as int - '0' as int;
      assert s == prefix + [s[|s| - 1]];
    }
  }

  /** CPython's default `sys.int_max_str_digits`: `int()` of a decimal
      text with more digits than this raises ValueError. */
  const IntMaxStrDigits: nat := 4300

  /** Characters `str.isdigit()` accepts but `int()` rejects: those whose
      Unicode numeric type is Digit (superscripts, subscripts, circled,
      parenthesized and full-stop digits, the dingbat digits, and the
      Ethiopic, New Tai Lue, Kharoshthi, Rumi and Brahmi number digits). */
  predicate IsNonDecimalDigit(c: char) {
    var n := c as int;
    n == 0xB2 || n == 0xB3 || n == 0xB9
    || (0x1369 <= n <= 0x1371) || n == 0x19DA
    || n == 0x2070 || (0x2074 <= n <= 0x2079) || (0x2080 <= n <= 0x2089)
    || (0x2460 <= n <= 0x2468) || (0x2474 <= n <= 0x247C) || (0x2488 <= n <= 0x2490)
    || n == 0x24EA || (0x24F5 <= n <= 0x24FD) || n == 0x24FF
    || (0x2776 <= n <= 0x277E) || (0x2780 <= n <= 0x2788) || (0x278A <= n <= 0x2792)
    || (0x10A40 <= n <= 0x10A43) || (0x10E60 <= n <= 0x10E68) || (0x11052 <= n <= 0x1105A)
    || (0x1F100 <= n <= 0x1F10A)
  }

  /** `c.isdigit()`. */
  predicate IsDigitChar(c: char) {
    IsDecimalDigit(c) || IsNonDecimalDigit(c)
  }

  /** `s.isdigit()`: non-empty and every character a digit. */
  predicate IsDigits(s: string)
    ensures IsDigits(s) ==> |s| > 0 && !IsSpace(s[0]) && !IsSpace(s[|s| - 1])
    ensures |s| > 0 && AllDecimalDigits(s) ==> IsDigits(s)
  {
    |s| > 0 && forall k | 0 <= k < |s| :: IsDigitChar(s[k])
  }

  // ---------------------------------------------------------------------
  // str() and str.lower()

  /** `str(v)`: a string is its own text, and every other value prints as
      a non-empty text. */
  function Str(v: PyValue): (r: string)
    ensures v.PyStr? ==> r == v.s
    ensures !v.PyStr? ==> 1 <= |r|
    ensures v.PyInt? ==> (r[0] == '-' <==> v.i < 0)
  {
    match v
    case PyNone => "None"
    case PyBool(b) => if b then "True" else "False"
    case PyInt(i) => IntToString(i)
    case PyStr(s) => s
  }

  function LowerChar(c: char): char {
    if 'A' <= c <= 'Z' then (c as int + 32) as char else c
  }

  function UpperChar(c: char): char {
    if 'a' <= c <= 'z' then (c as int - 32) as char else c
  }

  /** `s.lower()` on the ASCII letters. */
  function Lower(s: string): (r: string)
    ensures |r| == |s|
  {
    seq(|s|, k requires 0 <= k < |s| => LowerChar(s[k]))
  }

  /** `s.upper()` on the ASCII letters. */
  function Upper(s: string): (r: string)
    ensures |r| == |s|
  {
    seq(|s|, k requires 0 <= k < |s| => UpperChar(s[k]))
  }

  /** Lower-casing forgets any earlier upper-casing. */
  lemma LowerOfUpper(s: string)
    ensures Lower(Upper(s)) == Lower(s)
  {
    forall k | 0 <= k < |s|
      ensures Lower(Upper(s))[k] == Lower(s)[k]
    {
      var c := s[k];
      if 'a' <= c <= 'z' {
        assert UpperChar(c) as int == c as int - 32;
      }
    }
  }

  /** Lower-casing twice is lower-casing once. */
  lemma LowerOfLower(s: string)
    ensures Lower(Lower(s)) == Lower(s)
  {
    forall k | 0 <= k < |s|
      ensures Lower(Lower(s))[k] == Lower(s)[k]
    {
      var c := s[k];
      if 'A' <= c <= 'Z' {
        assert LowerChar(c) as int == c as int + 32;
      }
    }
  }

  /** Digits and the minus sign are not letters, so `str(i).lower() == str(i)`. */
  lemma LowerOfIntToString(i: int)
    ensures Lower(IntToString(i)) == IntToString(i)
  {
    var r := IntToString(i);
    assert forall k | 0 <= k < |r| :: r[k] == '-' || IsDecimalDigit(r[k]);
  }

  /** `str(True).lower()` and `str(False).lower()` are JSON's booleans;
      `str(None).lower()` is "none". */
  lemma LowerStrOfConstants()
    ensures Lower(Str(PyBool(true))) == "true"
    ensures Lower(Str(PyBool(false))) == "false"
    ensures Lower(Str(PyNone)) == "none"
  {
    assert Lower("True") == "true";
    assert Lower("False") == "false";
    assert Lower("None") == "none";
  }

  // ---------------------------------------------------------------------
  // Substring search and str.split

  /** `sep` occurs in `s` starting at index `j`. */
  predicate OccursAt(s: string, sep: string, j: int) {
    0 <= j && j + |sep| <= |s| && s[j..j + |sep|] == sep
  }

  /** `s.startswith(prefix)`. */
  predicate StartsWith(s: string, prefix: string)
    ensures StartsWith(s, prefix) <==> OccursAt(s, prefix, 0)
  {
    |prefix| <= |s| && s[..|prefix|] == prefix
  }

  /** A text starts with a prefix exactly when it is that prefix followed
      by the rest. */
  lemma StartsWithConcat(s: string, prefix: string)
    ensures StartsWith(s, prefix) <==> |prefix| <= |s| && s == prefix + s[|prefix|..]
  {
    if |prefix| <= |s| && s == prefix + s[|prefix|..] {
      assert s[..|prefix|] == prefix;
    }
  }

  /** `sep in s`. */
  predicate Contains(s: string, sep: string) {
    exists j | 0 <= j <= |s| - |sep| :: OccursAt(s, sep, j)
  }

  /** Shifting the search one character to the right. */
  lemma OccursInTail(s: string, sep: string)
    requires |sep| <= |s| && s[..|sep|] != sep
    ensures forall j | OccursAt(s, sep, j) :: 1 <= j && OccursAt(s[1..], sep, j - 1)
    ensures forall j | OccursAt(s[1..], sep, j) :: OccursAt(s, sep, j + 1)
  {
    forall j | OccursAt(s, sep, j) ensures 1 <= j && OccursAt(s[1..], sep, j - 1) {
      assert j != 0;
      assert s[1..][j - 1..j - 1 + |sep|] == s[j..j + |sep|];
    }
    forall j | OccursAt(s[1..], sep, j) ensures OccursAt(s, sep, j + 1) {
      assert s[1..][j..j + |sep|] == s[j + 1..j + 1 + |sep|];
    }
  }

  /** `s.find(sep)`: the leftmost occurrence, None where Python answers -1. */
  function Find(s: string, sep: string): (r: Option<nat>)
    ensures r.Some? ==> OccursAt(s, sep, r.value)
    ensures r.Some? ==> forall j | 0 <= j < r.value :: !OccursAt(s, sep, j)
    ensures r.None? ==> forall j :: !OccursAt(s, sep, j)
    decreases |s|
  {
    if |s| < |sep| then None
    else if s[..|sep|] == sep then Some(0)
    else
      OccursInTail(s, sep);
      match Find(s[1..], sep)
      case None => None
      case Some(i) => Some(i + 1)
  }

  lemma FindIffContains(s: string, sep: string)
    ensures Find(s, sep).Some? <==> Contains(s, sep)
  {
    if Find(s, sep).Some? {
      assert OccursAt(s, sep, Find(s, sep).value);
    }
  }

  /** `s.split(sep)` for a non-empty separator: the pieces between the
      non-overlapping occurrences of `sep`, scanned left to right. */
  function Split(s: string, sep: string): (parts: seq<string>)
    requires |sep| > 0
    ensures 1 <= |parts|
    decreases |s|
  {
    match Find(s, sep)
    case None => [s]
    case Some(i) => [s[..i]] + Split(s[i + |sep|..], sep)
  }

  /** `sep.join(parts)`. */
  function Join(parts: seq<string>, sep: string): string
    requires 1 <= |parts|
  {
    if |parts| == 1 then parts[0] else parts[0] + sep + Join(parts[1..], sep)
  }

  /** Joining the pieces of a split with the separator gives back the string. */
  lemma {:induction false} JoinSplit(s: string, sep: string)
    requires |sep| > 0
    ensures Join(Split(s, sep), sep) == s
    decreases |s|
  {
    match Find(s, sep)
    case None =>
    case Some(i) =>
      var rest := s[i + |sep|..];
      var parts := Split(s, sep);
      assert parts == [s[..i]] + Split(rest, sep);
      assert parts[1..] == Split(rest, sep);
      JoinSplit(rest, sep);
      calc {
        Join(parts, sep);
        s[..i] + sep + Join(Split(rest, sep), sep);
        s[..i] + sep + rest;
        { assert s[i..i + |sep|] == sep; }
        s[..i] + s[i..i + |sep|] + s[i + |sep|..];
        s;
      }
  }

  /** No piece of a split contains the separator. */
  lemma {:induction false} SplitPiecesLackSeparator(s: string, sep: string)
    requires |sep| > 0
    ensures forall k | 0 <= k < |Split(s, sep)| :: !Contains(Split(s, sep)[k], sep)
    decreases |s|
  {
    match Find(s, sep)
    case None =>
      forall j | OccursAt(s, sep, j) ensures false { }
    case Some(i) =>
      var rest := s[i + |sep|..];
      SplitPiecesLackSeparator(rest, sep);
      var head := s[..i];
      forall j | 0 <= j <= |head| - |sep| && OccursAt(head, sep, j) ensures false {
        assert s[j..j + |sep|] == head[j..j + |sep|];
        assert OccursAt(s, sep, j);
      }
      assert Split(s, sep) == [head] + Split(rest, sep);
  }

  /** A split has a second piece exactly when the separator occurs. */
  lemma SplitHasSecondPiece(s: string, sep: string)
    requires |sep| > 0
    ensures 2 <= |Split(s, sep)| <==> Contains(s, sep)
  {
    FindIffContains(s, sep);
  }

  /** When the first occurrence of `sep` in `a + sep + b` is the one after `a`,
      the split begins with `a` and goes on with the split of `b`. */
  lemma SplitAfterFirst(a: string, sep: string, b: string)
    requires |sep| > 0
    requires forall j | 0 <= j < |a| :: !OccursAt(a + sep + b, sep, j)
    ensures Split(a + sep + b, sep) == [a] + Split(b, sep)
  {
    var s := a + sep + b;
    assert OccursAt(s, sep, |a|) by {
      assert s[|a|..|a| + |sep|] == sep;
    }
    assert Find(s, sep) == Some(|a|);
    assert s[..|a|] == a;
    assert s[|a| + |sep|..] == b;
  }

  /** A string without the separator splits into itself alone. */
  lemma SplitWithoutSeparator(s: string, sep: string)
    requires |sep| > 0 && !Contains(s, sep)
    ensures Split(s, sep) == [s]
  {
    FindIffContains(s, sep);
  }

  /** For a one-character separator `c`, the first occurrence in
      `a + [c] + b` is the one after `a` when `a` holds no `c`. */
  lemma SingleCharFirst(a: string, c: char, b: string)
    requires c !in a
    ensures forall j | 0 <= j < |a| :: !OccursAt(a + [c] + b, [c], j)
  {
    forall j | 0 <= j < |a| ensures !OccursAt(a + [c] + b, [c], j) {
      assert (a + [c] + b)[j..j + 1] == [a[j]];
    }
  }

  /** The last piece of a split on a one-character separator is the text after
      its last occurrence. */
  lemma {:induction false} SplitLastOnChar(s: string, a: string, c: char, b: string)
    requires s == a + [c] + b && c !in b
    ensures Split(s, [c])[|Split(s, [c])| - 1] == b
    decreases |a|
  {
    assert OccursAt(s, [c], |a|) by { assert s[|a|..|a| + 1] == [c]; }
    assert Find(s, [c]).Some?;
    var i := Find(s, [c]).value;
    assert i <= |a|;
    if i == |a| {
      assert s[i + 1..] == b;
      forall j | 0 <= j < |b| ensures !OccursAt(b, [c], j) {
        assert b[j..j + 1] == [b[j]];
      }
      assert !Contains(b, [c]);
      SplitWithoutSeparator(b, [c]);
    } else {
      var a' := a[i + 1..];
      assert s[i + 1..] == a' + [c] + b;
      SplitLastOnChar(s[i + 1..], a', c, b);
    }
  }

  /** `s.rfind(c)`: the index of the last `c`, or -1. */
  function RFind(s: string, c: char): (r: int)
    ensures -1 <= r < |s|
    ensures 0 <= r ==> s[r] == c
    ensures forall j | r < j < |s| :: s[j] != c
    decreases |s|
  {
    if |s| == 0 then -1
    else if s[|s| - 1] == c then |s| - 1
    else RFind(s[..|s| - 1], c)
  }

  /** `rfind` over a concatenation looks in the right part first. */
  lemma {:induction false} RFindAppend(s: string, t: string, c: char)
    ensures RFind(s + t, c) == if c in t then |s| + RFind(t, c) else RFind(s, c)
    decreases |t|
  {
    var u := s + t;
    if |t| == 0 {
      assert u == s;
    } else if t[|t| - 1] != c {
      var t' := t[..|t| - 1];
      assert u[..|u| - 1] == s + t';
      assert t == t' + [t[|t| - 1]];
      assert c in t <==> c in t';
      RFindAppend(s, t', c);
    }
  }

  // ---------------------------------------------------------------------
  // str.strip

  /** `c.isspace()`: the characters Python's `str.strip()` removes. */
  predicate IsSpace(c: char)
    ensures c == ' ' || c == '\t' || c == '\n' || c == '\r' ==> IsSpace(c)
    ensures IsSpace(c) ==> !IsDigitChar(c) && c != '.'
  {
    var n := c as int;
    (9 <= n <= 13) || (28 <= n <= 32) || n == 0x85 || n == 0xA0 || n == 0x1680
    || (0x2000 <= n <= 0x200A) || n == 0x2028 || n == 0x2029 || n == 0x202F
    || n == 0x205F || n == 0x3000
  }

  /** `s.lstrip()`: drops leading whitespace, keeps a suffix of `s`. */
  function StripLeft(s: string): (r: string)
    ensures |r| <= |s| && r == s[|s| - |r|..]
    ensures forall k | 0 <= k < |s| - |r| :: IsSpace(s[k])
    ensures r == [] || !IsSpace(r[0])
    decreases |s|
  {
    if |s| > 0 && IsSpace(s[0]) then StripLeft(s[1..]) else s
  }

  /** `s.rstrip()`: drops trailing whitespace, keeps a prefix of `s`. */
  function StripRight(s: string): (r: string)
    ensures |r| <= |s| && r == s[..|r|]
    ensures forall k | |r| <= k < |s| :: IsSpace(s[k])
    ensures r == [] || !IsSpace(r[|r| - 1])
    decreases |s|
  {
    if |s| > 0 && IsSpace(s[|s| - 1]) then StripRight(s[..|s| - 1]) else s
  }

  /** `s.strip()`: neither end of the result is whitespace. */
  function Strip(s: string): (r: string)
    ensures |r| <= |s|
    ensures r == [] || (!IsSpace(r[0]) && !IsSpace(r[|r| - 1]))
  {
    var m := StripRight(s);
    var r := StripLeft(m);
    assert r != [] ==> r[|r| - 1] == m[|m| - 1];
    r
  }

  predicate AllSpace(s: string) {
    forall k | 0 <= k < |s| :: IsSpace(s[k])
  }

  /** What `strip` keeps: text `t` padded on both sides with whitespace and
      neither beginning nor ending with whitespace comes back as exactly `t`. */
  lemma StripPadded(w1: string, t: string, w2: string)
    requires AllSpace(w1) && AllSpace(w2)
    requires t == [] || (!IsSpace(t[0]) && !IsSpace(t[|t| - 1]))
    ensures Strip(w1 + t + w2) == t
  {
    var s := w1 + t + w2;
    var m := StripRight(s);
    if t == [] {
      assert forall k | 0 <= k < |s| :: IsSpace(s[k]);
    } else {
      assert s[|w1 + t| - 1] == t[|t| - 1];
      assert forall k | |w1 + t| <= k < |s| :: IsSpace(s[k]);
      assert s[..|w1 + t|] == w1 + t;
      assert m == w1 + t;
      assert forall k | 0 <= k < |w1| :: IsSpace(m[k]);
      assert m[|w1|] == t[0];
      assert m[|w1|..] == t;
    }
  }
}
