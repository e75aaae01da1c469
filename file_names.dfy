/**
 * File naming shared by both `download_app` implementations: the name is
 * taken from the `Content-Disposition` header's `filename=` and its last
 * extension is replaced by the caller's, with `os.path.splitext` deciding
 * what the last extension is (POSIX rules: `/` separates components, dots
 * that begin a component do not start an extension).
 */
module FileNames {
  import opened Python

  /** The text both download functions split the header on. */
  const FilenameMarker: string := "filename="

  /** `header.split("filename=")[1]`: the text after the first marker and
      before any later one; IndexError when the header has no marker. */
  function HeaderFilename(header: string): (r: Result<string>)
    ensures r.Ok? <==> Contains(header, FilenameMarker)
    ensures r.Err? ==> r.error == IndexError
    ensures r.Ok? ==> !Contains(r.value, FilenameMarker)
  {
    SplitHasSecondPiece(header, FilenameMarker);
    SplitPiecesLackSeparator(header, FilenameMarker);
    var parts := Split(header, FilenameMarker);
    if |parts| < 2 then Err(IndexError) else Ok(parts[1])
  }

  /** The first marker is the one right after a text that holds none: no
      occurrence can begin inside that text, since one reaching into the
      marker would need an `=` before the marker's last character. */
  lemma NoMarkerBefore(a: string, b: string)
    requires !Contains(a, FilenameMarker)
    ensures forall j | 0 <= j < |a| :: !OccursAt(a + FilenameMarker + b, FilenameMarker, j)
  {
    var s := a + FilenameMarker + b;
    assert forall k | 0 <= k < 8 :: FilenameMarker[k] != '=';
    forall j | 0 <= j < |a| ensures !OccursAt(s, FilenameMarker, j) {
      if j + 9 <= |s| {
        if j + 9 <= |a| {
          assert s[j..j + 9] == a[j..j + 9];
          assert !OccursAt(a, FilenameMarker, j);
        } else {
          assert s[j + 8] == FilenameMarker[j + 8 - |a|];
          assert s[j..j + 9][8] == s[j + 8] != '=';
        }
      }
    }
  }

  /** A text without `=` holds no marker. */
  lemma NoMarkerWithoutEquals(a: string)
    requires '=' !in a
    ensures !Contains(a, FilenameMarker)
  {
    forall j | 0 <= j <= |a| - 9 ensures !OccursAt(a, FilenameMarker, j) {
      assert a[j..j + 9][8] == a[j + 8] != '=';
    }
  }

  /** The name is the text after the first marker and before the next one,
      untrimmed and unquoted, whatever precedes the first marker. */
  lemma HeaderFilenameAfterMarker(a: string, b: string)
    requires !Contains(a, FilenameMarker)
    ensures HeaderFilename(a + FilenameMarker + b) == Ok(Split(b, FilenameMarker)[0])
  {
    NoMarkerBefore(a, b);
    SplitAfterFirst(a, FilenameMarker, b);
  }

  /** With a single marker the name is everything after it. */
  lemma HeaderFilenameSingleMarker(a: string, b: string)
    requires !Contains(a, FilenameMarker) && !Contains(b, FilenameMarker)
    ensures HeaderFilename(a + FilenameMarker + b) == Ok(b)
  {
    HeaderFilenameAfterMarker(a, b);
    SplitWithoutSeparator(b, FilenameMarker);
  }

  /** With two markers the name stops where the second begins. */
  lemma HeaderFilenameTwoMarkers(a: string, b: string, c: string)
    requires !Contains(a, FilenameMarker) && !Contains(b, FilenameMarker)
    ensures HeaderFilename(a + FilenameMarker + b + FilenameMarker + c) == Ok(b)
  {
    assert a + FilenameMarker + b + FilenameMarker + c == a + FilenameMarker + (b + FilenameMarker + c);
    HeaderFilenameAfterMarker(a, b + FilenameMarker + c);
    NoMarkerBefore(b, c);
    SplitAfterFirst(b, FilenameMarker, c);
  }

  /** A header without the marker makes the lookup of the second piece fail. */
  lemma HeaderFilenameMissingMarker(header: string)
    requires !Contains(header, FilenameMarker)
    ensures HeaderFilename(header) == Err(IndexError)
  {
  }

  // ---------------------------------------------------------------------
  // os.path.splitext

  /** `os.path.splitext(p)` for POSIX paths: `(root, ext)` with `ext` starting
      at the last dot of the final component, provided something other than
      a dot precedes that dot within the component; otherwise `(p, "")`. */
  function Splitext(p: string): (r: (string, string))
    ensures r.0 + r.1 == p
    ensures r.1 == [] || r.1[0] == '.'
    ensures forall k | 1 <= k < |r.1| :: r.1[k] != '.' && r.1[k] != '/'
    ensures r.1 != [] ==> HasStem(r.0)
  {
    var sepIndex := RFind(p, '/');
    var dotIndex := RFind(p, '.');
    if dotIndex > sepIndex && exists j | sepIndex + 1 <= j < dotIndex :: p[j] != '.'
    then
      var j :| sepIndex + 1 <= j < dotIndex && p[j] != '.';
      RFindAppend(p[..dotIndex], p[dotIndex..], '/');
      assert p[..dotIndex] + p[dotIndex..] == p;
      assert p[..dotIndex][j] == p[j];
      (p[..dotIndex], p[dotIndex..])
    else (p, "")
  }

  /** The final component of `stem` holds something other than dots. */
  predicate HasStem(stem: string) {
    exists j | RFind(stem, '/') + 1 <= j < |stem| :: stem[j] != '.'
  }

  /** A name of the form stem "." e, with e free of dots and slashes and a
      real stem, splits into exactly those two parts. */
  lemma SplitextOfDotted(stem: string, e: string)
    requires '.' !in e && '/' !in e && HasStem(stem)
    ensures Splitext(stem + "." + e) == (stem, "." + e)
  {
    var p := stem + "." + e;
    LastDotAndSlash(stem, e);
    var sepIndex := RFind(p, '/');
    var dotIndex := RFind(p, '.');
    var j :| sepIndex + 1 <= j < |stem| && stem[j] != '.';
    assert p[j] == stem[j];
    assert p[..dotIndex] == stem;
    assert p[dotIndex..] == "." + e;
  }

  /** In stem "." e the last dot is the one after the stem, and the last
      slash is the stem's. */
  lemma LastDotAndSlash(stem: string, e: string)
    requires '.' !in e && '/' !in e
    ensures RFind(stem + "." + e, '.') == |stem|
    ensures RFind(stem + "." + e, '/') == RFind(stem, '/')
  {
    var tail := "." + e;
    assert stem + "." + e == stem + tail;
    RFindAppend(".", e, '.');
    RFindAppend(".", e, '/');
    RFindAppend(stem, tail, '.');
    RFindAppend(stem, tail, '/');
  }

  /** A path without any dot has no extension. */
  lemma SplitextWithoutDot(p: string)
    requires '.' !in p
    ensures Splitext(p) == (p, "")
  {
  }

  /** A leading dot does not start an extension: ".bashrc" has none. */
  lemma {:induction false} SplitextDotfile(name: string)
    requires '.' !in name && '/' !in name
    ensures Splitext("." + name) == ("." + name, "")
  {
    RFindAppend(".", name, '.');
    RFindAppend(".", name, '/');
  }

  /** A dot-free prefix survives in the root: the extension can only begin
      after it. */
  lemma SplitextKeepsPrefix(prefix: string, name: string)
    requires '.' !in prefix
    ensures StartsWith(Splitext(prefix + name).0, prefix)
  {
    var p := prefix + name;
    RFindAppend(prefix, name, '.');
    assert p[..|prefix|] == prefix;
    if '.' in name {
      assert RFind(p, '.') >= |prefix|;
      assert Splitext(p).0[..|prefix|] == p[..|prefix|];
    }
  }

  // ---------------------------------------------------------------------
  // Forcing the extension

  /** `name, _ = os.path.splitext(base); name + '.' + extension`. */
  function ReplaceExtension(base: string, extension: string): (r: string)
    ensures |r| == |Splitext(base).0| + 1 + |extension|
    ensures r[|r| - |extension| - 1..] == "." + extension
  {
    Splitext(base).0 + "." + extension
  }

  /** The base name is kept and the suffix forced: stem.e becomes stem.x. */
  lemma ReplaceExtensionKeepsStem(stem: string, e: string, x: string)
    requires '.' !in e && '/' !in e && HasStem(stem)
    ensures ReplaceExtension(stem + "." + e, x) == stem + "." + x
  {
    SplitextOfDotted(stem, e);
  }

  /** A name without extension gains one. */
  lemma ReplaceExtensionAppends(base: string, x: string)
    requires '.' !in base
    ensures ReplaceExtension(base, x) == base + "." + x
  {
    SplitextWithoutDot(base);
  }

  /** Splitting the new name again yields the kept root and the forced
      extension, so forcing the same extension twice changes nothing. */
  lemma ReplaceExtensionRoundTrip(base: string, x: string)
    requires '.' !in x && '/' !in x && HasStem(Splitext(base).0)
    ensures Splitext(ReplaceExtension(base, x)) == (Splitext(base).0, "." + x)
    ensures ReplaceExtension(ReplaceExtension(base, x), x) == ReplaceExtension(base, x)
  {
    SplitextOfDotted(Splitext(base).0, x);
  }

  /** A name that does not begin with a dot and has no slash has a stem. */
  lemma HasStemPlain(stem: string)
    requires |stem| > 0 && stem[0] != '.' && '/' !in stem
    ensures HasStem(stem)
  {
  }

  /** foo.tar and tgz give foo.tgz. */
  lemma ReplaceExtensionSingle()
    ensures ReplaceExtension("foo.tar", "tgz") == "foo.tgz"
  {
    HasStemPlain("foo");
    assert "foo.tar" == "foo" + "." + "tar";
    ReplaceExtensionKeepsStem("foo", "tar", "tgz");
  }

  /** foo.tar.gz and tgz give foo.tar.tgz: only the last extension goes. */
  lemma ReplaceExtensionDouble()
    ensures ReplaceExtension("foo.tar.gz", "tgz") == "foo.tar.tgz"
  {
    HasStemPlain("foo.tar");
    assert "foo.tar.gz" == "foo.tar" + "." + "gz";
    ReplaceExtensionKeepsStem("foo.tar", "gz", "tgz");
  }

  /** foo and spl give foo.spl. */
  lemma ReplaceExtensionNone()
    ensures ReplaceExtension("foo", "spl") == "foo.spl"
  {
    ReplaceExtensionAppends("foo", "spl");
  }

  /** .bashrc and tgz give .bashrc.tgz: the leading dot is not an extension. */
  lemma ReplaceExtensionDotfile()
    ensures ReplaceExtension(".bashrc", "tgz") == ".bashrc.tgz"
  {
    assert ".bashrc" == "." + "bashrc";
    SplitextDotfile("bashrc");
  }
}
