/**
 * The upload middleware: the file filter that accepts images and PDFs, the
 * 5 MiB size ceiling, and the name under which an accepted file is stored.
 * The upload time (`Date.now()`) and the random suffix
 * (`Math.round(Math.random() * 1E9)`) are parameters.
 */
module Upload {
  import opened Wrappers
  import opened JsString

  /** `limits.fileSize`: 5 MiB. */
  const MaxFileSize: nat := 5 * 1024 * 1024

  const PdfMimeType := "application/pdf"
  const FilterMessage := "Only image files (JPEG, PNG, GIF, WebP) and PDF files are allowed!"
  /** The message of Multer's `LIMIT_FILE_SIZE` error. */
  const TooLargeMessage := "File too large"

  /** A file part as Multer sees it: the client's file name, the declared
      content type, and its length in bytes. */
  datatype IncomingFile = IncomingFile(originalname: string, mimetype: string, size: nat)

  datatype Verdict = Accept | Reject(message: string)

  datatype Admission = Stored(filename: string) | Refused(message: string)

  // ------------------------------------------------------- path.extname

  function LastIndexOf(s: string, c: char): (r: Option<nat>)
    ensures r.Some? ==> r.value < |s| && s[r.value] == c
    ensures r.Some? ==> c !in s[r.value + 1..]
    ensures r.None? ==> c !in s
  {
    if |s| == 0 then None
    else if s[|s| - 1] == c then Some(|s| - 1)
    else
      assert s == s[..|s| - 1] + [s[|s| - 1]];
      LastIndexOf(s[..|s| - 1], c)
  }

  /** The last component of a `/`-separated path: the longest suffix without `/`. */
  function BaseName(path: string): (r: string)
    ensures '/' !in r && |r| <= |path| && r == path[|path| - |r|..]
    ensures |r| == |path| || path[|path| - |r| - 1] == '/'
  {
    match LastIndexOf(path, '/')
    case None => path
    case Some(i) => path[i + 1..]
  }

  /** The extension of a base name: from its last dot to the end; empty when
      it has no dot, starts with its only dot, or is `..`. */
  function BaseExt(b: string): (r: string)
    ensures r == [] || (r[0] == '.' && '.' !in r[1..])
    ensures |r| <= |b| && r == b[|b| - |r|..]
    ensures r == [] <==> NoExtension(b)
  {
    match LastIndexOf(b, '.')
    case None => ""
    case Some(i) =>
      assert 0 < i ==> b[1..][i - 1] == b[i];
      if i == 0 || b == ".." then ""
      else
        assert b[i..][1..] == b[i + 1..];
        b[i..]
  }

  /** Node gives a base name no extension when it has no dot, when its only
      dot is its first character (`.pdf`), or when it is `..`. */
  predicate NoExtension(b: string) {
    '.' !in b || b == ".." || (b[0] == '.' && '.' !in b[1..])
  }

  /** `path.extname`: the extension of the base name. */
  function ExtName(path: string): (r: string)
    ensures r == [] || (r[0] == '.' && '.' !in r[1..])
    ensures '/' !in r && |r| <= |path| && r == path[|path| - |r|..]
    ensures r == BaseExt(BaseName(path))
  {
    var b := BaseName(path);
    var r := BaseExt(b);
    SuffixOfSuffix(path, b, r);
    r
  }

  /** A path has no extension exactly when its base name has none in Node's sense. */
  lemma ExtNameEmpty(path: string)
    ensures ExtName(path) == "" <==> NoExtension(BaseName(path))
  {
  }

  /** The extension is the base name from its last dot on. */
  lemma ExtNameFromLastDot(path: string)
    requires !NoExtension(BaseName(path))
    ensures var b := BaseName(path);
      LastIndexOf(b, '.').Some? && ExtName(path) == b[LastIndexOf(b, '.').value..]
  {
  }

  /** A hidden file such as `.pdf` has no extension. */
  lemma HiddenFileNoExtension(dir: string, name: string)
    requires '/' !in name && '.' !in name
    ensures ExtName(dir + "/." + name) == ""
  {
    var path := dir + "/." + name;
    LastIndexOfLast(dir, '/', "." + name);
    assert dir + "/." + name == dir + ['/'] + ("." + name);
    assert BaseName(path) == "." + name;
    assert ("." + name)[1..] == name;
  }

  /** The parent-directory name `..` has no extension. */
  lemma DotDotNoExtension()
    ensures ExtName("..") == ""
  {
    assert BaseName("..") == "..";
  }

  /** A suffix of a suffix is a suffix, and has only characters of the middle one. */
  lemma SuffixOfSuffix(a: string, b: string, c: string)
    requires |b| <= |a| && b == a[|a| - |b|..]
    requires |c| <= |b| && c == b[|b| - |c|..]
    ensures c == a[|a| - |c|..]
    ensures forall x :: x in c ==> x in b
  {
    forall x | x in c ensures x in b {
      var j :| 0 <= j < |c| && c[j] == x;
      assert b[|b| - |c| + j] == x;
    }
  }

  // --------------------------------------------------------- fileFilter

  /** `/jpeg|jpg|png|gif|webp/.test(s)`: unanchored, so a substring match. */
  predicate MatchesImage(s: string) {
    Contains(s, "jpeg") || Contains(s, "jpg") || Contains(s, "png") || Contains(s, "gif") || Contains(s, "webp")
  }

  /** `/pdf/.test(s)`. */
  predicate MatchesPdf(s: string) {
    Contains(s, "pdf")
  }

  /** `extname.toLowerCase().substring(1)`: the extension without its dot, in
      lower case (lower-casing keeps the dot, so it may be dropped first). */
  function ExtWord(originalname: string): (r: string)
    ensures IsLower(r) && '.' !in r
  {
    var x := ExtName(originalname);
    if x == [] then ""
    else
      LowerKeepsAbsent(x[1..], '.');
      ToLower(x[1..])
  }

  /** The word of a name whose extension is `.ext` is `ext` in lower case. */
  lemma ExtWordIs(originalname: string, ext: string)
    requires ExtName(originalname) == "." + ext
    ensures ExtWord(originalname) == ToLower(ext)
  {
    assert ("." + ext)[1..] == ext;
  }

  predicate IsImage(originalname: string, mimetype: string) {
    MatchesImage(ExtWord(originalname)) && MatchesImage(mimetype)
  }

  predicate IsPdf(originalname: string, mimetype: string) {
    MatchesPdf(ExtWord(originalname)) && mimetype == PdfMimeType
  }

  /** The file filter: accepts an image or a PDF, refuses everything else with one message. */
  function FileFilter(originalname: string, mimetype: string): (v: Verdict)
    ensures v.Accept? <==> IsImage(originalname, mimetype) || IsPdf(originalname, mimetype)
    ensures v.Reject? ==> v.message == FilterMessage
  {
    if IsImage(originalname, mimetype) || IsPdf(originalname, mimetype) then Accept
    else Reject(FilterMessage)
  }

  /** A name without an extension is refused whatever its declared type. */
  lemma NoExtensionRejected(originalname: string, mimetype: string)
    requires ExtName(originalname) == ""
    ensures FileFilter(originalname, mimetype) == Reject(FilterMessage)
  {
    assert ExtWord(originalname) == "";
    EmptyMatchesNothing();
    WordRejected(originalname, mimetype, "");
  }

  lemma EmptyMatchesNothing()
    ensures !MatchesImage("") && !MatchesPdf("")
  {
  }

  /** A hidden file such as `.pdf` is refused whatever content type it declares. */
  lemma HiddenFileRefused(dir: string, name: string, mimetype: string)
    requires '/' !in name && '.' !in name
    ensures FileFilter(dir + "/." + name, mimetype) == Reject(FilterMessage)
  {
    HiddenFileNoExtension(dir, name);
    NoExtensionRejected(dir + "/." + name, mimetype);
  }

  /** In particular `dir/.pdf` declared as a PDF. */
  lemma HiddenPdfRefused(dir: string)
    ensures FileFilter(dir + "/." + "pdf", PdfMimeType) == Reject(FilterMessage)
  {
    PdfWordPlain();
    HiddenFileRefused(dir, "pdf", PdfMimeType);
  }

  lemma PdfWordPlain()
    ensures '/' !in "pdf" && '.' !in "pdf"
  {
  }

  /** Only the lower-cased extension of the name takes part in the decision. */
  lemma ExtensionCaseInsensitive(name1: string, name2: string, mimetype: string)
    requires ToLower(ExtName(name1)) == ToLower(ExtName(name2))
    ensures FileFilter(name1, mimetype) == FileFilter(name2, mimetype)
  {
    ExtWordOfLower(name1);
    ExtWordOfLower(name2);
  }

  /** The word is the lower-cased extension without its first character. */
  lemma ExtWordOfLower(originalname: string)
    ensures var y := ToLower(ExtName(originalname));
      ExtWord(originalname) == if y == [] then "" else y[1..]
  {
    var x := ExtName(originalname);
    if x != [] {
      LowerDropFirst(x);
    }
  }

  lemma ContainsAt(s: string, pat: string, i: nat)
    requires OccursAt(s, pat, i)
    ensures Contains(s, pat)
  {
  }

  lemma SameLengthMismatch(s: string, pat: string)
    requires |s| == |pat| > 0 && s[0] != pat[0]
    ensures !Contains(s, pat)
  {
    assert s[0..|pat|][0] == s[0];
  }

  lemma DotExe()
    ensures ".exe" == "." + "exe"
  {
  }

  lemma ExeWord(originalname: string)
    requires ExtName(originalname) == ".exe"
    ensures ExtWord(originalname) == "exe"
  {
    DotExe();
    ExtWordIs(originalname, "exe");
    LowerLiterals();
  }

  /** A name whose word matches neither pattern is refused. */
  lemma WordRejected(originalname: string, mimetype: string, w: string)
    requires ExtWord(originalname) == w && !MatchesImage(w) && !MatchesPdf(w)
    ensures FileFilter(originalname, mimetype).Reject?
  {
  }

  /** A name whose word matches an image pattern, declared as an image type, is accepted. */
  lemma ImageWordAccepted(originalname: string, mimetype: string, w: string)
    requires ExtWord(originalname) == w && MatchesImage(w) && MatchesImage(mimetype)
    ensures FileFilter(originalname, mimetype).Accept?
  {
  }

  /** Neither an image word nor `pdf` occurs in `exe`. */
  lemma ExeMatchesNothing()
    ensures !MatchesImage("exe") && !MatchesPdf("exe")
  {
    SameLengthMismatch("exe", "jpg");
    SameLengthMismatch("exe", "png");
    SameLengthMismatch("exe", "gif");
    SameLengthMismatch("exe", "pdf");
  }

  /** An `.exe` file is refused whatever content type it declares. */
  lemma ExeRejected(originalname: string, mimetype: string)
    requires ExtName(originalname) == ".exe"
    ensures FileFilter(originalname, mimetype).Reject?
  {
    ExeWord(originalname);
    ExeMatchesNothing();
    WordRejected(originalname, mimetype, "exe");
  }

  // ----------------------------------------------------------- filename

  /** The name Multer stores a file under: `project-`, the upload instant in
      milliseconds, `-`, a random number, then the given extension. */
  function StoredName(now: nat, rand: nat, ext: string): (r: string)
    ensures StartsWith(r, "project-")
    ensures |ext| <= |r| && r[|r| - |ext|..] == ext
  {
    var p, a, b := "project-", Decimal(now), Decimal(rand);
    ConcatParts(p, a + "-" + b + ext);
    ConcatParts(p + a + "-" + b, ext);
    assert p + a + "-" + b + ext == p + (a + "-" + b + ext);
    p + a + "-" + b + ext
  }

  /** `'project-' + Date.now() + '-' + Math.round(Math.random() * 1E9) + path.extname(originalname)`. */
  function Filename(now: nat, rand: nat, originalname: string): (r: string)
    ensures StartsWith(r, "project-")
    ensures |ExtName(originalname)| <= |r| && r[|r| - |ExtName(originalname)|..] == ExtName(originalname)
  {
    StoredName(now, rand, ExtName(originalname))
  }

  /** Stored names are unique: the instant, the random number and the
      extension can be read back from the name. */
  lemma StoredNameInjective(now1: nat, rand1: nat, ext1: string, now2: nat, rand2: nat, ext2: string)
    requires ext1 == [] || ext1[0] == '.'
    requires ext2 == [] || ext2[0] == '.'
    requires StoredName(now1, rand1, ext1) == StoredName(now2, rand2, ext2)
    ensures now1 == now2 && rand1 == rand2 && ext1 == ext2
  {
    NameParts(Decimal(now1), Decimal(rand1), ext1, Decimal(now2), Decimal(rand2), ext2);
    DecimalInjective(now1, now2);
    DecimalInjective(rand1, rand2);
  }

  /** Different upload instants or random suffixes never give the same file
      name, and the name determines the extension. */
  lemma FilenameInjective(now1: nat, rand1: nat, name1: string, now2: nat, rand2: nat, name2: string)
    requires Filename(now1, rand1, name1) == Filename(now2, rand2, name2)
    ensures now1 == now2 && rand1 == rand2 && ExtName(name1) == ExtName(name2)
  {
    StoredNameInjective(now1, rand1, ExtName(name1), now2, rand2, ExtName(name2));
  }

  lemma NameParts(a1: string, b1: string, e1: string, a2: string, b2: string, e2: string)
    requires AllDigits(a1) && AllDigits(b1) && AllDigits(a2) && AllDigits(b2)
    requires e1 == [] || e1[0] == '.'
    requires e2 == [] || e2[0] == '.'
    requires "project-" + a1 + "-" + b1 + e1 == "project-" + a2 + "-" + b2 + e2
    ensures a1 == a2 && b1 == b2 && e1 == e2
  {
    var p := "project-";
    var t1, t2 := "-" + b1 + e1, "-" + b2 + e2;
    assert p + a1 + "-" + b1 + e1 == p + (a1 + t1);
    assert p + a2 + "-" + b2 + e2 == p + (a2 + t2);
    assert a1 + t1 == (p + (a1 + t1))[|p|..];
    assert a2 + t2 == (p + (a2 + t2))[|p|..];
    DigitRunUnique(a1, t1, a2, t2);
    assert b1 + e1 == t1[1..];
    assert b2 + e2 == t2[1..];
    DigitRunUnique(b1, e1, b2, e2);
  }

  // ------------------------------------------------------- the middleware

  /** What Multer does with one file part: the filter first, then the size
      ceiling, then storage under a generated name. */
  function Admit(f: IncomingFile, now: nat, rand: nat): (a: Admission)
    ensures a.Stored? <==> FileFilter(f.originalname, f.mimetype).Accept? && f.size <= MaxFileSize
    ensures a.Stored? ==> a.filename == Filename(now, rand, f.originalname)
    ensures FileFilter(f.originalname, f.mimetype).Reject? ==> a == Refused(FilterMessage)
    ensures FileFilter(f.originalname, f.mimetype).Accept? && f.size > MaxFileSize ==> a == Refused(TooLargeMessage)
  {
    match FileFilter(f.originalname, f.mimetype)
    case Reject(message) => Refused(message)
    case Accept =>
      if f.size > MaxFileSize then Refused(TooLargeMessage)
      else Stored(Filename(now, rand, f.originalname))
  }

  lemma {:induction false} LastIndexOfLast(s: string, c: char, t: string)
    requires c !in t
    ensures LastIndexOf(s + [c] + t, c) == Some(|s|)
    decreases |t|
  {
    if |t| > 0 {
      var u := s + [c] + t;
      assert u[|u| - 1] == t[|t| - 1];
      assert u[..|u| - 1] == s + [c] + t[..|t| - 1];
      LastIndexOfLast(s, c, t[..|t| - 1]);
    }
  }

  /** A plain file name `stem.ext` has extension `.ext`. */
  lemma ExtNameOf(stem: string, ext: string)
    requires stem != "" && '/' !in stem && '/' !in ext && '.' !in ext
    requires !(stem == "." && ext == "")
    ensures ExtName(stem + "." + ext) == "." + ext
  {
    var path := stem + "." + ext;
    assert '/' !in path;
    assert BaseName(path) == path;
    LastIndexOfLast(stem, '.', ext);
    assert |stem| == 1 ==> stem == [path[0]];
    BaseExtAt(path, |stem|);
    assert path[|stem|..] == "." + ext;
  }

  lemma BaseExtAt(b: string, i: nat)
    requires LastIndexOf(b, '.') == Some(i) && 0 < i && b != ".."
    ensures BaseExt(b) == b[i..]
  {
  }

  /** The word the filter examines for `stem.ext` is `ext` in lower case. */
  lemma ExtWordOf(stem: string, ext: string)
    requires stem != "" && '/' !in stem && '/' !in ext && '.' !in ext
    requires !(stem == "." && ext == "")
    ensures ExtWord(stem + "." + ext) == ToLower(ext)
  {
    ExtNameOf(stem, ext);
    ExtWordIs(stem + "." + ext, ext);
  }

  lemma CharAbsent(s: string, pat: string, k: nat)
    requires k < |pat| && pat[k] !in s
    ensures !Contains(s, pat)
  {
    forall i ensures !OccursAt(s, pat, i) {
      if 0 <= i && i + |pat| <= |s| {
        assert s[i..i + |pat|][k] == s[i + k];
      }
    }
  }

  lemma LiteralMatches()
    ensures MatchesImage("image/jpeg") && MatchesImage("jpg") && MatchesImage("jpeg2") && MatchesPdf("pdf")
  {
    ContainsAt("image/jpeg", "jpeg", 6);
    ContainsAt("jpg", "jpg", 0);
    ContainsAt("jpeg2", "jpeg", 0);
    ContainsAt("pdf", "pdf", 0);
  }

  lemma PlainLiterals()
    ensures forall e :: e in ["jpg", "JPG", "jpeg2"] ==> e != "" && '/' !in e && '.' !in e
  {
  }

  lemma LowerLiterals()
    ensures ToLower("jpg") == "jpg" && ToLower("JPG") == "jpg" && ToLower("jpeg2") == "jpeg2" && ToLower("pdf") == "pdf"
    ensures ToLower("exe") == "exe"
  {
  }

  /** A 1 MiB `<stem>.jpg` declared `image/jpeg` (`photo.jpg`, say) is stored. */
  lemma JpegAccepted(stem: string, f: IncomingFile, now: nat, rand: nat)
    requires stem != "" && '/' !in stem
    requires f.originalname == stem + "." + "jpg" && f.mimetype == "image/jpeg" && f.size == 1024 * 1024
    ensures Admit(f, now, rand).Stored?
  {
    JpegPasses(stem, f.mimetype);
  }

  /** A stored file's name ends with the original extension, case and all. */
  lemma StoredNameKeepsExtension(f: IncomingFile, now: nat, rand: nat)
    requires Admit(f, now, rand).Stored?
    ensures var n, e := Admit(f, now, rand).filename, ExtName(f.originalname);
      |e| <= |n| && n[|n| - |e|..] == e
  {
  }

  /** `<stem>.<ext>` passes as an image when the lower-cased `ext` and the
      declared type both match the image pattern. */
  lemma ImageNamePasses(stem: string, ext: string, mimetype: string)
    requires stem != "" && '/' !in stem && ext != "" && '/' !in ext && '.' !in ext
    requires MatchesImage(ToLower(ext)) && MatchesImage(mimetype)
    ensures FileFilter(stem + "." + ext, mimetype).Accept?
  {
    ExtWordOf(stem, ext);
    ImageWordAccepted(stem + "." + ext, mimetype, ToLower(ext));
  }

  lemma JpegPasses(stem: string, mimetype: string)
    requires stem != "" && '/' !in stem && mimetype == "image/jpeg"
    ensures FileFilter(stem + "." + "jpg", mimetype).Accept?
  {
    LowerLiterals();
    LiteralMatches();
    PlainLiterals();
    ImageNamePasses(stem, "jpg", mimetype);
  }

  lemma PdfPasses(stem: string, mimetype: string)
    requires stem != "" && '/' !in stem && mimetype == PdfMimeType
    ensures FileFilter(stem + "." + "pdf", mimetype).Accept?
  {
    ExtWordOf(stem, "pdf");
    LowerLiterals();
    LiteralMatches();
  }

  /** The extension is compared case-insensitively: `<stem>.JPG` declared `image/jpeg` passes. */
  lemma UpperCaseExtensionAccepted(stem: string, mimetype: string)
    requires stem != "" && '/' !in stem && mimetype == "image/jpeg"
    ensures FileFilter(stem + "." + "JPG", mimetype).Accept?
  {
    LowerLiterals();
    LiteralMatches();
    PlainLiterals();
    ImageNamePasses(stem, "JPG", mimetype);
  }

  /** The content type is compared as declared: a PDF declared `Application/PDF` is refused. */
  lemma MimeTypeCaseSensitive(name: string, m: string)
    requires m == "Application/PDF"
    ensures FileFilter(name, m).Reject?
  {
    assert m != PdfMimeType by { assert m[0] != PdfMimeType[0]; }
    assert !MatchesImage(m) by {
      CharAbsent(m, "jpeg", 0);
      CharAbsent(m, "jpg", 0);
      CharAbsent(m, "png", 2);
      CharAbsent(m, "gif", 0);
      CharAbsent(m, "webp", 0);
    }
  }

  /** Substring, not set membership: `<stem>.jpeg2` declared `image/jpeg` passes. */
  lemma SubstringMatch(stem: string, mimetype: string)
    requires stem != "" && '/' !in stem && mimetype == "image/jpeg"
    ensures FileFilter(stem + "." + "jpeg2", mimetype).Accept?
  {
    LowerLiterals();
    LiteralMatches();
    PlainLiterals();
    ImageNamePasses(stem, "jpeg2", mimetype);
  }

  /** Any type, however valid, is refused over 5 MiB. */
  lemma SixMebibytesRefused(f: IncomingFile, now: nat, rand: nat)
    requires f.size == 6 * 1024 * 1024
    ensures Admit(f, now, rand).Refused?
  {
  }
}
