/** Upload validation rules of `backend/app/utils/files.py`: the extension
    whitelist, zip-entry normalisation and safety checks, and the
    resource-pack / datapack classification over the list of entry names. */
module Files {
  import opened Common

  // ---------------------------------------------------------------- splitext

  /** Some character of `p[lo..hi]` is not a '.'. */
  predicate HasNonDot(p: string, lo: int, hi: int)
    requires 0 <= lo && hi <= |p|
    decreases hi - lo
  {
    lo < hi && (p[lo] != '.' || HasNonDot(p, lo + 1, hi))
  }

  lemma {:induction false} HasNonDotIff(p: string, lo: int, hi: int)
    requires 0 <= lo && hi <= |p|
    ensures HasNonDot(p, lo, hi) <==> exists k :: lo <= k < hi && p[k] != '.'
    decreases hi - lo
  {
    if lo < hi {
      HasNonDotIff(p, lo + 1, hi);
    }
  }

  /** The extension part of POSIX `os.path.splitext(p)`: from the last '.' of
      the last path segment, unless every character before that dot in the
      segment is itself a dot (leading dots belong to the stem). */
  function Ext(p: string): (r: string)
    ensures r == [] || (r[0] == '.' && EndsWith(p, r))
    ensures '/' !in r
    ensures forall i :: 1 <= i < |r| ==> r[i] != '.'
  {
    var sepIndex := LastIndexOf(p, '/');
    var dotIndex := LastIndexOf(p, '.');
    if dotIndex > sepIndex && HasNonDot(p, sepIndex + 1, dotIndex) then
      var r := p[dotIndex..];
      assert forall i :: 0 <= i < |r| ==> r[i] == p[dotIndex + i];
      r
    else ""
  }

  const AllowedExtensions: set<string> := {".zip"}

  const BlockedInZipExtensions: set<string> :=
    {".exe", ".dll", ".bat", ".cmd", ".ps1", ".sh", ".jar", ".msi"}

  /** `allowed_extension`: the lower-cased extension is in the whitelist. */
  function AllowedExtension(filename: string): bool
  {
    Lower(Ext(filename)) in AllowedExtensions
  }

  /** The last segment of `p` has a character other than '.' strictly before
      position `end`: the condition under which splitext reports a dot at `end`. */
  predicate HasStemBefore(p: string, end: int)
    requires end <= |p|
  {
    exists k :: LastIndexOf(p, '/') < k < end && p[k] != '.'
  }

  /** `allowed_extension` holds exactly when the lower-cased name ends in ".zip"
      and the last path segment has a non-dot character before that suffix. */
  lemma AllowedExtensionIff(f: string)
    ensures AllowedExtension(f) <==> EndsWith(Lower(f), ".zip") && HasStemBefore(f, |f| - 4)
  {
    if AllowedExtension(f) {
      AllowedExtensionShape(f);
    }
    if EndsWith(Lower(f), ".zip") && HasStemBefore(f, |f| - 4) {
      ZipSuffixAllowed(f);
    }
  }

  lemma AllowedExtensionShape(f: string)
    requires AllowedExtension(f)
    ensures EndsWith(Lower(f), ".zip") && HasStemBefore(f, |f| - 4)
  {
    var sepIndex := LastIndexOf(f, '/');
    var dotIndex := LastIndexOf(f, '.');
    var e := Ext(f);
    assert |e| == 4 && e == f[|f| - 4..];
    assert dotIndex == |f| - 4;
    HasNonDotIff(f, sepIndex + 1, dotIndex);
    assert Lower(f)[|f| - 4..] == Lower(e);
  }

  lemma ZipSuffixAllowed(f: string)
    requires EndsWith(Lower(f), ".zip") && HasStemBefore(f, |f| - 4)
    ensures AllowedExtension(f)
  {
    var n := |f|;
    ZipSuffixDots(f);
    var sepIndex := LastIndexOf(f, '/');
    var dotIndex := LastIndexOf(f, '.');
    assert dotIndex == n - 4;
    HasNonDotIff(f, sepIndex + 1, dotIndex);
    assert Ext(f) == f[n - 4..];
    LowerSuffix(f, n - 4);
    assert Lower(Ext(f)) == ".zip";
  }

  /** The only '.' of a case-insensitive ".zip" suffix is its first character. */
  lemma ZipSuffixDots(f: string)
    requires EndsWith(Lower(f), ".zip")
    ensures |f| >= 4 && f[|f| - 4] == '.'
    ensures forall i :: |f| - 4 < i < |f| ==> f[i] != '.'
  {
    var n := |f|;
    var lf := Lower(f);
    assert lf[n - 4] == ".zip"[0] && lf[n - 3] == ".zip"[1];
    assert lf[n - 2] == ".zip"[2] && lf[n - 1] == ".zip"[3];
  }

  lemma LowerSuffix(s: string, k: nat)
    requires k <= |s|
    ensures Lower(s[k..]) == Lower(s)[k..]
  {
    assert forall i :: 0 <= i < |s| - k ==> Lower(s[k..])[i] == Lower(s)[k..][i];
  }

  /** A name that is only ".zip" has an empty extension and is rejected. */
  lemma DotZipAloneRejected()
    ensures Ext(".zip") == ""
    ensures !AllowedExtension(".zip")
  {
    var s := ".zip";
    assert s[0] == '.' && s[1] != '.' && s[2] != '.' && s[3] != '.';
    assert LastIndexOf(s, '.') == 0;
  }

  /** Any name whose last segment ends in a character other than '.' followed
      by ".zip", in any case ("a.zip", "My Pack.ZIP"), is accepted. */
  lemma ZipNameAllowed(stem: string, suffix: string)
    requires stem != [] && stem[|stem| - 1] != '.' && stem[|stem| - 1] != '/'
    requires Lower(suffix) == ".zip"
    ensures AllowedExtension(stem + suffix)
  {
    var f := stem + suffix;
    var n := |f|;
    var last := |stem| - 1;
    assert Lower(f)[n - 4..] == Lower(suffix);
    NoSlashInZipSuffix(suffix);
    assert forall i :: last <= i < n ==> f[i] != '/';
    var sepIndex := LastIndexOf(f, '/');
    assert sepIndex < last;
    assert HasStemBefore(f, n - 4) by {
      assert sepIndex < last < n - 4 && f[last] != '.';
    }
    ZipSuffixAllowed(f);
  }

  lemma NoSlashInZipSuffix(suffix: string)
    requires Lower(suffix) == ".zip"
    ensures forall i :: 0 <= i < |suffix| ==> suffix[i] != '/'
  {
    forall i | 0 <= i < |suffix|
      ensures suffix[i] != '/'
    {
      assert LowerChar(suffix[i]) == ".zip"[i];
    }
  }

  /** A name whose last character is not 'p' or 'P' (".json", ".toml",
      ".yml", ".cfg", ".exe", ".png", or no extension at all) is refused. */
  lemma NonZipRejected(f: string)
    requires f != [] && LowerChar(f[|f| - 1]) != 'p'
    ensures !AllowedExtension(f)
  {
    AllowedExtensionIff(f);
    assert Lower(f)[|f| - 1] != 'p';
  }

  // ---------------------------------------------------------------- entry names

  function ReplaceChar(s: string, from: char, to: char): (r: string)
    ensures |r| == |s|
    ensures forall i :: 0 <= i < |s| ==> r[i] == if s[i] == from then to else s[i]
  {
    seq(|s|, i requires 0 <= i < |s| => if s[i] == from then to else s[i])
  }

  predicate IsSlash(c: char) { c == '/' }

  /** `_normalize_zip_name`: backslashes become '/', then leading '/' are removed. */
  function NormalizeZipName(name: string): (r: string)
    ensures '\\' !in r
    ensures r == [] || r[0] != '/'
    ensures |r| <= |name|
  {
    var replaced := ReplaceChar(name, '\\', '/');
    var r := LStrip(replaced, IsSlash);
    assert forall i :: 0 <= i < |r| ==> r[i] == replaced[|replaced| - |r| + i];
    r
  }

  lemma NormalizeZipNameIdempotent(name: string)
    ensures NormalizeZipName(NormalizeZipName(name)) == NormalizeZipName(name)
  {
    var n := NormalizeZipName(name);
    assert ReplaceChar(n, '\\', '/') == n;
  }

  /** Why an entry is refused by `_validate_zip_safe`. */
  datatype Problem = AbsolutePath | DriveLetter | Traversal | BlockedExtension

  /** The first check of `_validate_zip_safe` that refuses one entry, if any;
      empty names are skipped. */
  function EntryProblem(n: string): Option<Problem>
  {
    if n == "" then None
    else if StartsWith(n, "/") then Some(AbsolutePath)
    else RelativeEntryProblem(n)
  }

  /** The checks after the leading-'/' one. */
  function RelativeEntryProblem(n: string): (p: Option<Problem>)
    ensures p != Some(AbsolutePath)
  {
    if ':' in Split(n, '/')[0] then Some(DriveLetter)
    else if ".." in Split(n, '/') then Some(Traversal)
    else if Ext(Lower(n)) in BlockedInZipExtensions then Some(BlockedExtension)
    else None
  }

  function ProblemFailure(p: Problem): (f: Failure)
    ensures f.HttpError? && f.status == 400
  {
    if p == BlockedExtension then HttpError(400, "Zip contains blocked executable content")
    else HttpError(400, "Unsafe zip entry")
  }

  /** `_validate_zip_safe`: the failure raised for the first refused entry. */
  function ValidateZipSafe(names: seq<string>): (r: Option<Failure>)
    ensures r == None <==> forall i :: 0 <= i < |names| ==> EntryProblem(names[i]) == None
    ensures r.Some? ==> exists i :: 0 <= i < |names| && EntryProblem(names[i]).Some?
                          && r.value == ProblemFailure(EntryProblem(names[i]).value)
                          && forall j :: 0 <= j < i ==> EntryProblem(names[j]) == None
  {
    if names == [] then None
    else match EntryProblem(names[0])
      case Some(p) => Some(ProblemFailure(p))
      case None =>
        var rest := ValidateZipSafe(names[1..]);
        assert forall i :: 1 <= i < |names| ==> names[i] == names[1..][i - 1];
        if rest.Some? then
          var i :| 0 <= i < |names[1..]| && EntryProblem(names[1..][i]).Some?
                   && rest.value == ProblemFailure(EntryProblem(names[1..][i]).value)
                   && forall j :: 0 <= j < i ==> EntryProblem(names[1..][j]) == None;
          assert EntryProblem(names[i + 1]).Some?;
          rest
        else rest
  }

  /** For names that went through normalisation the leading-'/' rejection can
      never fire. */
  lemma AbsolutePathUnreachable(name: string)
    ensures EntryProblem(NormalizeZipName(name)) != Some(AbsolutePath)
  {
    var n := NormalizeZipName(name);
    assert !StartsWith(n, "/") by {
      if n != [] {
        assert n[..1] == [n[0]];
      }
    }
  }

  /** On a normalised name, `_validate_zip_safe` refuses exactly the non-empty
      names with a ':' in the first segment, a ".." segment, or a blocked
      lower-cased extension. */
  lemma NormalizedEntryRefusedIff(name: string)
    ensures var n := NormalizeZipName(name);
      EntryProblem(n).Some? <==>
        n != "" && (':' in Split(n, '/')[0] || ".." in Split(n, '/')
                    || Ext(Lower(n)) in BlockedInZipExtensions)
  {
    var n := NormalizeZipName(name);
    if n != "" {
      AbsolutePathUnreachable(name);
      assert !StartsWith(n, "/");
      assert EntryProblem(n) == RelativeEntryProblem(n);
      var first := Split(n, '/')[0];
      if ':' in first {
        assert RelativeEntryProblem(n) == Some(DriveLetter);
      } else if ".." in Split(n, '/') {
        assert RelativeEntryProblem(n) == Some(Traversal);
      } else if Ext(Lower(n)) in BlockedInZipExtensions {
        assert RelativeEntryProblem(n) == Some(BlockedExtension);
      } else {
        assert RelativeEntryProblem(n) == None;
      }
    }
  }

  // ---------------------------------------------------------------- classification

  datatype FileType = Datapack | ResourcePack

  /** The `file_type` string stored on the record. */
  function FileTypeName(t: FileType): string
  {
    match t
    case Datapack => "datapack"
    case ResourcePack => "resource_pack"
  }

  predicate HasPackMcmeta(norm: seq<string>) { exists n | n in norm :: EndsWith(n, "pack.mcmeta") }
  predicate HasData(norm: seq<string>) { exists n | n in norm :: StartsWith(n, "data/") }
  predicate HasAssets(norm: seq<string>) { exists n | n in norm :: StartsWith(n, "assets/") }

  const NotAPack: Failure := HttpError(400, "Zip must be a resource pack or datapack")

  /** The classification tail of `detect_zip_file_type`. */
  function Classify(norm: seq<string>): Result<FileType, Failure>
  {
    if HasPackMcmeta(norm) && HasData(norm) then Ok(Datapack)
    else if HasPackMcmeta(norm) && HasAssets(norm) then Ok(ResourcePack)
    else Err(NotAPack)
  }

  function NormalizeAll(names: seq<string>): (norm: seq<string>)
    ensures |norm| == |names|
    ensures forall i :: 0 <= i < |names| ==> norm[i] == NormalizeZipName(names[i])
  {
    seq(|names|, i requires 0 <= i < |names| => NormalizeZipName(names[i]))
  }

  /** `detect_zip_file_type` once the archive's name list has been read: the
      names are normalised, checked, then classified. */
  function DetectZipFileType(names: seq<string>): Result<FileType, Failure>
  {
    var norm := NormalizeAll(names);
    match ValidateZipSafe(norm)
    case Some(f) => Err(f)
    case None => Classify(norm)
  }

  /** What opening the archive gives: `zipfile.BadZipFile`, or its name list. */
  datatype ZipRead = BadZip | Names(names: seq<string>)

  const InvalidZip: Failure := HttpError(400, "Invalid zip file")

  /** `detect_zip_file_type` as a whole: an unreadable archive is 400 "Invalid
      zip file"; a readable one is checked and classified as above. */
  function DetectZip(read: ZipRead): (r: Result<FileType, Failure>)
    ensures read.BadZip? ==> r == Err(InvalidZip)
    ensures read.Names? ==> r == DetectZipFileType(read.names)
    ensures r.Err? ==> r.error.HttpError? && r.error.status == 400
  {
    match read
    case BadZip => Err(InvalidZip)
    case Names(names) => DetectZipFileType(names)
  }

  /** A safe archive with pack.mcmeta and a data/ entry is a datapack, whether or
      not it also has assets/. */
  lemma DatapackWinsOverAssets(names: seq<string>)
    requires ValidateZipSafe(NormalizeAll(names)) == None
    requires HasPackMcmeta(NormalizeAll(names)) && HasData(NormalizeAll(names))
    ensures DetectZipFileType(names) == Ok(Datapack)
  {
  }

  /** A safe archive is a resource pack exactly when it has pack.mcmeta and
      assets/ but no data/; every other shape is refused with 400. */
  lemma ClassificationCases(names: seq<string>)
    requires ValidateZipSafe(NormalizeAll(names)) == None
    ensures var norm := NormalizeAll(names);
      && (DetectZipFileType(names) == Ok(ResourcePack) <==>
            HasPackMcmeta(norm) && !HasData(norm) && HasAssets(norm))
      && (DetectZipFileType(names).Err? <==>
            !HasPackMcmeta(norm) || (!HasData(norm) && !HasAssets(norm)))
      && (DetectZipFileType(names).Err? ==> DetectZipFileType(names).error == NotAPack)
  {
  }

  /** One refused entry rejects the whole archive, whatever its pack structure. */
  lemma UnsafeEntryRejects(names: seq<string>, i: nat)
    requires i < |names| && EntryProblem(NormalizeZipName(names[i])).Some?
    ensures DetectZipFileType(names).Err?
    ensures DetectZipFileType(names).error.status == 400
  {
    var norm := NormalizeAll(names);
    assert EntryProblem(norm[i]).Some?;
  }

  lemma NormalizeZipNameKeeps(n: string)
    requires '\\' !in n && (n == [] || n[0] != '/')
    ensures NormalizeZipName(n) == n
  {
    assert ReplaceChar(n, '\\', '/') == n;
  }

  predicate NoDoubleDot(n: string)
  {
    forall k :: 0 <= k < |n| - 1 ==> !(n[k] == '.' && n[k + 1] == '.')
  }

  lemma {:induction false} NoDotDotSegment(n: string)
    requires NoDoubleDot(n)
    ensures ".." !in Split(n, '/')
    decreases |n|
  {
    if '/' in n {
      var i := IndexOf(n, '/');
      assert |n[..i]| != 2 || n[0] != '.' || n[1] != '.';
      NoDotDotSegment(n[i + 1..]);
    } else {
      assert |n| != 2 || n[0] != '.' || n[1] != '.';
    }
  }

  /** An entry name with none of the refused features passes the checks. */
  lemma PlainEntrySafe(n: string)
    requires n != "" && n[0] != '/' && '\\' !in n && ':' !in n && NoDoubleDot(n)
    requires Ext(Lower(n)) !in BlockedInZipExtensions
    ensures NormalizeZipName(n) == n
    ensures EntryProblem(n) == None
  {
    NormalizeZipNameKeeps(n);
    NoDotDotSegment(n);
  }
}
