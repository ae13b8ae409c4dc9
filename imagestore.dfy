/** The Image Store of the image downloader (`save_images`): the image folder is
    purged of earlier images, then the first URLs are downloaded under the
    names `car_<i><ext>`, the extension taken from the URL's path. */
module ImageStore {
  import opened Sequences
  import opened Text
  import opened ImageProviders

  /** The folder the images are written to. */
  const ImagesDir: string := "assets/images"

  predicate IsAsciiLetter(c: char)
  {
    'a' <= c <= 'z' || 'A' <= c <= 'Z'
  }

  /** The characters a URL scheme may hold. */
  predicate IsSchemeChar(c: char)
  {
    IsAsciiLetter(c) || IsDigit(c) || c == '+' || c == '-' || c == '.'
  }

  /** The schemes whose paths may carry `;` parameters. */
  const UsesParams: set<string> := {"", "ftp", "hdl", "prospero", "http", "imap", "https", "shttp",
    "rtsp", "rtsps", "rtspu", "sip", "sips", "mms", "sftp", "tel"}

  /** Leading C0 control characters and spaces are dropped before parsing. */
  function StripLeadingControls(s: string): (r: string)
    ensures r == [] || r[0] as int > 32
    ensures |r| <= |s| && r == s[|s| - |r|..]
  {
    if s != [] && s[0] as int <= 32 then StripLeadingControls(s[1..]) else s
  }

  predicate IsUnsafe(c: char)
  {
    c == '\t' || c == '\r' || c == '\n'
  }

  /** Tabs and line breaks are removed anywhere in the URL. */
  function RemoveUnsafe(s: string): (r: string)
    ensures forall k :: 0 <= k < |r| ==> !IsUnsafe(r[k])
    ensures |r| <= |s|
  {
    if s == [] then []
    else if IsUnsafe(s[0]) then RemoveUnsafe(s[1..])
    else [s[0]] + RemoveUnsafe(s[1..])
  }

  /** A URL without tabs and line breaks is left as it is. */
  lemma {:induction false} RemoveUnsafeClean(s: string)
    requires forall k :: 0 <= k < |s| ==> !IsUnsafe(s[k])
    ensures RemoveUnsafe(s) == s
  {
    if s != [] {
      RemoveUnsafeClean(s[1..]);
    }
  }

  /** The scheme, lower-cased, and what follows its colon; no scheme when the
      text before the first colon is empty, does not start with a letter, or
      holds a character schemes may not hold. */
  function SplitScheme(url: string): (r: (string, string))
  {
    var i := FindAny(url, {':'});
    if 0 < i < |url| && IsAsciiLetter(url[0]) && forall k :: 0 <= k < i ==> IsSchemeChar(url[k])
    then (Lower(url[..i]), url[i + 1..])
    else ("", url)
  }

  /** Drops `;params` from the last path segment. */
  function DropParams(path: string): (r: string)
    ensures |r| <= |path| && r == path[..|r|]
  {
    var slash := RFind(path, '/');
    if slash >= 0 then path[..slash + FindAny(path[slash..], {';'})]
    else path[..FindAny(path, {';'})]
  }

  /** The `path` component of `urllib.parse.urlparse(url)`: after the scheme
      and the `//netloc` part, up to the fragment, the query and, for the
      schemes that have them, the parameters. */
  function UrlPath(url: string): (r: string)
    ensures '?' !in r && '#' !in r
  {
    var u := RemoveUnsafe(StripLeadingControls(url));
    var (scheme, rest) := SplitScheme(u);
    var afterNetloc :=
      if |rest| >= 2 && rest[..2] == "//" then rest[2 + FindAny(rest[2..], {'/', '?', '#'})..] else rest;
    var j := FindAny(afterNetloc, {'#'});
    var noFragment := afterNetloc[..j];
    var i := FindAny(noFragment, {'?'});
    var path := noFragment[..i];
    var r := if scheme in UsesParams && ';' in path then DropParams(path) else path;
    assert forall k :: 0 <= k < |r| ==> r[k] == path[k] == noFragment[k] == afterNetloc[k];
    assert forall k :: 0 <= k < |r| ==> r[k] != '?' && r[k] != '#';
    NotIn(r, '?');
    NotIn(r, '#');
    r
  }

  lemma NotIn(s: string, c: char)
    requires forall k :: 0 <= k < |s| ==> s[k] != c
    ensures c !in s
  {
  }

  /** `os.path.splitext(p)[1]`: from the last dot of the last segment, unless
      the segment before that dot is made of dots only. */
  function SplitExt(p: string): (ext: string)
    ensures ext == [] || (ext[0] == '.' && EndsWith(p, ext))
  {
    var sep := RFind(p, '/');
    var dot := RFind(p, '.');
    if dot > sep && exists k :: sep + 1 <= k < dot && p[k] != '.' then p[dot..] else []
  }

  /** `s.endswith((".png", ".webp", ".jpeg", ".jpg"))` */
  predicate HasImageSuffix(s: string)
  {
    EndsWith(s, ".png") || EndsWith(s, ".webp") || EndsWith(s, ".jpeg") || EndsWith(s, ".jpg")
  }

  /** The extensions the purge and the naming recognise, in lower case. */
  const ImageSuffixes: set<string> := {".png", ".webp", ".jpeg", ".jpg"}

  /** The extension chosen for a URL path: the path's own extension when its
      lower case ends in an image suffix, else ".jpg". */
  function PathExt(path: string): string
  {
    if HasImageSuffix(Lower(path)) then SplitExt(path) else ".jpg"
  }

  /** The extension of the file saved for a URL. */
  function ImageExt(url: string): string
  {
    PathExt(UrlPath(url))
  }

  /** Lower-casing commutes with taking a suffix. */
  lemma LowerSuffix(p: string, a: nat)
    requires a <= |p|
    ensures Lower(p[a..]) == Lower(p)[a..]
  {
  }

  /** A path whose lower-cased form ends in the suffix `x`, a dot and lower-case
      letters, has that suffix as its extension, in the path's own case, unless
      the name before the suffix is made of dots only. */
  lemma SuffixExt(p: string, x: string)
    requires |x| >= 2 && x[0] == '.' && forall k :: 1 <= k < |x| ==> 'a' <= x[k] <= 'z'
    requires EndsWith(Lower(p), x)
    ensures SplitExt(p) == [] || (SplitExt(p) == p[|p| - |x|..] && Lower(SplitExt(p)) == x)
  {
    var a := |p| - |x|;
    LetterTail(p, x);
    RFindAt(p, '.', a);
    RFindBefore(p, '/', a);
    LowerSuffix(p, a);
  }

  /** Where the lower-cased path ends in `x`, the path holds a dot at the start
      of that suffix and letters after it. */
  lemma LetterTail(p: string, x: string)
    requires |x| >= 2 && x[0] == '.' && forall k :: 1 <= k < |x| ==> 'a' <= x[k] <= 'z'
    requires EndsWith(Lower(p), x)
    ensures p[|p| - |x|] == '.'
    ensures forall k :: |p| - |x| < k < |p| ==> IsAsciiLetter(p[k])
  {
    var a := |p| - |x|;
    assert p[a] == '.' by {
      assert Lower(p)[a] == x[0];
      LowerCharKeeps(p[a]);
    }
    forall k | a < k < |p|
      ensures IsAsciiLetter(p[k])
    {
      assert Lower(p)[k] == x[k - a];
      LowerCharKeeps(p[k]);
    }
  }

  /** Only a letter lower-cases to a lower-case letter; only a dot to a dot. */
  lemma LowerCharKeeps(c: char)
    ensures 'a' <= LowerChar(c) <= 'z' ==> IsAsciiLetter(c)
    ensures LowerChar(c) == '.' ==> c == '.'
  {
  }

  lemma RFindAt(s: string, c: char, a: nat)
    requires a < |s| && s[a] == c
    requires forall k :: a < k < |s| ==> s[k] != c
    ensures RFind(s, c) == a
  {
  }

  lemma RFindBefore(s: string, c: char, a: nat)
    requires a <= |s|
    requires forall k :: a <= k < |s| ==> s[k] != c
    ensures RFind(s, c) < a
  {
  }

  /** A path whose lower case ends in the image suffix `x` keeps its own
      spelling of an image suffix, or gets no extension at all. */
  lemma SuffixCase(p: string, x: string)
    requires x in ImageSuffixes && EndsWith(Lower(p), x)
    ensures PathExt(p) == [] || (Lower(PathExt(p)) in ImageSuffixes && EndsWith(p, PathExt(p)))
  {
    assert x == ".png" || x == ".webp" || x == ".jpeg" || x == ".jpg";
    assert HasImageSuffix(Lower(p));
    SuffixExt(p, x);
  }

  /** The extension is ".jpg" when the path has no image suffix; otherwise it
      is the path's own suffix (whose lower case is an image suffix), or
      nothing for a name made of dots. It is empty or starts with a dot. */
  lemma PathExtShape(p: string)
    ensures !HasImageSuffix(Lower(p)) ==> PathExt(p) == ".jpg"
    ensures var e := PathExt(p);
      e == ".jpg" || e == [] || (Lower(e) in ImageSuffixes && EndsWith(p, e))
    ensures PathExt(p) == [] || PathExt(p)[0] == '.'
  {
    var l := Lower(p);
    if EndsWith(l, ".png") {
      SuffixCase(p, ".png");
    } else if EndsWith(l, ".webp") {
      SuffixCase(p, ".webp");
    } else if EndsWith(l, ".jpeg") {
      SuffixCase(p, ".jpeg");
    } else if EndsWith(l, ".jpg") {
      SuffixCase(p, ".jpg");
    }
  }

  /** What `os.path.splitext` can return as an extension: nothing, or a dot and what follows. */
  predicate IsExtension(e: string)
  {
    e == [] || e[0] == '.'
  }

  /** Every URL gets an extension of that form. */
  lemma ImageExtIsExtension(url: Url)
    ensures IsExtension(ImageExt(url))
  {
    PathExtShape(UrlPath(url));
  }

  lemma ImageExtsAreExtensions()
    ensures forall url :: IsExtension(ImageExt(url))
  {
    forall url {
      ImageExtIsExtension(url);
    }
  }

  /** `f"car_{i}{ext}"` */
  function ImageFileName(i: nat, ext: string): string
  {
    "car_" + NatToString(i) + ext
  }

  /** `os.path.join(IMAGES_DIR, name)` */
  function ImagePath(i: nat, ext: string): string
  {
    ImagesDir + "/" + ImageFileName(i, ext)
  }

  /** Digits followed by an empty or dot-led suffix: the digits are recovered. */
  lemma DigitsThenDot(a: string, e: string, b: string, f: string)
    requires forall k :: 0 <= k < |a| ==> IsDigit(a[k])
    requires forall k :: 0 <= k < |b| ==> IsDigit(b[k])
    requires IsExtension(e) && IsExtension(f)
    requires a + e == b + f
    ensures a == b
  {
    assert e != [] ==> (a + e)[|a|] == '.';
    assert f != [] ==> (b + f)[|b|] == '.';
    assert |a| == |b|;
    assert a == (a + e)[..|a|] && b == (b + f)[..|b|];
  }

  /** Different indices give different file names, whatever the extensions. */
  lemma FileNamesDistinct(i: nat, j: nat, e: string, f: string)
    requires i != j && IsExtension(e) && IsExtension(f)
    ensures ImageFileName(i, e) != ImageFileName(j, f)
  {
    if ImageFileName(i, e) == ImageFileName(j, f) {
      var a, b := NatToString(i), NatToString(j);
      assert ImageFileName(i, e)[4..] == a + e;
      assert ImageFileName(j, f)[4..] == b + f;
      DigitsThenDot(a, e, b, f);
      NatToStringInjective(i, j);
    }
  }

  /** Different indices give different paths in the image folder. */
  lemma ImagePathsDistinct(i: nat, j: nat, e: string, f: string)
    requires i != j && IsExtension(e) && IsExtension(f)
    ensures ImagePath(i, e) != ImagePath(j, f)
  {
    FileNamesDistinct(i, j, e, f);
    var d := ImagesDir + "/";
    assert ImagePath(i, e) == d + ImageFileName(i, e);
    assert ImagePath(j, f) == d + ImageFileName(j, f);
    assert ImagePath(i, e)[|d|..] == ImageFileName(i, e);
    assert ImagePath(j, f)[|d|..] == ImageFileName(j, f);
  }

  /** The names the purge removes: those whose lower case ends in an image suffix. */
  predicate IsImageName(f: string)
  {
    HasImageSuffix(Lower(f))
  }

  /** A name ending in a spelling of an image suffix is an image name. */
  lemma EndsInImageSuffix(n: string, e: string)
    requires Lower(e) in ImageSuffixes && EndsWith(n, e)
    ensures IsImageName(n)
  {
    LowerSuffix(n, |n| - |e|);
    var x := Lower(e);
    assert EndsWith(Lower(n), x);
    assert x == ".png" || x == ".webp" || x == ".jpeg" || x == ".jpg";
  }

  /** A downloaded file is itself an image name, and so is purged by the next
      run, unless its extension came out empty. */
  lemma SavedNameIsImage(i: nat, p: string)
    requires PathExt(p) != []
    ensures IsImageName(ImageFileName(i, PathExt(p)))
  {
    PathExtShape(p);
    var e := PathExt(p);
    var n := ImageFileName(i, e);
    assert n[|n| - |e|..] == e;
    if e == ".jpg" {
      assert Lower(e) == ".jpg";
    }
    EndsInImageSuffix(n, e);
  }

  /** What the download loop has returned after the first `n` selected URLs:
      the path of every successful download so far, in order. */
  function SavedUpTo(sel: seq<Url>, ok: Url -> bool, ext: Url -> string, n: nat): (r: seq<string>)
    requires n <= |sel|
    ensures |r| <= n
  {
    if n == 0 then []
    else SavedUpTo(sel, ok, ext, n - 1) + (if ok(sel[n - 1]) then [ImagePath(n - 1, ext(sel[n - 1]))] else [])
  }

  /** What `save_images` returns for the selected URLs. */
  function SavedPaths(sel: seq<Url>, ok: Url -> bool, ext: Url -> string): seq<string>
  {
    SavedUpTo(sel, ok, ext, |sel|)
  }

  /** Every returned path is that of a successful download among the first `n`. */
  lemma {:induction false} SavedUpToFrom(sel: seq<Url>, ok: Url -> bool, ext: Url -> string, n: nat, s: string)
    requires n <= |sel| && s in SavedUpTo(sel, ok, ext, n)
    ensures exists i :: 0 <= i < n && ok(sel[i]) && s == ImagePath(i, ext(sel[i]))
  {
    if s in SavedUpTo(sel, ok, ext, n - 1) {
      SavedUpToFrom(sel, ok, ext, n - 1, s);
    } else {
      assert ok(sel[n - 1]) && s == ImagePath(n - 1, ext(sel[n - 1]));
    }
  }

  /** The first `n` URLs give distinct paths, one for each successful download
      and none for a failed one. */
  lemma {:induction false} SavedUpToFacts(sel: seq<Url>, ok: Url -> bool, ext: Url -> string, n: nat)
    requires n <= |sel|
    requires forall u :: IsExtension(ext(u))
    ensures NoDuplicates(SavedUpTo(sel, ok, ext, n))
    ensures forall i :: 0 <= i < n ==> (ImagePath(i, ext(sel[i])) in SavedUpTo(sel, ok, ext, n) <==> ok(sel[i]))
  {
    if n > 0 {
      SavedUpToFacts(sel, ok, ext, n - 1);
      var before := SavedUpTo(sel, ok, ext, n - 1);
      var last := ImagePath(n - 1, ext(sel[n - 1]));
      if last in before {
        SavedUpToFrom(sel, ok, ext, n - 1, last);
        var i :| 0 <= i < n - 1 && ok(sel[i]) && last == ImagePath(i, ext(sel[i]));
        ImagePathsDistinct(i, n - 1, ext(sel[i]), ext(sel[n - 1]));
      }
      forall i | 0 <= i < n - 1
        ensures ImagePath(i, ext(sel[i])) != last
      {
        ImagePathsDistinct(i, n - 1, ext(sel[i]), ext(sel[n - 1]));
      }
    }
  }

  /** The returned paths are distinct; one is returned for each URL whose
      download succeeds, and no other; there are at most as many as selected. */
  lemma SavedPathsFacts(sel: seq<Url>, ok: Url -> bool, ext: Url -> string)
    requires forall u :: IsExtension(ext(u))
    ensures |SavedPaths(sel, ok, ext)| <= |sel|
    ensures NoDuplicates(SavedPaths(sel, ok, ext))
    ensures forall i :: 0 <= i < |sel| ==> (ImagePath(i, ext(sel[i])) in SavedPaths(sel, ok, ext) <==> ok(sel[i]))
    ensures forall s :: s in SavedPaths(sel, ok, ext) ==>
      exists i :: 0 <= i < |sel| && ok(sel[i]) && s == ImagePath(i, ext(sel[i]))
  {
    SavedUpToFacts(sel, ok, ext, |sel|);
    forall s | s in SavedPaths(sel, ok, ext)
      ensures exists i :: 0 <= i < |sel| && ok(sel[i]) && s == ImagePath(i, ext(sel[i]))
    {
      SavedUpToFrom(sel, ok, ext, |sel|, s);
    }
  }

  /** The names of the files written for the first `n` selected URLs. */
  function WrittenNames(sel: seq<Url>, ok: Url -> bool, ext: Url -> string, n: nat): set<string>
    requires n <= |sel|
  {
    if n == 0 then {}
    else WrittenNames(sel, ok, ext, n - 1)
         + (if ok(sel[n - 1]) then {ImageFileName(n - 1, ext(sel[n - 1]))} else {})
  }

  /** A name is written exactly when it is the name of a successful download
      among the first `n`. */
  lemma {:induction false} WrittenNamesIff(sel: seq<Url>, ok: Url -> bool, ext: Url -> string, n: nat, f: string)
    requires n <= |sel|
    ensures f in WrittenNames(sel, ok, ext, n)
      <==> exists i :: 0 <= i < n && ok(sel[i]) && f == ImageFileName(i, ext(sel[i]))
  {
    if n > 0 {
      WrittenNamesIff(sel, ok, ext, n - 1, f);
      if ok(sel[n - 1]) && f == ImageFileName(n - 1, ext(sel[n - 1])) {
        assert f in WrittenNames(sel, ok, ext, n);
      }
    }
  }

  function Min(a: nat, b: nat): nat
  {
    if a <= b then a else b
  }

  /** The most images one run keeps. */
  const MaxTotal: nat := 10

  /** The image folder: the names of the files in it. */
  class ImageFolder {
    var files: set<string>

    constructor (existing: set<string>)
      ensures files == existing
    {
      files := existing;
    }

    /** The purge at the start of `save_images`: every listed file with an image
        suffix, in any letter case, is removed; every other file is kept. */
    method Purge()
      modifies this
      ensures files == set f | f in old(files) && !IsImageName(f)
    {
      var listing := files;
      while listing != {}
        invariant listing <= old(files)
        invariant files == set f | f in old(files) && (f in listing || !IsImageName(f))
        decreases |listing|
      {
        var f :| f in listing;
        if IsImageName(f) {
          files := files - {f};
        }
        listing := listing - {f};
      }
    }

    /** The download loop of `save_images`: the `i`-th selected URL is fetched
        into `car_<i><ext>`, with `ext` the extension rule; `ok` tells which
        downloads succeed. Existing files stay; a file of the same name is
        overwritten. */
    method DownloadAll(sel: seq<Url>, ok: Url -> bool, ext: Url -> string) returns (saved: seq<string>)
      modifies this
      ensures saved == SavedPaths(sel, ok, ext)
      ensures files == old(files) + WrittenNames(sel, ok, ext, |sel|)
    {
      saved := [];
      var i := 0;
      while i < |sel|
        invariant i <= |sel|
        invariant saved == SavedUpTo(sel, ok, ext, i)
        invariant files == old(files) + WrittenNames(sel, ok, ext, i)
      {
        var e := ext(sel[i]);
        if ok(sel[i]) {
          files := files + {ImageFileName(i, e)};
          saved := saved + [ImagePath(i, e)];
        }
        i := i + 1;
      }
    }

    /** `save_images(urls, max_total)`: purge, then download the first
        `maxTotal` URLs. The folder ends up with the files that were not
        images and one file per successful download. */
    method SaveImages(urls: seq<Url>, maxTotal: nat, ok: Url -> bool) returns (saved: seq<string>)
      modifies this
      ensures var sel := urls[..Min(|urls|, maxTotal)];
        saved == SavedPaths(sel, ok, ImageExt)
        && files == (set f | f in old(files) && !IsImageName(f)) + WrittenNames(sel, ok, ImageExt, |sel|)
    {
      Purge();
      saved := DownloadAll(urls[..Min(|urls|, maxTotal)], ok, ImageExt);
    }
  }
}
