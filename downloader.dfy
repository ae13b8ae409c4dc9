/** The image downloader as a whole (`main`): read the text files, resolve the
    base phrase, build the shuffled queries, select the URLs, save the images. */
module ImageDownloader {
  import opened Options
  import opened Sequences
  import opened Text
  import opened TopicResolver
  import opened ImageProviders
  import opened ImageAggregator
  import opened ImageStore

  /** The three data files the downloader reads; `None` is a missing file. */
  datatype DataFiles = DataFiles(title: Option<string>, script: Option<string>, imageQuery: Option<string>)

  /** What `load_text` returns. */
  datatype Loaded = Loaded(title: string, script: string, imageQuery: string)

  /** A file's text lower-cased, or "" when it is missing. */
  function ReadLower(f: Option<string>): (r: string)
    ensures f.None? ==> r == []
    ensures f.Some? ==> |r| == |f.value|
    ensures forall i :: 0 <= i < |r| ==> !('A' <= r[i] <= 'Z')
  {
    match f
    case None => []
    case Some(text) => Lower(text)
  }

  /** `load_text`: title and script lower-cased, the image query stripped; a
      missing file reads as "". The image query is empty exactly when its file
      is missing or blank. */
  function LoadText(d: DataFiles): (r: Loaded)
    ensures Trimmed(r.imageQuery)
    ensures r.imageQuery == [] <==> d.imageQuery.None? || Blank(d.imageQuery.value)
    ensures d.title.None? ==> r.title == []
    ensures d.script.None? ==> r.script == []
    ensures r.title == ReadLower(d.title) && r.script == ReadLower(d.script)
  {
    var iq := match d.imageQuery case None => [] case Some(text) => Strip(text);
    assert d.imageQuery.Some? ==> (iq == [] <==> Blank(d.imageQuery.value)) by {
      if d.imageQuery.Some? {
        StripEmptyIffBlank(d.imageQuery.value);
      }
    }
    Loaded(ReadLower(d.title), ReadLower(d.script), iq)
  }

  /** The base phrase of `main`. */
  function BaseKeywords(d: DataFiles): (r: string)
    ensures r != []
  {
    var t := LoadText(d);
    ResolveBase(t.title, t.script, t.imageQuery)
  }

  /** The fallback phrase used when the first pass finds nothing. */
  const FallbackPhrase: string := "supercar"

  /** The queries of the fallback pass. */
  function FallbackQueries(fallbackDraw: nat -> nat): (r: seq<string>)
    ensures |r| == 7
    ensures multiset(r) == multiset(QueryVariants(FallbackPhrase))
  {
    BuildQueries(FallbackPhrase, fallbackDraw)
  }

  /** The providers as the fallback pass meets them: the same API keys, and
      the replies to requests issued afresh. */
  function Refetched(p: Providers, pexels: string -> Reply<PexelsSearch>,
                     pixabay: string -> Reply<PixabaySearch>): (r: Providers)
    ensures r.pexelsKey == p.pexelsKey && r.pixabayKey == p.pixabayKey
  {
    p.(pexels := pexels, pixabay := pixabay)
  }

  /** What `main` does once the two query lists are built: the saved paths of
      the first ten selected URLs, or the fatal error of the selection. */
  function Outcome(queries: seq<string>, fallback: seq<string>, p: Providers, fp: Providers,
                   ok: Url -> bool): (r: Result<seq<string>>)
    ensures r.Err? <==> SelectUrlsAsWritten(queries, fallback, p, fp).Err?
  {
    match SelectUrlsAsWritten(queries, fallback, p, fp)
    case Err(e) => Err(e)
    case Ok(urls) => Ok(SavedPaths(urls[..Min(|urls|, MaxTotal)], ok, ImageExt))
  }

  /** A successful outcome is at most ten distinct paths in the image folder,
      each `car_<i><ext>` for a position `i` among the first ten selected URLs
      whose download succeeded. */
  lemma OutcomeSavesDistinctFiles(queries: seq<string>, fallback: seq<string>, p: Providers, fp: Providers,
                                  ok: Url -> bool)
    requires Outcome(queries, fallback, p, fp, ok).Ok?
    ensures var saved := Outcome(queries, fallback, p, fp, ok).value;
      |saved| <= MaxTotal && NoDuplicates(saved)
      && forall s :: s in saved ==> exists i, u :: 0 <= i < MaxTotal && ok(u) && s == ImagePath(i, ImageExt(u))
  {
    var urls := SelectUrlsAsWritten(queries, fallback, p, fp).value;
    var sel := urls[..Min(|urls|, MaxTotal)];
    ImageExtsAreExtensions();
    SavedPathsFacts(sel, ok, ImageExt);
    forall s | s in SavedPaths(sel, ok, ImageExt)
      ensures exists i, u :: 0 <= i < MaxTotal && ok(u) && s == ImagePath(i, ImageExt(u))
    {
      var i :| 0 <= i < |sel| && ok(sel[i]) && s == ImagePath(i, ImageExt(sel[i]));
      assert ok(sel[i]) && s == ImagePath(i, ImageExt(sel[i]));
    }
  }

  /** An outcome is an error only when the first pass gathered nothing (or a
      reply was unreadable), so downloads are never attempted for an empty
      selection. */
  lemma OutcomeFailsOnlyWithoutImages(queries: seq<string>, fallback: seq<string>, p: Providers, fp: Providers,
                                      ok: Url -> bool)
    requires Outcome(queries, fallback, p, fp, ok).Err?
    ensures var primary := Gathered(queries, PrimaryCap, p);
      primary.Err? || primary.value == []
  {
    var primary := Gathered(queries, PrimaryCap, p);
    if primary.Ok? && primary.value != [] {
      SelectUrlsPrimary(queries, fallback, p, fp);
    }
  }

  /** The repeated fallback URL is downloaded twice: when the first pass finds
      nothing and the first two fallback queries each yield the one URL `u`,
      whose download succeeds, both `car_0` and `car_1` are written from `u`. */
  lemma OutcomeSavesUrlTwice(queries: seq<string>, fallback: seq<string>, p: Providers, fp: Providers,
                             ok: Url -> bool, u: Url)
    requires forall i :: 0 <= i < |queries| ==> Fetch(p, queries[i]) == Ok([])
    requires forall i :: 0 <= i < |fallback| ==> Fetch(fp, fallback[i]).Ok?
    requires |fallback| >= 2 && Fetch(fp, fallback[0]) == Ok([u]) && Fetch(fp, fallback[1]) == Ok([u])
    requires ok(u)
    ensures Outcome(queries, fallback, p, fp, ok).Ok?
    ensures ImagePath(0, ImageExt(u)) in Outcome(queries, fallback, p, fp, ok).value
    ensures ImagePath(1, ImageExt(u)) in Outcome(queries, fallback, p, fp, ok).value
  {
    FallbackKeepsDuplicates(queries, fallback, p, fp, u);
    var urls := SelectUrlsAsWritten(queries, fallback, p, fp).value;
    var sel := urls[..Min(|urls|, MaxTotal)];
    ImageExtsAreExtensions();
    SavedPathsFacts(sel, ok, ImageExt);
    assert sel[0] == u && sel[1] == u;
  }

  /** What `main` ends with for given data files, providers (with the replies
      the fallback pass's own requests receive), shuffle draws and download
      results. */
  function DownloaderOutcome(d: DataFiles, p: Providers, fallbackPexels: string -> Reply<PexelsSearch>,
                             fallbackPixabay: string -> Reply<PixabaySearch>, draw: nat -> nat,
                             fallbackDraw: nat -> nat, ok: Url -> bool): (r: Result<seq<string>>)
    ensures r.Err? <==> SelectUrlsAsWritten(BuildQueries(BaseKeywords(d), draw), FallbackQueries(fallbackDraw),
                                            p, Refetched(p, fallbackPexels, fallbackPixabay)).Err?
    ensures r.Err? ==> var primary := Gathered(BuildQueries(BaseKeywords(d), draw), PrimaryCap, p);
      primary.Err? || primary.value == []
  {
    var queries := BuildQueries(BaseKeywords(d), draw);
    var fp := Refetched(p, fallbackPexels, fallbackPixabay);
    var r := Outcome(queries, FallbackQueries(fallbackDraw), p, fp, ok);
    if r.Err? then
      OutcomeFailsOnlyWithoutImages(queries, FallbackQueries(fallbackDraw), p, fp, ok);
      r
    else r
  }

  /** The image folder after `main`: unchanged on a fatal error; otherwise the
      files that are not images, together with the files written for the first
      ten selected URLs. */
  function FolderAfter(files: set<string>, queries: seq<string>, fallback: seq<string>, p: Providers,
                       fp: Providers, ok: Url -> bool): (r: set<string>)
    ensures SelectUrlsAsWritten(queries, fallback, p, fp).Err? ==> r == files
    ensures SelectUrlsAsWritten(queries, fallback, p, fp).Ok? ==> forall f :: f in files && !IsImageName(f) ==> f in r
  {
    match SelectUrlsAsWritten(queries, fallback, p, fp)
    case Err(_) => files
    case Ok(urls) =>
      (set f | f in files && !IsImageName(f)) + WrittenNames(urls[..Min(|urls|, MaxTotal)], ok, ImageExt, Min(|urls|, MaxTotal))
  }

  /** The steps after the query lists are built: collect and, on success, purge
      the folder and save the first ten; on an error the folder is untouched. */
  method SaveOutcome(folder: ImageFolder, queries: seq<string>, fallback: seq<string>, p: Providers,
                     fp: Providers, ok: Url -> bool) returns (r: Result<seq<string>>)
    modifies folder
    ensures r == Outcome(queries, fallback, p, fp, ok)
    ensures folder.files == FolderAfter(old(folder.files), queries, fallback, p, fp, ok)
  {
    var urls := CollectUrls(queries, fallback, p, fp);
    if urls.Err? {
      return Err(urls.message);
    }
    var saved := folder.SaveImages(urls.value, MaxTotal, ok);
    r := Ok(saved);
  }

  /** `main`: load the text, resolve the base phrase, build both query lists,
      then collect and save. */
  method RunImageDownloader(folder: ImageFolder, d: DataFiles, p: Providers,
                            fallbackPexels: string -> Reply<PexelsSearch>,
                            fallbackPixabay: string -> Reply<PixabaySearch>, draw: nat -> nat,
                            fallbackDraw: nat -> nat, ok: Url -> bool) returns (r: Result<seq<string>>)
    modifies folder
    ensures r == DownloaderOutcome(d, p, fallbackPexels, fallbackPixabay, draw, fallbackDraw, ok)
    ensures folder.files == FolderAfter(old(folder.files), BuildQueries(BaseKeywords(d), draw),
                                        FallbackQueries(fallbackDraw), p,
                                        Refetched(p, fallbackPexels, fallbackPixabay), ok)
  {
    var t := LoadText(d);
    var base := ResolveBase(t.title, t.script, t.imageQuery);
    var queries := BuildQueries(base, draw);
    var fallback := FallbackQueries(fallbackDraw);
    r := SaveOutcome(folder, queries, fallback, p, Refetched(p, fallbackPexels, fallbackPixabay), ok);
  }
}
