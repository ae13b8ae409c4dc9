/** The URL side of the Image Aggregator (the `main` of the image downloader):
    query the providers with each variant until a soft cap is reached, keep the
    first occurrence of every URL, and fall back to the "supercar" variants when
    nothing was found. */
module ImageAggregator {
  import opened Options
  import opened Sequences
  import opened ImageProviders

  /** The soft cap of the first collection loop. */
  const PrimaryCap: nat := 12

  /** The soft cap of the fallback loop. */
  const FallbackCap: nat := 10

  /** What the loop has accumulated after issuing the queries `qs`, in order:
      each query contributes its Pexels links and then its Pixabay links; an
      unreadable reply ends the program. */
  function Collected(qs: seq<string>, p: Providers): Result<seq<Url>>
  {
    if qs == [] then Ok([])
    else match Collected(qs[..|qs| - 1], p)
      case Err(e) => Err(e)
      case Ok(u) =>
        match Fetch(p, qs[|qs| - 1])
        case Err(e) => Err(e)
        case Ok(v) => Ok(u + v)
  }

  /** One more query extends what was collected by that query's links. */
  lemma CollectedStep(qs: seq<string>, k: nat, p: Providers)
    requires k < |qs|
    ensures Collected(qs[..k + 1], p) ==
      match Collected(qs[..k], p)
      case Err(e) => Err(e)
      case Ok(u) => (match Fetch(p, qs[k]) case Err(e) => Err(e) case Ok(v) => Ok(u + v))
  {
    assert qs[..k + 1][..k] == qs[..k];
  }

  /** Query `k` is due: no reply so far was fatal and fewer than `cap` URLs
      are held. */
  predicate Open(qs: seq<string>, cap: nat, p: Providers, k: nat)
    requires k <= |qs|
  {
    match Collected(qs[..k], p)
    case Err(_) => false
    case Ok(u) => |u| < cap
  }

  /** The number of queries the loop issues, counting from query `k` on: it
      stops at the end of the list, after a fatal reply, or as soon as at least
      `cap` URLs are held when the next query is due. */
  function GatherCount(qs: seq<string>, cap: nat, p: Providers, k: nat): (n: nat)
    requires k <= |qs|
    ensures k <= n <= |qs|
    decreases |qs| - k
  {
    if k == |qs| || !Open(qs, cap, p, k) then k else GatherCount(qs, cap, p, k + 1)
  }

  /** One trip through the loop body, with fewer than `cap` URLs held: the
      query is issued, and what was collected grows by its Pexels and Pixabay
      links, unless one of the replies is fatal. */
  lemma GatherStep(qs: seq<string>, cap: nat, p: Providers, k: nat, urls: seq<Url>)
    requires k < |qs| && Collected(qs[..k], p) == Ok(urls) && |urls| < cap
    ensures GatherCount(qs, cap, p, k) == GatherCount(qs, cap, p, k + 1)
    ensures Collected(qs[..k + 1], p).Err? ==> GatherCount(qs, cap, p, k + 1) == k + 1
    ensures var a := PexelsLinks(p.pexelsKey, p.pexels(qs[k]));
      var b := PixabayLinks(p.pixabayKey, p.pixabay(qs[k]));
      (a.Err? ==> Collected(qs[..k + 1], p) == Err(a.message))
      && (a.Ok? && b.Err? ==> Collected(qs[..k + 1], p) == Err(b.message))
      && (a.Ok? && b.Ok? ==> Collected(qs[..k + 1], p) == Ok(urls + a.value + b.value))
  {
    GatherCountOpen(qs, cap, p, k);
    CollectedStep(qs, k, p);
    var r := Collected(qs[..k + 1], p);
    FetchCases(p, qs[k], urls, r);
    if r.Err? {
      GatherCountClosed(qs, cap, p, k + 1);
    }
  }

  /** A due query is issued: the count goes on past it. */
  lemma GatherCountOpen(qs: seq<string>, cap: nat, p: Providers, k: nat)
    requires k < |qs| && Open(qs, cap, p, k)
    ensures GatherCount(qs, cap, p, k) == GatherCount(qs, cap, p, k + 1)
  {
  }

  /** After a fatal reply the count stops. */
  lemma GatherCountClosed(qs: seq<string>, cap: nat, p: Providers, k: nat)
    requires k <= |qs| && Collected(qs[..k], p).Err?
    ensures GatherCount(qs, cap, p, k) == k
  {
    assert !Open(qs, cap, p, k);
  }

  /** Extending `urls` by one fetch: the Pexels error, else the Pixabay error,
      else both link lists appended in that order. */
  lemma FetchCases(p: Providers, q: string, urls: seq<Url>, r: Result<seq<Url>>)
    requires r == match Fetch(p, q) case Err(e) => Err(e) case Ok(v) => Ok(urls + v)
    ensures var a := PexelsLinks(p.pexelsKey, p.pexels(q));
      var b := PixabayLinks(p.pixabayKey, p.pixabay(q));
      (a.Err? ==> r == Err(a.message))
      && (a.Ok? && b.Err? ==> r == Err(b.message))
      && (a.Ok? && b.Ok? ==> r == Ok(urls + a.value + b.value))
  {
    var a := PexelsLinks(p.pexelsKey, p.pexels(q));
    var b := PixabayLinks(p.pixabayKey, p.pixabay(q));
    if a.Ok? && b.Ok? {
      assert urls + a.value + b.value == urls + (a.value + b.value);
    }
  }

  /** What the count means: every query before the stopping point was issued
      with fewer than `cap` URLs held and no fatal reply; the loop stops before
      the end of the list only with `cap` or more URLs, or after a fatal reply. */
  lemma {:induction false} GatherCountFacts(qs: seq<string>, cap: nat, p: Providers, k: nat)
    requires k <= |qs|
    requires forall i :: 0 <= i < k ==> Open(qs, cap, p, i)
    ensures forall i :: 0 <= i < GatherCount(qs, cap, p, k) ==> Open(qs, cap, p, i)
    ensures GatherCount(qs, cap, p, k) < |qs| ==> !Open(qs, cap, p, GatherCount(qs, cap, p, k))
    decreases |qs| - k
  {
    if k < |qs| && Open(qs, cap, p, k) {
      GatherCountFacts(qs, cap, p, k + 1);
    }
  }

  /** The collection loop stops as the source's loop does: it never issues a
      query while `cap` or more URLs are held, and it ends early only because
      of the cap or a fatal reply. */
  lemma GatheredFacts(qs: seq<string>, cap: nat, p: Providers)
    ensures var n := GatherCount(qs, cap, p, 0);
      (forall i :: 0 <= i < n ==> Collected(qs[..i], p).Ok? && |Collected(qs[..i], p).value| < cap)
      && (n < |qs| && Gathered(qs, cap, p).Ok? ==> |Gathered(qs, cap, p).value| >= cap)
  {
    GatherCountFacts(qs, cap, p, 0);
    var n := GatherCount(qs, cap, p, 0);
    forall i | 0 <= i < n
      ensures Collected(qs[..i], p).Ok? && |Collected(qs[..i], p).value| < cap
    {
      assert Open(qs, cap, p, i);
    }
    if n < |qs| && Gathered(qs, cap, p).Ok? {
      assert !Open(qs, cap, p, n);
    }
  }

  /** What the loop holds when it stops. */
  function Gathered(qs: seq<string>, cap: nat, p: Providers): Result<seq<Url>>
  {
    Collected(qs[..GatherCount(qs, cap, p, 0)], p)
  }

  /** The collection loop of `main` (and, with its own cap, the fallback loop):
      for each query in order, stop once `cap` URLs are held, else extend by the
      Pexels and then the Pixabay links. It issues at most one call pair per
      query, never issues one while `cap` or more URLs are held, and stops
      early only because of the cap or a fatal reply. */
  method Gather(queries: seq<string>, cap: nat, p: Providers) returns (r: Result<seq<Url>>, issued: nat)
    ensures issued <= |queries|
    ensures issued == GatherCount(queries, cap, p, 0)
    ensures r == Collected(queries[..issued], p)
  {
    var urls: seq<Url> := [];
    issued := 0;
    assert queries[..0] == [];
    while issued < |queries|
      invariant issued <= |queries|
      invariant Collected(queries[..issued], p) == Ok(urls)
      invariant GatherCount(queries, cap, p, issued) == GatherCount(queries, cap, p, 0)
    {
      if |urls| >= cap {
        break;
      }
      var q := queries[issued];
      GatherStep(queries, cap, p, issued, urls);
      var fromPexels := PexelsLinks(p.pexelsKey, p.pexels(q));
      if fromPexels.Err? {
        r, issued := Err(fromPexels.message), issued + 1;
        return;
      }
      urls := urls + fromPexels.value;
      var fromPixabay := PixabayLinks(p.pixabayKey, p.pixabay(q));
      if fromPixabay.Err? {
        r, issued := Err(fromPixabay.message), issued + 1;
        return;
      }
      urls := urls + fromPixabay.value;
      issued := issued + 1;
    }
    r := Ok(urls);
  }

  /** The first occurrence of each element, in the order of first occurrence:
      built, like the loop, by keeping each element not seen before it. */
  function Distinct(s: seq<Url>): (r: seq<Url>)
    ensures forall x :: x in r <==> x in s
    ensures NoDuplicates(r)
    ensures |r| <= |s|
  {
    if s == [] then []
    else
      var init := Distinct(s[..|s| - 1]);
      var x := s[|s| - 1];
      assert forall y :: y in s <==> y in s[..|s| - 1] || y == x by {
        assert s == s[..|s| - 1] + [x];
      }
      if x in s[..|s| - 1] then init else init + [x]
  }

  /** The position of the first occurrence of `x`. */
  function FirstIndex<T(==)>(s: seq<T>, x: T): (i: nat)
    requires x in s
    ensures i < |s| && s[i] == x && x !in s[..i]
  {
    if s[0] == x then 0 else 1 + FirstIndex(s[1..], x)
  }

  lemma {:induction false} FirstIndexExtend<T>(s: seq<T>, y: T, x: T)
    requires x in s
    ensures FirstIndex(s + [y], x) == FirstIndex(s, x)
  {
    if s[0] != x {
      assert (s + [y])[1..] == s[1..] + [y];
      FirstIndexExtend(s[1..], y, x);
    }
  }

  /** A list without repeats is its own de-duplication. */
  lemma {:induction false} DistinctOfDistinct(s: seq<Url>)
    requires NoDuplicates(s)
    ensures Distinct(s) == s
  {
    if s != [] {
      var init := s[..|s| - 1];
      DistinctOfDistinct(init);
      assert init + [s[|s| - 1]] == s;
    }
  }

  /** De-duplication keeps the original relative order: an element that first
      occurs earlier in the input comes earlier in the output. */
  lemma {:induction false} DistinctKeepsOrder(s: seq<Url>, a: nat, b: nat)
    requires a < b < |Distinct(s)|
    ensures FirstIndex(s, Distinct(s)[a]) < FirstIndex(s, Distinct(s)[b])
  {
    var init := s[..|s| - 1];
    var x := s[|s| - 1];
    var d := Distinct(s);
    assert s == init + [x];
    if x in init || b < |Distinct(init)| {
      DistinctKeepsOrder(init, a, b);
      assert d[a] == Distinct(init)[a] && d[b] == Distinct(init)[b];
      FirstIndexExtend(init, x, d[a]);
      FirstIndexExtend(init, x, d[b]);
    } else {
      assert d[b] == x;
      assert d[a] == Distinct(init)[a];
      FirstIndexExtend(init, x, d[a]);
    }
  }

  /** The de-duplication loop of `main`: a `seen` set and the list of first
      occurrences. The result holds every input URL exactly once, in the order
      in which each first occurs. */
  method Dedup(urls: seq<Url>) returns (clean: seq<Url>)
    ensures clean == Distinct(urls)
    ensures NoDuplicates(clean)
    ensures forall u :: u in clean <==> u in urls
    ensures forall a, b :: 0 <= a < b < |clean| ==> FirstIndex(urls, clean[a]) < FirstIndex(urls, clean[b])
  {
    var seen: set<Url> := {};
    clean := [];
    var i := 0;
    while i < |urls|
      invariant i <= |urls|
      invariant clean == Distinct(urls[..i])
      invariant forall u :: u in seen <==> u in urls[..i]
    {
      var u := urls[i];
      assert urls[..i + 1][..i] == urls[..i];
      assert forall v :: v in urls[..i + 1] <==> v in urls[..i] || v == u by {
        assert urls[..i + 1] == urls[..i] + [u];
      }
      if u !in seen {
        seen := seen + {u};
        clean := clean + [u];
      }
      i := i + 1;
    }
    assert urls[..i] == urls;
    forall a, b | 0 <= a < b < |clean|
      ensures FirstIndex(urls, clean[a]) < FirstIndex(urls, clean[b])
    {
      DistinctKeepsOrder(urls, a, b);
    }
  }

  /** The URL selection of `main`: the de-duplicated first pass when it found
      anything, else the fallback pass taken as it comes (its URLs are not
      de-duplicated), else a fatal error. The fallback pass issues requests of
      its own, so its replies are those of `fp`. Every selected URL was
      gathered by one of the two passes, and the selection is an error only
      when a reply was unreadable or both passes gathered nothing. */
  function SelectUrlsAsWritten(queries: seq<string>, fallback: seq<string>, p: Providers, fp: Providers): (r: Result<seq<Url>>)
    ensures r.Ok? ==> r.value != [] && Gathered(queries, PrimaryCap, p).Ok?
    ensures r.Ok? ==> forall u :: u in r.value ==>
      u in Gathered(queries, PrimaryCap, p).value
      || (Gathered(fallback, FallbackCap, fp).Ok? && u in Gathered(fallback, FallbackCap, fp).value)
    ensures r.Err? && Gathered(queries, PrimaryCap, p).Ok? && Gathered(fallback, FallbackCap, fp).Ok? ==>
      Gathered(queries, PrimaryCap, p).value == [] && Gathered(fallback, FallbackCap, fp).value == []
  {
    match Gathered(queries, PrimaryCap, p)
    case Err(e) => Err(e)
    case Ok(all) =>
      var clean := Distinct(all);
      DistinctEmpty(all);
      if clean != [] then Ok(clean)
      else match Gathered(fallback, FallbackCap, fp)
        case Err(e) => Err(e)
        case Ok(more) => if more == [] then Err(NoImagesMessage) else Ok(more)
  }

  /** Only an empty list de-duplicates to the empty list. */
  lemma DistinctEmpty(s: seq<Url>)
    ensures Distinct(s) == [] <==> s == []
  {
    if s != [] {
      assert s[0] in s;
    }
  }

  /** When the first pass finds anything, the selection is exactly its
      de-duplication and the fallback plays no part. */
  lemma SelectUrlsPrimary(queries: seq<string>, fallback: seq<string>, p: Providers, fp: Providers)
    requires Gathered(queries, PrimaryCap, p).Ok? && Gathered(queries, PrimaryCap, p).value != []
    ensures SelectUrlsAsWritten(queries, fallback, p, fp) == Ok(Distinct(Gathered(queries, PrimaryCap, p).value))
  {
    DistinctEmpty(Gathered(queries, PrimaryCap, p).value);
  }

  /** When the first pass gathers nothing, the selection is the fallback
      pass's list exactly as gathered, repeats included. */
  lemma SelectUrlsFallback(queries: seq<string>, fallback: seq<string>, p: Providers, fp: Providers, more: seq<Url>)
    requires Gathered(queries, PrimaryCap, p) == Ok([])
    requires Gathered(fallback, FallbackCap, fp) == Ok(more) && more != []
    ensures SelectUrlsAsWritten(queries, fallback, p, fp) == Ok(more)
  {
    DistinctEmpty([]);
  }

  const NoImagesMessage := "Still no images found. Check API keys or internet."

  /** While every primary query yields nothing, the URLs collected so far stay empty. */
  lemma {:induction false} CollectedNothing(qs: seq<string>, p: Providers, k: nat)
    requires k <= |qs|
    requires forall i :: 0 <= i < |qs| ==> Fetch(p, qs[i]) == Ok([])
    ensures Collected(qs[..k], p) == Ok([])
  {
    if k > 0 {
      CollectedNothing(qs, p, k - 1);
      CollectedStep(qs, k - 1, p);
    } else {
      assert qs[..0] == [];
    }
  }

  /** When no reply is fatal, the collection never fails. */
  lemma {:induction false} CollectedOk(qs: seq<string>, p: Providers, k: nat)
    requires k <= |qs|
    requires forall i :: 0 <= i < |qs| ==> Fetch(p, qs[i]).Ok?
    ensures Collected(qs[..k], p).Ok?
  {
    if k > 0 {
      CollectedOk(qs, p, k - 1);
      CollectedStep(qs, k - 1, p);
    } else {
      assert qs[..0] == [];
    }
  }

  /** What was collected after `k` queries is a prefix of what is collected later. */
  lemma {:induction false} CollectedPrefix(qs: seq<string>, p: Providers, k: nat, m: nat)
    requires k <= m <= |qs|
    requires Collected(qs[..m], p).Ok?
    ensures Collected(qs[..k], p).Ok?
    ensures |Collected(qs[..k], p).value| <= |Collected(qs[..m], p).value|
    ensures Collected(qs[..k], p).value == Collected(qs[..m], p).value[..|Collected(qs[..k], p).value|]
  {
    if k < m {
      CollectedStep(qs, m - 1, p);
      CollectedPrefix(qs, p, k, m - 1);
    }
  }

  /** Once the loop is past position `k`, the number of queries issued is at least `k`. */
  lemma {:induction false} GatherCountPast(qs: seq<string>, cap: nat, p: Providers, k: nat, m: nat)
    requires k <= m <= |qs|
    requires forall i :: k <= i < m ==> Collected(qs[..i], p).Ok? && |Collected(qs[..i], p).value| < cap
    ensures GatherCount(qs, cap, p, k) >= m
    decreases m - k
  {
    if k < m {
      GatherCountPast(qs, cap, p, k + 1, m);
    }
  }

  /** The fallback is not de-duplicated. When the first pass finds nothing and
      two fallback variants both yield the same single URL, that URL is selected
      twice, so two images are downloaded from one source. */
  lemma FallbackKeepsDuplicates(queries: seq<string>, fallback: seq<string>, p: Providers, fp: Providers, u: Url)
    requires forall i :: 0 <= i < |queries| ==> Fetch(p, queries[i]) == Ok([])
    requires forall i :: 0 <= i < |fallback| ==> Fetch(fp, fallback[i]).Ok?
    requires |fallback| >= 2 && Fetch(fp, fallback[0]) == Ok([u]) && Fetch(fp, fallback[1]) == Ok([u])
    ensures SelectUrlsAsWritten(queries, fallback, p, fp).Ok?
    ensures var r := SelectUrlsAsWritten(queries, fallback, p, fp).value; |r| >= 2 && r[0] == u && r[1] == u
    ensures !NoDuplicates(SelectUrlsAsWritten(queries, fallback, p, fp).value)
  {
    PrimaryFindsNothing(queries, p);
    FallbackStartsTwice(fallback, fp, u);
    SelectUrlsFallback(queries, fallback, p, fp, Gathered(fallback, FallbackCap, fp).value);
  }

  /** A first pass whose every query yields nothing gathers nothing. */
  lemma PrimaryFindsNothing(queries: seq<string>, p: Providers)
    requires forall i :: 0 <= i < |queries| ==> Fetch(p, queries[i]) == Ok([])
    ensures Gathered(queries, PrimaryCap, p) == Ok([])
  {
    CollectedNothing(queries, p, GatherCount(queries, PrimaryCap, p, 0));
  }

  /** A fallback pass whose first two queries yield the same single URL holds
      that URL twice at its start. */
  lemma FallbackStartsTwice(fallback: seq<string>, p: Providers, u: Url)
    requires forall i :: 0 <= i < |fallback| ==> Fetch(p, fallback[i]).Ok?
    requires |fallback| >= 2 && Fetch(p, fallback[0]) == Ok([u]) && Fetch(p, fallback[1]) == Ok([u])
    ensures Gathered(fallback, FallbackCap, p).Ok?
    ensures var g := Gathered(fallback, FallbackCap, p).value; |g| >= 2 && g[0] == u && g[1] == u
  {
    FirstTwo(fallback, p, u);
    GatherCountPast(fallback, FallbackCap, p, 0, 2);
    var n := GatherCount(fallback, FallbackCap, p, 0);
    CollectedOk(fallback, p, n);
    CollectedPrefix(fallback, p, 2, n);
  }

  lemma FirstTwo(fallback: seq<string>, p: Providers, u: Url)
    requires |fallback| >= 2 && Fetch(p, fallback[0]) == Ok([u]) && Fetch(p, fallback[1]) == Ok([u])
    ensures Collected(fallback[..0], p) == Ok([])
    ensures Collected(fallback[..1], p) == Ok([u])
    ensures Collected(fallback[..2], p) == Ok([u, u])
  {
    assert fallback[..0] == [];
    assert [] + [u] == [u] && [u] + [u] == [u, u];
    CollectedStep(fallback, 0, p);
    CollectedStep(fallback, 1, p);
  }

  /** The URL selection with the fallback pass de-duplicated like the first
      one, so that, as the first pass's `seen` set already ensures for its
      own URLs, the selection never repeats a URL. */
  function SelectUrls(queries: seq<string>, fallback: seq<string>, p: Providers, fp: Providers): (r: Result<seq<Url>>)
    ensures r.Ok? ==> r.value != [] && NoDuplicates(r.value)
    ensures r.Err? && Gathered(queries, PrimaryCap, p).Ok? && Gathered(fallback, FallbackCap, fp).Ok? ==>
      Gathered(queries, PrimaryCap, p).value == [] && Gathered(fallback, FallbackCap, fp).value == []
  {
    match Gathered(queries, PrimaryCap, p)
    case Err(e) => Err(e)
    case Ok(all) =>
      var clean := Distinct(all);
      if clean != [] then Ok(clean)
      else match Gathered(fallback, FallbackCap, fp)
        case Err(e) => Err(e)
        case Ok(more) =>
          var cleanMore := Distinct(more);
          DistinctEmpty(more);
          if cleanMore == [] then Err(NoImagesMessage) else Ok(cleanMore)
  }

  /** The corrected selection is the selection as written with its repeats
      removed: both fail together, and they differ only by de-duplication. */
  lemma SelectUrlsCorrects(queries: seq<string>, fallback: seq<string>, p: Providers, fp: Providers)
    ensures SelectUrls(queries, fallback, p, fp).Err? <==> SelectUrlsAsWritten(queries, fallback, p, fp).Err?
    ensures SelectUrls(queries, fallback, p, fp).Ok? ==>
      SelectUrls(queries, fallback, p, fp).value == Distinct(SelectUrlsAsWritten(queries, fallback, p, fp).value)
  {
    var g := Gathered(queries, PrimaryCap, p);
    if g.Ok? {
      DistinctEmpty(g.value);
      DistinctOfDistinct(Distinct(g.value));
      var h := Gathered(fallback, FallbackCap, fp);
      if g.value == [] && h.Ok? {
        DistinctEmpty(h.value);
      }
    }
  }

  /** The URL part of `main`: first pass, de-duplication, the "supercar"
      fallback appended as it comes, and the fatal check for an empty result. */
  method CollectUrls(queries: seq<string>, fallback: seq<string>, p: Providers, fp: Providers) returns (r: Result<seq<Url>>)
    ensures r == SelectUrlsAsWritten(queries, fallback, p, fp)
  {
    var all, _ := Gather(queries, PrimaryCap, p);
    if all.Err? {
      return Err(all.message);
    }
    var clean := Dedup(all.value);
    if clean == [] {
      var more, _ := Gather(fallback, FallbackCap, fp);
      if more.Err? {
        return Err(more.message);
      }
      clean := clean + more.value;
      assert clean == more.value;
    }
    if clean == [] {
      return Err(NoImagesMessage);
    }
    r := Ok(clean);
  }
}
