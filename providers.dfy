/** The two stock-photo providers of the image downloader, reduced to what the
    code does with their replies: the API-key check, the request outcome, and the
    extraction of one link per result by a fixed order of preferred fields. */
module ImageProviders {
  import opened Options

  type Url = string

  /** What a provider call yields before links are extracted. `RequestFailed`
      is a connection error, a timeout or a non-success status (all caught);
      `Malformed` is a success whose body is not a JSON object of the expected
      shape, which the code reads outside its `try` and so does not catch. */
  datatype Reply<T> = RequestFailed | Malformed | Json(body: T)

  /** A Pexels photo: its `src` object (size name to URL), if present. */
  datatype PexelsPhoto = PexelsPhoto(src: Option<map<string, string>>)

  /** A Pexels search response: its `photos` list, if present. */
  datatype PexelsSearch = PexelsSearch(photos: Option<seq<PexelsPhoto>>)

  /** A Pixabay search response: its `hits` list, if present; each hit is an
      object from field names to URLs. */
  datatype PixabaySearch = PixabaySearch(hits: Option<seq<map<string, string>>>)

  /** The Pexels sizes, most preferred first. */
  const PexelsFields: seq<string> := ["large", "large2x", "original"]

  /** The Pixabay fields, most preferred first. */
  const PixabayFields: seq<string> := ["largeImageURL", "webformatURL"]

  /** `m.get(k)` is truthy: present and not the empty string. */
  predicate Present(m: map<string, string>, k: string)
  {
    k in m && m[k] != ""
  }

  /** `m.get(k0) or m.get(k1) or ...`: the index of the first truthy field. */
  function FirstPresent(m: map<string, string>, keys: seq<string>): (r: Option<nat>)
    ensures r.Some? ==> r.value < |keys| && Present(m, keys[r.value])
    ensures r.Some? ==> forall i :: 0 <= i < r.value ==> !Present(m, keys[i])
    ensures r.None? <==> forall i :: 0 <= i < |keys| ==> !Present(m, keys[i])
  {
    if keys == [] then None
    else if Present(m, keys[0]) then Some(0)
    else match FirstPresent(m, keys[1..])
      case None => None
      case Some(i) => Some(i + 1)
  }

  /** The link chosen from one result object. */
  function Pick(m: map<string, string>, keys: seq<string>): (r: Option<Url>)
    ensures r.Some? ==> r.value != ""
  {
    match FirstPresent(m, keys)
    case None => None
    case Some(i) => Some(m[keys[i]])
  }

  /** The links of a list of results, in order; results without a link are skipped. */
  function Links<P>(items: seq<P>, pick: P -> Option<Url>): (r: seq<Url>)
    ensures |r| <= |items|
  {
    if items == [] then []
    else
      var rest := Links(items[1..], pick);
      match pick(items[0])
      case None => rest
      case Some(u) => [u] + rest
  }

  /** Extraction distributes over concatenation of result lists ... */
  lemma {:induction false} LinksAppend<P>(a: seq<P>, b: seq<P>, pick: P -> Option<Url>)
    ensures Links(a + b, pick) == Links(a, pick) + Links(b, pick)
  {
    if a != [] {
      assert (a + b)[1..] == a[1..] + b;
      LinksAppend(a[1..], b, pick);
    } else {
      assert a + b == b;
    }
  }

  /** ... and one result gives its link or nothing; with LinksAppend this fixes
      the extraction completely: the picked links, in the order of the results. */
  lemma LinksSingle<P>(x: P, pick: P -> Option<Url>)
    ensures Links([x], pick) == match pick(x) case None => [] case Some(u) => [u]
  {
    assert [x][1..] == [];
  }

  /** Every extracted link is non-empty and picked from some result. */
  lemma {:induction false} LinksFromItems<P>(items: seq<P>, pick: P -> Option<Url>, k: nat)
    requires k < |Links(items, pick)|
    requires forall i :: 0 <= i < |items| ==> (pick(items[i]).Some? ==> pick(items[i]).value != "")
    ensures Links(items, pick)[k] != ""
    ensures exists i :: 0 <= i < |items| && pick(items[i]) == Some(Links(items, pick)[k])
  {
    var rest := Links(items[1..], pick);
    match pick(items[0])
    case None =>
      LinksFromItems(items[1..], pick, k);
      var i :| 0 <= i < |items[1..]| && pick(items[1..][i]) == Some(rest[k]);
      assert pick(items[i + 1]) == Some(Links(items, pick)[k]);
    case Some(u) =>
      if k > 0 {
        LinksFromItems(items[1..], pick, k - 1);
        var i :| 0 <= i < |items[1..]| && pick(items[1..][i]) == Some(rest[k - 1]);
        assert pick(items[i + 1]) == Some(Links(items, pick)[k]);
      } else {
        assert pick(items[0]) == Some(Links(items, pick)[k]);
      }
  }

  /** `src.get("large") or src.get("large2x") or src.get("original")` for a photo
      whose `src` defaults to `{}`. */
  function PexelsLink(photo: PexelsPhoto): Option<Url>
  {
    match photo.src
    case None => None
    case Some(src) => Pick(src, PexelsFields)
  }

  /** `hit.get("largeImageURL") or hit.get("webformatURL")` */
  function PixabayLink(hit: map<string, string>): Option<Url>
  {
    Pick(hit, PixabayFields)
  }

  /** The preference order of Pexels sizes: "large" if it is set, else
      "large2x", else "original"; a photo with none of them gives no link. */
  lemma PexelsPreference(src: map<string, string>)
    ensures Present(src, "large") ==> PexelsLink(PexelsPhoto(Some(src))) == Some(src["large"])
    ensures !Present(src, "large") && Present(src, "large2x") ==>
      PexelsLink(PexelsPhoto(Some(src))) == Some(src["large2x"])
    ensures !Present(src, "large") && !Present(src, "large2x") && Present(src, "original") ==>
      PexelsLink(PexelsPhoto(Some(src))) == Some(src["original"])
    ensures !Present(src, "large") && !Present(src, "large2x") && !Present(src, "original") ==>
      PexelsLink(PexelsPhoto(Some(src))) == None
  {
    var keys := PexelsFields;
    assert keys[0] == "large" && keys[1] == "large2x" && keys[2] == "original";
    var r := FirstPresent(src, keys);
    if r.Some? {
      assert r.value == 0 || r.value == 1 || r.value == 2;
    }
  }

  /** The preference order of Pixabay fields: "largeImageURL", then "webformatURL". */
  lemma PixabayPreference(hit: map<string, string>)
    ensures Present(hit, "largeImageURL") ==> PixabayLink(hit) == Some(hit["largeImageURL"])
    ensures !Present(hit, "largeImageURL") && Present(hit, "webformatURL") ==>
      PixabayLink(hit) == Some(hit["webformatURL"])
    ensures !Present(hit, "largeImageURL") && !Present(hit, "webformatURL") ==> PixabayLink(hit) == None
  {
    var keys := PixabayFields;
    assert keys[0] == "largeImageURL" && keys[1] == "webformatURL";
    var r := FirstPresent(hit, keys);
    if r.Some? {
      assert r.value == 0 || r.value == 1;
    }
  }

  /** `download_from_pexels`: no key means no request and no links; a failed
      request gives no links; an unreadable body ends the program. */
  function PexelsLinks(apiKey: string, reply: Reply<PexelsSearch>): (r: Result<seq<Url>>)
    ensures apiKey == "" ==> r == Ok([])
    ensures apiKey != "" && reply.RequestFailed? ==> r == Ok([])
    ensures r.Err? <==> apiKey != "" && reply.Malformed?
    ensures apiKey != "" && reply.Json? && reply.body.photos.Some? ==>
      r.Ok? && |r.value| <= |reply.body.photos.value|
  {
    if apiKey == "" then Ok([])
    else match reply
      case RequestFailed => Ok([])
      case Malformed => Err("Pexels reply is not a JSON object")
      case Json(body) =>
        var photos := match body.photos case None => [] case Some(ps) => ps;
        Ok(Links(photos, PexelsLink))
  }

  /** `download_from_pixabay`, with the same structure as Pexels. */
  function PixabayLinks(apiKey: string, reply: Reply<PixabaySearch>): (r: Result<seq<Url>>)
    ensures apiKey == "" ==> r == Ok([])
    ensures apiKey != "" && reply.RequestFailed? ==> r == Ok([])
    ensures r.Err? <==> apiKey != "" && reply.Malformed?
    ensures apiKey != "" && reply.Json? && reply.body.hits.Some? ==>
      r.Ok? && |r.value| <= |reply.body.hits.value|
  {
    if apiKey == "" then Ok([])
    else match reply
      case RequestFailed => Ok([])
      case Malformed => Err("Pixabay reply is not a JSON object")
      case Json(body) =>
        var hits := match body.hits case None => [] case Some(hs) => hs;
        Ok(Links(hits, PixabayLink))
  }

  /** The providers as the image downloader sees them: the two API keys and,
      for each query, the reply each provider gives. */
  datatype Providers = Providers(
    pexelsKey: string,
    pixabayKey: string,
    pexels: string -> Reply<PexelsSearch>,
    pixabay: string -> Reply<PixabaySearch>)

  /** One round of the collection loop: the Pexels links, then the Pixabay links. */
  function Fetch(p: Providers, query: string): (r: Result<seq<Url>>)
    ensures r.Ok? ==> PexelsLinks(p.pexelsKey, p.pexels(query)).Ok?
    ensures r.Ok? ==> PixabayLinks(p.pixabayKey, p.pixabay(query)).Ok?
    ensures r.Ok? ==> (r.value == PexelsLinks(p.pexelsKey, p.pexels(query)).value
                                 + PixabayLinks(p.pixabayKey, p.pixabay(query)).value)
    ensures r.Err? <==> (PexelsLinks(p.pexelsKey, p.pexels(query)).Err?
                         || PixabayLinks(p.pixabayKey, p.pixabay(query)).Err?)
  {
    match PexelsLinks(p.pexelsKey, p.pexels(query))
    case Err(e) => Err(e)
    case Ok(a) =>
      match PixabayLinks(p.pixabayKey, p.pixabay(query))
      case Err(e) => Err(e)
      case Ok(b) => Ok(a + b)
  }

  /** Every link one round yields is a non-empty string. */
  lemma FetchNonEmpty(p: Providers, query: string, k: nat)
    requires Fetch(p, query).Ok? && k < |Fetch(p, query).value|
    ensures Fetch(p, query).value[k] != ""
  {
    var a := PexelsLinks(p.pexelsKey, p.pexels(query)).value;
    var b := PixabayLinks(p.pixabayKey, p.pixabay(query)).value;
    if k < |a| {
      var reply := p.pexels(query);
      var photos := match reply.body.photos case None => [] case Some(ps) => ps;
      LinksFromItems(photos, PexelsLink, k);
    } else {
      var reply := p.pixabay(query);
      var hits := match reply.body.hits case None => [] case Some(hs) => hs;
      LinksFromItems(hits, PixabayLink, k - |a|);
    }
  }
}
