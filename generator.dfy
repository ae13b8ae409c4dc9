/** The content generator: the repair of the language model's reply into a
    dictionary (`extract_json`), the five fields read from it, and the two
    counters of sentences and words. The model reply, `json.loads` and the
    file writes are parameters or left out. */
module ContentGenerator {
  import opened Options
  import opened Text

  /** A JSON value as far as the generator looks at it: a string, or anything
      else (a number, a boolean, null, an array or an object). */
  datatype JVal = JStr(text: string) | JOther

  type Dict = map<string, JVal>

  /** `json.loads` of a text that starts with `{`: an object, or `None` when
      it raises. */
  type Parser = string -> Option<Dict>

  // ---------------------------------------------------------------------
  // Tier 1: the greedy block

  /** A match of `\{[\s\S]*\}` from position `p` to position `q`. */
  predicate BlockAt(text: string, p: int, q: int)
  {
    0 <= p < q < |text| && text[p] == '{' && text[q] == '}'
  }

  /** `re.search(r"\{[\s\S]*\}", text).group(0)`: from the first `{` to the
      last `}`, when some `{` comes before some `}`. */
  function GreedyBlock(text: string): (r: Option<string>)
    ensures r.Some? ==> |r.value| >= 2 && r.value[0] == '{' && r.value[|r.value| - 1] == '}'
    ensures r.None? <==> forall p, q :: !BlockAt(text, p, q)
  {
    var p := FindAny(text, {'{'});
    var q := RFind(text, '}');
    assert forall p', q' :: BlockAt(text, p', q') ==> p <= p' && q' <= q by {
      forall p', q' | BlockAt(text, p', q') ensures p <= p' && q' <= q {
        assert text[p'] in {'{'};
      }
    }
    if p < q then assert BlockAt(text, p, q); Some(text[p..q + 1]) else None
  }

  /** The block is the leftmost match, and the longest one from there: it
      starts no later and ends no earlier than any other match. */
  lemma GreedyBlockLeftmostLongest(text: string)
    requires GreedyBlock(text).Some?
    ensures exists p, q :: BlockAt(text, p, q) && GreedyBlock(text).value == text[p..q + 1]
                          && forall p', q' :: BlockAt(text, p', q') ==> p <= p' && q' <= q
  {
    var p := FindAny(text, {'{'});
    var q := RFind(text, '}');
    assert BlockAt(text, p, q);
  }

  // ---------------------------------------------------------------------
  // Tier 2: the pair scan

  datatype Pair = Pair(key: string, value: string)

  /** What `"([^"]+)":\s*"([^"]*)"` can capture: a non-empty key and a value,
      neither holding a quote. */
  predicate Capturable(pr: Pair)
  {
    pr.key != [] && '"' !in pr.key && '"' !in pr.value
  }

  /** A quoted run: the characters, between two quotes. */
  function Quoted(c: string): string
  {
    ['"'] + c + ['"']
  }

  /** The text of one match: `"key":`, whitespace, `"value"`. */
  function Render(pr: Pair, ws: string): string
  {
    Quoted(pr.key) + ([':'] + (ws + Quoted(pr.value)))
  }

  /** Every character is whitespace (what `\s*` matches), stated letter by
      letter. */
  predicate Whitespace(ws: string)
  {
    ws == [] || (IsSpace(ws[0]) && Whitespace(ws[1..]))
  }

  /** The letter-by-letter form agrees with `AllSpace`. */
  lemma {:induction false} WhitespaceIsAllSpace(ws: string)
    ensures Whitespace(ws) <==> AllSpace(ws)
  {
    if ws != [] {
      WhitespaceIsAllSpace(ws[1..]);
      assert forall i :: 1 <= i < |ws| ==> ws[1..][i - 1] == ws[i];
    }
  }

  /** The length of the leading whitespace of `u`. */
  function SpaceRun(u: string): (n: nat)
    ensures n <= |u|
  {
    if u == [] || !IsSpace(u[0]) then 0 else 1 + SpaceRun(u[1..])
  }

  /** The leading run is whitespace, and what follows it is not. */
  lemma {:induction false} SpaceRunFacts(u: string)
    ensures Whitespace(u[..SpaceRun(u)])
    ensures SpaceRun(u) < |u| ==> !IsSpace(u[SpaceRun(u)])
  {
    if u != [] && IsSpace(u[0]) {
      SpaceRunFacts(u[1..]);
      assert u[..SpaceRun(u)][1..] == u[1..][..SpaceRun(u[1..])];
    }
  }

  /** The leading whitespace of `ws + y`, when `ws` is whitespace and `y`
      starts with something else. */
  lemma {:induction false} SpaceRunAfter(ws: string, y: string)
    requires Whitespace(ws) && |y| > 0 && !IsSpace(y[0])
    ensures SpaceRun(ws + y) == |ws|
  {
    if ws != [] {
      assert (ws + y)[1..] == ws[1..] + y;
      SpaceRunAfter(ws[1..], y);
    } else {
      assert ws + y == y;
    }
  }

  /** The position of the first quote of `s`, or `|s|`. */
  function QuoteIdx(s: string): (i: nat)
    ensures i <= |s|
  {
    if s == [] || s[0] == '"' then 0 else 1 + QuoteIdx(s[1..])
  }

  /** There is a quote at that position, and none before it. */
  lemma {:induction false} QuoteIdxFacts(s: string)
    ensures QuoteIdx(s) < |s| ==> s[QuoteIdx(s)] == '"'
    ensures '"' !in s[..QuoteIdx(s)]
  {
    if s != [] && s[0] != '"' {
      QuoteIdxFacts(s[1..]);
      assert s[..QuoteIdx(s)] == [s[0]] + s[1..][..QuoteIdx(s[1..])];
    }
  }

  /** The first quote of `x + y`, when `x` has none and `y` starts with one. */
  lemma {:induction false} QuoteIdxAfter(x: string, y: string)
    requires '"' !in x && |y| > 0 && y[0] == '"'
    ensures QuoteIdx(x + y) == |x|
  {
    if x != [] {
      assert (x + y)[1..] == x[1..] + y;
      assert x[0] in x;
      QuoteIdxAfter(x[1..], y);
    } else {
      assert x + y == y;
    }
  }

  /** A match of `"([^"]*)"` at the start of a text: the characters between
      the quotes, and the length of the match. */
  datatype Quote = NoQuote | Quote(text: string, len: nat)

  /** `"([^"]*)"` at the start of `u`: the characters up to the next quote. */
  function QuotedRun(u: string): (r: Quote)
    ensures r.Quote? ==> 2 <= r.len <= |u| && r.len == |r.text| + 2
  {
    if |u| > 0 && u[0] == '"' then
      var a := QuoteIdx(u[1..]);
      if a < |u| - 1 then Quote(u[1..][..a], a + 2) else NoQuote
    else NoQuote
  }

  /** A quoted run is the quoted characters, without a quote among them,
      followed by the rest of the text. */
  lemma QuotedRunFacts(u: string)
    requires QuotedRun(u).Quote?
    ensures '"' !in QuotedRun(u).text
    ensures u == Quoted(QuotedRun(u).text) + u[QuotedRun(u).len..]
  {
    var a := QuoteIdx(u[1..]);
    QuoteIdxFacts(u[1..]);
    assert u == ['"'] + u[1..][..a] + ['"'] + u[a + 2..];
  }

  /** A quoted run is read back, whatever follows it. */
  lemma QuotedRunRendered(c: string, rest: string)
    requires '"' !in c
    ensures QuotedRun(Quoted(c) + rest) == Quote(c, |c| + 2)
  {
    var u := Quoted(c) + rest;
    assert u[1..] == c + (['"'] + rest);
    QuoteIdxAfter(c, ['"'] + rest);
    assert u[1..][..|c|] == c;
  }

  /** A match of the pair pattern at the start of a text: the captured pair,
      and the length of the match. */
  datatype Match = NoMatch | Match(pair: Pair, len: nat)

  /** The rest of a match once the key `k` and its colon are read from the
      text before `w`: `\s*` and a quoted value. The length counts the key
      part too. */
  function ValueAfter(k: string, w: string): (r: Match)
    ensures r.Match? ==> |k| + 5 <= r.len <= |k| + 3 + |w|
  {
    var s := SpaceRun(w);
    var q := QuotedRun(w[s..]);
    if q.NoQuote? then NoMatch else Match(Pair(k, q.text), |k| + 3 + s + q.len)
  }

  /** The match of `"([^"]+)":\s*"([^"]*)"` at the start of `u`. Each part of
      the pattern has one way to match: `[^"]+` and `[^"]*` run to the next
      quote and `\s*` to the next non-whitespace, since a shorter run would be
      followed by a character the next part cannot start with. */
  function MatchAt(u: string): (r: Match)
    ensures r.Match? ==> 0 < r.len <= |u|
  {
    var q := QuotedRun(u);
    if q.NoQuote? || q.text == [] || q.len >= |u| || u[q.len] != ':' then NoMatch
    else ValueAfter(q.text, u[q.len + 1..])
  }

  /** A match starts with a non-empty quoted key and a colon. */
  lemma MatchAtKey(u: string)
    requires MatchAt(u).Match?
    ensures var q := QuotedRun(u);
      q.Quote? && q.text != [] && q.len < |u| && u[q.len] == ':'
      && MatchAt(u) == ValueAfter(q.text, u[q.len + 1..])
  {
  }

  /** What a match captures is capturable. */
  lemma MatchAtCapturable(u: string)
    requires MatchAt(u).Match?
    ensures Capturable(MatchAt(u).pair)
  {
    MatchAtKey(u);
    var q := QuotedRun(u);
    QuotedRunFacts(u);
    var w := u[q.len + 1..];
    QuotedRunFacts(w[SpaceRun(w)..]);
  }

  /** A rendering followed by more text, regrouped from the right. */
  lemma RenderThen(pr: Pair, ws: string, rest: string)
    ensures Render(pr, ws) + rest == Quoted(pr.key) + ([':'] + (ws + (Quoted(pr.value) + rest)))
  {
  }

  /** The key part of a match: a quoted run and a colon. */
  lemma KeyPart(u: string)
    requires QuotedRun(u).Quote? && QuotedRun(u).len < |u| && u[QuotedRun(u).len] == ':'
    ensures u == Quoted(QuotedRun(u).text) + ([':'] + u[QuotedRun(u).len + 1..])
  {
    var n1 := QuotedRun(u).len;
    QuotedRunFacts(u);
    Glue(u[n1..], 1);
    DropDrop(u, n1, 1);
    assert u[n1..][..1] == [':'];
  }

  /** A text is its first `i` characters followed by the rest. */
  lemma Glue(u: string, i: nat)
    requires i <= |u|
    ensures u == u[..i] + u[i..]
  {
  }

  /** The value part of a match: whitespace and a quoted run, then the rest. */
  lemma ValuePart(k: string, w: string)
    requires ValueAfter(k, w).Match?
    ensures var m := ValueAfter(k, w);
      w == w[..SpaceRun(w)] + (Quoted(m.pair.value) + w[m.len - |k| - 3..])
  {
    var s := SpaceRun(w);
    var t := w[s..];
    var q := QuotedRun(t);
    assert ValueAfter(k, w) == Match(Pair(k, q.text), |k| + 3 + s + q.len);
    QuotedRunFacts(t);
    DropDrop(w, s, q.len);
    Glue(w, s);
  }

  /** A match is exactly the rendering of the pair it captures. */
  lemma MatchAtShape(u: string)
    requires MatchAt(u).Match?
    ensures exists ws :: Whitespace(ws) && u == Render(MatchAt(u).pair, ws) + u[MatchAt(u).len..]
  {
    MatchAtKey(u);
    var q := QuotedRun(u);
    KeyPart(u);
    var ws := ShapeAfterKey(u, q.text, u[q.len + 1..]);
  }

  /** The shape of a match from its value part on, for a text that starts
      with the key `k` and its colon. */
  lemma ShapeAfterKey(u: string, k: string, w: string) returns (ws: string)
    requires u == Quoted(k) + ([':'] + w) && ValueAfter(k, w).Match?
    ensures Whitespace(ws) && u == Render(ValueAfter(k, w).pair, ws) + u[ValueAfter(k, w).len..]
  {
    var m := ValueAfter(k, w);
    ValuePart(k, w);
    SpaceRunFacts(w);
    ws := w[..SpaceRun(w)];
    var rest := w[m.len - |k| - 3..];
    DropKey(u, k, w, m.len - |k| - 3);
    Reassemble(u, k, w, ws, m.pair.value, rest);
  }

  /** Past the key part, the text is `w`. */
  lemma DropKey(u: string, k: string, w: string, j: nat)
    requires u == Quoted(k) + ([':'] + w) && j <= |w|
    ensures u[|k| + 3 + j..] == w[j..]
  {
  }

  /** The two parts of a match put back together. */
  lemma Reassemble(u: string, k: string, w: string, ws: string, v: string, rest: string)
    requires u == Quoted(k) + ([':'] + w) && w == ws + (Quoted(v) + rest)
    ensures u == Render(Pair(k, v), ws) + rest
  {
    RenderThen(Pair(k, v), ws, rest);
  }

  /** The value part of a rendered pair is read back. */
  lemma ValueAfterOf(k: string, ws: string, v: string, rest: string)
    requires Whitespace(ws) && '"' !in v
    ensures ValueAfter(k, ws + (Quoted(v) + rest)) == Match(Pair(k, v), |k| + |v| + |ws| + 5)
  {
    var y := Quoted(v) + rest;
    QuotedRunRendered(v, rest);
    assert y[0] == '"';
    SpaceRunAfter(ws, y);
    ValueAfterJoin(k, ws, y, v);
  }

  /** `ValueAfter` over whitespace followed by a quoted run. */
  lemma ValueAfterJoin(k: string, ws: string, y: string, v: string)
    requires SpaceRun(ws + y) == |ws| && QuotedRun(y) == Quote(v, |v| + 2)
    ensures ValueAfter(k, ws + y) == Match(Pair(k, v), |k| + |v| + |ws| + 5)
  {
    assert (ws + y)[|ws|..] == y;
    ValueAfterIs(k, ws + y, |ws|, v);
  }

  /** `ValueAfter` from the two runs it reads. */
  lemma ValueAfterIs(k: string, w: string, s: nat, v: string)
    requires s <= |w| && SpaceRun(w) == s && QuotedRun(w[s..]) == Quote(v, |v| + 2)
    ensures ValueAfter(k, w) == Match(Pair(k, v), |k| + |v| + s + 5)
  {
  }

  /** The key part of a rendered pair is read back. */
  lemma MatchAtOfKey(k: string, w: string)
    requires k != [] && '"' !in k
    ensures MatchAt(Quoted(k) + ([':'] + w)) == ValueAfter(k, w)
  {
    var x := [':'] + w;
    var u := Quoted(k) + x;
    QuotedRunRendered(k, x);
    AfterPrefix(Quoted(k), x);
    DropDrop(u, |k| + 2, 1);
    MatchAtQuoted(u, k, w);
  }

  /** A quoted key read from the start of `u` and followed by a colon, then `w`. */
  lemma MatchAtQuoted(u: string, k: string, w: string)
    requires k != [] && QuotedRun(u) == Quote(k, |k| + 2)
    requires |k| + 2 < |u| && u[|k| + 2] == ':' && u[|k| + 3..] == w
    ensures MatchAt(u) == ValueAfter(k, w)
  {
  }

  /** What follows a prefix. */
  lemma AfterPrefix(a: string, x: string)
    ensures (a + x)[|a|..] == x
    ensures x != [] ==> (a + x)[|a|] == x[0]
  {
  }

  /** Conversely, a rendered pair is matched at the start of a text, whatever
      follows it. */
  lemma MatchAtRendered(pr: Pair, ws: string, rest: string)
    requires Capturable(pr) && Whitespace(ws)
    ensures MatchAt(Render(pr, ws) + rest) == Match(pr, |Render(pr, ws)|)
  {
    RenderThen(pr, ws, rest);
    MatchAtOfKey(pr.key, ws + (Quoted(pr.value) + rest));
    ValueAfterOf(pr.key, ws, pr.value, rest);
  }

  /** `re.findall` over `u`: a match where one starts, the search resuming
      where it ended; otherwise one character further. */
  function Scan(u: string): (r: seq<Pair>)
    ensures forall i :: 0 <= i < |r| ==> Capturable(r[i])
  {
    if u == [] then []
    else
      var m := MatchAt(u);
      if m.Match? then MatchAtCapturable(u); [m.pair] + Scan(u[m.len..])
      else Scan(u[1..])
  }

  /** `re.findall(r'"([^"]+)":\s*"([^"]*)"', text)`: the pairs, left to right. */
  function FindPairs(text: string): (r: seq<Pair>)
    ensures forall i :: 0 <= i < |r| ==> Capturable(r[i])
  {
    Scan(text)
  }

  /** A stretch without quotes holds no match. */
  lemma {:induction false} ScanSkip(sep: string, tail: string)
    requires '"' !in sep
    ensures Scan(sep + tail) == Scan(tail)
  {
    var u := sep + tail;
    if sep == [] {
      assert u == tail;
    } else {
      assert u[0] == sep[0] && sep[0] in sep;
      assert MatchAt(u) == NoMatch;
      assert u[1..] == sep[1..] + tail;
      ScanSkip(sep[1..], tail);
    }
  }

  /** A text without quotes has no pairs. */
  lemma NoQuoteNoPairs(text: string)
    requires '"' !in text
    ensures FindPairs(text) == []
  {
    ScanSkip(text, []);
    assert text + [] == text;
  }

  /** Pairs rendered one after the other, each followed by a separator. */
  function RenderAll(ps: seq<Pair>, ws: string, sep: string): string
  {
    if ps == [] then [] else Render(ps[0], ws) + (sep + RenderAll(ps[1..], ws, sep))
  }

  /** The scan reads back exactly the pairs that were rendered, in order, when
      the separator has no quote: the pair pattern and the rendering are
      inverse to each other. */
  lemma {:induction false} FindPairsRenderAll(ps: seq<Pair>, ws: string, sep: string)
    requires forall i :: 0 <= i < |ps| ==> Capturable(ps[i])
    requires Whitespace(ws) && '"' !in sep
    ensures FindPairs(RenderAll(ps, ws, sep)) == ps
  {
    if ps != [] {
      var r := Render(ps[0], ws);
      var tail := RenderAll(ps[1..], ws, sep);
      MatchAtRendered(ps[0], ws, sep + tail);
      assert (r + (sep + tail))[|r|..] == sep + tail;
      ScanSkip(sep, tail);
      FindPairsRenderAll(ps[1..], ws, sep);
    }
  }

  /** `{k: v for k, v in pairs}`: later pairs overwrite earlier ones. */
  function PairsToDict(ps: seq<Pair>): (r: Dict)
    ensures forall k :: k in r <==> exists i :: 0 <= i < |ps| && ps[i].key == k
    ensures forall k :: k in r ==> r[k].JStr?
  {
    if ps == [] then map[]
    else
      var d := PairsToDict(ps[..|ps| - 1]);
      var last := ps[|ps| - 1];
      assert forall k :: k in d ==> exists i :: 0 <= i < |ps| && ps[i].key == k by {
        forall k | k in d ensures exists i :: 0 <= i < |ps| && ps[i].key == k {
          var i :| 0 <= i < |ps| - 1 && ps[..|ps| - 1][i].key == k;
          assert ps[i].key == k;
        }
      }
      d[last.key := JStr(last.value)]
  }

  /** The later value wins: a key gets the value of its last pair. */
  lemma {:induction false} PairsToDictLast(ps: seq<Pair>, i: nat)
    requires i < |ps| && forall j :: i < j < |ps| ==> ps[j].key != ps[i].key
    ensures PairsToDict(ps)[ps[i].key] == JStr(ps[i].value)
    decreases |ps|
  {
    if i < |ps| - 1 {
      var init := ps[..|ps| - 1];
      assert init[i] == ps[i];
      PairsToDictLast(init, i);
    }
  }

  // ---------------------------------------------------------------------
  // Tier 3 and extract_json

  /** The fixed dictionary returned when nothing could be extracted. */
  const Placeholder: Dict := map[
    "title" := JStr("Unknown Title"),
    "description" := JStr("No description generated."),
    "hashtags" := JStr("#cars"),
    "script" := JStr("No script generated."),
    "image_query" := JStr("car engine")
  ]

  /** Whether tier 1 succeeds: a block was found and it parses. */
  predicate BlockParses(text: string, parse: Parser)
  {
    GreedyBlock(text).Some? && parse(GreedyBlock(text).value).Some?
  }

  /** `extract_json`: the parsed block; else the dictionary of the scanned
      pairs, when there are some; else the placeholder. It is total: every
      text gives a dictionary. */
  function ExtractJson(text: string, parse: Parser): (r: Dict)
    ensures !BlockParses(text, parse) ==> (r == Placeholder || forall k :: k in r ==> r[k].JStr?)
    ensures !BlockParses(text, parse) && FindPairs(text) == [] ==> r == Placeholder
    ensures !BlockParses(text, parse) && FindPairs(text) != [] ==> forall k :: k in r ==> r[k].JStr?
    ensures !BlockParses(text, parse) && FindPairs(text) != [] ==>
      forall k :: k in r <==> exists i :: 0 <= i < |FindPairs(text)| && FindPairs(text)[i].key == k
  {
    if BlockParses(text, parse) then parse(GreedyBlock(text).value).value
    else
      var ps := FindPairs(text);
      if ps != [] then PairsToDict(ps) else Placeholder
  }

  /** Tier 1: a block that parses is returned unchanged. */
  lemma ExtractParsedBlock(text: string, parse: Parser)
    requires BlockParses(text, parse)
    ensures ExtractJson(text, parse) == parse(GreedyBlock(text).value).value
  {
  }

  /** Tier 2: without a parsable block, every key found by the scan is present
      with the value of its last occurrence, and no other key is. */
  lemma ExtractPairs(text: string, parse: Parser, i: nat)
    requires !BlockParses(text, parse)
    requires i < |FindPairs(text)|
    requires forall j :: i < j < |FindPairs(text)| ==> FindPairs(text)[j].key != FindPairs(text)[i].key
    ensures ExtractJson(text, parse)[FindPairs(text)[i].key] == JStr(FindPairs(text)[i].value)
  {
    PairsToDictLast(FindPairs(text), i);
  }

  /** Tier 3: with no block that parses and no pair found, the result is
      exactly the placeholder. */
  lemma ExtractPlaceholder(text: string, parse: Parser)
    requires !BlockParses(text, parse) && FindPairs(text) == []
    ensures ExtractJson(text, parse) == Placeholder
  {
  }

  /** In particular a text with no `{` and no quote gives the placeholder,
      whatever the parser does. */
  lemma ExtractPlaceholderPlain(text: string, parse: Parser)
    requires '{' !in text && '"' !in text
    ensures ExtractJson(text, parse) == Placeholder
  {
    NoBraceNoBlock(text);
    NoQuoteNoPairs(text);
    ExtractPlaceholder(text, parse);
  }

  /** A braced text that does not parse, and holds no quote, falls through
      both tiers to the placeholder: `{oops}`. */
  lemma ExtractPlaceholderUnparsed(parse: Parser)
    requires parse("{oops}").None?
    ensures GreedyBlock("{oops}") == Some("{oops}")
    ensures ExtractJson("{oops}", parse) == Placeholder
  {
    var t := "{oops}";
    assert FindAny(t, {'{'}) == 0;
    assert t[|t| - 1] == '}';
    assert RFind(t, '}') == 5;
    assert t[0..6] == t;
    NoQuoteNoPairs(t);
    ExtractPlaceholder(t, parse);
  }
  // ---------------------------------------------------------------------
  // Reading the fields, and the whole step

  /** `data.get(key, "").strip()`: an absent key reads as "", a string is
      stripped, and any other JSON value has no `strip`, which ends the
      program. */
  function ReadField(data: Dict, key: string): (r: Result<string>)
    ensures r.Err? <==> key in data && data[key].JOther?
    ensures r.Ok? ==> Trimmed(r.value)
    ensures r.Ok? && key !in data ==> r.value == []
    ensures r.Ok? && key in data ==> |r.value| <= |data[key].text|
  {
    if key !in data then Ok([])
    else match data[key]
      case JStr(t) => Ok(Strip(t))
      case JOther => Err("AttributeError: '" + key + "' has no strip")
  }

  /** A string value padded with whitespace reads back as its core. */
  lemma ReadFieldPadded(data: Dict, key: string, p: string, t: string, q: string)
    requires key in data && data[key] == JStr(p + t + q)
    requires AllSpace(p) && AllSpace(q) && Trimmed(t)
    ensures ReadField(data, key) == Ok(t)
  {
    StripUnique(p, t, q);
  }

  /** `t` sits in `s` at `i` with only whitespace around it. */
  ghost predicate Padded(s: string, i: nat, t: string)
  {
    i + |t| <= |s| && s[i..i + |t|] == t && AllSpace(s[..i]) && AllSpace(s[i + |t|..])
  }

  /** What a field read gives is the stored text with only whitespace removed
      around it. */
  lemma ReadFieldCore(data: Dict, key: string)
    requires key in data && data[key].JStr?
    ensures exists i :: Padded(data[key].text, i, ReadField(data, key).value)
  {
    var i, t := StripDecompose(data[key].text);
    assert Padded(data[key].text, i, ReadField(data, key).value);
  }

  /** The five fields `main` writes. */
  datatype Content = Content(title: string, description: string, hashtags: string, script: string,
                             imageQuery: string)

  /** A key `main` can read: absent, or holding a string. */
  predicate Readable(data: Dict, key: string)
  {
    key !in data || data[key].JStr?
  }

  /** The five reads of `main`, in order; the first that fails ends it. */
  function ReadContent(data: Dict): (r: Result<Content>)
    ensures r.Ok? <==> Readable(data, "title") && Readable(data, "description") && Readable(data, "hashtags")
                       && Readable(data, "script") && Readable(data, "image_query")
    ensures r.Ok? ==> Trimmed(r.value.title) && Trimmed(r.value.description) && Trimmed(r.value.hashtags)
                      && Trimmed(r.value.script) && Trimmed(r.value.imageQuery)
  {
    var title := ReadField(data, "title");
    var description := ReadField(data, "description");
    var hashtags := ReadField(data, "hashtags");
    var script := ReadField(data, "script");
    var imageQuery := ReadField(data, "image_query");
    if title.Err? then Err(title.message)
    else if description.Err? then Err(description.message)
    else if hashtags.Err? then Err(hashtags.message)
    else if script.Err? then Err(script.message)
    else if imageQuery.Err? then Err(imageQuery.message)
    else Ok(Content(title.value, description.value, hashtags.value, script.value, imageQuery.value))
  }

  /** The reply of the Ollama call: no connection, or an HTTP status and a
      body, `None` when the body is not a JSON object. */
  datatype OllamaReply = Unreachable | Http(status: int, body: Option<Dict>)

  /** `call_ollama`: the "response" field of a 200 reply, "" when it is
      absent. A failed connection or another status exits with 1; a body that
      is not JSON raises. A non-string response makes `extract_json`'s regex
      search raise, which `main` re-raises. */
  function RawResponse(reply: OllamaReply): (r: Result<string>)
    ensures r.Ok? <==> reply.Http? && reply.status == 200 && reply.body.Some?
                       && Readable(reply.body.value, "response")
    ensures r.Ok? && "response" !in reply.body.value ==> r.value == []
  {
    match reply
    case Unreachable => Err("Could not connect to Ollama.")
    case Http(status, body) =>
      if status != 200 then Err("Ollama returned HTTP " + NatToStringInt(status))
      else if body.None? then Err("response body is not JSON")
      else if "response" !in body.value then Ok([])
      else match body.value["response"]
        case JStr(t) => Ok(t)
        case JOther => Err("TypeError: expected string")
  }

  /** A status code for a message; a negative code is shown as its magnitude. */
  function NatToStringInt(n: int): (r: string)
    ensures r != []
  {
    if n < 0 then "-" + NatToString(-n) else NatToString(n)
  }

  /** The generator step: call, extract, read the five fields. */
  function Generate(reply: OllamaReply, parse: Parser): (r: Result<Content>)
    ensures r.Ok? ==> reply.Http? && reply.status == 200
    ensures RawResponse(reply).Err? ==> r.Err?
  {
    match RawResponse(reply)
    case Err(e) => Err(e)
    case Ok(raw) => ReadContent(ExtractJson(raw, parse))
  }

  /** The placeholder's five values, as `main` reads them. */
  const PlaceholderContent: Content :=
    Content("Unknown Title", "No description generated.", "#cars", "No script generated.", "car engine")

  /** A text without surrounding whitespace strips to itself. */
  lemma StripTrimmed(t: string)
    requires Trimmed(t)
    ensures Strip(t) == t
  {
    assert [] + t + [] == t;
    StripUnique([], t, []);
  }

  /** The five reads, when each key holds its field's text unpadded. */
  lemma ReadContentOf(data: Dict, c: Content)
    requires "title" in data && data["title"] == JStr(c.title) && Trimmed(c.title)
    requires "description" in data && data["description"] == JStr(c.description) && Trimmed(c.description)
    requires "hashtags" in data && data["hashtags"] == JStr(c.hashtags) && Trimmed(c.hashtags)
    requires "script" in data && data["script"] == JStr(c.script) && Trimmed(c.script)
    requires "image_query" in data && data["image_query"] == JStr(c.imageQuery) && Trimmed(c.imageQuery)
    ensures ReadContent(data) == Ok(c)
  {
    StripTrimmed(c.title);
    StripTrimmed(c.description);
    StripTrimmed(c.hashtags);
    StripTrimmed(c.script);
    StripTrimmed(c.imageQuery);
  }

  /** The placeholder reads as the placeholder content. */
  lemma ReadPlaceholder()
    ensures ReadContent(Placeholder) == Ok(PlaceholderContent)
  {
    ReadContentOf(Placeholder, PlaceholderContent);
  }

  /** A reply whose text has no block that parses and no pair gives the
      placeholder content. */
  lemma GeneratePlaceholder(reply: OllamaReply, parse: Parser)
    requires RawResponse(reply).Ok?
    requires var raw := RawResponse(reply).value; !BlockParses(raw, parse) && FindPairs(raw) == []
    ensures Generate(reply, parse) == Ok(PlaceholderContent)
  {
    ExtractPlaceholder(RawResponse(reply).value, parse);
    ReadPlaceholder();
  }

  /** In particular a reply with neither a brace nor a quote in its text
      gives the placeholder content, whatever the JSON parser does. */
  lemma GeneratePlaceholderPlain(reply: OllamaReply, parse: Parser)
    requires RawResponse(reply).Ok?
    requires var raw := RawResponse(reply).value; '{' !in raw && '"' !in raw
    ensures Generate(reply, parse) == Ok(PlaceholderContent)
  {
    var raw := RawResponse(reply).value;
    NoBraceNoBlock(raw);
    NoQuoteNoPairs(raw);
    GeneratePlaceholder(reply, parse);
  }

  /** The five fields as pairs, in the order the prompt asks for. */
  function ContentPairs(c: Content): (r: seq<Pair>)
    ensures |r| == 5
  {
    [Pair("title", c.title), Pair("description", c.description), Pair("hashtags", c.hashtags),
     Pair("script", c.script), Pair("image_query", c.imageQuery)]
  }

  /** A field value the pair scan can read back: no quote, no brace, and no
      surrounding whitespace. */
  predicate PlainValue(v: string)
  {
    '"' !in v && '{' !in v && Trimmed(v)
  }

  /** A rendering without braces in its parts has no brace. */
  lemma {:induction false} RenderAllNoBrace(ps: seq<Pair>, ws: string, sep: string)
    requires forall i :: 0 <= i < |ps| ==> '{' !in ps[i].key && '{' !in ps[i].value
    requires '{' !in ws && '{' !in sep
    ensures '{' !in RenderAll(ps, ws, sep)
  {
    if ps != [] {
      RenderAllNoBrace(ps[1..], ws, sep);
    }
  }

  /** Whitespace holds no brace. */
  lemma {:induction false} WhitespaceNoBrace(ws: string)
    requires Whitespace(ws)
    ensures '{' !in ws
  {
    if ws != [] {
      WhitespaceNoBrace(ws[1..]);
      assert ws == [ws[0]] + ws[1..];
    }
  }

  /** The five fields rendered as `"key": "value"` pairs, when the model's
      output is not valid JSON, come back exactly: tier 2 and the field reads
      recover what the prompt asked for. */
  lemma GeneratePairsRoundTrip(c: Content, ws: string, sep: string, parse: Parser)
    requires PlainValue(c.title) && PlainValue(c.description) && PlainValue(c.hashtags)
    requires PlainValue(c.script) && PlainValue(c.imageQuery)
    requires Whitespace(ws) && '"' !in sep && '{' !in sep
    ensures Generate(Http(200, Some(map["response" := JStr(RenderAll(ContentPairs(c), ws, sep))])), parse)
            == Ok(c)
  {
    var ps := ContentPairs(c);
    var text := RenderAll(ps, ws, sep);
    ContentPairsPlain(c);
    WhitespaceNoBrace(ws);
    RenderAllNoBrace(ps, ws, sep);
    FindPairsRenderAll(ps, ws, sep);
    NoBraceNoBlock(text);
    ContentPairsDict(c);
    ReadContentOf(PairsToDict(ps), c);
    GenerateOfText(text, parse);
  }

  /** A 200 reply whose response is a string runs the extraction on it. */
  lemma GenerateOfText(text: string, parse: Parser)
    ensures Generate(Http(200, Some(map["response" := JStr(text)])), parse) == ReadContent(ExtractJson(text, parse))
  {
  }

  /** A text without a brace has no block. */
  lemma NoBraceNoBlock(text: string)
    requires '{' !in text
    ensures GreedyBlock(text).None?
  {
  }

  /** The five pairs are capturable and hold no brace. */
  lemma ContentPairsPlain(c: Content)
    requires PlainValue(c.title) && PlainValue(c.description) && PlainValue(c.hashtags)
    requires PlainValue(c.script) && PlainValue(c.imageQuery)
    ensures forall i :: 0 <= i < |ContentPairs(c)| ==> Capturable(ContentPairs(c)[i])
    ensures forall i :: 0 <= i < |ContentPairs(c)| ==> '{' !in ContentPairs(c)[i].key && '{' !in ContentPairs(c)[i].value
  {
    var ps := ContentPairs(c);
    forall i | 0 <= i < |ps|
      ensures Capturable(ps[i]) && '{' !in ps[i].key && '{' !in ps[i].value
    {
      KeyPlain(ps[i].key);
    }
  }

  /** The field names hold no quote and no brace. */
  lemma KeyPlain(k: string)
    requires k in {"title", "description", "hashtags", "script", "image_query"}
    ensures k != [] && '"' !in k && '{' !in k
  {
  }


  /** The dictionary of the five pairs maps each key to its field. */
  lemma ContentPairsDict(c: Content)
    ensures var d := PairsToDict(ContentPairs(c));
      "title" in d && d["title"] == JStr(c.title)
      && "description" in d && d["description"] == JStr(c.description)
      && "hashtags" in d && d["hashtags"] == JStr(c.hashtags)
      && "script" in d && d["script"] == JStr(c.script)
      && "image_query" in d && d["image_query"] == JStr(c.imageQuery)
  {
    FieldKeysDistinct();
    FivePairs("title", "description", "hashtags", "script", "image_query",
              c.title, c.description, c.hashtags, c.script, c.imageQuery);
  }

  /** Five pairs with distinct keys give a dictionary holding each value. */
  lemma FivePairs(k0: string, k1: string, k2: string, k3: string, k4: string,
                  v0: string, v1: string, v2: string, v3: string, v4: string)
    requires k0 != k1 && k0 != k2 && k0 != k3 && k0 != k4
    requires k1 != k2 && k1 != k3 && k1 != k4 && k2 != k3 && k2 != k4 && k3 != k4
    ensures var d := PairsToDict([Pair(k0, v0), Pair(k1, v1), Pair(k2, v2), Pair(k3, v3), Pair(k4, v4)]);
      k0 in d && d[k0] == JStr(v0) && k1 in d && d[k1] == JStr(v1) && k2 in d && d[k2] == JStr(v2)
      && k3 in d && d[k3] == JStr(v3) && k4 in d && d[k4] == JStr(v4)
  {
    var ps := [Pair(k0, v0), Pair(k1, v1), Pair(k2, v2), Pair(k3, v3), Pair(k4, v4)];
    PairAt(ps, 0, k0, v0);
    PairAt(ps, 1, k1, v1);
    PairAt(ps, 2, k2, v2);
    PairAt(ps, 3, k3, v3);
    PairAt(ps, 4, k4, v4);
  }

  /** A key that does not come back later is read with its value. */
  lemma PairAt(ps: seq<Pair>, i: nat, k: string, v: string)
    requires i < |ps| && ps[i] == Pair(k, v) && forall j :: i < j < |ps| ==> ps[j].key != k
    ensures k in PairsToDict(ps) && PairsToDict(ps)[k] == JStr(v)
  {
    PairsToDictLast(ps, i);
  }

  /** The five keys differ from each other. */
  lemma FieldKeysDistinct()
    ensures "title" != "description" && "title" != "hashtags" && "title" != "script" && "title" != "image_query"
    ensures "description" != "hashtags" && "description" != "script" && "description" != "image_query"
    ensures "hashtags" != "script" && "hashtags" != "image_query" && "script" != "image_query"
  {
    assert "description"[0] != "image_query"[0];
  }

}
