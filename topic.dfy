/** The Topic/Query Resolver of the image downloader: the ordered keyword rules
    that pick a search topic from the title and script, the choice between the
    model's own image query and that topic, and the expansion of the base phrase
    into seven shuffled query variants. */
module TopicResolver {
  import opened Options
  import opened Text

  /** One classification rule: a topic label and the keywords that select it. */
  datatype Rule = Rule(topic: string, keywords: seq<string>)

  /** The rules in the order they are tried; earlier rules win. */
  const Topics: seq<Rule> := [
    Rule("f1", ["formula 1", "f1", "grand prix", "verstappen", "hamilton"]),
    Rule("drift car", ["drift", "drifting", "tokyo", "initial d"]),
    Rule("jdm car", ["jdm", "supra", "rx7", "skyline", "gtr", "silvia"]),
    Rule("muscle car", ["muscle", "mustang", "camaro", "charger", "challenger"]),
    Rule("classic car", ["classic", "vintage", "retro", "1960", "1970"]),
    Rule("supercar", ["supercar", "hypercar", "ferrari", "lamborghini", "mclaren", "bugatti", "porsche"]),
    Rule("luxury car interior", ["interior", "leather seats", "dashboard", "infotainment"]),
    Rule("engine closeup", ["engine", "v8", "v10", "v12", "horsepower", "turbo", "twin-turbo"]),
    Rule("electric car", ["electric", "ev", "tesla", "battery", "motor"]),
    Rule("offroad suv", ["offroad", "4x4", "suv", "jeep", "dirt", "mud"]),
    Rule("race track car", ["track", "lap time", "racing", "race car"])
  ]

  /** `any(k in text for k in keywords)` */
  predicate Matches(rule: Rule, text: string)
  {
    exists t :: 0 <= t < |rule.keywords| && Contains(text, rule.keywords[t])
  }

  /** The index of the first rule that matches, if any. */
  function FirstMatch(rules: seq<Rule>, text: string): (r: Option<nat>)
    ensures r.Some? ==> r.value < |rules| && Matches(rules[r.value], text)
    ensures r.Some? ==> forall j :: 0 <= j < r.value ==> !Matches(rules[j], text)
    ensures r.None? <==> forall j :: 0 <= j < |rules| ==> !Matches(rules[j], text)
  {
    if rules == [] then None
    else if Matches(rules[0], text) then Some(0)
    else match FirstMatch(rules[1..], text)
      case None => None
      case Some(i) => Some(i + 1)
  }

  /** The text the rules look at: `f"{title} {script}"`. */
  function TopicText(title: string, script: string): string
  {
    title + " " + script
  }

  /** `detect_car_topic`: the label of the first matching rule, else "cool car"
      when "car" or "cars" occurs, else "supercar". */
  function DetectCarTopic(title: string, script: string): (r: string)
    ensures r != []
  {
    var text := TopicText(title, script);
    match FirstMatch(Topics, text)
    case Some(j) => Topics[j].topic
    case None =>
      if Contains(text, "car") || Contains(text, "cars") then "cool car" else "supercar"
  }

  /** First match wins: when rule `j` matches and no earlier rule does, the topic
      is rule `j`'s label, whatever later rules would say. */
  lemma DetectFirstRuleWins(title: string, script: string, j: nat)
    requires j < |Topics| && Matches(Topics[j], TopicText(title, script))
    requires forall i :: 0 <= i < j ==> !Matches(Topics[i], TopicText(title, script))
    ensures DetectCarTopic(title, script) == Topics[j].topic
  {
  }

  /** Any text that mentions "verstappen" is an F1 topic, even when later rules
      ("hamilton" aside, say "tokyo" or "engine") also match. */
  lemma DetectVerstappen(title: string, script: string)
    requires Contains(TopicText(title, script), "verstappen")
    ensures DetectCarTopic(title, script) == "f1"
  {
    assert Topics[0].keywords[3] == "verstappen";
    assert Matches(Topics[0], TopicText(title, script));
    DetectFirstRuleWins(title, script, 0);
  }

  /** When no rule matches, the result depends on "car" alone: the test for
      "cars" adds nothing, since every text containing "cars" contains "car". */
  lemma DetectFallback(title: string, script: string)
    requires forall j :: 0 <= j < |Topics| ==> !Matches(Topics[j], TopicText(title, script))
    ensures DetectCarTopic(title, script) == if Contains(TopicText(title, script), "car") then "cool car" else "supercar"
  {
    var text := TopicText(title, script);
    if Contains(text, "cars") {
      assert "cars"[..3] == "car";
      assert Contains("cars", "car");
      ContainsTransitive(text, "cars", "car");
    }
  }

  /** Every keyword is at least two characters long. */
  lemma KeywordsAreLong()
    ensures forall j, t :: 0 <= j < |Topics| && 0 <= t < |Topics[j].keywords| ==> |Topics[j].keywords[t]| >= 2
  {
  }

  /** Empty title and script resolve to "supercar". */
  lemma DetectEmpty()
    ensures DetectCarTopic("", "") == "supercar"
  {
    var text := TopicText("", "");
    assert text == " ";
    KeywordsAreLong();
    forall j | 0 <= j < |Topics|
      ensures !Matches(Topics[j], text)
    {
      forall t | 0 <= t < |Topics[j].keywords|
        ensures !Contains(text, Topics[j].keywords[t])
      {
        assert |Topics[j].keywords[t]| > |text|;
      }
    }
    DetectFallback("", "");
  }

  /** The base phrase of `main`: the model's image query when non-empty, else the
      detected topic. It is never empty. */
  function ResolveBase(title: string, script: string, imageQuery: string): (r: string)
    ensures r != []
    ensures imageQuery != [] ==> r == imageQuery
    ensures imageQuery == [] ==> r == DetectCarTopic(title, script)
  {
    if imageQuery != [] then imageQuery else DetectCarTopic(title, script)
  }

  /** The qualifiers appended to the base phrase, in their listed order. */
  const Extras: seq<string> := ["", "4k", "high quality", "cinematic", "vertical", "night shot", "motion blur"]

  /** One variant: `f"{base} {e}".strip()`. */
  function Variant(base: string, extra: string): string
  {
    Strip(base + " " + extra)
  }

  /** The variants for each extra, in the order of the extras. */
  function Variants(base: string, extras: seq<string>): (r: seq<string>)
    ensures |r| == |extras|
    ensures forall i :: 0 <= i < |extras| ==> r[i] == Variant(base, extras[i])
  {
    seq(|extras|, i requires 0 <= i < |extras| => Variant(base, extras[i]))
  }

  /** The seven variants before shuffling, the base stripped first. */
  function QueryVariants(baseKeywords: string): (r: seq<string>)
    ensures |r| == 7
  {
    Variants(Strip(baseKeywords), Extras)
  }

  /** With a stripped base and a stripped qualifier, the variant is the base
      alone for the empty qualifier, the bare qualifier for a blank base, and
      otherwise the base, one space and the qualifier. */
  lemma VariantShape(base: string, extra: string)
    requires Trimmed(base) && Trimmed(extra)
    ensures Variant(base, extra) ==
      if extra == [] then base
      else if base == [] then extra
      else base + " " + extra
  {
    if extra == [] {
      assert base + " " + extra == [] + base + " ";
      StripUnique([], base, " ");
    } else if base == [] {
      assert base + " " + extra == " " + extra + [];
      StripUnique(" ", extra, []);
    } else {
      var t := base + " " + extra;
      assert t[0] == base[0] && t[|t| - 1] == extra[|extra| - 1];
      assert [] + t + [] == t;
      StripUnique([], t, []);
    }
  }

  /** Swaps two positions of a sequence. */
  function Swap<T>(s: seq<T>, i: nat, j: nat): (r: seq<T>)
    requires i < |s| && j < |s|
    ensures |r| == |s| && multiset(r) == multiset(s)
  {
    s[i := s[j]][j := s[i]]
  }

  /** The steps `i, i-1, ..., 1` of `random.shuffle` (Fisher-Yates), where step `k`
      swaps position `i` with `draw(k) % (i + 1)`; `draw` stands for the random source. */
  function ShuffleFrom<T>(s: seq<T>, i: nat, k: nat, draw: nat -> nat): (r: seq<T>)
    requires i < |s|
    ensures |r| == |s| && multiset(r) == multiset(s)
    decreases i
  {
    if i == 0 then s
    else ShuffleFrom(Swap(s, i, draw(k) % (i + 1)), i - 1, k + 1, draw)
  }

  /** `random.shuffle`: some permutation of its argument, chosen by the draws. */
  function Shuffle<T>(s: seq<T>, draw: nat -> nat): (r: seq<T>)
    ensures |r| == |s| && multiset(r) == multiset(s)
  {
    if s == [] then s else ShuffleFrom(s, |s| - 1, 0, draw)
  }

  /** `build_queries`: exactly seven queries, which as a multiset are the seven
      variants whatever the shuffle did; only their order depends on the draws. */
  function BuildQueries(baseKeywords: string, draw: nat -> nat): (r: seq<string>)
    ensures |r| == 7
    ensures multiset(r) == multiset(QueryVariants(baseKeywords))
  {
    Shuffle(QueryVariants(baseKeywords), draw)
  }

  /** The qualifiers carry no surrounding whitespace. */
  lemma ExtrasTrimmed()
    ensures forall i :: 0 <= i < |Extras| ==> Trimmed(Extras[i])
  {
  }

  /** A non-empty qualifier is joined to a non-empty base by one space. */
  lemma QualifiedVariant(b: string, i: nat)
    requires Trimmed(b) && b != [] && 0 < i < 7
    ensures Variant(b, Extras[i]) == b + " " + Extras[i]
  {
    ExtrasTrimmed();
    assert Extras[i] != [];
    VariantShape(b, Extras[i]);
  }

  /** Variant `i` of a phrase that is not blank is the stripped phrase itself for
      `i == 0`, and the stripped phrase, a space and qualifier `i` otherwise. */
  lemma QueryVariantAt(baseKeywords: string, i: nat)
    requires Strip(baseKeywords) != [] && i < 7
    ensures QueryVariants(baseKeywords)[i] ==
      if i == 0 then Strip(baseKeywords) else Strip(baseKeywords) + " " + Extras[i]
  {
    var b := Strip(baseKeywords);
    if i == 0 {
      assert Extras[0] == [];
      VariantShape(b, []);
    } else {
      QualifiedVariant(b, i);
    }
  }

  /** A sequence of seven elements has the multiset of its seven elements. */
  lemma MultisetOfSeven<T>(v: seq<T>)
    requires |v| == 7
    ensures multiset(v) == multiset{v[0], v[1], v[2], v[3], v[4], v[5], v[6]}
  {
    assert v == [v[0], v[1], v[2], v[3], v[4], v[5], v[6]];
  }

  lemma JdmCarSpellings()
    ensures "jdm car" + " " + Extras[1] == "jdm car 4k"
    ensures "jdm car" + " " + Extras[2] == "jdm car high quality"
    ensures "jdm car" + " " + Extras[3] == "jdm car cinematic"
    ensures "jdm car" + " " + Extras[4] == "jdm car vertical"
    ensures "jdm car" + " " + Extras[5] == "jdm car night shot"
    ensures "jdm car" + " " + Extras[6] == "jdm car motion blur"
  {
  }

  /** Expanding a phrase that strips to "jdm car" gives the bare phrase and its
      six qualified forms, in some order. */
  lemma BuildQueriesJdmCar(baseKeywords: string, draw: nat -> nat)
    requires Strip(baseKeywords) == "jdm car"
    ensures multiset(BuildQueries(baseKeywords, draw)) == multiset{
      "jdm car", "jdm car 4k", "jdm car high quality", "jdm car cinematic",
      "jdm car vertical", "jdm car night shot", "jdm car motion blur"}
  {
    var v := QueryVariants(baseKeywords);
    JdmCarSpellings();
    QueryVariantAt(baseKeywords, 0);
    QueryVariantAt(baseKeywords, 1);
    QueryVariantAt(baseKeywords, 2);
    QueryVariantAt(baseKeywords, 3);
    QueryVariantAt(baseKeywords, 4);
    QueryVariantAt(baseKeywords, 5);
    QueryVariantAt(baseKeywords, 6);
    MultisetOfSeven(v);
  }
}
