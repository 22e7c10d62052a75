/** main_twitter_llm.py: aggregate tweet texts from Nitter and RSSHub, build
    one prompt from them, ask the sentiment analyzer, and map its score to a
    BUY / SELL / HOLD recommendation. The analyzer is a parameter. */
module TwitterLlm {
  import opened Common
  import opened Text
  import opened Feed
  import RssHub
  import opened ResourceFetcher

  // ---------------------------------------------------------------------------
  // aggregate_twitter_content

  const DefaultMaxItems: int := 20

  /** The filter of the final comprehension: `t and t.strip()`. */
  predicate Kept(t: string) {
    |t| > 0 && Trim(t) != []
  }

  lemma KeptIffNotBlank(t: string)
    ensures Kept(t) <==> !IsBlank(t)
  {
  }

  /** `s` is the trim of a non-blank member of `texts`. */
  predicate TrimOfSome(s: string, texts: seq<string>) {
    exists t :: t in texts && !IsBlank(t) && Trim(t) == s
  }

  /** The final comprehension `[t.strip() for t in texts if t and t.strip()]`:
      trimmed, non-empty strings, at most one per input. */
  function Clean(texts: seq<string>): (r: seq<string>)
    ensures |r| <= |texts|
    ensures forall k :: 0 <= k < |r| ==> r[k] != [] && IsTrimmed(r[k])
  {
    if |texts| == 0 then []
    else
      var rest := Clean(texts[1..]);
      if Kept(texts[0]) then [Trim(texts[0])] + rest else rest
  }

  /** Cleaning distributes over concatenation, so each group keeps its place. */
  lemma {:induction false} CleanConcat(a: seq<string>, b: seq<string>)
    ensures Clean(a + b) == Clean(a) + Clean(b)
    decreases |a|
  {
    if |a| == 0 {
      assert a + b == b;
    } else {
      assert (a + b)[0] == a[0];
      assert (a + b)[1..] == a[1..] + b;
      CleanConcat(a[1..], b);
    }
  }

  /** A string is in the cleaned list exactly when it is the trim of a
      non-blank input. */
  lemma {:induction false} CleanMembership(texts: seq<string>, s: string)
    ensures s in Clean(texts) <==> TrimOfSome(s, texts)
    decreases |texts|
  {
    if |texts| > 0 {
      CleanMembership(texts[1..], s);
      if TrimOfSome(s, texts) {
        var t :| t in texts && !IsBlank(t) && Trim(t) == s;
        if t != texts[0] {
          assert t in texts[1..];
        }
      }
    }
  }

  /** No deduplication: already-clean texts pass through unchanged, repeated
      ones included. */
  lemma {:induction false} CleanKeepsCleanTexts(texts: seq<string>)
    requires forall k :: 0 <= k < |texts| ==> texts[k] != [] && IsTrimmed(texts[k])
    ensures Clean(texts) == texts
    decreases |texts|
  {
    if |texts| > 0 {
      TrimOfTrimmed(texts[0]);
      assert Kept(texts[0]);
      var tail := texts[1..];
      assert forall k :: 0 <= k < |tail| ==> tail[k] == texts[k + 1];
      CleanKeepsCleanTexts(tail);
      assert Clean(texts) == [texts[0]] + Clean(tail);
      assert [texts[0]] + tail == texts;
    }
  }

  /** `[item['text'] for item in tweets]`. */
  function NitterTexts(items: seq<Item>): seq<string> {
    seq(|items|, i requires 0 <= i < |items| => items[i].text)
  }

  /** `[f"{t['title']} {t['summary']}" for t in rsshub_tweets]`. */
  function RssHubTexts(tweets: seq<RssHub.Tweet>): seq<string> {
    seq(|tweets|, i requires 0 <= i < |tweets| => tweets[i].title + " " + tweets[i].summary)
  }

  /** The RSSHub source is used only when its URL is truthy. */
  predicate RssHubEnabled(rsshubUrl: Option<string>) {
    rsshubUrl.Some? && rsshubUrl.value != ""
  }

  /** `aggregate_twitter_content`: the cleaned Nitter texts, followed (when the
      RSSHub URL is set) by the cleaned `title summary` texts of the RSSHub
      tweets; an exception in the RSSHub fetch propagates. */
  function AggregateTwitterContent(instance: string, usernames: seq<string>, rsshubUrl: Option<string>,
                                   maxItems: Option<int>, parse: Parser): (r: Result<seq<string>>)
    ensures !RssHubEnabled(rsshubUrl) ==>
      r == Ok(Clean(NitterTexts(FetchNitterRss(instance, usernames, parse))))
    ensures RssHubEnabled(rsshubUrl) ==>
      var fetched := FetchRsshubTwitter(rsshubUrl.value, maxItems, parse);
      && (r.Err? <==> fetched.Err?)
      && (fetched.Err? ==> r == Err(fetched.error))
      && (r.Ok? ==> r.value == Clean(NitterTexts(FetchNitterRss(instance, usernames, parse))) + Clean(RssHubTexts(fetched.value)))
    ensures r.Ok? ==> forall k :: 0 <= k < |r.value| ==> r.value[k] != [] && IsTrimmed(r.value[k])
  {
    var nitter := NitterTexts(FetchNitterRss(instance, usernames, parse));
    if RssHubEnabled(rsshubUrl) then
      match FetchRsshubTwitter(rsshubUrl.value, maxItems, parse)
      case Err(e) => Err(e)
      case Ok(tweets) =>
        var texts := nitter + RssHubTexts(tweets);
        CleanConcat(nitter, RssHubTexts(tweets));
        Ok(Clean(texts))
    else Ok(Clean(nitter))
  }

  /** At most one text per fetched item: the output is no longer than the
      Nitter items plus the RSSHub tweets. */
  lemma AggregateBound(instance: string, usernames: seq<string>, rsshubUrl: Option<string>, maxItems: Option<int>, parse: Parser)
    ensures var r := AggregateTwitterContent(instance, usernames, rsshubUrl, maxItems, parse);
      r.Ok? ==> (|r.value| <= |FetchNitterRss(instance, usernames, parse)|
                 + (if RssHubEnabled(rsshubUrl) then |FetchRsshubTwitter(rsshubUrl.value, maxItems, parse).value| else 0))
  {
  }

  // ---------------------------------------------------------------------------
  // generate_signal_from_llm

  datatype Signal = Buy | Sell | Hold

  /** A JSON value of the analysis, as far as `{x:.2f}` and `>` care: a number,
      a boolean (Python formats and compares it as 1 or 0), or anything else
      (string, null, array, object), which the format rejects. */
  datatype JsonValue = Number(x: real) | Boolean(b: bool) | NonNumeric

  /** The analyzer's JSON object. */
  type Analysis = map<string, JsonValue>

  /** `llm_analyzer.analyze_text`: prompt to the parsed reply, `None` on any error. */
  type Analyzer = string -> Option<Analysis>

  /** The recommendation, together with the prompt sent to the analyzer
      (`None` when the analyzer was not called). */
  datatype Decision = Decision(signal: Signal, prompt: Option<string>)

  const BuyThreshold: real := 0.2
  const SellThreshold: real := -0.2

  function PromptPrefix(symbol: string): string {
    "请根据以下所有推特内容，判断对" + symbol + "的操作建议（买入/卖出/观望），并简要说明理由：\n"
  }

  /** The prompt: the instruction line naming the symbol, then the texts one
      per line. Its lines after the instruction are the lines of the texts in
      order; when no text holds a newline they are the texts themselves. */
  function Prompt(symbol: string, texts: seq<string>): (r: string)
    ensures PromptPrefix(symbol) <= r
    ensures |texts| == 0 ==> r == PromptPrefix(symbol)
    ensures |texts| > 0 ==> PromptPrefix(symbol) + texts[0] <= r
    ensures |texts| > 0 ==>
      Split(r[|PromptPrefix(symbol)|..], '\n') == SplitEach(texts, '\n')
    ensures |texts| > 0 && (forall k :: 0 <= k < |texts| ==> '\n' !in texts[k]) ==>
      Split(r[|PromptPrefix(symbol)|..], '\n') == texts
  {
    var body := Join("\n", texts);
    var r := PromptPrefix(symbol) + body;
    assert r[|PromptPrefix(symbol)|..] == body;
    JoinLinesSplit(texts);
    r
  }

  /** Newline-joined texts split into the lines of the texts, and into the
      texts themselves when none holds a newline. */
  lemma JoinLinesSplit(texts: seq<string>)
    ensures |texts| > 0 ==> Split(Join("\n", texts), '\n') == SplitEach(texts, '\n')
    ensures |texts| > 0 && (forall k :: 0 <= k < |texts| ==> '\n' !in texts[k]) ==>
      Split(Join("\n", texts), '\n') == texts
  {
    if |texts| > 0 {
      SplitJoinEach(texts, '\n');
      if forall k :: 0 <= k < |texts| ==> '\n' !in texts[k] {
        SplitJoin(texts, '\n');
      }
    }
  }

  /** Prompt's contract leaves no freedom: any string that starts with the
      instruction line and whose remaining lines are the texts' lines is the
      prompt. */
  lemma PromptDeterminedByLines(symbol: string, texts: seq<string>, p: string)
    requires PromptPrefix(symbol) <= p
    requires |texts| > 0
    requires Split(p[|PromptPrefix(symbol)|..], '\n') == SplitEach(texts, '\n')
    ensures p == Prompt(symbol, texts)
  {
    var n := |PromptPrefix(symbol)|;
    var q := Prompt(symbol, texts);
    SplitInjective(p[n..], q[n..], '\n');
    assert p == p[..n] + p[n..];
    assert q == q[..n] + q[n..];
  }

  /** The threshold rule: strictly above 0.2 is BUY, strictly below -0.2 is
      SELL, the closed band between them is HOLD. */
  function ScoreSignal(score: real): (r: Signal)
    ensures r == Buy <==> score > BuyThreshold
    ensures r == Sell <==> score < SellThreshold
    ensures r == Hold <==> SellThreshold <= score <= BuyThreshold
  {
    if score > BuyThreshold then Buy
    else if score < SellThreshold then Sell
    else Hold
  }

  /** Signals ordered from bearish to bullish. */
  function Rank(s: Signal): int {
    match s
    case Sell => -1
    case Hold => 0
    case Buy => 1
  }

  /** A higher score never gives a more bearish signal. */
  lemma ScoreSignalMonotone(a: real, b: real)
    requires a <= b
    ensures Rank(ScoreSignal(a)) <= Rank(ScoreSignal(b))
  {
  }

  /** Exactly at either threshold the signal is HOLD; just past them it is not. */
  lemma ScoreSignalBoundaries()
    ensures ScoreSignal(0.2) == Hold && ScoreSignal(-0.2) == Hold
    ensures ScoreSignal(0.2001) == Buy && ScoreSignal(-0.2001) == Sell
  {
  }

  /** The reply carries a `sentiment_score` (an empty or absent reply does not). */
  predicate HasScore(analysis: Option<Analysis>) {
    analysis.Some? && "sentiment_score" in analysis.value
  }

  predicate IsNumeric(v: JsonValue) {
    !v.NonNumeric?
  }

  /** The score line prints: the score, and the confidence when present, are
      numeric (a missing confidence prints as 0). */
  predicate Printable(analysis: Analysis)
    requires "sentiment_score" in analysis
  {
    IsNumeric(analysis["sentiment_score"]) && ("confidence" in analysis ==> IsNumeric(analysis["confidence"]))
  }

  function AsReal(v: JsonValue): real
    requires IsNumeric(v)
  {
    match v
    case Number(x) => x
    case Boolean(b) => if b then 1.0 else 0.0
  }

  /** `generate_signal_from_llm`: HOLD without calling the analyzer when there
      are no texts; HOLD when the reply is absent or has no score; otherwise
      the threshold rule on the score, unless printing the score or the
      confidence raises. */
  function GenerateSignalFromLlm(analyze: Analyzer, texts: seq<string>, symbol: string): (r: Result<Decision>)
    ensures texts == [] ==> r == Ok(Decision(Hold, None))
    ensures texts != [] ==> r.Ok? ==> r.value.prompt == Some(Prompt(symbol, texts))
    ensures texts != [] && !HasScore(analyze(Prompt(symbol, texts))) ==>
      r == Ok(Decision(Hold, Some(Prompt(symbol, texts))))
    ensures texts != [] && HasScore(analyze(Prompt(symbol, texts))) ==>
      var a := analyze(Prompt(symbol, texts)).value;
      && (r.Err? <==> !Printable(a))
      && (r.Ok? ==> r.value.signal == ScoreSignal(AsReal(a["sentiment_score"])))
    ensures r.Err? ==> r.error == UnformattableValue
  {
    if texts == [] then Ok(Decision(Hold, None))
    else
      var prompt := Prompt(symbol, texts);
      var analysis := analyze(prompt);
      if analysis.None? || "sentiment_score" !in analysis.value then Ok(Decision(Hold, Some(prompt)))
      else
        var a := analysis.value;
        var score := a["sentiment_score"];
        var confidence := if "confidence" in a then a["confidence"] else Number(0.0);
        if !IsNumeric(score) || !IsNumeric(confidence) then Err(UnformattableValue)
        else Ok(Decision(ScoreSignal(AsReal(score)), Some(prompt)))
  }

  /** The decision ignores `confidence`: replies that agree on the score give
      the same recommendation whatever their (printable) confidences. */
  lemma ConfidenceIgnored(analyze1: Analyzer, analyze2: Analyzer, texts: seq<string>, symbol: string)
    requires texts != []
    requires var a1, a2 := analyze1(Prompt(symbol, texts)), analyze2(Prompt(symbol, texts));
      && HasScore(a1) && HasScore(a2) && Printable(a1.value) && Printable(a2.value)
      && a1.value["sentiment_score"] == a2.value["sentiment_score"]
    ensures GenerateSignalFromLlm(analyze1, texts, symbol) == GenerateSignalFromLlm(analyze2, texts, symbol)
  {
  }

  /** A higher score from the analyzer never gives a more bearish recommendation. */
  lemma GenerateSignalMonotone(analyze1: Analyzer, analyze2: Analyzer, texts: seq<string>, symbol: string)
    requires texts != []
    requires var a1, a2 := analyze1(Prompt(symbol, texts)), analyze2(Prompt(symbol, texts));
      && HasScore(a1) && HasScore(a2) && Printable(a1.value) && Printable(a2.value)
      && AsReal(a1.value["sentiment_score"]) <= AsReal(a2.value["sentiment_score"])
    ensures var r1, r2 := GenerateSignalFromLlm(analyze1, texts, symbol), GenerateSignalFromLlm(analyze2, texts, symbol);
      r1.Ok? && r2.Ok? && Rank(r1.value.signal) <= Rank(r2.value.signal)
  {
    var p := Prompt(symbol, texts);
    ScoreSignalMonotone(AsReal(analyze1(p).value["sentiment_score"]), AsReal(analyze2(p).value["sentiment_score"]));
  }

  // ---------------------------------------------------------------------------
  // main: one aggregation and one decision for the first symbol

  const RsshubHomeLatest: string := "http://localhost:1200/twitter/home_latest"

  /** The body of `main` once the configuration is read: aggregate with the
      local RSSHub home feed and 20 items, then decide for `symbol`. */
  function Recommend(instance: string, usernames: seq<string>, symbol: string, parse: Parser, analyze: Analyzer): (r: Result<Decision>)
    ensures r.Ok? ==> r.value.prompt.None? ==> r.value.signal == Hold
    ensures var texts := AggregateTwitterContent(instance, usernames, Some(RsshubHomeLatest), Some(DefaultMaxItems), parse);
      && (texts.Err? ==> r == Err(texts.error))
      && (texts.Ok? ==> r == GenerateSignalFromLlm(analyze, texts.value, symbol))
  {
    match AggregateTwitterContent(instance, usernames, Some(RsshubHomeLatest), Some(DefaultMaxItems), parse)
    case Err(e) => Err(e)
    case Ok(texts) => GenerateSignalFromLlm(analyze, texts, symbol)
  }

  /** With every feed malformed, no user yields anything. */
  lemma {:induction false} NitterAllMalformed(instance: string, usernames: seq<string>, parse: Parser)
    requires forall url :: parse(url).Malformed?
    ensures FetchNitterRss(instance, usernames, parse) == []
    decreases |usernames|
  {
    if |usernames| > 0 {
      NitterAllMalformed(instance, usernames[1..], parse);
      assert UserItems(instance, usernames[0], parse) == [];
    }
  }

  /** Fail-safe: when every feed is malformed the recommendation is HOLD and
      the analyzer is never asked. */
  lemma RecommendFailSafe(instance: string, usernames: seq<string>, symbol: string, parse: Parser, analyze: Analyzer)
    requires forall url :: parse(url).Malformed?
    ensures Recommend(instance, usernames, symbol, parse, analyze) == Ok(Decision(Hold, None))
  {
    NitterAllMalformed(instance, usernames, parse);
    assert NitterTexts([]) == [];
    assert RssHubTexts([]) == [];
  }
}
