/** `getCareerRecommendations`: the remote recommendation reply, post-processed
    deterministically, with any failure answered by the fallback recommender.
    The network exchange is an input (`reply`), and `JSON.parse` followed by reading the
    expected fields is an abstract partial function (`parse`). */
module Remote {
  import opened Wrappers
  import opened Types
  import opened Text
  import opened Scorer
  import opened Lists

  /** One entry of the reply's `recommendations` array. */
  datatype RemoteRec = RemoteRec(careerTitle: string, confidenceScore: int, explanation: string)

  /** The object parsed from the reply; `recommendations` may be missing. */
  datatype ParsedReply = ParsedReply(recommendations: Option<seq<RemoteRec>>)

  /** The HTTP answer: its `ok` flag and the `completion` text of its JSON body, absent
      when the body is not JSON or carries no completion text. */
  datatype HttpReply = HttpReply(ok: bool, completion: Option<string>)

  /** Why the remote path was abandoned; every failure leads to the fallback. */
  datatype Failure =
    | NetworkError          // `fetch` rejected
    | NotOk                 // non-success HTTP status
    | NoCompletion          // body not JSON, or no completion text
    | NoJsonSpan            // no `{ ... }` in the completion
    | ParseError            // `JSON.parse` threw, or an entry has the wrong shape
    | NoRecommendations     // parsed object has no `recommendations` array

  /** The outcome of the remote exchange. */
  datatype Outcome = Recommendations(recs: seq<RemoteRec>) | Failed(why: Failure)

  /** A span `s[start..end]` of the completion text. */
  datatype Span = Span(start: nat, end: nat)

  /** The span matched by `/\{[\s\S]*\}/`: from the first `{` to the last `}`, provided
      that `}` comes after the `{`. Braces are not balanced: everything between the two
      ends is taken. */
  function JsonSpan(s: string): (r: Option<Span>)
    ensures r.None? <==> !exists i, j :: 0 <= i < j < |s| && s[i] == '{' && s[j] == '}'
    ensures r.Some? ==>
      && r.value.start + 1 < r.value.end <= |s|
      && s[r.value.start] == '{' && s[r.value.end - 1] == '}'
      && (forall i :: 0 <= i < r.value.start ==> s[i] != '{')
      && (forall j :: r.value.end <= j < |s| ==> s[j] != '}')
  {
    match (FirstIndexOf(s, '{'), LastIndexOf(s, '}'))
    case (Some(a), Some(b)) =>
      if a < b then Some(Span(a, b + 1))
      else
        assert forall i, j :: 0 <= i < j < |s| && s[i] == '{' && s[j] == '}' ==> a <= i && j <= b;
        None
    case (None, _) => None
    case (_, None) => None
  }

  /** The text of the matched span, when there is one. */
  function ExtractJson(s: string): (r: Option<string>)
    ensures r.Some? <==> JsonSpan(s).Some?
    ensures r.Some? ==> r.value == s[JsonSpan(s).value.start..JsonSpan(s).value.end]
    ensures r.Some? ==> |r.value| >= 2 && r.value[0] == '{' && r.value[|r.value| - 1] == '}'
  {
    match JsonSpan(s)
    case None => None
    case Some(sp) => Some(s[sp.start..sp.end])
  }

  /** `s.indexOf(c)`. */
  function FirstIndexOf(s: string, c: char): (r: Option<nat>)
    ensures r.None? <==> c !in s
    ensures r.Some? ==> r.value < |s| && s[r.value] == c && forall i :: 0 <= i < r.value ==> s[i] != c
  {
    FindFirst(s, (x: char) => x == c)
  }

  /** `s.lastIndexOf(c)`. */
  function LastIndexOf(s: string, c: char): (r: Option<nat>)
    ensures r.None? <==> c !in s
    ensures r.Some? ==> r.value < |s| && s[r.value] == c && forall j :: r.value < j < |s| ==> s[j] != c
  {
    if s == [] then None
    else if s[|s| - 1] == c then Some(|s| - 1)
    else
      var r := LastIndexOf(s[..|s| - 1], c);
      assert s == s[..|s| - 1] + [s[|s| - 1]];
      r
  }

  /** The remote exchange up to the list of recommendations, or the first failure met. */
  function RemoteOutcome(reply: Option<HttpReply>, parse: string -> Option<ParsedReply>): (o: Outcome)
    ensures o.Recommendations? <==>
      && reply.Some? && reply.value.ok && reply.value.completion.Some?
      && ExtractJson(reply.value.completion.value).Some?
      && parse(ExtractJson(reply.value.completion.value).value).Some?
      && parse(ExtractJson(reply.value.completion.value).value).value.recommendations.Some?
  {
    match reply
    case None => Failed(NetworkError)
    case Some(http) =>
      if !http.ok then Failed(NotOk)
      else match http.completion
        case None => Failed(NoCompletion)
        case Some(text) =>
          match ExtractJson(text)
          case None => Failed(NoJsonSpan)
          case Some(json) =>
            match parse(json)
            case None => Failed(ParseError)
            case Some(parsed) =>
              match parsed.recommendations
              case None => Failed(NoRecommendations)
              case Some(recs) => Recommendations(recs)
  }

  /** `CAREERS.find(c => c.title.toLowerCase() === title.toLowerCase())`, as a position. */
  function FindByTitle(catalog: seq<Career>, title: string): (r: Option<nat>)
    ensures r.None? <==> forall i :: 0 <= i < |catalog| ==> !EqualsIgnoreCase(catalog[i].title, title)
    ensures r.Some? ==> r.value < |catalog| && EqualsIgnoreCase(catalog[r.value].title, title)
    ensures r.Some? ==> forall i :: 0 <= i < r.value ==> !EqualsIgnoreCase(catalog[i].title, title)
  {
    FindFirst(catalog, (c: Career) => EqualsIgnoreCase(c.title, title))
  }

  predicate IsBase36(c: char)
  {
    '0' <= c <= '9' || 'a' <= c <= 'z'
  }

  /** The random part of a synthesised id: `Math.random().toString(36).substr(2, 9)`,
      at most nine base-36 digits. */
  type IdSuffix = s: string | |s| <= 9 && forall i :: 0 <= i < |s| ==> IsBase36(s[i])
    witness ""

  /** The placeholder of the three descriptive fields of a synthesised career. */
  const Varies := "Varies"

  /** One remote recommendation as a career: the first catalogue career whose title matches
      ignoring case, with the remote score and explanation attached; otherwise a new record
      built from the recommendation alone. */
  function ToCareer(catalog: seq<Career>, rec: RemoteRec, suffix: IdSuffix): (c: Career)
    ensures c.confidenceScore == Some(rec.confidenceScore)
    ensures c.aiExplanation == Some(rec.explanation)
    ensures FindByTitle(catalog, rec.careerTitle).Some? ==>
      var m := catalog[FindByTitle(catalog, rec.careerTitle).value];
      c.(confidenceScore := m.confidenceScore, aiExplanation := m.aiExplanation) == m
    ensures FindByTitle(catalog, rec.careerTitle).None? ==>
      && c.id == "ai-" + suffix
      && c.title == rec.careerTitle
      && c.description == rec.explanation
      && c.requiredSkills == [] && c.matchingTags == []
      && c.educationRequired == Varies && c.averageSalary == Varies && c.growthOutlook == Varies
  {
    match FindByTitle(catalog, rec.careerTitle)
    case Some(k) =>
      catalog[k].(confidenceScore := Some(rec.confidenceScore), aiExplanation := Some(rec.explanation))
    case None =>
      Career("ai-" + suffix, rec.careerTitle, rec.explanation, [], [], Varies, Varies, Varies,
             Some(rec.confidenceScore), Some(rec.explanation))
  }

  /** `getCareerRecommendations`. On success the remote list is used as it is (same length,
      same order, no sort, no cap); on any failure the result is the fallback
      recommender's. `suffix(k)` is the random id part drawn for the k-th entry. */
  function GetCareerRecommendations(
    req: Request,
    catalog: seq<Career>,
    types: seq<PersonalityType>,
    reply: Option<HttpReply>,
    parse: string -> Option<ParsedReply>,
    suffix: nat -> IdSuffix): (r: seq<Career>)
    ensures RemoteOutcome(reply, parse).Failed? ==> r == FallbackRecommendations(req, catalog, types)
    ensures RemoteOutcome(reply, parse).Recommendations? ==>
      var recs := RemoteOutcome(reply, parse).recs;
      && |r| == |recs|
      && forall k :: 0 <= k < |r| ==>
        && r[k].confidenceScore == Some(recs[k].confidenceScore)
        && r[k].aiExplanation == Some(recs[k].explanation)
        && r[k] == ToCareer(catalog, recs[k], suffix(k))
  {
    match RemoteOutcome(reply, parse)
    case Failed(_) => FallbackRecommendations(req, catalog, types)
    case Recommendations(recs) =>
      var r := seq(|recs|, k requires 0 <= k < |recs| => ToCareer(catalog, recs[k], suffix(k)));
      assert forall k :: 0 <= k < |r| ==> r[k] == ToCareer(catalog, recs[k], suffix(k));
      r
  }

  /** Each failure the source raises inside its `try` (a rejected request, a non-ok status,
      a body without completion text, no braces, a parse error, no `recommendations`)
      yields exactly the fallback recommendations. */
  lemma EveryFailureFallsBack(
    req: Request,
    catalog: seq<Career>,
    types: seq<PersonalityType>,
    reply: Option<HttpReply>,
    parse: string -> Option<ParsedReply>,
    suffix: nat -> IdSuffix)
    requires
      || reply.None?
      || !reply.value.ok
      || reply.value.completion.None?
      || ExtractJson(reply.value.completion.value).None?
      || parse(ExtractJson(reply.value.completion.value).value).None?
      || parse(ExtractJson(reply.value.completion.value).value).value.recommendations.None?
    ensures GetCareerRecommendations(req, catalog, types, reply, parse, suffix)
      == FallbackRecommendations(req, catalog, types)
  {
  }

  /** Prose before and after a JSON object is ignored: when the surrounding text holds no
      opening brace before and no closing brace after, the object itself is extracted. */
  lemma ProseAroundJson(pre: string, obj: string, post: string)
    requires '{' !in pre && '}' !in post
    requires |obj| >= 2 && obj[0] == '{' && obj[|obj| - 1] == '}'
    ensures ExtractJson(pre + obj + post) == Some(obj)
  {
    var s := pre + obj + post;
    assert s[|pre|] == '{';
    assert s[|pre| + |obj| - 1] == '}';
    var sp := JsonSpan(s).value;
    assert sp.start == |pre| by {
      assert forall i :: 0 <= i < |pre| ==> s[i] == pre[i];
    }
    assert sp.end == |pre| + |obj| by {
      assert forall j :: |pre| + |obj| <= j < |s| ==> s[j] == post[j - |pre| - |obj|];
    }
    assert s[sp.start..sp.end] == obj;
  }

  /** The match is greedy, not brace-balanced: two separate objects in one completion
      are extracted together, with the text between them. */
  lemma GreedyAcrossObjects()
    ensures ExtractJson("{a} and {b}") == Some("{a} and {b}")
  {
    var s := "{a} and {b}";
    assert s[0] == '{' && s[|s| - 1] == '}';
    ProseAroundJson("", s, "");
    assert "" + s + "" == s;
  }

  /** A remote title that differs from a catalogue title only in letter case picks the
      catalogue record and attaches the remote score and explanation. */
  lemma TitleMatchIgnoresCase(c: Career, score: int, why: string, suffix: IdSuffix)
    requires c.title == "Data Scientist"
    ensures ToCareer([c], RemoteRec("DATA SCIENTIST", score, why), suffix)
      == c.(confidenceScore := Some(score), aiExplanation := Some(why))
  {
    assert EqualsIgnoreCase(c.title, "DATA SCIENTIST") by {
      assert ToLower("Data Scientist") == ToLower("DATA SCIENTIST");
    }
  }

  /** A catalogue record with the remote score and explanation attached. */
  function Attached(c: Career, rec: RemoteRec): Career
  {
    c.(confidenceScore := Some(rec.confidenceScore), aiExplanation := Some(rec.explanation))
  }

  /** Whatever the catalogue holds, the mapped career's title equals the remote title
      ignoring letter case, and it carries the remote score and explanation. */
  lemma MappedTitleMatches(catalog: seq<Career>, rec: RemoteRec, suffix: IdSuffix)
    ensures var c := ToCareer(catalog, rec, suffix);
      && EqualsIgnoreCase(c.title, rec.careerTitle)
      && c.confidenceScore == Some(rec.confidenceScore)
      && c.aiExplanation == Some(rec.explanation)
  {
  }

  /** A catalogue record whose title equals the remote one exactly is reused: the result is
      that record, or an earlier one matching ignoring case, with only the score and the
      explanation replaced; no new record is synthesised. */
  lemma CatalogRecordReused(catalog: seq<Career>, rec: RemoteRec, suffix: IdSuffix, i: nat)
    requires i < |catalog| && catalog[i].title == rec.careerTitle
    ensures exists k :: 0 <= k <= i && ToCareer(catalog, rec, suffix) == Attached(catalog[k], rec)
  {
    assert EqualsIgnoreCase(catalog[i].title, rec.careerTitle);
    var k := FindByTitle(catalog, rec.careerTitle).value;
    assert k <= i;
  }
}
