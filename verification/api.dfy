/**
 * The `/recommend` endpoint of api/main.py: the retrieval-confidence classifier, the
 * `top_k` clamp, the chosen title and the response assembly. The vector store and the
 * chat pipeline are oracles; distances are exact reals and +infinity is a constructor.
 */
module Api {
  import opened Wrappers
  import opened Retriever
  import Text

  /** A real number or +infinity (Python's `float("inf")`). */
  datatype Ext = Fin(r: real) | Inf

  datatype Label = High | Medium | Low

  /** The classifier's verdict together with the two numbers it was computed from. */
  datatype Assessment = Assessment(level: Label, d1: Ext, gap: Ext)

  /** The body of a `/recommend` reply. `d1` may be infinite; `gap` is already serialised. */
  datatype Response = Response(
    title: Option<string>,
    answer: string,
    topk: seq<Pair>,
    evidence: seq<Item>,
    confidence: Label,
    d1: Ext,
    gap: real)

  const MaxGoodDistance: real := 1.00
  const HighGap: real := 0.12
  const MediumDistance: real := 1.10
  const MediumGap: real := 0.08
  /** What an infinite gap is reported as. */
  const InfiniteGap: real := 1000000000.0
  const MaxTopK: int := 8

  predicate Below(x: Ext, bound: real) {
    x.Fin? && x.r < bound
  }

  predicate AtLeast(x: Ext, bound: real) {
    x.Inf? || x.r >= bound
  }

  /** `a - b` with `a` possibly infinite and `b` finite. */
  function Minus(a: Ext, b: real): Ext {
    match a
    case Inf => Inf
    case Fin(x) => Fin(x - b)
  }

  predicate HighRule(d1: Ext, gap: Ext) {
    Below(d1, MaxGoodDistance) && AtLeast(gap, HighGap)
  }

  predicate MediumRule(d1: Ext, gap: Ext) {
    Below(d1, MediumDistance) && AtLeast(gap, MediumGap)
  }

  /** `_confidence_from_pairs`: the pairs are taken in the order given, not re-sorted. */
  function ConfidenceFromPairs(pairs: seq<Pair>): (a: Assessment)
    ensures pairs == [] ==> a == Assessment(Low, Inf, Fin(0.0))
    ensures pairs != [] ==> a.d1 == Fin(pairs[0].distance)
    ensures |pairs| == 1 ==> a.gap == Inf
    ensures |pairs| >= 2 ==> a.gap == Fin(pairs[1].distance - pairs[0].distance)
    ensures pairs != [] ==> (a.level == High <==> HighRule(a.d1, a.gap))
    ensures pairs != [] ==> (a.level == Medium <==> !HighRule(a.d1, a.gap) && MediumRule(a.d1, a.gap))
    ensures a.level == Low <==> !HighRule(a.d1, a.gap) && !MediumRule(a.d1, a.gap)
  {
    if pairs == [] then Assessment(Low, Inf, Fin(0.0))
    else
      var d1 := pairs[0].distance;
      var d2 := if |pairs| > 1 then Fin(pairs[1].distance) else Inf;
      var gap := Minus(d2, d1);
      var level :=
        if d1 < MaxGoodDistance && AtLeast(gap, HighGap) then High
        else if d1 < MediumDistance && AtLeast(gap, MediumGap) then Medium
        else Low;
      Assessment(level, Fin(d1), gap)
  }

  /** With a single candidate the gap is infinite, so only `d1` decides:
      High below 1.00, Medium on [1.00, 1.10), Low from 1.10 on. */
  lemma SingleCandidate(p: Pair)
    ensures var a := ConfidenceFromPairs([p]);
      && (a.level == High <==> p.distance < 1.00)
      && (a.level == Medium <==> 1.00 <= p.distance < 1.10)
      && (a.level == Low <==> p.distance >= 1.10)
  {
  }

  /** Only the first two pairs matter. */
  lemma OnlyFirstTwoMatter(pairs: seq<Pair>)
    requires |pairs| >= 2
    ensures ConfidenceFromPairs(pairs) == ConfidenceFromPairs(pairs[..2])
  {
  }

  /** Pairs are not sorted first: a second pair closer than the first gives a negative
      gap, which is always Low. */
  lemma UnsortedIsLow(pairs: seq<Pair>)
    requires |pairs| >= 2 && pairs[1].distance < pairs[0].distance
    ensures ConfidenceFromPairs(pairs).level == Low
    ensures ConfidenceFromPairs(pairs).gap.r < 0.0
  {
  }

  /** High is the stricter level: whatever is High also meets the Medium thresholds. */
  lemma HighMeetsMedium(pairs: seq<Pair>)
    requires ConfidenceFromPairs(pairs).level == High
    ensures MediumRule(ConfidenceFromPairs(pairs).d1, ConfidenceFromPairs(pairs).gap)
  {
  }

  /** A close first match well ahead of the runner-up: 0.05 then 0.40 is High with gap 0.35. */
  lemma ClearWinner(t1: string, t2: string)
    ensures ConfidenceFromPairs([Pair(t1, 0.05), Pair(t2, 0.40)]) == Assessment(High, Fin(0.05), Fin(0.35))
  {
  }

  /** `max(1, min(top_k, 8))`. */
  function ClampTopK(k: int): (r: int)
    ensures 1 <= r <= MaxTopK
    ensures 1 <= k <= MaxTopK ==> r == k
    ensures k < 1 ==> r == 1
    ensures k > MaxTopK ==> r == MaxTopK
  {
    var m := if k < MaxTopK then k else MaxTopK;
    if m > 1 then m else 1
  }

  /** `gap if gap != inf else 1e9`. */
  function SerializeGap(g: Ext): (r: real)
    ensures g.Inf? ==> r == InfiniteGap
    ensures g.Fin? ==> r == g.r
  {
    match g
    case Inf => InfiniteGap
    case Fin(x) => x
  }

  /** `pairs[0][0] if pairs else None`. */
  function ChosenTitle(pairs: seq<Pair>): (t: Option<string>)
    ensures t.None? <==> pairs == []
    ensures t.Some? ==> t.value == pairs[0].title
  {
    if pairs == [] then None else Some(pairs[0].title)
  }

  /** `recommend(req)`: `chat` is the chat pipeline run on the stripped query. */
  function Recommend(query: string, topK: int, store: Store, chat: string -> string): (resp: Response)
    ensures var k := ClampTopK(topK);
      var pairs := DebugCandidates(Text.Strip(query), store, k);
      && resp.topk == pairs
      && resp.title == ChosenTitle(pairs)
      && resp.evidence == SemanticSearch(Text.Strip(query), store, k)
      && resp.answer == chat(Text.Strip(query))
      && resp.confidence == ConfidenceFromPairs(pairs).level
      && resp.d1 == ConfidenceFromPairs(pairs).d1
      && resp.gap == SerializeGap(ConfidenceFromPairs(pairs).gap)
  {
    var q := Text.Strip(query);
    var k := ClampTopK(topK);
    var pairs := DebugCandidates(q, store, k);
    var evidence := SemanticSearch(q, store, k);
    var answer := chat(q);
    var a := ConfidenceFromPairs(pairs);
    Response(ChosenTitle(pairs), answer, pairs, evidence, a.level, a.d1, SerializeGap(a.gap))
  }

  /** The recommended title is the store's first candidate, and the generated answer never
      changes it (nor the ranking, confidence or numbers): two chat oracles give the same
      reply apart from the answer text. */
  lemma TitleIndependentOfAnswer(query: string, topK: int, store: Store, chat1: string -> string, chat2: string -> string)
    ensures var r1 := Recommend(query, topK, store, chat1);
      var r2 := Recommend(query, topK, store, chat2);
      r1.(answer := "") == r2.(answer := "")
    ensures var r := Recommend(query, topK, store, chat1);
      r.title.Some? <==> |r.topk| > 0
    ensures var r := Recommend(query, topK, store, chat1);
      r.title.Some? ==> r.title.value == r.topk[0].title
  {
  }

  /** An empty or whitespace-only query is answered Low with no title and no candidates,
      d1 infinite and the gap reported as 0. */
  lemma EmptyQuery(query: string, topK: int, store: Store, chat: string -> string)
    requires Text.Strip(query) == ""
    ensures var r := Recommend(query, topK, store, chat);
      r.title.None? && r.topk == [] && r.evidence == [] && r.confidence == Low && r.d1 == Inf && r.gap == 0.0
  {
    assert Text.Strip(Text.Strip(query)) == "";
    EmptyQueryShortCircuit(Text.Strip(query), store, store, ClampTopK(topK));
  }
}
