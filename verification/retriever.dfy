/**
 * The retrieval helpers of rag/retriever.py: query normalisation, the snippet locator,
 * and the three readers of a vector-store answer. The store itself is an oracle
 * `store(q, n)` returning the parallel arrays of one query.
 */
module Retriever {
  import opened Wrappers
  import opened Text
  import Normalise

  /** One vector-store answer: the parallel `metadatas`, `distances` and `documents` arrays of
      the single query sent. A metadata entry is `None` when it is missing or has no "title";
      a missing array is the empty sequence. */
  datatype StoreReply = StoreReply(metas: seq<Option<string>>, distances: seq<real>, documents: seq<Option<string>>)

  /** The opaque collection: normalised query text and `n_results` in, one answer out. */
  type Store = (string, int) -> StoreReply

  /** A `(title, distance)` pair of `debug_candidates`. */
  datatype Pair = Pair(title: string, distance: real)

  /** One item of `semantic_search`. */
  datatype Item = Item(title: string, distance: real, snippet: string)

  /** The answer of `auto_search_books`. */
  datatype AutoResult = AutoResult(bestTitle: Option<string>, bestDistance: Option<real>, bestSnippet: string, candidates: seq<Pair>)

  const DefaultTopK: int := 5
  const SnippetLength: nat := 220
  /** Characters of context kept before the earliest query-word hit. */
  const LeadIn: nat := 40

  function Min(a: int, b: int): int {
    if a <= b then a else b
  }

  /** The character class `[a-zA-Zăâîșțéèüöß0-9]` of the snippet tokeniser. */
  predicate IsTokenChar(c: char) {
    || ('a' <= c <= 'z') || ('A' <= c <= 'Z') || ('0' <= c <= '9')
    || c == '\U{103}' || c == '\U{E2}' || c == '\U{EE}' || c == '\U{219}' || c == '\U{21B}'
    || c == '\U{E9}' || c == '\U{E8}' || c == '\U{FC}' || c == '\U{F6}' || c == '\U{DF}'
  }

  /** The query words longer than two characters, in order. */
  function LongWords(ws: seq<string>): (r: seq<string>)
    ensures forall w :: w in r <==> w in ws && |w| > 2
  {
    if ws == [] then []
    else if |ws[0]| > 2 then [ws[0]] + LongWords(ws[1..])
    else LongWords(ws[1..])
  }

  /** The earliest position at which any of `ws` occurs in `t` (`min` of the `find`
      results that are not -1), or None when none occurs. */
  function FirstHit(t: string, ws: seq<string>): (r: Option<nat>)
    ensures r.None? <==> forall k :: 0 <= k < |ws| ==> Find(t, ws[k]) == -1
    ensures r.Some? ==> exists k :: 0 <= k < |ws| && OccursAt(t, ws[k], r.value)
    ensures r.Some? ==> forall k, p :: 0 <= k < |ws| && 0 <= p < r.value ==> !OccursAt(t, ws[k], p)
    ensures r.Some? ==> r.value <= |t|
  {
    if ws == [] then None
    else
      var i := Find(t, ws[0]);
      var rest := FirstHit(t, ws[1..]);
      assert forall k :: 1 <= k < |ws| ==> ws[k] == ws[1..][k - 1];
      if i == -1 then rest
      else if rest.None? || i <= rest.value then Some(i)
      else rest
  }

  /** The tokens of the normalised query longer than two characters, in order. */
  function QueryWords(query: string): (ws: seq<string>)
    ensures forall w :: w in ws ==> |w| > 2
  {
    LongWords(Runs(NormQuery(query), IsTokenChar))
  }

  /** Where the snippet window opens in the lowered text `low` for the query words `ws`. */
  function WindowAt(low: string, ws: seq<string>): (start: nat)
    ensures start <= |low|
  {
    match FirstHit(low, ws)
    case None => 0
    case Some(p) => if p >= LeadIn then p - LeadIn else 0
  }

  /** Where the snippet window opens in the flattened text `txt`. */
  function WindowStart(txt: string, query: string): (start: nat)
    ensures start <= |txt|
  {
    WindowAt(Lower(txt), QueryWords(query))
  }

  /** `_best_snippet(doc, query, max_len)`. */
  function BestSnippet(doc: string, query: string, maxLen: nat): (r: string)
    ensures |r| <= maxLen
    ensures doc == "" ==> r == ""
  {
    if doc == "" then ""
    else
      var txt := Strip(ReplaceChar(doc, '\n', ' '));
      var start := WindowStart(txt, query);
      Strip(txt[start..Min(start + maxLen, |txt|)])
  }

  /** The window rule of `_best_snippet` for the lowered text `low`, the query words `ws` and
      the window start `start`: 0 when no word occurs; otherwise at most `LeadIn` characters
      before the first occurrence of each word that occurs (clamped at 0), and, unless it is
      0, exactly `LeadIn` characters before an occurrence of some word. */
  predicate WindowRule(low: string, ws: seq<string>, start: nat) {
    && ((forall w | w in ws :: !Contains(low, w)) ==> start == 0)
    && (forall w | w in ws && Contains(low, w) ::
          start <= (if Find(low, w) >= LeadIn then Find(low, w) - LeadIn else 0))
    && (start > 0 ==> exists w :: w in ws && OccursAt(low, w, start + LeadIn))
  }

  /** The window start obeys the window rule. */
  lemma WindowAtFacts(low: string, ws: seq<string>)
    ensures WindowRule(low, ws, WindowAt(low, ws))
  {
    WindowNoHit(low, ws);
    WindowBound(low, ws);
    WindowHit(low, ws);
  }

  /** With no word in the text, the window opens at 0. */
  lemma WindowNoHit(low: string, ws: seq<string>)
    ensures (forall w | w in ws :: !Contains(low, w)) ==> WindowAt(low, ws) == 0
  {
    if FirstHit(low, ws).Some? {
      var k :| 0 <= k < |ws| && OccursAt(low, ws[k], FirstHit(low, ws).value);
      assert ws[k] in ws && Contains(low, ws[k]);
    }
  }

  /** The window opens no later than `LeadIn` characters before any word that occurs. */
  lemma WindowBound(low: string, ws: seq<string>)
    ensures forall w | w in ws && Contains(low, w) ::
              WindowAt(low, ws) <= (if Find(low, w) >= LeadIn then Find(low, w) - LeadIn else 0)
  {
    var hit := FirstHit(low, ws);
    forall w | w in ws && Contains(low, w)
      ensures hit.Some? && hit.value <= Find(low, w)
    {
      var k :| 0 <= k < |ws| && ws[k] == w;
      assert Find(low, ws[k]) != -1;
    }
  }

  /** A window past 0 opens exactly `LeadIn` characters before an occurrence of some word. */
  lemma WindowHit(low: string, ws: seq<string>)
    ensures WindowAt(low, ws) > 0 ==> exists w :: w in ws && OccursAt(low, w, WindowAt(low, ws) + LeadIn)
  {
    var hit := FirstHit(low, ws);
    if hit.Some? {
      var k :| 0 <= k < |ws| && OccursAt(low, ws[k], hit.value);
      assert ws[k] in ws;
    }
  }

  /** The snippet of `_best_snippet` is the stripped window of at most `maxLen` characters of
      the document with newlines turned into spaces, and the window start obeys the window
      rule for the query words (longer than two characters) in the lowered text. */
  lemma SnippetWindow(doc: string, query: string, maxLen: nat)
    requires doc != ""
    ensures var txt := Strip(ReplaceChar(doc, '\n', ' '));
            var start := WindowStart(txt, query);
            && BestSnippet(doc, query, maxLen) == Strip(txt[start..Min(start + maxLen, |txt|)])
            && WindowRule(Lower(txt), QueryWords(query), start)
  {
    var txt := Strip(ReplaceChar(doc, '\n', ' '));
    WindowAtFacts(Lower(txt), QueryWords(query));
  }

  /** `_norm_query` yields a trimmed, single-spaced, lower-case string, and agrees with the
      summary tool's title key. */
  lemma NormQueryShape(s: string)
    ensures Canonical(NormQuery(s)) && AllLower(NormQuery(s))
    ensures NormQuery(s) == Norm(s)
  {
    Normalise.NormCanonical(s);
    Normalise.NormQueryIsNorm(s);
  }

  /** `zip(metas, dists)` read as `(title, distance)` pairs. */
  function ZipPairs(metas: seq<Option<string>>, dists: seq<real>): (r: seq<Pair>)
    ensures |r| == Min(|metas|, |dists|)
    ensures forall i :: 0 <= i < |r| ==> r[i] == Pair(metas[i].GetOr(""), dists[i])
  {
    seq(Min(|metas|, |dists|), i requires 0 <= i < Min(|metas|, |dists|) => Pair(metas[i].GetOr(""), dists[i]))
  }

  /** `debug_candidates(query, collection, top_k)`. */
  function DebugCandidates(query: string, store: Store, topK: int): (r: seq<Pair>)
    ensures NormQuery(query) == "" ==> r == []
    ensures NormQuery(query) != "" ==>
      var reply := store(NormQuery(query), topK);
      && |r| == Min(|reply.metas|, |reply.distances|)
      && forall i :: 0 <= i < |r| ==> r[i] == Pair(reply.metas[i].GetOr(""), reply.distances[i])
  {
    var q := NormQuery(query);
    if q == "" then [] else
      var reply := store(q, topK);
      ZipPairs(reply.metas, reply.distances)
  }

  /** `zip(metas, dists, docs)` read as evidence items, each snippet located for the query `q`. */
  function ZipItems(metas: seq<Option<string>>, dists: seq<real>, docs: seq<Option<string>>, q: string): (r: seq<Item>)
    ensures |r| == Min(Min(|metas|, |dists|), |docs|)
    ensures forall i :: 0 <= i < |r| ==>
      r[i] == Item(metas[i].GetOr(""), dists[i], BestSnippet(docs[i].GetOr(""), q, SnippetLength))
  {
    var n := Min(Min(|metas|, |dists|), |docs|);
    seq(n, i requires 0 <= i < n => Item(metas[i].GetOr(""), dists[i], BestSnippet(docs[i].GetOr(""), q, SnippetLength)))
  }

  /** `semantic_search(query, collection, top_k)`. */
  function SemanticSearch(query: string, store: Store, topK: int): (r: seq<Item>)
    ensures NormQuery(query) == "" ==> r == []
    ensures NormQuery(query) != "" ==>
      var reply := store(NormQuery(query), topK);
      && |r| == Min(Min(|reply.metas|, |reply.distances|), |reply.documents|)
      && forall i :: 0 <= i < |r| ==>
           && r[i].title == reply.metas[i].GetOr("")
           && r[i].distance == reply.distances[i]
           && |r[i].snippet| <= SnippetLength
  {
    var q := NormQuery(query);
    if q == "" then [] else
      var reply := store(q, topK);
      ZipItems(reply.metas, reply.distances, reply.documents, q)
  }

  /** An empty normalised query never reaches the store: both readers return `[]`
      whatever the store would have answered. */
  lemma EmptyQueryShortCircuit(query: string, s1: Store, s2: Store, k: int)
    requires Strip(query) == ""
    ensures DebugCandidates(query, s1, k) == [] && SemanticSearch(query, s1, k) == []
    ensures DebugCandidates(query, s1, k) == DebugCandidates(query, s2, k)
  {
    assert Collapse(Strip(query)) == "";
  }

  /** `auto_search_books(query, collection, top_k)`. */
  function AutoSearchBooks(query: string, store: Store, topK: int): (r: AutoResult)
    ensures var items := SemanticSearch(query, store, topK);
      && |r.candidates| == |items|
      && (forall i :: 0 <= i < |items| ==> r.candidates[i] == Pair(items[i].title, items[i].distance))
      && (items == [] ==> r.bestTitle.None? && r.bestDistance.None? && r.bestSnippet == "")
      && (items != [] ==> r.bestTitle == Some(items[0].title) && r.bestDistance == Some(items[0].distance)
                          && r.bestSnippet == items[0].snippet)
  {
    var items := SemanticSearch(query, store, topK);
    var pairs := seq(|items|, i requires 0 <= i < |items| => Pair(items[i].title, items[i].distance));
    if items == [] then AutoResult(None, None, "", pairs)
    else AutoResult(Some(items[0].title), Some(items[0].distance), items[0].snippet, pairs)
  }

  /** The best title of `auto_search_books` is the store's first candidate, and so is the first pair. */
  lemma BestIsFirst(query: string, store: Store, topK: int)
    ensures var r := AutoSearchBooks(query, store, topK);
      r.bestTitle.Some? <==> |r.candidates| > 0
    ensures var r := AutoSearchBooks(query, store, topK);
      r.bestTitle.Some? ==> r.bestTitle.value == r.candidates[0].title
  {
  }
}
