/**
 * The detailed-summary lookup of tools/summary_tool.py. The catalog `DETAILED_SUMMARIES`
 * is a parameter: its entries in declaration order, titles distinct as in any Python dict.
 */
module SummaryTool {
  import opened Wrappers
  import opened Text
  import Normalise

  datatype Entry = Entry(title: string, summary: string)

  predicate DistinctTitles(c: seq<Entry>) {
    forall i, j :: 0 <= i < j < |c| ==> c[i].title != c[j].title
  }

  /** `DETAILED_SUMMARIES`: an insertion-ordered dict from exact title to summary. */
  type Catalog = c: seq<Entry> | DistinctTitles(c) witness []

  /** What a lookup found, before it is rendered as the tool's text reply. */
  datatype Lookup = Exact(summary: string) | Suggest(titles: seq<string>) | Missing

  const SuggestionLimit: nat := 5
  const SuggestPrefix: string := "Titlul exact nu a fost găsit. Ai vrut poate unul dintre: "
  const SuggestSuffix: string := " ?"
  const NotFoundMessage: string := "Titlul nu a fost găsit în baza locală de rezumate."

  /** The catalog has no blank title: true of the shipped dict, whose titles are all real book names. */
  predicate NoBlankTitle(c: Catalog) {
    forall i :: 0 <= i < |c| ==> Norm(c[i].title) != ""
  }

  /** No two titles share a normalised key, so `_INDEX` loses no title. */
  predicate KeysDistinct(c: Catalog) {
    forall i, j :: 0 <= i < j < |c| ==> Norm(c[i].title) != Norm(c[j].title)
  }

  /** `list_titles()`: the dict's keys in declaration order. */
  function ListTitles(c: Catalog): (ts: seq<string>)
    ensures |ts| == |c|
    ensures forall i :: 0 <= i < |c| ==> ts[i] == c[i].title
  {
    seq(|c|, i requires 0 <= i < |c| => c[i].title)
  }

  /** The normalised key of every title, in declaration order. */
  function Keys(c: Catalog): (ks: seq<string>)
    ensures |ks| == |c|
    ensures forall i :: 0 <= i < |c| ==> ks[i] == Norm(c[i].title)
  {
    seq(|c|, i requires 0 <= i < |c| => Norm(c[i].title))
  }

  /** `_INDEX.get(key)`, as the position of the entry it names. The comprehension
      `{_norm(t): t for t in ...}` lets a later title overwrite an earlier one with the
      same key, so the position is the last one whose key matches. */
  function IndexGet(ks: seq<string>, key: string): (r: Option<nat>)
    ensures r.None? <==> forall i :: 0 <= i < |ks| ==> ks[i] != key
    ensures r.Some? ==> r.value < |ks| && ks[r.value] == key
    ensures r.Some? ==> forall i :: r.value < i < |ks| ==> ks[i] != key
    decreases |ks|
  {
    if ks == [] then None
    else if ks[|ks| - 1] == key then Some(|ks| - 1)
    else IndexGet(ks[..|ks| - 1], key)
  }

  /** Positions, from `from` on, of keys that contain `key`, in order. */
  function ContainingFrom(ks: seq<string>, key: string, from: nat): (r: seq<nat>)
    requires from <= |ks|
    ensures forall k :: 0 <= k < |r| ==> from <= r[k] < |ks| && Contains(ks[r[k]], key)
    ensures forall k, l :: 0 <= k < l < |r| ==> r[k] < r[l]
    ensures forall i :: from <= i < |ks| && Contains(ks[i], key) ==> i in r
    decreases |ks| - from
  {
    if from == |ks| then []
    else
      var rest := ContainingFrom(ks, key, from + 1);
      if Contains(ks[from], key) then [from] + rest else rest
  }

  /** `[t for t in DETAILED_SUMMARIES if key in _norm(t)]`. */
  function Containing(c: Catalog, key: string): (ts: seq<string>)
    ensures var idx := ContainingFrom(Keys(c), key, 0);
      |ts| == |idx| && forall k :: 0 <= k < |ts| ==> ts[k] == c[idx[k]].title
  {
    var idx := ContainingFrom(Keys(c), key, 0);
    seq(|idx|, k requires 0 <= k < |idx| => c[idx[k]].title)
  }

  function Take<T>(xs: seq<T>, n: nat): seq<T> {
    if |xs| <= n then xs else xs[..n]
  }

  /** The decision `get_summary_by_title` makes. */
  function LookupTitle(c: Catalog, title: string): Lookup {
    var key := Norm(title);
    var exact := IndexGet(Keys(c), key);
    if exact.Some? && c[exact.value].title != "" then Exact(c[exact.value].summary)
    else
      var candidates := Containing(c, key);
      if candidates != [] then Suggest(Take(candidates, SuggestionLimit))
      else Missing
  }

  /** The text the tool returns for a lookup. */
  function Render(l: Lookup): string {
    match l
    case Exact(s) => s
    case Suggest(ts) => SuggestPrefix + Join(", ", ts) + SuggestSuffix
    case Missing => NotFoundMessage
  }

  /** `get_summary_by_title(title)`. */
  function GetSummaryByTitle(c: Catalog, title: string): (r: string)
    ensures LookupTitle(c, title).Exact? ==> r == LookupTitle(c, title).summary
    ensures LookupTitle(c, title).Missing? ==> r == NotFoundMessage
    ensures LookupTitle(c, title).Suggest? ==> StartsWith(r, SuggestPrefix)
    ensures LookupTitle(c, title).Suggest? ==>
      r == SuggestPrefix + Join(", ", LookupTitle(c, title).titles) + SuggestSuffix
  {
    var l := LookupTitle(c, title);
    RenderSuggest(l);
    Render(l)
  }

  /** A suggestion reply opens with the fixed prefix. */
  lemma RenderSuggest(l: Lookup)
    ensures l.Suggest? ==> StartsWith(Render(l), SuggestPrefix)
  {
    if l.Suggest? {
      var tail := Join(", ", l.titles) + SuggestSuffix;
      assert Render(l) == SuggestPrefix + tail;
      assert (SuggestPrefix + tail)[..|SuggestPrefix|] == SuggestPrefix;
    }
  }

  /** An exact (normalised) title match returns that entry's stored summary verbatim. */
  lemma ExactHit(c: Catalog, title: string, i: nat)
    requires KeysDistinct(c)
    requires i < |c| && Norm(c[i].title) == Norm(title) && c[i].title != ""
    ensures LookupTitle(c, title) == Exact(c[i].summary)
    ensures GetSummaryByTitle(c, title) == c[i].summary
  {
    var ks := Keys(c);
    var key := Norm(title);
    assert ks[i] == key;
    assert forall a, b :: 0 <= a < b < |ks| ==> ks[a] != ks[b];
    IndexGetDistinct(ks, i);
  }

  /** With distinct keys, the index finds each key at its own position. */
  lemma IndexGetDistinct(ks: seq<string>, i: nat)
    requires forall a, b :: 0 <= a < b < |ks| ==> ks[a] != ks[b]
    requires i < |ks|
    ensures IndexGet(ks, ks[i]) == Some(i)
  {
    var hit := IndexGet(ks, ks[i]);
    assert hit.value >= i;
  }

  /** The lookup only sees the normalised title: spelling variants that normalise alike
      (case, surrounding or repeated whitespace) get the same answer. */
  lemma SameKeySameAnswer(c: Catalog, a: string, b: string)
    requires Norm(a) == Norm(b)
    ensures GetSummaryByTitle(c, a) == GetSummaryByTitle(c, b)
  {
  }

  /** `get_summary_by_title` is insensitive to case and spacing: a title and its normal form get the same answer. */
  lemma NormalFormSameAnswer(c: Catalog, title: string)
    ensures GetSummaryByTitle(c, Norm(title)) == GetSummaryByTitle(c, title)
  {
    Normalise.NormIdempotent(title);
  }

  /** Without an exact match, the suggestions are the first (at most five) titles, in
      declaration order, whose normalised form contains the normalised query; with none,
      the fixed not-found text. */
  lemma NoExactHit(c: Catalog, title: string)
    requires Norm(title) !in Keys(c)
    ensures var idx := ContainingFrom(Keys(c), Norm(title), 0);
      && (idx == [] ==> GetSummaryByTitle(c, title) == NotFoundMessage)
      && (idx != [] ==> LookupTitle(c, title) == Suggest(Take(Containing(c, Norm(title)), SuggestionLimit)))
      && (idx != [] ==> |LookupTitle(c, title).titles| <= SuggestionLimit)
      && (idx != [] ==> forall k :: 0 <= k < |LookupTitle(c, title).titles| ==>
                          LookupTitle(c, title).titles[k] == c[idx[k]].title
                          && Contains(Keys(c)[idx[k]], Norm(title)))
  {
    var key := Norm(title);
    var ks := Keys(c);
    var idx := ContainingFrom(ks, key, 0);
    var cands := Containing(c, key);
    assert LookupTitle(c, title) == if cands != [] then Suggest(Take(cands, SuggestionLimit)) else Missing by {
      assert IndexGet(ks, key).None?;
    }
    assert |cands| == |idx|;
    if idx != [] {
      var ts := Take(cands, SuggestionLimit);
      forall k | 0 <= k < |ts| ensures ts[k] == c[idx[k]].title && Contains(ks[idx[k]], key) {
        assert ts[k] == cands[k];
      }
    }
  }

  /** Every string contains the empty string. */
  lemma ContainsEmpty(s: string)
    ensures Contains(s, "")
  {
    assert StartsWith(s, "");
  }

  /** Positions that all qualify are exactly `from, from+1, ...`. */
  lemma {:induction false} AllContaining(ks: seq<string>, from: nat)
    requires from <= |ks|
    ensures |ContainingFrom(ks, "", from)| == |ks| - from
    ensures forall k :: 0 <= k < |ks| - from ==> ContainingFrom(ks, "", from)[k] == from + k
    decreases |ks| - from
  {
    if from < |ks| {
      ContainsEmpty(ks[from]);
      AllContaining(ks, from + 1);
      assert ContainingFrom(ks, "", from) == [from] + ContainingFrom(ks, "", from + 1);
    }
  }

  /** A blank query is never an exact hit in a catalog without blank titles; as the empty
      key is contained in every title, it is answered with the first five titles. */
  lemma BlankQuery(c: Catalog, title: string)
    requires NoBlankTitle(c)
    requires Strip(title) == ""
    ensures c != [] ==> LookupTitle(c, title) == Suggest(Take(ListTitles(c), SuggestionLimit))
    ensures c == [] ==> GetSummaryByTitle(c, title) == NotFoundMessage
  {
    BlankKey(title);
    var ks := Keys(c);
    assert IndexGet(ks, "").None? by {
      forall i | 0 <= i < |ks| ensures ks[i] != "" {
        assert ks[i] == Norm(c[i].title);
      }
    }
    AllContaining(ks, 0);
    assert Containing(c, "") == ListTitles(c);
  }

  /** A blank title normalises to the empty key. */
  lemma BlankKey(title: string)
    requires Strip(title) == ""
    ensures Norm(title) == ""
  {
    assert Lower(Strip(title)) == "";
    assert Split("") == [];
  }
}
