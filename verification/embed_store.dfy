/**
 * The catalog side of rag/embed_store.py: title key and id slug, the row filter of
 * `load_summaries`, the documents/ids/metadata built for the vector store, and the
 * rebuild decision of `init_vector_store`. The collection client and the SHA-1
 * fingerprint are oracles.
 */
module EmbedStore {
  import opened Wrappers
  import opened Text
  import opened Yaml
  import Normalise
  import Order

  /** A kept catalog row. */
  datatype BookRow = BookRow(title: string, summary: string, fullSummary: string, themes: seq<string>)

  /** The primitive metadata stored with each document. */
  datatype Meta = Meta(title: string, themesText: string)

  /** What `collection.add` receives: three arrays aligned index for index. */
  datatype Batch = Batch(ids: seq<string>, documents: seq<string>, metas: seq<Meta>)

  /** What `init_vector_store` does with the collection. */
  datatype Plan = Reuse | Rebuild(batch: Batch, fingerprint: string)

  /** `load_summaries` raises when a list item is not a mapping (`it.get` fails). */
  datatype LoadError = ItemNotAMapping(position: nat)

  const IdPrefix: string := "id:"
  const ThemesLabel: string := "Themes: "
  const PartSeparator: string := "\n\n"
  const ThemeSeparator: string := ", "

  /** `_norm_title(s)`: `None` reads as "". */
  function NormTitle(s: Option<string>): (k: string)
    ensures s.None? || s == Some("") ==> k == ""
    ensures Canonical(k) && AllLower(k)
  {
    Normalise.NormCanonical(s.GetOr(""));
    Norm(s.GetOr(""))
  }

  // ------------------------------------------------------------------ slug

  predicate SlugChar(c: char) {
    ('a' <= c <= 'z') || ('0' <= c <= '9')
  }

  predicate NotSlugChar(c: char) {
    !SlugChar(c)
  }

  predicate NoDoubleDash(s: string) {
    forall i :: 0 <= i < |s| - 1 ==> !(s[i] == '-' && s[i + 1] == '-')
  }

  /** `re.sub(r"[^a-z0-9]+", "-", s)`. */
  function DashRuns(s: string): (r: string)
    ensures forall i :: 0 <= i < |r| ==> SlugChar(r[i]) || r[i] == '-'
    ensures NoDoubleDash(r)
    ensures s != [] && SlugChar(s[0]) ==> r != [] && r[0] == s[0]
    ensures s != [] && !SlugChar(s[0]) ==> r != [] && r[0] == '-'
    decreases |s|
  {
    if s == [] then []
    else if SlugChar(s[0]) then [s[0]] + DashRuns(s[1..])
    else "-" + DashRuns(s[RunLen(s, NotSlugChar)..])
  }

  /** `d.strip("-")` of a string of slug characters and single dashes: the dash-free edges
      leave only inner single dashes. */
  function TrimDashes(d: string): (r: string)
    requires forall i :: 0 <= i < |d| ==> SlugChar(d[i]) || d[i] == '-'
    requires NoDoubleDash(d)
    ensures forall i :: 0 <= i < |r| ==> SlugChar(r[i]) || r[i] == '-'
    ensures r == [] || (r[0] != '-' && r[|r| - 1] != '-')
    ensures NoDoubleDash(r)
  {
    var t := d[StripStart(d, '-')..];
    var r := StripChar(d, '-');
    assert r == DropTrailing(t, '-') == t[..|r|];
    assert forall i :: 0 <= i < |t| ==> SlugChar(t[i]) || t[i] == '-';
    assert NoDoubleDash(t);
    r
  }

  /** `_slug(s)`: only `a-z`, `0-9` and `-`, never a `-` at either end, never two in a row. */
  function Slug(s: string): (r: string)
    ensures forall i :: 0 <= i < |r| ==> SlugChar(r[i]) || r[i] == '-'
    ensures r == [] || (r[0] != '-' && r[|r| - 1] != '-')
    ensures NoDoubleDash(r)
  {
    TrimDashes(DashRuns(NormTitle(Some(s))))
  }

  /** Strings already in slug form: slug characters and single inner dashes. */
  predicate IsSlug(s: string) {
    && (forall i :: 0 <= i < |s| ==> SlugChar(s[i]) || s[i] == '-')
    && (s == [] || (s[0] != '-' && s[|s| - 1] != '-'))
    && NoDoubleDash(s)
  }

  /** Replacing runs of non-slug characters changes nothing when every dash stands alone. */
  lemma {:induction false} DashRunsFixed(s: string)
    requires forall i :: 0 <= i < |s| ==> SlugChar(s[i]) || s[i] == '-'
    requires NoDoubleDash(s)
    requires s == [] || s[0] != '-' || |s| == 1 || SlugChar(s[1])
    ensures DashRuns(s) == s
    decreases |s|
  {
    if s != [] {
      var t := s[1..];
      if SlugChar(s[0]) {
        if t != [] && t[0] == '-' {
          assert |t| == 1 || !(s[1] == '-' && s[2] == '-');
        }
        DashRunsFixed(t);
        assert s == [s[0]] + t;
      } else {
        assert RunLen(s, NotSlugChar) == 1;
        DashRunsFixed(t);
        assert s == "-" + t;
      }
    }
  }

  /** A slug is its own slug: `_slug` is idempotent. */
  lemma SlugIdempotent(s: string)
    ensures IsSlug(Slug(s))
    ensures Slug(Slug(s)) == Slug(s)
  {
    var k := Slug(s);
    SlugFixed(k);
  }

  /** A string in slug form is its own slug. */
  lemma SlugFixed(k: string)
    requires IsSlug(k)
    ensures Slug(k) == k
  {
    assert Canonical(k) && AllLower(k) by {
      forall i | 0 <= i < |k| ensures !IsSpace(k[i]) && !IsUpper(k[i]) {
        assert SlugChar(k[i]) || k[i] == '-';
      }
    }
    Normalise.NormFixed(k);
    assert NormTitle(Some(k)) == k;
    DashRunsFixed(k);
    assert StripChar(k, '-') == k;
  }

  // ------------------------------------------------------------------ load_summaries

  /** The row `load_summaries` builds from a mapping, kept or not. */
  function RowOf(title: Field, summary: Field, fullSummary: Field, themes: ThemesField): BookRow {
    BookRow(Strip(StrOf(title)), Strip(StrOf(summary)), Strip(StrOrEmpty(fullSummary)), ThemesOf(themes))
  }

  /** `if title and (summary or full)`. */
  predicate Keep(r: BookRow) {
    r.title != "" && (r.summary != "" || r.fullSummary != "")
  }

  /** A row as `load_summaries` returns it: kept, and its text fields stripped. */
  predicate Loaded(r: BookRow) {
    Keep(r) && NoEdgeSpace(r.title) && NoEdgeSpace(r.summary) && NoEdgeSpace(r.fullSummary)
  }

  /** The row built from a list item, or `None` for an item that is not a mapping. */
  function RowAt(it: Item): Option<BookRow> {
    match it
    case Mapping(t, s, f, th) => Some(RowOf(t, s, f, th))
    case NotAMapping => None
  }

  /** Every text field of a built row is stripped. */
  predicate Stripped(r: BookRow) {
    NoEdgeSpace(r.title) && NoEdgeSpace(r.summary) && NoEdgeSpace(r.fullSummary)
  }

  lemma RowOfStripped(it: Item)
    requires it.Mapping?
    ensures Stripped(RowAt(it).value)
  {
    var t := Strip(StrOf(it.title));
    var s := Strip(StrOf(it.summary));
    var f := Strip(StrOrEmpty(it.fullSummary));
    assert RowAt(it).value == BookRow(t, s, f, ThemesOf(it.themes));
  }

  lemma RowsStripped(items: seq<Item>)
    ensures forall i :: 0 <= i < |items| && Rows(items)[i].Some? ==> Stripped(Rows(items)[i].value)
  {
    forall i | 0 <= i < |items| && Rows(items)[i].Some? ensures Stripped(Rows(items)[i].value) {
      RowOfStripped(items[i]);
    }
  }

  /** The filter keeps only rows it was given, so it keeps their being stripped. */
  lemma {:induction false} FilterStripped(rs: seq<Option<BookRow>>, from: nat)
    requires from <= |rs|
    requires forall i :: from <= i < |rs| && rs[i].Some? ==> Stripped(rs[i].value)
    ensures Filter(rs, from).Success? ==> forall k :: 0 <= k < |Filter(rs, from).value| ==> Stripped(Filter(rs, from).value[k])
    decreases |rs| - from
  {
    if from < |rs| {
      FilterStripped(rs, from + 1);
    }
  }

  /** The row of every list item, in order. */
  function Rows(items: seq<Item>): (rs: seq<Option<BookRow>>)
    ensures |rs| == |items|
    ensures forall i :: 0 <= i < |items| ==> rs[i] == RowAt(items[i])
  {
    seq(|items|, i requires 0 <= i < |items| => RowAt(items[i]))
  }

  /** Some item from position `from` on is not a mapping. */
  predicate HasNonMapping(rs: seq<Option<BookRow>>, from: nat)
    requires from <= |rs|
  {
    exists i :: from <= i < |rs| && rs[i].None?
  }

  /** The loop of `load_summaries` over the items from position `from` on, each given by its row. */
  function Filter(rs: seq<Option<BookRow>>, from: nat): (r: Result<seq<BookRow>, LoadError>)
    requires from <= |rs|
    ensures r.Success? ==> forall k :: 0 <= k < |r.value| ==> Keep(r.value[k])
    ensures r.Success? ==> |r.value| <= |rs| - from
    decreases |rs| - from
  {
    if from == |rs| then Success([])
    else match rs[from]
      case None => Failure(ItemNotAMapping(from))
      case Some(row) =>
        var rest := Filter(rs, from + 1);
        if rest.Failure? then rest
        else if Keep(row) then Success([row] + rest.value) else rest
  }

  /** `load_summaries()`. */
  function LoadSummaries(doc: Document): (r: Result<seq<BookRow>, LoadError>)
    ensures doc.NoFile? || doc.NotAList? ==> r == Success([])
    ensures doc.Items? ==> r == Filter(Rows(doc.items), 0)
    ensures r.Success? ==> forall k :: 0 <= k < |r.value| ==> Loaded(r.value[k])
  {
    match doc
    case Items(items) =>
      RowsStripped(items);
      FilterStripped(Rows(items), 0);
      Filter(Rows(items), 0)
    case _ => Success([])
  }

  /** Loading fails exactly when some list item is not a mapping. */
  lemma {:induction false} FilterFailsIff(rs: seq<Option<BookRow>>, from: nat)
    requires from <= |rs|
    ensures Filter(rs, from).Failure? <==> HasNonMapping(rs, from)
    decreases |rs| - from
  {
    if from < |rs| {
      FilterFailsIff(rs, from + 1);
      if rs[from].Some? {
        if HasNonMapping(rs, from) {
          var i :| from <= i < |rs| && rs[i].None?;
          assert i != from;
        }
      }
    }
  }

  /** Every item whose row passes the filter has its row in the output. */
  lemma {:induction false} FilterKeepsAll(rs: seq<Option<BookRow>>, from: nat)
    requires from <= |rs|
    requires Filter(rs, from).Success?
    ensures forall i :: from <= i < |rs| && rs[i].Some? && Keep(rs[i].value) ==> rs[i].value in Filter(rs, from).value
    decreases |rs| - from
  {
    if from < |rs| {
      FilterKeepsAll(rs, from + 1);
    }
  }

  /** Every output row is the row of some item. */
  lemma {:induction false} FilterKeepsOnly(rs: seq<Option<BookRow>>, from: nat)
    requires from <= |rs|
    requires Filter(rs, from).Success?
    ensures forall x :: x in Filter(rs, from).value ==> exists i :: from <= i < |rs| && rs[i] == Some(x)
    decreases |rs| - from
  {
    if from < |rs| {
      FilterKeepsOnly(rs, from + 1);
      var rest := Filter(rs, from + 1).value;
      forall x | x in Filter(rs, from).value ensures exists i :: from <= i < |rs| && rs[i] == Some(x) {
        if x !in rest {
          assert rs[from] == Some(x);
        }
      }
    }
  }

  /** Positions, from `from` on, of the items whose row passes the filter, in order. */
  function KeptAt(rs: seq<Option<BookRow>>, from: nat): (ps: seq<nat>)
    requires from <= |rs|
    ensures forall k :: 0 <= k < |ps| ==> from <= ps[k] < |rs| && rs[ps[k]].Some? && Keep(rs[ps[k]].value)
    ensures forall k, l :: 0 <= k < l < |ps| ==> ps[k] < ps[l]
    decreases |rs| - from
  {
    if from == |rs| then []
    else if rs[from].Some? && Keep(rs[from].value) then [from] + KeptAt(rs, from + 1)
    else KeptAt(rs, from + 1)
  }

  /** Every position whose row passes the filter is listed. */
  lemma {:induction false} KeptAtComplete(rs: seq<Option<BookRow>>, from: nat, i: nat)
    requires from <= i < |rs| && rs[i].Some? && Keep(rs[i].value)
    ensures i in KeptAt(rs, from)
    decreases |rs| - from
  {
    if from < i {
      KeptAtComplete(rs, from + 1, i);
    }
  }

  /** The filter's output is the kept rows in input order, one per kept item. */
  lemma {:induction false} FilterInOrder(rs: seq<Option<BookRow>>, from: nat)
    requires from <= |rs|
    requires Filter(rs, from).Success?
    ensures var ps := KeptAt(rs, from);
      && |Filter(rs, from).value| == |ps|
      && forall k :: 0 <= k < |ps| ==> Filter(rs, from).value[k] == rs[ps[k]].value
    decreases |rs| - from
  {
    if from < |rs| {
      FilterInOrder(rs, from + 1);
    }
  }

  /** A loaded document lists the rows of the kept items in input order, each once: the k-th
      row comes from the k-th kept item, and every mapping whose row passes the filter is one
      of the kept items. */
  lemma LoadInOrder(items: seq<Item>)
    ensures LoadSummaries(Items(items)).Success? ==>
      var ps := KeptAt(Rows(items), 0);
      var v := LoadSummaries(Items(items)).value;
      && |v| == |ps|
      && (forall k :: 0 <= k < |ps| ==> items[ps[k]].Mapping? && v[k] == RowAt(items[ps[k]]).value)
      && (forall k, l :: 0 <= k < l < |ps| ==> ps[k] < ps[l])
      && (forall i :: 0 <= i < |items| && items[i].Mapping? && Keep(RowAt(items[i]).value) ==> i in ps)
  {
    var rs := Rows(items);
    if Filter(rs, 0).Success? {
      FilterInOrder(rs, 0);
    }
    forall i | 0 <= i < |items| && items[i].Mapping? && Keep(RowAt(items[i]).value)
      ensures i in KeptAt(rs, 0)
    {
      KeptAtComplete(rs, 0, i);
    }
  }

  /** Loading a document: it fails exactly when a list item is not a mapping; otherwise the
      result holds the row of every item that passes the filter, and nothing else. */
  lemma LoadExactly(items: seq<Item>)
    ensures LoadSummaries(Items(items)).Failure? <==> exists i :: 0 <= i < |items| && items[i].NotAMapping?
    ensures LoadSummaries(Items(items)).Success? ==>
      && (forall i :: 0 <= i < |items| && items[i].Mapping? && Keep(RowAt(items[i]).value) ==>
            RowAt(items[i]).value in LoadSummaries(Items(items)).value)
      && (forall x :: x in LoadSummaries(Items(items)).value ==>
            exists i :: 0 <= i < |items| && items[i].Mapping? && RowAt(items[i]) == Some(x))
  {
    var rs := Rows(items);
    FilterFailsIff(rs, 0);
    if HasNonMapping(rs, 0) {
      var i :| 0 <= i < |rs| && rs[i].None?;
      assert items[i].NotAMapping?;
    }
    if Filter(rs, 0).Success? {
      FilterKeepsAll(rs, 0);
      FilterKeepsOnly(rs, 0);
    }
  }

  // ------------------------------------------------------------------ documents

  /** The "Themes: ..." part of a document. */
  function ThemesLine(r: BookRow): string {
    ThemesLabel + Join(ThemeSeparator, r.themes)
  }

  /** The non-empty parts of a row's document: summary, full summary, "Themes: ..." line. */
  function Parts(r: BookRow): (ps: seq<string>)
    ensures |ps| <= 3
    ensures forall i :: 0 <= i < |ps| ==> ps[i] != ""
    ensures ps == [] <==> r.summary == "" && r.fullSummary == "" && r.themes == []
    ensures r.summary != "" <==> r.summary in ps
    ensures r.fullSummary != "" <==> r.fullSummary in ps
    ensures r.themes != [] ==> ThemesLine(r) in ps
    ensures r.summary != "" ==> ps[0] == r.summary
    ensures r.summary == "" && r.fullSummary != "" ==> ps[0] == r.fullSummary
    ensures r.summary != "" && r.fullSummary != "" ==> |ps| >= 2 && ps[1] == r.fullSummary
    ensures r.themes != [] ==> ps[|ps| - 1] == ThemesLine(r)
  {
    (if r.summary != "" then [r.summary] else [])
    + (if r.fullSummary != "" then [r.fullSummary] else [])
    + (if r.themes != [] then [ThemesLine(r)] else [])
  }

  /** `"\n\n".join(parts).strip()`. */
  function DocText(r: BookRow): string {
    Strip(Join(PartSeparator, Parts(r)))
  }

  /** The text parts of a document, before the themes line. */
  function TextHead(r: BookRow): string {
    if r.summary != "" && r.fullSummary != "" then r.summary + PartSeparator + r.fullSummary
    else if r.summary != "" then r.summary
    else r.fullSummary
  }

  /** What follows the text parts: a blank line and the themes line, or nothing. */
  function ThemesTail(r: BookRow): string {
    if r.themes != [] then PartSeparator + ThemesLine(r) else ""
  }

  /** For a loaded row the document opens with its summary (or, lacking one, its full summary),
      holds both texts, and is exactly the parts joined by blank lines unless the themes line
      ends in whitespace. */
  lemma DocTextHoldsParts(r: BookRow)
    requires Loaded(r)
    ensures |Parts(r)[0]| <= |DocText(r)| && DocText(r)[..|Parts(r)[0]|] == Parts(r)[0]
    ensures Contains(DocText(r), r.summary) && Contains(DocText(r), r.fullSummary)
    ensures r.themes == [] || NoEdgeSpace(ThemesLine(r)) ==> DocText(r) == Join(PartSeparator, Parts(r))
  {
    DocTextHeadThenTail(r);
    HeadHoldsTexts(r, TrimEnd(ThemesTail(r)));
    if r.themes != [] && NoEdgeSpace(ThemesLine(r)) {
      var tail := ThemesTail(r);
      assert tail[|tail| - 1] == ThemesLine(r)[|ThemesLine(r)| - 1];
      TrimEndKeeps(tail);
      DocTextSplits(r);
    } else if r.themes == [] {
      DocTextSplits(r);
    }
  }

  /** A loaded row's document is its text parts, then the themes tail with its end trimmed. */
  lemma DocTextHeadThenTail(r: BookRow)
    requires Loaded(r)
    ensures DocText(r) == TextHead(r) + TrimEnd(ThemesTail(r))
  {
    DocTextSplits(r);
    HeadUnpadded(r);
    StripKeepsHead(TextHead(r), ThemesTail(r));
  }

  /** Whatever follows them, the text parts open with the first part and hold both texts. */
  lemma HeadHoldsTexts(r: BookRow, rest: string)
    requires Loaded(r)
    ensures |Parts(r)[0]| <= |TextHead(r) + rest| && (TextHead(r) + rest)[..|Parts(r)[0]|] == Parts(r)[0]
    ensures Contains(TextHead(r) + rest, r.summary) && Contains(TextHead(r) + rest, r.fullSummary)
  {
    var s, f := r.summary, r.fullSummary;
    if s != "" && f != "" {
      assert TextHead(r) + rest == s + (PartSeparator + f + rest);
      ContainsMiddle("", s, PartSeparator + f + rest);
      assert TextHead(r) + rest == s + PartSeparator + f + rest;
      ContainsMiddle(s + PartSeparator, f, rest);
    } else if s != "" {
      ContainsMiddle("", s, rest);
      ContainsMiddle(s, "", rest);
    } else {
      ContainsMiddle("", f, rest);
      ContainsMiddle(f, "", rest);
    }
  }

  /** The document text before stripping is the text parts, then the themes line if any. */
  lemma DocTextSplits(r: BookRow)
    requires Loaded(r)
    ensures Join(PartSeparator, Parts(r)) == TextHead(r) + ThemesTail(r)
  {
    var sep := PartSeparator;
    var tp := (if r.summary != "" then [r.summary] else []) + (if r.fullSummary != "" then [r.fullSummary] else []);
    assert Join(sep, tp) == TextHead(r) by {
      if r.summary != "" && r.fullSummary != "" {
        assert tp == [r.summary, r.fullSummary] && tp[1..] == [r.fullSummary];
      } else {
        assert tp == [TextHead(r)];
      }
    }
    if r.themes != [] {
      assert Parts(r) == tp + [ThemesLine(r)];
      JoinSnoc(sep, tp, ThemesLine(r));
    } else {
      assert Parts(r) == tp;
    }
  }

  /** The text parts of a loaded row start and end with characters that are not whitespace. */
  lemma HeadUnpadded(r: BookRow)
    requires Loaded(r)
    ensures TextHead(r) != [] && NoEdgeSpace(TextHead(r))
  {
    var h := TextHead(r);
    if r.summary != "" && r.fullSummary != "" {
      assert h[0] == r.summary[0];
      assert h[|h| - 1] == r.fullSummary[|r.fullSummary| - 1];
    }
  }

  /** A row that passed `load_summaries` always yields a non-empty document. */
  lemma KeptRowHasText(r: BookRow)
    requires Loaded(r)
    ensures DocText(r) != ""
  {
    var ps := Parts(r);
    var first := if r.summary != "" then r.summary else r.fullSummary;
    assert ps[0] == first;
    JoinStartsWith(PartSeparator, ps);
    var j := Join(PartSeparator, ps);
    assert j[0] == first[0];
    assert !AllSpace(j);
  }

  /** A join of non-empty parts starts with the first part's first character. */
  lemma JoinStartsWith(sep: string, ps: seq<string>)
    requires ps != [] && ps[0] != ""
    ensures |Join(sep, ps)| > 0 && Join(sep, ps)[0] == ps[0][0]
  {
  }

  /** The rows that become documents: those whose text is non-empty, in order. */
  function Indexed(rows: seq<BookRow>): (r: seq<BookRow>)
    ensures forall k :: 0 <= k < |r| ==> r[k] in rows && DocText(r[k]) != ""
    ensures forall x :: x in rows && DocText(x) != "" ==> x in r
    ensures |r| <= |rows|
  {
    if rows == [] then []
    else if DocText(rows[0]) != "" then [rows[0]] + Indexed(rows[1..])
    else Indexed(rows[1..])
  }

  /** The metadata stored with a document: the title and `themes_txt`, the themes joined by ", ". */
  function MetaOf(r: BookRow): Meta {
    Meta(r.title, if r.themes != [] then Join(ThemeSeparator, r.themes) else "")
  }

  /** `themes_txt` reads back as the row's themes under the comma rule of the catalog readers,
      whenever each theme is non-empty, unpadded and free of commas, as every theme read
      from a comma string is. */
  lemma MetaThemesReadBack(r: BookRow)
    requires forall i :: 0 <= i < |r.themes| ==> r.themes[i] != "" && NoEdgeSpace(r.themes[i])
    requires forall i, j :: 0 <= i < |r.themes| && 0 <= j < |r.themes[i]| ==> r.themes[i][j] != ','
    ensures CommaList(MetaOf(r).themesText) == r.themes
  {
    if r.themes == [] {
      CommaListEmpty();
    } else {
      CommaListJoin(r.themes);
    }
  }

  /** A theme string stored back as `themes_txt` reads as the same themes again. */
  lemma ThemeTextStable(s: string)
    ensures CommaList(Join(ThemeSeparator, ThemesOf(ThemeText(s)))) == ThemesOf(ThemeText(s))
  {
    CommaListJoin(ThemesOf(ThemeText(s)));
  }

  /** The arrays handed to `collection.add`. */
  function BuildBatch(rows: seq<BookRow>): (b: Batch)
    ensures |b.ids| == |Indexed(rows)| && |b.documents| == |Indexed(rows)| && |b.metas| == |Indexed(rows)|
    ensures forall k :: 0 <= k < |b.ids| ==> b.ids[k] == IdPrefix + Slug(Indexed(rows)[k].title)
    ensures forall k :: 0 <= k < |b.documents| ==> b.documents[k] == DocText(Indexed(rows)[k]) && b.documents[k] != ""
    ensures forall k :: 0 <= k < |b.metas| ==> b.metas[k].title == Indexed(rows)[k].title
    ensures forall k :: 0 <= k < |b.metas| ==>
      b.metas[k].themesText == (if Indexed(rows)[k].themes != [] then Join(ThemeSeparator, Indexed(rows)[k].themes) else "")
  {
    var ix := Indexed(rows);
    Batch(
      seq(|ix|, k requires 0 <= k < |ix| => IdPrefix + Slug(ix[k].title)),
      seq(|ix|, k requires 0 <= k < |ix| => DocText(ix[k])),
      seq(|ix|, k requires 0 <= k < |ix| => MetaOf(ix[k])))
  }

  /** Every loaded row is indexed: after `load_summaries`, no row is skipped for an empty document. */
  lemma LoadedRowsAllIndexed(rows: seq<BookRow>)
    requires forall k :: 0 <= k < |rows| ==> Loaded(rows[k])
    ensures Indexed(rows) == rows
  {
    forall k | 0 <= k < |rows| ensures DocText(rows[k]) != "" {
      KeptRowHasText(rows[k]);
    }
    IndexedAll(rows);
  }

  /** Rows that all have text are all indexed. */
  lemma {:induction false} IndexedAll(rows: seq<BookRow>)
    requires forall k :: 0 <= k < |rows| ==> DocText(rows[k]) != ""
    ensures Indexed(rows) == rows
  {
    if rows != [] {
      IndexedAll(rows[1..]);
      assert rows == [rows[0]] + rows[1..];
    }
  }

  // ------------------------------------------------------------------ init_vector_store

  /** `(x["t"] or "").lower()`, the sort key of the fingerprint. */
  function TitleKey(r: BookRow): string {
    Lower(r.title)
  }

  /** `_fingerprint(rows)`: the rows, each as its four fields, sorted by lower-cased title and
      hashed. `digest` stands for the JSON dump and the SHA-1 hex digest. */
  function Fingerprint(rows: seq<BookRow>, digest: seq<BookRow> -> string): (fp: string)
    ensures exists sorted :: Order.SortedBy(sorted, TitleKey) && multiset(sorted) == multiset(rows) && fp == digest(sorted)
  {
    var sorted := Order.SortBy(rows, TitleKey);
    assert Order.SortedBy(sorted, TitleKey) && multiset(sorted) == multiset(rows);
    digest(sorted)
  }

  /** The fingerprint does not depend on the order of the catalog when no two titles are equal
      ignoring case: reordering the YAML file does not cause a rebuild. */
  lemma FingerprintIgnoresOrder(rows1: seq<BookRow>, rows2: seq<BookRow>, digest: seq<BookRow> -> string)
    requires multiset(rows1) == multiset(rows2)
    requires forall a, b :: a in rows1 && b in rows1 && TitleKey(a) == TitleKey(b) ==> a == b
    ensures Fingerprint(rows1, digest) == Fingerprint(rows2, digest)
  {
    Order.SortForgetsOrder(rows1, rows2, TitleKey);
  }

  /** `need_rebuild = (coll is None) or (fp_old != fp_new)`; a missing fingerprint file is `None`. */
  predicate NeedRebuild(collectionAvailable: bool, fpOld: Option<string>, fpNew: string) {
    !collectionAvailable || fpOld != Some(fpNew)
  }

  /** `init_vector_store(summaries)`: rebuild from the rows and record the new fingerprint, or
      reuse the collection. `fpFile` is the content of `books.sha1`, if the file exists. */
  function InitVectorStore(rows: seq<BookRow>, fpFile: Option<string>, collectionAvailable: bool,
                           digest: seq<BookRow> -> string): (p: Plan)
    ensures var fp := Fingerprint(rows, digest);
      p.Rebuild? <==> !collectionAvailable || fpFile.None? || Strip(fpFile.value) != fp
    ensures p.Rebuild? ==> p.fingerprint == Fingerprint(rows, digest) && p.batch == BuildBatch(rows)
  {
    var fpNew := Fingerprint(rows, digest);
    var fpOld := if fpFile.Some? then Some(Strip(fpFile.value)) else None;
    if NeedRebuild(collectionAvailable, fpOld, fpNew) then Rebuild(BuildBatch(rows), fpNew)
    else Reuse
  }

  /** After a rebuild has written its fingerprint, the same rows against an available
      collection are reused (a hex digest has no surrounding whitespace to strip). */
  lemma RebuildThenReuse(rows: seq<BookRow>, fpFile: Option<string>, available: bool, digest: seq<BookRow> -> string)
    requires InitVectorStore(rows, fpFile, available, digest).Rebuild?
    requires NoEdgeSpace(Fingerprint(rows, digest))
    ensures InitVectorStore(rows, Some(InitVectorStore(rows, fpFile, available, digest).fingerprint), true, digest) == Reuse
  {
  }
}
