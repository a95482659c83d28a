/**
 * What `yaml.safe_load` hands the catalog readers (rag/embed_store.py and
 * scripts/seed_books.py): a missing file, a document that is not a list, or a list of items.
 */
module Yaml {
  import opened Text

  /** One value read with `item.get(key)`: key absent, YAML null, or a scalar given by its `str()` text. */
  datatype Field = Absent | Null | Text(s: string)

  /** The "themes" value: absent, null, one comma-separated string, or a list of strings. */
  datatype ThemesField = NoThemes | NullThemes | ThemeText(s: string) | ThemeList(items: seq<string>)

  /** A list item: a mapping with the four catalog keys, or anything else. */
  datatype Item =
    | Mapping(title: Field, summary: Field, fullSummary: Field, themes: ThemesField)
    | NotAMapping

  /** The whole document. An empty file loads as `None`, which `or []` turns into `Items([])`. */
  datatype Document = NoFile | NotAList | Items(items: seq<Item>)

  /** `str(item.get(key, ""))`: an absent key reads as "", a null as "None". */
  function StrOf(f: Field): string {
    match f
    case Absent => ""
    case Null => "None"
    case Text(s) => s
  }

  /** `str(item.get(key, "") or "")` and `_to_str(...)`: absent and null both read as "". */
  function StrOrEmpty(f: Field): string {
    match f
    case Text(s) => s
    case _ => ""
  }

  /** `item.get("themes") or []`, a string being split on commas, each piece trimmed and the
      empty ones dropped: the rule of both catalog readers. */
  function ThemesOf(f: ThemesField): (ts: seq<string>)
    ensures f.ThemeText? ==> forall i :: 0 <= i < |ts| ==> ts[i] != "" && NoEdgeSpace(ts[i])
    ensures f.ThemeText? ==> forall i, j :: 0 <= i < |ts| && 0 <= j < |ts[i]| ==> ts[i][j] != ','
    ensures f.ThemeText? ==> ts == CommaList(f.s)
    ensures f.ThemeList? ==> ts == f.items
    ensures f.NoThemes? || f.NullThemes? ==> ts == []
  {
    match f
    case ThemeText(s) => if s == "" then (CommaListEmpty(); []) else CommaList(s)
    case ThemeList(items) => items
    case _ => []
  }
}
