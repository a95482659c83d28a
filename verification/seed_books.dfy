/**
 * The merge of scripts/seed_books.py: existing catalog records and the built-in books are
 * indexed by normalised title (later writes win, first insertion fixes the slot), then written
 * out sorted by that title; and the rule that makes the YAML dumper double-quote numeric-looking
 * strings. The file itself and the dumper are left out.
 */
module SeedBooks {
  import opened Wrappers
  import opened Text
  import opened Yaml
  import Order
  import Normalise
  import Dict
  import opened Numerals

  /** A built-in book after its fields were coerced to strings. */
  datatype Book = Book(title: string, summary: string, fullSummary: string, themes: seq<string>)

  /** A record of the merged catalog: an existing item kept as it was read, or a built-in book. */
  datatype Record = Kept(item: Item) | BuiltIn(book: Book)

  /** How the dumper writes a string scalar. */
  datatype Style = DoubleQuoted | Plain

  /** `_to_str(s)`: `None` is "", anything else its `str()`. */
  function ToStr(f: Field): (s: string)
    ensures f.Null? || f.Absent? ==> s == ""
    ensures f.Text? ==> s == f.s
  {
    StrOrEmpty(f)
  }

  /** `_norm_title(s)`. */
  function NormTitle(f: Field): (k: string)
    ensures f.Null? ==> k == ""
  {
    Norm(ToStr(f))
  }

  /** Titles are keyed trimmed, lower-cased and single-spaced. */
  lemma NormTitleShape(f: Field)
    ensures Canonical(NormTitle(f)) && AllLower(NormTitle(f))
  {
    Normalise.NormCanonical(ToStr(f));
  }

  // ------------------------------------------------------------------ numeric-looking strings

  /** Length of the run of decimal digits at the start of `s`. */
  function Digits(s: string): (n: nat)
    ensures n <= |s|
    ensures forall i :: 0 <= i < n ==> IsDigit(s[i])
    ensures n == |s| || !IsDigit(s[n])
  {
    RunLen(s, IsDigit)
  }

  /** The optional leading sign of `s`. */
  function Sign(s: string): (sign: string)
    ensures sign == "" || sign == "+" || sign == "-"
  {
    if s != [] && (s[0] == '+' || s[0] == '-') then [s[0]] else ""
  }

  /** `s` without an optional leading sign. */
  function Unsigned(s: string): (t: string)
    ensures s == Sign(s) + t
  {
    if s != [] && (s[0] == '+' || s[0] == '-') then s[1..] else s
  }

  /** `re.fullmatch(r"[+-]?\d+(?:\.\d+)?", s)`, scanned left to right. */
  predicate NumericLike(s: string) {
    UnsignedNumber(Unsigned(s))
  }

  /** `\d+(?:\.\d+)?` matched against all of `t`. */
  predicate UnsignedNumber(t: string) {
    var n := Digits(t);
    n > 0 && (n == |t| || (t[n] == '.' && n + 1 < |t| && Digits(t[n + 1..]) == |t| - n - 1))
  }

  /** `_repr_str`: numeric-looking strings are double-quoted so they read back as strings. */
  function Represent(s: string): (st: Style)
    ensures st == DoubleQuoted <==> NumericLike(s)
  {
    if NumericLike(s) then DoubleQuoted else Plain
  }

  /** The grammar of the pattern: an optional sign, one or more digits, then optionally a dot and
      one or more digits. */
  predicate Decomposes(s: string, sign: string, whole: string, frac: string) {
    && (sign == "" || sign == "+" || sign == "-")
    && whole != [] && AllDigits(whole)
    && (frac == [] || (frac[0] == '.' && |frac| >= 2 && AllDigits(frac[1..])))
    && s == sign + whole + frac
  }

  lemma DigitsOfAllDigits(d: string, rest: string)
    requires AllDigits(d)
    requires rest == [] || !IsDigit(rest[0])
    ensures Digits(d + rest) == |d|
    decreases |d|
  {
    if d != [] {
      assert (d + rest)[1..] == d[1..] + rest;
      DigitsOfAllDigits(d[1..], rest);
    } else {
      assert d + rest == rest;
    }
  }

  /** What the scan accepts, the grammar generates. */
  lemma NumericLikeDecomposes(s: string)
    requires NumericLike(s)
    ensures exists sign, whole, frac :: Decomposes(s, sign, whole, frac)
  {
    var t := Unsigned(s);
    assert UnsignedNumber(t);
    var n := Digits(t);
    var whole := t[..n];
    var frac := t[n..];
    FracDigits(t, n);
    assert t == whole + frac;
    assert s == Sign(s) + whole + frac;
    assert Decomposes(s, Sign(s), whole, frac);
  }

  /** After the leading digits, an accepted string has nothing, or a dot and more digits. */
  lemma FracDigits(t: string, n: nat)
    requires n == Digits(t) && n > 0
    requires n == |t| || (t[n] == '.' && n + 1 < |t| && Digits(t[n + 1..]) == |t| - n - 1)
    ensures AllDigits(t[..n])
    ensures t[n..] == [] || (t[n..][0] == '.' && |t[n..]| >= 2 && AllDigits(t[n..][1..]))
  {
    if n < |t| {
      var d := t[n + 1..];
      assert t[n..][1..] == d;
      assert AllDigits(d);
    }
  }

  /** What the grammar generates, the scan accepts. */
  lemma DecomposesNumericLike(s: string, sign: string, whole: string, frac: string)
    requires Decomposes(s, sign, whole, frac)
    ensures NumericLike(s)
  {
    var t := whole + frac;
    assert Sign(s) == sign by {
      if sign == "" {
        assert s == t && IsDigit(s[0]);
      }
    }
    assert Unsigned(s) == t;
    WholeFracNumber(whole, frac);
  }

  /** Digits, optionally followed by a dot and digits, form an unsigned number. */
  lemma WholeFracNumber(whole: string, frac: string)
    requires whole != [] && AllDigits(whole)
    requires frac == [] || (frac[0] == '.' && |frac| >= 2 && AllDigits(frac[1..]))
    ensures UnsignedNumber(whole + frac)
  {
    var t := whole + frac;
    DigitsOfAllDigits(whole, frac);
    if frac != [] {
      var d := frac[1..];
      assert t[|whole| + 1..] == d;
      DigitsOfAllDigits(d, []);
      assert d + [] == d;
    }
  }

  /** The left-to-right scan accepts exactly the strings the pattern's grammar generates. */
  lemma NumericLikeIff(s: string)
    ensures NumericLike(s) <==> exists sign, whole, frac :: Decomposes(s, sign, whole, frac)
  {
    if NumericLike(s) {
      NumericLikeDecomposes(s);
    }
    if exists sign, whole, frac :: Decomposes(s, sign, whole, frac) {
      var sign, whole, frac :| Decomposes(s, sign, whole, frac);
      DecomposesNumericLike(s, sign, whole, frac);
    }
  }

  /** "1984" is written quoted, so the title reads back as a string and not as a number. */
  lemma NineteenEightyFour()
    ensures Represent("1984") == DoubleQuoted
    ensures Represent("1984a") == Plain
  {
    assert Decomposes("1984", "", "1984", "");
    DecomposesNumericLike("1984", "", "1984", "");
    assert Digits("1984a") == 4 by {
      DigitsOfAllDigits("1984", "a");
      assert "1984" + "a" == "1984a";
    }
  }

  // ------------------------------------------------------------------ the index

  /** The key of a record under which the index stores it and by which the output is sorted. */
  function Key(r: Record): string {
    match r
    case Kept(it) => if it.Mapping? then NormTitle(it.title) else ""
    case BuiltIn(b) => NormTitle(Text(b.title))
  }

  // ------------------------------------------------------------------ merge

  /** The existing records `merge` indexes: a non-list document gives none; list items that are
      not mappings or have no "title" key are dropped. */
  function Existing(doc: Document): (rs: seq<Record>)
    ensures !doc.Items? ==> rs == []
    ensures forall i :: 0 <= i < |rs| ==> rs[i].Kept? && rs[i].item.Mapping? && !rs[i].item.title.Absent?
    ensures doc.Items? ==> forall it :: it in doc.items && it.Mapping? && !it.title.Absent? ==> Kept(it) in rs
  {
    if !doc.Items? then []
    else Indexable(doc.items)
  }

  function Indexable(items: seq<Item>): (rs: seq<Record>)
    ensures forall i :: 0 <= i < |rs| ==> rs[i].Kept? && rs[i].item.Mapping? && !rs[i].item.title.Absent?
    ensures forall it :: it in items && it.Mapping? && !it.title.Absent? ==> Kept(it) in rs
    ensures forall r :: r in rs ==> r.item in items
  {
    if items == [] then []
    else
      var rest := Indexable(items[1..]);
      if items[0].Mapping? && !items[0].title.Absent? then [Kept(items[0])] + rest else rest
  }

  /** The coercions applied to a built-in book: every field through `_to_str`, themes through the
      comma rule. */
  function Coerce(b: Item): (book: Book)
    requires b.Mapping?
    ensures book.title == ToStr(b.title) && book.summary == ToStr(b.summary) && book.fullSummary == ToStr(b.fullSummary)
    ensures book.themes == ThemesOf(b.themes)
  {
    Book(ToStr(b.title), ToStr(b.summary), ToStr(b.fullSummary), ThemesOf(b.themes))
  }

  /** The records written, in order: existing ones first, then the built-in books. */
  function Writes(doc: Document, books: seq<Item>): (rs: seq<Record>)
    requires forall i :: 0 <= i < |books| ==> books[i].Mapping?
  {
    Existing(doc) + BuiltIns(books)
  }

  /** The built-in books, coerced, as records. */
  function BuiltIns(books: seq<Item>): (rs: seq<Record>)
    requires forall i :: 0 <= i < |books| ==> books[i].Mapping?
    ensures |rs| == |books|
    ensures forall i :: 0 <= i < |books| ==> rs[i] == BuiltIn(Coerce(books[i]))
  {
    seq(|books|, i requires 0 <= i < |books| => BuiltIn(Coerce(books[i])))
  }

  /** The index after all writes. */
  function Index(doc: Document, books: seq<Item>): (ix: Dict.Dict<Record>)
    requires forall i :: 0 <= i < |books| ==> books[i].Mapping?
    ensures Dict.DistinctKeys(ix)
  {
    Dict.AssignAll([], Dict.Keyed(Writes(doc, books), Key))
  }

  /** `merge()`: the list written back to the catalog file, `index` values sorted by normalised title. */
  function Merge(doc: Document, books: seq<Item>): (out: seq<Record>)
    requires forall i :: 0 <= i < |books| ==> books[i].Mapping?
    ensures Order.SortedBy(out, Key)
    ensures multiset(out) == multiset(Dict.Values(Index(doc, books)))
  {
    Order.SortBy(Dict.Values(Index(doc, books)), Key)
  }

  /** The merged catalog holds, for every normalised title, exactly the record last written under
      it and nothing else: a built-in book replaces any existing record with the same key (and an
      earlier built-in with that key), existing records are otherwise kept, and no title is
      duplicated. */
  lemma MergeContents(doc: Document, books: seq<Item>)
    requires forall i :: 0 <= i < |books| ==> books[i].Mapping?
    ensures var out := Merge(doc, books);
      forall i, j :: 0 <= i < j < |out| ==> Key(out[i]) != Key(out[j])
    ensures var out := Merge(doc, books);
      forall r :: r in out <==> Dict.LastWith(Dict.Keyed(Writes(doc, books), Key), Key(r)) == Some(r)
  {
    var es := Dict.Keyed(Writes(doc, books), Key);
    Dict.AssignAllKeyed(es, Key);
    Dict.ArrangedValues(Index(doc, books), Key, Merge(doc, books));
    forall r {
      Dict.AssignAllGet([], es, Key(r));
    }
  }

  /** A built-in book that no later built-in shares a key with is the last write under its key. */
  lemma LastIsBuiltIn(doc: Document, books: seq<Item>, i: nat)
    requires forall k :: 0 <= k < |books| ==> books[k].Mapping?
    requires i < |books|
    requires forall j :: i < j < |books| ==> Key(BuiltIn(Coerce(books[j]))) != Key(BuiltIn(Coerce(books[i])))
    ensures Dict.LastWith(Dict.Keyed(Writes(doc, books), Key), Key(BuiltIn(Coerce(books[i])))) == Some(BuiltIn(Coerce(books[i])))
  {
    var bs := BuiltIns(books);
    Dict.LastKeyed(bs, Key, i);
    Dict.KeyedAppend(Existing(doc), bs, Key);
    Dict.LastWithAppend(Dict.Keyed(Existing(doc), Key), Dict.Keyed(bs, Key), Key(bs[i]));
  }

  /** Every built-in book is in the merged catalog unless a later built-in has the same
      normalised title; in particular it overrides any existing record with that title. */
  lemma BuiltInWins(doc: Document, books: seq<Item>, i: nat)
    requires forall k :: 0 <= k < |books| ==> books[k].Mapping?
    requires i < |books|
    requires forall j :: i < j < |books| ==> Key(BuiltIn(Coerce(books[j]))) != Key(BuiltIn(Coerce(books[i])))
    ensures BuiltIn(Coerce(books[i])) in Merge(doc, books)
    ensures forall r :: r in Merge(doc, books) && r.Kept? ==> Key(r) != Key(BuiltIn(Coerce(books[i])))
  {
    LastIsBuiltIn(doc, books, i);
    MergeContents(doc, books);
  }
}
