/**
 * The Python string primitives the repository leans on, over Unicode characters:
 * `str.isspace`, ASCII `lower()`, `strip()`, `split()`, `split(sep)`, `sep.join`,
 * `str.find`, `in` and `startswith`, and the two normalisations built from them
 * (`" ".join(s.strip().lower().split())` and `re.sub(r"\s+", " ", s.strip()).lower()`).
 */
module Text {

  /** Exactly the code points for which Python's `str.isspace()` (and `\s` in a `str` regex) holds. */
  predicate IsSpace(c: char) {
    || c == ' ' || ('\t' <= c <= '\r') || ('\U{1C}' <= c <= '\U{1F}')
    || c == '\U{85}' || c == '\U{A0}' || c == '\U{1680}'
    || ('\U{2000}' <= c <= '\U{200A}')
    || c == '\U{2028}' || c == '\U{2029}' || c == '\U{202F}' || c == '\U{205F}' || c == '\U{3000}'
  }

  predicate NotSpace(c: char) {
    !IsSpace(c)
  }

  predicate IsUpper(c: char) {
    'A' <= c <= 'Z'
  }

  predicate IsDigit(c: char) {
    '0' <= c <= '9'
  }

  /** ASCII letters and digits: the part of `str.isalnum()` this model covers. */
  predicate IsAlnum(c: char) {
    ('a' <= c <= 'z') || IsUpper(c) || IsDigit(c)
  }

  /** `lower()` on one character, restricted to the ASCII letters. */
  function LowerChar(c: char): (d: char)
    ensures !IsUpper(d)
    ensures IsSpace(d) <==> IsSpace(c)
    ensures IsUpper(c) ==> d as int == c as int + 32
    ensures !IsUpper(c) ==> d == c
  {
    if IsUpper(c) then (c as int + 32) as char else c
  }

  /** `s.lower()`: length preserving, so an index found in the lowered text is an index into the original. */
  function Lower(s: string): (r: string)
    ensures |r| == |s|
    ensures forall i :: 0 <= i < |s| ==> r[i] == LowerChar(s[i])
  {
    seq(|s|, i requires 0 <= i < |s| => LowerChar(s[i]))
  }

  /** Lowering works piece by piece. */
  lemma LowerWithin(a: string, h: string, b: string)
    ensures Lower(a + h + b) == Lower(a) + Lower(h) + Lower(b)
  {
  }

  predicate AllLower(s: string) {
    forall i :: 0 <= i < |s| ==> !IsUpper(s[i])
  }

  /** `s.replace(old, new)` for single characters. */
  function ReplaceChar(s: string, from: char, to: char): (r: string)
    ensures |r| == |s|
    ensures forall i :: 0 <= i < |s| ==> r[i] == (if s[i] == from then to else s[i])
  {
    seq(|s|, i requires 0 <= i < |s| => if s[i] == from then to else s[i])
  }

  // ---------------------------------------------------------------- runs

  /** Length of the longest prefix of `s` whose characters all satisfy `keep`. */
  function RunLen(s: string, keep: char -> bool): (n: nat)
    ensures n <= |s|
    ensures forall i :: 0 <= i < n ==> keep(s[i])
    ensures n == |s| || !keep(s[n])
  {
    if s == [] || !keep(s[0]) then 0 else 1 + RunLen(s[1..], keep)
  }

  /** The maximal runs of characters satisfying `keep`, in order (what `re.findall("[...]+")` returns). */
  function Runs(s: string, keep: char -> bool): (rs: seq<string>)
    ensures forall i :: 0 <= i < |rs| ==> |rs[i]| > 0
    ensures forall i, j :: 0 <= i < |rs| && 0 <= j < |rs[i]| ==> keep(rs[i][j])
    decreases |s|
  {
    if s == [] then []
    else if !keep(s[0]) then Runs(s[1..], keep)
    else
      var n := RunLen(s, keep);
      [s[..n]] + Runs(s[n..], keep)
  }

  // ---------------------------------------------------------------- strip / split / join

  predicate AllSpace(s: string) {
    forall i :: 0 <= i < |s| ==> IsSpace(s[i])
  }

  predicate NoEdgeSpace(s: string) {
    s == [] || (!IsSpace(s[0]) && !IsSpace(s[|s| - 1]))
  }

  /** Number of trailing whitespace characters. */
  function TrailingSpaces(s: string): (n: nat)
    ensures n <= |s|
    ensures forall i :: |s| - n <= i < |s| ==> IsSpace(s[i])
    ensures n == |s| || !IsSpace(s[|s| - n - 1])
  {
    if s == [] || !IsSpace(s[|s| - 1]) then 0 else 1 + TrailingSpaces(s[..|s| - 1])
  }

  /** `s.strip()`: drop leading and trailing whitespace. */
  function Strip(s: string): (r: string)
    ensures |r| <= |s|
    ensures NoEdgeSpace(r)
    ensures r == [] <==> AllSpace(s)
    ensures NoEdgeSpace(s) ==> r == s
  {
    var t := s[RunLen(s, IsSpace)..];
    t[..|t| - TrailingSpaces(t)]
  }

  /** Trailing whitespace after a character that is not whitespace belongs to the tail alone. */
  lemma {:induction false} TrailingAppend(a: string, b: string)
    requires a != [] && !IsSpace(a[|a| - 1])
    ensures TrailingSpaces(a + b) == TrailingSpaces(b)
    decreases |b|
  {
    if b == [] {
      assert a + b == a;
    } else {
      assert (a + b)[|a + b| - 1] == b[|b| - 1];
      if IsSpace(b[|b| - 1]) {
        assert (a + b)[..|a + b| - 1] == a + b[..|b| - 1];
        TrailingAppend(a, b[..|b| - 1]);
      }
    }
  }

  /** `s.rstrip()`: drop trailing whitespace. */
  function TrimEnd(s: string): (r: string)
    ensures |r| <= |s| && r == s[..|r|]
    ensures r == [] || !IsSpace(r[|r| - 1])
    ensures forall i :: |r| <= i < |s| ==> IsSpace(s[i])
  {
    s[..|s| - TrailingSpaces(s)]
  }

  /** A text ending in a character that is not whitespace loses nothing to `TrimEnd`. */
  lemma TrimEndKeeps(s: string)
    requires s != [] && !IsSpace(s[|s| - 1])
    ensures TrimEnd(s) == s
  {
  }

  /** Stripping a text that opens with an unpadded, non-empty `a` keeps `a` whole and trims
      only the end of what follows. */
  lemma StripKeepsHead(a: string, b: string)
    requires a != [] && NoEdgeSpace(a)
    ensures Strip(a + b) == a + TrimEnd(b)
  {
    var s := a + b;
    NoLeadingSpace(a, b);
    var t := s[RunLen(s, IsSpace)..];
    assert t == s;
    TrailingAppend(a, b);
    var n := |b| - TrailingSpaces(b);
    assert |t| - TrailingSpaces(t) == |a| + n;
    TakeAppend(a, b, n);
    calc {
      Strip(s);
      t[..|t| - TrailingSpaces(t)];
      s[..|a| + n];
      a + b[..n];
    }
  }

  /** A text opening with a character that is not whitespace has no leading whitespace. */
  lemma NoLeadingSpace(a: string, b: string)
    requires a != [] && !IsSpace(a[0])
    ensures RunLen(a + b, IsSpace) == 0
  {
    assert (a + b)[0] == a[0];
  }

  /** Taking past a prefix takes from what follows it. */
  lemma TakeAppend(a: string, b: string, n: nat)
    requires n <= |b|
    ensures (a + b)[..|a| + n] == a + b[..n]
  {
  }

  /** `s.split()` with no argument: the maximal runs of non-whitespace. */
  function Split(s: string): (ws: seq<string>)
    ensures forall i :: 0 <= i < |ws| ==> IsWord(ws[i])
  {
    Runs(s, NotSpace)
  }

  /** A non-empty string without whitespace: what `split()` yields. */
  predicate IsWord(w: string) {
    |w| > 0 && forall j :: 0 <= j < |w| ==> !IsSpace(w[j])
  }

  /** `sep.join(parts)`. */
  function Join(sep: string, parts: seq<string>): string {
    if |parts| == 0 then ""
    else if |parts| == 1 then parts[0]
    else parts[0] + sep + Join(sep, parts[1..])
  }

  /** One more part joins on after a separator. */
  lemma {:induction false} JoinSnoc(sep: string, ps: seq<string>, t: string)
    requires ps != []
    ensures Join(sep, ps + [t]) == Join(sep, ps) + sep + t
    decreases |ps|
  {
    if |ps| == 1 {
      assert ps + [t] == [ps[0], t] && [ps[0], t][1..] == [t];
    } else {
      assert (ps + [t])[0] == ps[0] && (ps + [t])[1..] == ps[1..] + [t];
      JoinSnoc(sep, ps[1..], t);
    }
  }

  /** The characters other than `sep`. */
  function NotSep(sep: char): char -> bool {
    c => c != sep
  }

  /** `s.split(sep)` for a one-character separator: keeps empty pieces, never returns `[]`. */
  function SplitOn(s: string, sep: char): (ps: seq<string>)
    ensures |ps| > 0
    ensures forall i, j :: 0 <= i < |ps| && 0 <= j < |ps[i]| ==> ps[i][j] != sep
    decreases |s|
  {
    var n := RunLen(s, NotSep(sep));
    if n == |s| then [s] else [s[..n]] + SplitOn(s[n + 1..], sep)
  }

  /** Joining the pieces back with the separator gives the string that was split. */
  lemma {:induction false} SplitJoin(s: string, sep: char)
    ensures Join([sep], SplitOn(s, sep)) == s
    decreases |s|
  {
    var n := RunLen(s, NotSep(sep));
    if n < |s| {
      var rest := s[n + 1..];
      SplitJoin(rest, sep);
      var ps := SplitOn(rest, sep);
      assert SplitOn(s, sep) == [s[..n]] + ps;
      assert ([s[..n]] + ps)[1..] == ps;
      assert s == s[..n] + [sep] + rest;
    }
  }

  /** A piece without the separator is split off whole at the first separator. */
  lemma {:induction false} SplitOnCons(x: string, y: string, sep: char)
    requires forall j :: 0 <= j < |x| ==> x[j] != sep
    ensures SplitOn(x + [sep] + y, sep) == [x] + SplitOn(y, sep)
  {
    var s := x + [sep] + y;
    assert s == x + ([sep] + y);
    RunLenPrefix(x, [sep] + y, NotSep(sep));
    assert RunLen(s, NotSep(sep)) == |x| < |s|;
    assert s[..|x|] == x && s[|x| + 1..] == y;
  }

  /** A string without the separator is one piece. */
  lemma SplitOnNone(x: string, sep: char)
    requires forall j :: 0 <= j < |x| ==> x[j] != sep
    ensures SplitOn(x, sep) == [x]
  {
    RunLenPrefix(x, [], NotSep(sep));
    assert x + [] == x;
  }

  /** The run of `keep` characters stops where `x` ends if the next character fails `keep`. */
  lemma {:induction false} RunLenPrefix(x: string, y: string, keep: char -> bool)
    requires forall j :: 0 <= j < |x| ==> keep(x[j])
    requires y == [] || !keep(y[0])
    ensures RunLen(x + y, keep) == |x|
  {
    if x != [] {
      assert (x + y)[1..] == x[1..] + y;
      RunLenPrefix(x[1..], y, keep);
    } else {
      assert x + y == y;
    }
  }

  /** `[t.strip() for t in s.split(",") if t.strip()]`: the comma-list reading of a theme string. */
  function CommaList(s: string): (ts: seq<string>)
    ensures forall i :: 0 <= i < |ts| ==> ts[i] != "" && NoEdgeSpace(ts[i])
    ensures forall i, j :: 0 <= i < |ts| && 0 <= j < |ts[i]| ==> ts[i][j] != ','
  {
    StrippedNonEmpty(SplitOn(s, ','))
  }

  /** The empty string has no themes. */
  lemma CommaListEmpty()
    ensures CommaList("") == []
  {
    SplitOnNone("", ',');
    assert Strip("") == "";
  }

  /** Themes written as `", ".join(ts)` read back as `ts` under the comma rule, as long as
      each theme is non-empty, unpadded and free of commas. */
  lemma CommaListJoin(ts: seq<string>)
    requires forall i :: 0 <= i < |ts| ==> ts[i] != "" && NoEdgeSpace(ts[i])
    requires forall i, j :: 0 <= i < |ts| && 0 <= j < |ts[i]| ==> ts[i][j] != ','
    ensures CommaList(Join(", ", ts)) == ts
  {
    var joined := Join(", ", ts);
    assert "" + joined == joined;
    CommaListJoinAfter("", ts);
  }

  /** The same, with leading whitespace `pad` before the first theme. */
  lemma {:induction false} CommaListJoinAfter(pad: string, ts: seq<string>)
    requires AllSpace(pad)
    requires forall i :: 0 <= i < |ts| ==> ts[i] != "" && NoEdgeSpace(ts[i])
    requires forall i, j :: 0 <= i < |ts| && 0 <= j < |ts[i]| ==> ts[i][j] != ','
    ensures StrippedNonEmpty(SplitOn(pad + Join(", ", ts), ',')) == ts
    decreases |ts|
  {
    if ts == [] {
      assert pad + Join(", ", ts) == pad;
      PaddedNoComma(pad, "");
      SplitOnNone(pad, ',');
      StrippedOne(pad);
    } else if |ts| == 1 {
      assert pad + Join(", ", ts) == pad + ts[0];
      PaddedTheme(pad, ts[0]);
      SplitOnNone(pad + ts[0], ',');
    } else {
      CommaListJoinAfter(" ", ts[1..]);
      PaddedThemeThenRest(pad, ts[0], ts[1..]);
    }
  }

  /** Whitespace followed by a comma-free text holds no comma. */
  lemma PaddedNoComma(pad: string, t: string)
    requires AllSpace(pad)
    requires forall j :: 0 <= j < |t| ==> t[j] != ','
    ensures forall j :: 0 <= j < |pad + t| ==> (pad + t)[j] != ','
  {
    forall j | 0 <= j < |pad + t| ensures (pad + t)[j] != ',' {
      if j >= |pad| { assert (pad + t)[j] == t[j - |pad|]; }
    }
  }

  /** One padded theme is comma-free and reads back as itself. */
  lemma PaddedTheme(pad: string, t: string)
    requires AllSpace(pad) && t != "" && NoEdgeSpace(t)
    requires forall j :: 0 <= j < |t| ==> t[j] != ','
    ensures forall j :: 0 <= j < |pad + t| ==> (pad + t)[j] != ','
    ensures StrippedNonEmpty([pad + t]) == [t]
  {
    PaddedNoComma(pad, t);
    StripPadded(pad, t);
    StrippedOne(pad + t);
  }

  /** A padded first theme, a comma, then the rest: the first theme comes off whole. */
  lemma PaddedThemeThenRest(pad: string, t: string, ts: seq<string>)
    requires AllSpace(pad) && t != "" && NoEdgeSpace(t)
    requires forall j :: 0 <= j < |t| ==> t[j] != ','
    requires ts != []
    ensures StrippedNonEmpty(SplitOn(pad + Join(", ", [t] + ts), ','))
         == [t] + StrippedNonEmpty(SplitOn(" " + Join(", ", ts), ','))
  {
    var rest := Join(", ", ts);
    assert ([t] + ts)[1..] == ts;
    assert pad + Join(", ", [t] + ts) == (pad + t) + [','] + (" " + rest);
    PaddedTheme(pad, t);
    SplitOnCons(pad + t, " " + rest, ',');
    StrippedAppend([pad + t], SplitOn(" " + rest, ','));
  }

  /** Leading whitespace before an unpadded, non-empty text is stripped away. */
  lemma StripPadded(pad: string, t: string)
    requires AllSpace(pad) && t != "" && NoEdgeSpace(t)
    ensures Strip(pad + t) == t
  {
    RunLenPrefix(pad, t, IsSpace);
    assert (pad + t)[|pad|..] == t;
  }

  /** `[p.strip() for p in ps if p.strip()]`. */
  function StrippedNonEmpty(ps: seq<string>): (ts: seq<string>)
    ensures |ts| <= |ps|
    ensures forall i :: 0 <= i < |ts| ==> ts[i] != "" && NoEdgeSpace(ts[i])
    ensures (forall i, j :: 0 <= i < |ps| && 0 <= j < |ps[i]| ==> ps[i][j] != ',') ==>
              forall i, j :: 0 <= i < |ts| && 0 <= j < |ts[i]| ==> ts[i][j] != ','
  {
    if ps == [] then []
    else
      var t := Strip(ps[0]);
      StripSlice(ps[0]);
      if t == "" then StrippedNonEmpty(ps[1..]) else [t] + StrippedNonEmpty(ps[1..])
  }

  /** Stripping distributes over concatenation: pieces are treated one by one, in order. */
  lemma {:induction false} StrippedAppend(a: seq<string>, b: seq<string>)
    ensures StrippedNonEmpty(a + b) == StrippedNonEmpty(a) + StrippedNonEmpty(b)
  {
    if a == [] {
      assert a + b == b;
    } else {
      assert (a + b)[1..] == a[1..] + b;
      StrippedAppend(a[1..], b);
    }
  }

  /** One piece contributes its stripped text, unless it is all whitespace. */
  lemma StrippedOne(p: string)
    ensures StrippedNonEmpty([p]) == (if AllSpace(p) then [] else [Strip(p)])
  {
    assert [p][1..] == [];
  }

  /** Every character of `Strip(s)` is a character of `s`. */
  lemma StripSlice(s: string)
    ensures forall j :: 0 <= j < |Strip(s)| ==> Strip(s)[j] in s
  {
    var a := RunLen(s, IsSpace);
    var t := s[a..];
    assert Strip(s) == t[..|t| - TrailingSpaces(t)];
    forall j | 0 <= j < |Strip(s)| ensures Strip(s)[j] in s {
      assert Strip(s)[j] == s[a + j];
    }
  }

  /** `s` without its trailing run of `c`. */
  function DropTrailing(s: string, c: char): (r: string)
    ensures |r| <= |s| && r == s[..|r|]
    ensures r == [] || r[|r| - 1] != c
    ensures forall i :: |r| <= i < |s| ==> s[i] == c
    decreases |s|
  {
    if s == [] || s[|s| - 1] != c then s else DropTrailing(s[..|s| - 1], c)
  }

  /** Where `s.strip(c)` starts: the length of the leading run of `c`. */
  function StripStart(s: string, c: char): (n: nat)
    ensures n <= |s|
    ensures forall i :: 0 <= i < n ==> s[i] == c
    ensures n == |s| || s[n] != c
    decreases |s|
  {
    if s == [] || s[0] != c then 0 else 1 + StripStart(s[1..], c)
  }

  /** `s.strip(c)` for a single character `c`: the slice of `s` between its leading and trailing
      runs of `c`. */
  function StripChar(s: string, c: char): (r: string)
    ensures StripStart(s, c) + |r| <= |s|
    ensures forall i :: 0 <= i < |r| ==> r[i] == s[StripStart(s, c) + i]
    ensures r == [] || (r[0] != c && r[|r| - 1] != c)
    ensures r == [] <==> forall i :: 0 <= i < |s| ==> s[i] == c
    ensures s == [] || (s[0] != c && s[|s| - 1] != c) ==> r == s
  {
    var a := StripStart(s, c);
    var r := DropTrailing(s[a..], c);
    assert forall i :: a + |r| <= i < |s| ==> s[i] == s[a..][i - a];
    r
  }

  /** Whatever holds of every character of `s` holds of every character of `s.strip(c)`. */
  lemma StripCharKeeps(s: string, c: char, keep: char -> bool)
    requires forall i :: 0 <= i < |s| ==> keep(s[i])
    ensures forall i :: 0 <= i < |StripChar(s, c)| ==> keep(StripChar(s, c)[i])
  {
    var r := StripChar(s, c);
    var a := StripStart(s, c);
    forall i | 0 <= i < |r| ensures keep(r[i]) {
      assert r[i] == s[a + i];
    }
  }

  // ---------------------------------------------------------------- search

  predicate StartsWith(s: string, p: string) {
    |p| <= |s| && s[..|p|] == p
  }

  /** `needle` occurs in `hay` at position `p`. */
  predicate OccursAt(hay: string, needle: string, p: int) {
    0 <= p && p + |needle| <= |hay| && hay[p..p + |needle|] == needle
  }

  /** `hay.find(needle)`: the earliest position of `needle` in `hay`, or -1. */
  function Find(hay: string, needle: string): (r: int)
    ensures r == -1 || OccursAt(hay, needle, r)
    ensures forall p :: 0 <= p && (r == -1 || p < r) ==> !OccursAt(hay, needle, p)
    decreases |hay|
  {
    if StartsWith(hay, needle) then 0
    else if hay == [] then -1
    else
      var r := Find(hay[1..], needle);
      ShiftOccurrence(hay, needle);
      if r == -1 then -1 else r + 1
  }

  /** Occurrences in `hay[1..]` are the occurrences in `hay` shifted by one. */
  lemma ShiftOccurrence(hay: string, needle: string)
    requires hay != []
    ensures forall p {:trigger OccursAt(hay[1..], needle, p)} :: 0 <= p ==> (OccursAt(hay[1..], needle, p) <==> OccursAt(hay, needle, p + 1))
    ensures forall p {:trigger OccursAt(hay, needle, p)} :: 1 <= p ==> (OccursAt(hay, needle, p) <==> OccursAt(hay[1..], needle, p - 1))
    ensures OccursAt(hay, needle, 0) <==> StartsWith(hay, needle)
  {
    forall p | 0 <= p ensures OccursAt(hay[1..], needle, p) <==> OccursAt(hay, needle, p + 1) {
      if p + |needle| <= |hay| - 1 {
        assert hay[1..][p..p + |needle|] == hay[p + 1..p + 1 + |needle|];
      }
    }
  }

  /** Python's `needle in hay` for strings. */
  predicate Contains(hay: string, needle: string) {
    Find(hay, needle) >= 0
  }

  /** A witness position is enough for `in`. */
  lemma ContainsAt(hay: string, needle: string, p: int)
    requires OccursAt(hay, needle, p)
    ensures Contains(hay, needle)
  {
  }

  /** What a text contains stays contained whatever surrounds the text. */
  lemma ContainsWithin(a: string, h: string, b: string, w: string)
    requires Contains(h, w)
    ensures Contains(a + h + b, w)
  {
    var p := Find(h, w);
    assert (a + h + b)[|a| + p..|a| + p + |w|] == h[p..p + |w|];
    ContainsAt(a + h + b, w, |a| + p);
  }

  /** A string contains any middle piece of a concatenation. */
  lemma ContainsMiddle(a: string, m: string, b: string)
    ensures Contains(a + m + b, m)
  {
    assert (a + m + b)[|a|..|a| + |m|] == m;
    ContainsAt(a + m + b, m, |a|);
  }

  // ---------------------------------------------------------------- normalisation

  /** The shape every normaliser output has: no edge whitespace, the only whitespace is
      `' '`, and never two spaces in a row. */
  predicate Canonical(s: string) {
    && NoEdgeSpace(s)
    && (forall i :: 0 <= i < |s| && IsSpace(s[i]) ==> s[i] == ' ')
    && (forall i :: 0 <= i < |s| - 1 && IsSpace(s[i]) ==> !IsSpace(s[i + 1]))
  }

  /** `" ".join(s.strip().lower().split())`, the title and query key of the summary tool,
      the vector store and the seeding script (after NFKC, which this model takes as the identity). */
  function Norm(s: string): string {
    Join(" ", Split(Lower(Strip(s))))
  }

  /** `re.sub(r"\s+", " ", s)`: every maximal whitespace run becomes one space. */
  function Collapse(s: string): string
    decreases |s|
  {
    if s == [] then []
    else if IsSpace(s[0]) then " " + Collapse(s[RunLen(s, IsSpace)..])
    else [s[0]] + Collapse(s[1..])
  }

  /** `re.sub(r"\s+", " ", s.strip()).lower()`, the retriever's query normaliser. */
  function NormQuery(s: string): string {
    Lower(Collapse(Strip(s)))
  }
}
