/**
 * The two pure helpers of the Streamlit page ui/app_streamlit.py: the `MM:SS` clock of
 * `fmt_seconds`, and `guess_title_from_answer`, which finds the recommended title in the
 * model's answer. Its regular-expression stage is an oracle; its fallback over the known
 * titles, longest first, is modelled in full. The fourth pattern as written can match with
 * no group 1, which makes the function raise; `GuessTitle` is the function with that
 * pattern's alternation grouped, and `GuessTitleAsWritten` the function as written.
 */
module Ui {
  import opened Wrappers
  import opened Text
  import opened Numerals

  // ------------------------------------------------------------------ fmt_seconds

  /** `f"{n:02d}"` for `n >= 0`: the numeral, zero-padded to at least two digits. */
  function Pad2(n: nat): (p: string)
    ensures AllDigits(p) && |p| >= 2
    ensures n < 100 ==> |p| == 2
  {
    ShowLength(n);
    if n < 10 then "0" + Show(n) else Show(n)
  }

  /** A numeral has one digit below 10, two below 100, and at least two from 10 on. */
  lemma ShowLength(n: nat)
    ensures n < 10 ==> |Show(n)| == 1
    ensures 10 <= n ==> |Show(n)| >= 2
    ensures 10 <= n < 100 ==> |Show(n)| == 2
  {
  }

  /** The padding adds only a leading zero: the field reads back as `n`. */
  lemma Pad2Value(n: nat)
    ensures Value(Pad2(n)) == n
  {
    ValueShow(n);
    if n < 10 {
      LeadingZero(Show(n));
    }
  }

  /** `fmt_seconds(s)` on an already rounded, non-negative number of seconds. */
  function FmtSeconds(s: nat): string {
    Pad2(s / 60) + ":" + Pad2(s % 60)
  }

  /** The clock reads back as the seconds it shows: a minutes field of at least two digits,
      a colon, a two-digit seconds field below 60, and minutes * 60 + seconds is the input. */
  lemma FmtSecondsRoundTrip(s: nat)
    ensures var t := FmtSeconds(s);
      var k := |t| - 3;
      && k >= 2 && t[k] == ':'
      && AllDigits(t[..k]) && AllDigits(t[k + 1..])
      && Value(t[k + 1..]) < 60
      && Value(t[..k]) * 60 + Value(t[k + 1..]) == s
  {
    var m := Pad2(s / 60);
    var sec := Pad2(s % 60);
    ColonParts(m, sec);
    Pad2Value(s / 60);
    Pad2Value(s % 60);
  }

  /** The two fields of `a + ":" + b` read back as `a` and `b`. */
  lemma ColonParts(a: string, b: string)
    ensures var t := a + ":" + b;
      t[|a|] == ':' && t[..|a|] == a && t[|a| + 1..] == b
  {
  }

  /** One hour and a bit: 3725 seconds show as "62:05". */
  lemma FmtSecondsExample()
    ensures FmtSeconds(3725) == "62:05"
  {
    assert Show(62) == "62";
    assert Show(5) == "5";
  }

  // ------------------------------------------------------------------ guess_title_from_answer

  /** `t.lower() in low`, as a test on titles. */
  function MentionedIn(low: string): string -> bool {
    t => Contains(low, Lower(t))
  }

  /** The titles of length `n`, in list order. */
  function Bucket(ts: seq<string>, n: nat): (b: seq<string>)
    ensures forall k :: 0 <= k < |b| ==> |b[k]| == n
  {
    if ts == [] then []
    else (if |ts[0]| == n then [ts[0]] else []) + Bucket(ts[1..], n)
  }

  /** The titles of length at most `n`, longest first, each length in list order. */
  function Desc(ts: seq<string>, n: nat): seq<string> {
    if n == 0 then Bucket(ts, 0) else Bucket(ts, n) + Desc(ts, n - 1)
  }

  /** The length of the longest title. */
  function MaxLen(ts: seq<string>): (m: nat)
    ensures forall k :: 0 <= k < |ts| ==> |ts[k]| <= m
  {
    if ts == [] then 0 else
      var m := MaxLen(ts[1..]);
      if |ts[0]| > m then |ts[0]| else m
  }

  /** `sorted(known_titles, key=lambda t: -len(t))`: Python's sort is stable, so titles of
      equal length keep their list order. */
  function ByLength(ts: seq<string>): seq<string> {
    Desc(ts, MaxLen(ts))
  }

  /** The loop over the sorted titles: the first one that passes the test. */
  function FirstWhere(hit: string -> bool, ts: seq<string>): (r: Option<string>)
    ensures r.Some? ==> r.value in ts && hit(r.value)
  {
    if ts == [] then None
    else if hit(ts[0]) then Some(ts[0])
    else FirstWhere(hit, ts[1..])
  }

  /** The search finds nothing exactly when no title passes. */
  lemma {:induction false} FirstWhereNone(hit: string -> bool, ts: seq<string>)
    ensures FirstWhere(hit, ts).None? <==> forall k :: 0 <= k < |ts| ==> !hit(ts[k])
  {
    if ts != [] {
      FirstWhereNone(hit, ts[1..]);
      assert forall k :: 1 <= k < |ts| ==> ts[k] == ts[1..][k - 1];
    }
  }

  /** `guess_title_from_answer(answer, known_titles)` with every pattern match carrying a
      group 1: nothing for an empty answer, the stripped group when a pattern matched, else
      the longest known title the answer mentions, ignoring case. A missing list and an
      empty one behave alike. */
  function GuessTitle(answer: string, regexHit: Option<string>, known: seq<string>): Option<string> {
    if answer == "" then None
    else if regexHit.Some? then Some(Strip(regexHit.value))
    else FirstWhere(MentionedIn(Lower(answer)), ByLength(known))
  }

  /** The search over a concatenation looks in the second part only when the first has no hit. */
  lemma {:induction false} FirstWhereAppend(hit: string -> bool, a: seq<string>, b: seq<string>)
    ensures FirstWhere(hit, a + b) == if FirstWhere(hit, a).Some? then FirstWhere(hit, a) else FirstWhere(hit, b)
  {
    if a == [] {
      assert a + b == b;
    } else {
      assert (a + b)[1..] == a[1..] + b;
      FirstWhereAppend(hit, a[1..], b);
    }
  }

  /** Every title of length `n` is in its bucket. */
  lemma {:induction false} BucketHas(ts: seq<string>, n: nat, j: nat)
    requires j < |ts| && |ts[j]| == n
    ensures ts[j] in Bucket(ts, n)
  {
    if j > 0 {
      BucketHas(ts[1..], n, j - 1);
    }
  }

  /** A bucket holds only titles of the list. */
  lemma {:induction false} BucketIn(ts: seq<string>, n: nat, x: string)
    requires x in Bucket(ts, n)
    ensures x in ts
  {
    if ts != [] && x != ts[0] {
      BucketIn(ts[1..], n, x);
    }
  }

  /** The descending list holds only titles of the list. */
  lemma {:induction false} DescIn(ts: seq<string>, n: nat, x: string)
    requires x in Desc(ts, n)
    ensures x in ts
  {
    if n == 0 || x in Bucket(ts, n) {
      BucketIn(ts, n, x);
    } else {
      DescIn(ts, n - 1, x);
    }
  }

  /** A bucket has no hit when no title of its length passes. */
  lemma {:induction false} BucketMiss(hit: string -> bool, ts: seq<string>, n: nat)
    requires forall k :: 0 <= k < |ts| && |ts[k]| == n ==> !hit(ts[k])
    ensures FirstWhere(hit, Bucket(ts, n)).None?
  {
    if ts != [] {
      var head := if |ts[0]| == n then [ts[0]] else [];
      FirstWhereAppend(hit, head, Bucket(ts[1..], n));
      assert forall k :: 1 <= k < |ts| ==> ts[k] == ts[1..][k - 1];
      BucketMiss(hit, ts[1..], n);
    }
  }

  /** A bucket has a hit when some title of its length passes. */
  lemma {:induction false} BucketFound(hit: string -> bool, ts: seq<string>, n: nat, k: nat)
    requires k < |ts| && |ts[k]| == n && hit(ts[k])
    ensures FirstWhere(hit, Bucket(ts, n)).Some?
  {
    var head := if |ts[0]| == n then [ts[0]] else [];
    FirstWhereAppend(hit, head, Bucket(ts[1..], n));
    if k > 0 {
      BucketFound(hit, ts[1..], n, k - 1);
    }
  }

  /** Every title no longer than `n` is in the descending list. */
  lemma {:induction false} DescHas(ts: seq<string>, n: nat, j: nat)
    requires j < |ts| && |ts[j]| <= n
    ensures ts[j] in Desc(ts, n)
  {
    if |ts[j]| == n {
      BucketHas(ts, n, j);
    } else {
      DescHas(ts, n - 1, j);
    }
  }

  /** The earliest passing title of length `n` comes first in its bucket. */
  lemma {:induction false} BucketPick(hit: string -> bool, ts: seq<string>, n: nat, i: nat)
    requires i < |ts| && |ts[i]| == n && hit(ts[i])
    requires forall j :: 0 <= j < i && |ts[j]| == n ==> !hit(ts[j])
    ensures FirstWhere(hit, Bucket(ts, n)) == Some(ts[i])
  {
    var head := if |ts[0]| == n then [ts[0]] else [];
    FirstWhereAppend(hit, head, Bucket(ts[1..], n));
    if i > 0 {
      BucketPick(hit, ts[1..], n, i - 1);
    }
  }

  /** The first hit of the descending list is a longest passing title. */
  lemma {:induction false} DescFirstLongest(hit: string -> bool, ts: seq<string>, n: nat)
    requires forall k :: 0 <= k < |ts| && hit(ts[k]) ==> |ts[k]| <= n
    ensures var r := FirstWhere(hit, Desc(ts, n));
      r.Some? ==> forall k :: 0 <= k < |ts| && hit(ts[k]) ==> |ts[k]| <= |r.value|
  {
    if n > 0 {
      var b := Bucket(ts, n);
      FirstWhereAppend(hit, b, Desc(ts, n - 1));
      if FirstWhere(hit, b).None? {
        assert forall k :: 0 <= k < |ts| && hit(ts[k]) ==> |ts[k]| <= n - 1 by {
          forall k | 0 <= k < |ts| && hit(ts[k]) ensures |ts[k]| <= n - 1 {
            if |ts[k]| == n {
              BucketFound(hit, ts, n, k);
            }
          }
        }
        DescFirstLongest(hit, ts, n - 1);
      } else {
        assert |FirstWhere(hit, b).value| == n;
      }
    }
  }

  /** The descending list's first hit is the earliest of the longest passing titles. */
  lemma {:induction false} DescPick(hit: string -> bool, ts: seq<string>, n: nat, i: nat)
    requires i < |ts| && |ts[i]| <= n && hit(ts[i])
    requires forall j :: 0 <= j < |ts| && hit(ts[j]) ==> |ts[j]| <= |ts[i]|
    requires forall j :: 0 <= j < i && hit(ts[j]) ==> |ts[j]| < |ts[i]|
    ensures FirstWhere(hit, Desc(ts, n)) == Some(ts[i])
  {
    var b := Bucket(ts, n);
    if |ts[i]| == n {
      assert FirstWhere(hit, b) == Some(ts[i]) by {
        BucketPick(hit, ts, n, i);
      }
      if n > 0 {
        assert Desc(ts, n) == b + Desc(ts, n - 1);
        FirstWhereAppend(hit, b, Desc(ts, n - 1));
      }
    } else {
      assert Desc(ts, n) == b + Desc(ts, n - 1);
      assert FirstWhere(hit, b).None? by {
        BucketMiss(hit, ts, n);
      }
      assert FirstWhere(hit, Desc(ts, n - 1)) == Some(ts[i]) by {
        DescPick(hit, ts, n - 1, i);
      }
      FirstWhereAppend(hit, b, Desc(ts, n - 1));
    }
  }

  /** Whatever the known-titles stage returns is a listed title the answer mentions, and no
      mentioned title is longer; it returns nothing exactly when no title is mentioned. */
  lemma KnownTitleSound(answer: string, known: seq<string>)
    requires answer != ""
    ensures var r := GuessTitle(answer, None, known);
      && (r.Some? ==> r.value in known && Contains(Lower(answer), Lower(r.value)))
      && (r.Some? ==> forall k :: 0 <= k < |known| && Contains(Lower(answer), Lower(known[k])) ==> |known[k]| <= |r.value|)
      && (r.None? <==> forall k :: 0 <= k < |known| ==> !Contains(Lower(answer), Lower(known[k])))
  {
    var hit := MentionedIn(Lower(answer));
    var n := MaxLen(known);
    DescFirstLongest(hit, known, n);
    var r := FirstWhere(hit, Desc(known, n));
    if r.Some? {
      DescIn(known, n, r.value);
    }
    FirstWhereNone(hit, Desc(known, n));
    forall k | 0 <= k < |known| && hit(known[k]) ensures FirstWhere(hit, Desc(known, n)).Some? {
      DescHas(known, n, k);
    }
  }

  /** Among mentioned titles of the greatest length, the earliest in the list wins. */
  lemma KnownTitleTieBreak(answer: string, known: seq<string>, i: nat)
    requires answer != ""
    requires i < |known| && Contains(Lower(answer), Lower(known[i]))
    requires forall j :: 0 <= j < |known| && Contains(Lower(answer), Lower(known[j])) ==> |known[j]| <= |known[i]|
    requires forall j :: 0 <= j < i && Contains(Lower(answer), Lower(known[j])) ==> |known[j]| < |known[i]|
    ensures GuessTitle(answer, None, known) == Some(known[i])
  {
    DescPick(MentionedIn(Lower(answer)), known, MaxLen(known), i);
  }

  /** The regular-expression stage comes first: an empty answer gives nothing, a pattern hit
      gives its stripped group whatever the known titles are. */
  lemma GuessStages(answer: string, regexHit: Option<string>, known: seq<string>)
    ensures answer == "" ==> GuessTitle(answer, regexHit, known).None?
    ensures answer != "" && regexHit.Some? ==>
      GuessTitle(answer, regexHit, known) == Some(Strip(regexHit.value))
      && NoEdgeSpace(GuessTitle(answer, regexHit, known).value)
  {
  }

  // ------------------------------------------------------------------ the regular-expression stage

  /** What the four patterns of `guess_title_from_answer`, tried in order, yield as written:
      no match, a match with its group 1, or a match of the fourth pattern's bare `.*?autor`
      alternative, which has no group 1 at all. */
  datatype RegexHit = NoMatch | Group(text: string) | NoGroup

  /** `m.group(1).strip()` on a match whose group 1 is None raises AttributeError. */
  datatype GuessError = GroupIsNone

  /** An answer without `*` and without the quotes `„`, `”`, `"`: the first pattern needs
      `**`, and every other alternative except `.*?autor` needs a quote. */
  predicate Plain(answer: string) {
    forall i :: 0 <= i < |answer| ==> answer[i] !in {'*', '„', '”', '"'}
  }

  /** What the patterns as written are known to do on a plain answer: nothing but the bare
      alternative can match, and it does as soon as the answer mentions "autor" in any case. */
  predicate RegexAsWritten(answer: string, hit: RegexHit) {
    Plain(answer) ==> !hit.Group? && (Contains(Lower(answer), "autor") ==> hit == NoGroup)
  }

  /** What the patterns do once the fourth one's alternation is grouped inside the
      parenthesis, `\((?:.*?rezumat|.*?autor)`: every match has a group, and a plain answer
      matches nothing. */
  predicate RegexIntended(answer: string, hit: Option<string>) {
    Plain(answer) ==> hit.None?
  }

  /** `guess_title_from_answer` as written: a group-less match raises instead of returning. */
  function GuessTitleAsWritten(answer: string, hit: RegexHit, known: seq<string>): (r: Result<Option<string>, GuessError>)
    ensures r.Failure? <==> answer != "" && hit == NoGroup
    ensures hit != NoGroup ==> r == Success(GuessTitle(answer, if hit.Group? then Some(hit.text) else None, known))
  {
    if answer == "" then Success(None)
    else match hit
      case Group(t) => Success(Some(Strip(t)))
      case NoGroup => Failure(GroupIsNone)
      case NoMatch => Success(FirstWhere(MentionedIn(Lower(answer)), ByLength(known)))
  }

  /** A plain answer that mentions "autor" makes the function as written raise, whatever the
      known titles: it never reaches the known-titles stage. */
  lemma AutorRaises(answer: string, hit: RegexHit, known: seq<string>)
    requires RegexAsWritten(answer, hit)
    requires Plain(answer) && Contains(Lower(answer), "autor")
    ensures GuessTitleAsWritten(answer, hit, known) == Failure(GroupIsNone)
  {
    assert OccursAt(Lower(answer), "autor", Find(Lower(answer), "autor"));
  }

  /** "Un autor român" is such an answer. */
  lemma AutorExample(hit: RegexHit, known: seq<string>)
    requires RegexAsWritten("Un autor român", hit)
    ensures GuessTitleAsWritten("Un autor român", hit, known) == Failure(GroupIsNone)
  {
    var a := "Un autor român";
    assert Lower(a)[3..8] == "autor";
    ContainsAt(Lower(a), "autor", 3);
    AutorRaises(a, hit, known);
  }

  /** With the alternation grouped, a plain answer goes on to the known-titles stage, so a
      non-empty one gives the longest listed title it mentions, or nothing exactly when it
      mentions none. */
  lemma PlainAnswerUsesKnownTitles(answer: string, hit: Option<string>, known: seq<string>)
    requires RegexIntended(answer, hit)
    requires Plain(answer)
    ensures answer == "" ==> GuessTitle(answer, hit, known).None?
    ensures answer != "" ==> var r := GuessTitle(answer, hit, known);
      && (r.Some? ==> r.value in known && Contains(Lower(answer), Lower(r.value)))
      && (r.Some? ==> forall k :: 0 <= k < |known| && Contains(Lower(answer), Lower(known[k])) ==> |known[k]| <= |r.value|)
      && (r.None? <==> forall k :: 0 <= k < |known| ==> !Contains(Lower(answer), Lower(known[k])))
  {
    assert GuessTitle(answer, hit, known) == GuessTitle(answer, None, known);
    if answer != "" {
      KnownTitleSound(answer, known);
    }
  }

  /** A string without upper-case letters is its own lower-case form. */
  lemma LowerOfLower(s: string)
    requires AllLower(s)
    ensures Lower(s) == s
  {
  }

  /** "It Ends" is preferred to "It" when the answer mentions both. */
  lemma LongerTitlePreferred()
    ensures GuessTitle("see it ends", None, ["It", "It Ends"]) == Some("It Ends")
  {
    var known := ["It", "It Ends"];
    AnswerMentionsTitle();
    assert |known[0]| == 2 && |known[1]| == 7;
    KnownTitleTieBreak("see it ends", known, 1);
  }

  lemma AnswerMentionsTitle()
    ensures Contains(Lower("see it ends"), Lower("It Ends"))
  {
    var answer := "see it ends";
    assert AllLower(answer);
    LowerOfLower(answer);
    var t := Lower("It Ends");
    assert t == "it ends";
    assert answer[4..11] == t;
    ContainsAt(Lower(answer), t, 4);
  }
}
