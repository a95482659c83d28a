/**
 * The content-moderation helpers of safety/moderation.py. The moderation endpoint is an
 * oracle; `moderate_text` turns whatever it does, failure included, into one result record,
 * and `explain_categories` renders the flagged categories as a readable list.
 */
module Moderation {
  import opened Wrappers
  import opened Text

  /** The endpoint's per-category flags and scores, in the order it lists them. */
  type Categories = seq<(string, bool)>
  type Scores = seq<(string, real)>

  /** One entry of the endpoint's `results`. */
  datatype Verdict = Verdict(flagged: bool, categories: Categories, scores: Scores)

  /** What the endpoint call does: raise with a message, or answer with a list of results. */
  datatype Reply = Raised(message: string) | Answered(results: seq<Verdict>)

  /** The dict `moderate_text` returns. */
  datatype Moderation = Moderation(flagged: bool, categories: Categories, scores: Scores, error: Option<string>)

  /** `str(e)` of the IndexError raised by `results[0]` on an empty list. */
  const EmptyResultsMessage: string := "list index out of range"

  /** `moderate_text(text)`: the first result on success; on any failure not flagged, no
      categories or scores, and the failure's message as `error`. `endpoint` receives
      `text or ""`, which for a string is the text itself. */
  function ModerateText(text: string, endpoint: string -> Reply): (m: Moderation)
    ensures m.error.None? <==> endpoint(text).Answered? && endpoint(text).results != []
    ensures m.error.Some? ==> !m.flagged && m.categories == [] && m.scores == []
    ensures m.error.None? ==>
      var v := endpoint(text).results[0];
      m.flagged == v.flagged && m.categories == v.categories && m.scores == v.scores
  {
    match endpoint(text)
    case Raised(e) => Moderation(false, [], [], Some(e))
    case Answered(results) =>
      if results == [] then Moderation(false, [], [], Some(EmptyResultsMessage))
      else Moderation(results[0].flagged, results[0].categories, results[0].scores, None)
  }

  /** `k.replace("_", " ")`. */
  function Label(k: string): (l: string)
    ensures |l| == |k|
    ensures forall i :: 0 <= i < |k| ==> l[i] == (if k[i] == '_' then ' ' else k[i])
  {
    ReplaceChar(k, '_', ' ')
  }

  /** The labels of the truthy categories, in mapping order. */
  function Labels(cats: Categories): seq<string> {
    if cats == [] then []
    else if cats[0].1 then [Label(cats[0].0)] + Labels(cats[1..])
    else Labels(cats[1..])
  }

  /** `explain_categories(categories)`. */
  function ExplainCategories(cats: Categories): string {
    if cats == [] then "" else Join(", ", Labels(cats))
  }

  /** Positions, from `from` on, of the truthy categories, in order. */
  function Flagged(cats: Categories, from: nat): (ps: seq<nat>)
    requires from <= |cats|
    ensures forall k :: 0 <= k < |ps| ==> from <= ps[k] < |cats| && cats[ps[k]].1
    ensures forall k, l :: 0 <= k < l < |ps| ==> ps[k] < ps[l]
    decreases |cats| - from
  {
    if from == |cats| then []
    else if cats[from].1 then [from] + Flagged(cats, from + 1)
    else Flagged(cats, from + 1)
  }

  /** Every truthy position from `from` on is listed. */
  lemma {:induction false} FlaggedComplete(cats: Categories, from: nat, i: nat)
    requires from <= i < |cats| && cats[i].1
    ensures i in Flagged(cats, from)
    decreases |cats| - from
  {
    if from < i {
      FlaggedComplete(cats, from + 1, i);
    }
  }

  /** The labels are exactly the truthy keys, in mapping order, each with its underscores
      turned into spaces. */
  lemma {:induction false} LabelsAreFlaggedKeys(cats: Categories, from: nat)
    requires from <= |cats|
    ensures var ps := Flagged(cats, from);
      && |Labels(cats[from..])| == |ps|
      && forall k :: 0 <= k < |ps| ==> Labels(cats[from..])[k] == Label(cats[ps[k]].0)
    decreases |cats| - from
  {
    if from < |cats| {
      var c := cats[from..];
      var rest := Labels(cats[from + 1..]);
      var ps := Flagged(cats, from + 1);
      LabelsAreFlaggedKeys(cats, from + 1);
      assert c[1..] == cats[from + 1..];
      if cats[from].1 {
        assert Labels(c) == [Label(cats[from].0)] + rest;
        assert Flagged(cats, from) == [from] + ps;
      } else {
        assert Labels(c) == rest;
        assert Flagged(cats, from) == ps;
      }
    }
  }

  /** A category appears in the explanation's labels exactly when it is flagged. */
  lemma LabelsMembership(cats: Categories)
    ensures forall i :: 0 <= i < |cats| && cats[i].1 ==> Label(cats[i].0) in Labels(cats)
    ensures forall l :: l in Labels(cats) ==> exists i :: 0 <= i < |cats| && cats[i].1 && l == Label(cats[i].0)
  {
    LabelsAreFlaggedKeys(cats, 0);
    assert cats[0..] == cats;
    var ps := Flagged(cats, 0);
    forall i | 0 <= i < |cats| && cats[i].1 ensures Label(cats[i].0) in Labels(cats) {
      FlaggedComplete(cats, 0, i);
      var k :| 0 <= k < |ps| && ps[k] == i;
      assert Labels(cats)[k] == Label(cats[i].0);
    }
    forall l | l in Labels(cats) ensures exists i :: 0 <= i < |cats| && cats[i].1 && l == Label(cats[i].0) {
      var k :| 0 <= k < |Labels(cats)| && Labels(cats)[k] == l;
      assert cats[ps[k]].1 && l == Label(cats[ps[k]].0);
    }
  }

  /** No label keeps an underscore. */
  lemma LabelsHaveNoUnderscore(cats: Categories)
    ensures forall k, j :: 0 <= k < |Labels(cats)| && 0 <= j < |Labels(cats)[k]| ==> Labels(cats)[k][j] != '_'
  {
    LabelsAreFlaggedKeys(cats, 0);
    assert cats[0..] == cats;
  }

  /** Nothing flagged explains as the empty string, an empty mapping included. */
  lemma NothingFlagged(cats: Categories)
    requires forall i :: 0 <= i < |cats| ==> !cats[i].1
    ensures ExplainCategories(cats) == ""
  {
    LabelsNone(cats);
  }

  lemma {:induction false} LabelsNone(cats: Categories)
    requires forall i :: 0 <= i < |cats| ==> !cats[i].1
    ensures Labels(cats) == []
  {
    if cats != [] {
      LabelsNone(cats[1..]);
    }
  }

  /** One flagged category explains as its own label. */
  lemma OneFlagged(cats: Categories, i: nat)
    requires i < |cats| && cats[i].1
    requires forall j :: 0 <= j < |cats| && j != i ==> !cats[j].1
    ensures ExplainCategories(cats) == Label(cats[i].0)
  {
    LabelsOne(cats, i);
  }

  lemma {:induction false} LabelsOne(cats: Categories, i: nat)
    requires i < |cats| && cats[i].1
    requires forall j :: 0 <= j < |cats| && j != i ==> !cats[j].1
    ensures Labels(cats) == [Label(cats[i].0)]
  {
    if i == 0 {
      LabelsNone(cats[1..]);
    } else {
      LabelsOne(cats[1..], i - 1);
    }
  }

  /** Several flagged categories are joined with ", " in mapping order: "hate_threatening"
      and "violence" read "hate threatening, violence". */
  lemma TwoFlagged()
    ensures ExplainCategories([("hate_threatening", true), ("sexual", false), ("violence", true)])
         == "hate threatening, violence"
  {
    var cats := [("hate_threatening", true), ("sexual", false), ("violence", true)];
    LabelPlain("violence");
    assert cats[2..][1..] == [];
    assert Labels(cats[2..]) == ["violence"];
    assert cats[1..][1..] == cats[2..];
    assert Labels(cats[1..]) == ["violence"];
    var l := Label("hate_threatening");
    assert l == "hate threatening" by {
      assert l[4] == ' ';
      forall i | 0 <= i < |l| && i != 4 ensures l[i] == "hate threatening"[i] {
        assert "hate_threatening"[i] != '_';
      }
    }
  }

  /** A key without underscores is its own label. */
  lemma LabelPlain(k: string)
    requires forall i :: 0 <= i < |k| ==> k[i] != '_'
    ensures Label(k) == k
  {
  }
}
