/**
 * Facts about the two normalisers of module Text: both produce canonical, lower-case
 * keys, and they agree, so a title normalised by the summary tool or the vector store
 * and a query normalised by the retriever live in the same key space.
 */
module Normalise {
  import opened Text

  /** Lowering commutes with concatenation. */
  lemma LowerConcat(a: string, b: string)
    ensures Lower(a + b) == Lower(a) + Lower(b)
  {
  }

  /** Lowering does not move whitespace, so whitespace runs keep their length. */
  lemma {:induction false} LowerSpaceRun(t: string)
    ensures RunLen(Lower(t), IsSpace) == RunLen(t, IsSpace)
    decreases |t|
  {
    if t != [] && IsSpace(t[0]) {
      assert Lower(t)[1..] == Lower(t[1..]);
      LowerSpaceRun(t[1..]);
    }
  }

  /** `re.sub(r"\s+", " ", t).lower() == re.sub(r"\s+", " ", t.lower())`. */
  lemma {:induction false} LowerCollapse(t: string)
    ensures Lower(Collapse(t)) == Collapse(Lower(t))
    decreases |t|, 1
  {
    if t != [] {
      if IsSpace(t[0]) {
        LowerCollapseSpace(t);
      } else {
        LowerCollapseChar(t);
      }
    }
  }

  /** The step of `LowerCollapse` over a leading whitespace run. */
  lemma {:induction false} LowerCollapseSpace(t: string)
    requires t != [] && IsSpace(t[0])
    ensures Lower(Collapse(t)) == Collapse(Lower(t))
    decreases |t|, 0
  {
    var n := RunLen(t, IsSpace);
    LowerSpaceRun(t);
    assert Lower(t)[n..] == Lower(t[n..]);
    assert Collapse(Lower(t)) == " " + Collapse(Lower(t[n..]));
    LowerCollapse(t[n..]);
    LowerConcat(" ", Collapse(t[n..]));
  }

  /** The step of `LowerCollapse` over a leading non-space character. */
  lemma {:induction false} LowerCollapseChar(t: string)
    requires t != [] && !IsSpace(t[0])
    ensures Lower(Collapse(t)) == Collapse(Lower(t))
    decreases |t|, 0
  {
    assert Lower(t)[1..] == Lower(t[1..]);
    assert Collapse(Lower(t)) == [LowerChar(t[0])] + Collapse(Lower(t[1..]));
    LowerCollapse(t[1..]);
    LowerConcat([t[0]], Collapse(t[1..]));
  }

  /** Collapsing copies a leading word unchanged. */
  lemma {:induction false} CollapseWord(v: string)
    ensures var n := RunLen(v, NotSpace); Collapse(v) == v[..n] + Collapse(v[n..])
    decreases |v|
  {
    var n := RunLen(v, NotSpace);
    if n > 0 {
      var t := v[1..];
      assert RunLen(t, NotSpace) == n - 1;
      CollapseWord(t);
      assert Collapse(v) == [v[0]] + Collapse(t);
      assert t[n - 1..] == v[n..];
      assert v[..n] == [v[0]] + t[..n - 1];
    }
  }

  /** Characters that `keep` rejects never start a run, so skipping them leaves the runs unchanged. */
  lemma {:induction false} RunsSkip(v: string, keep: char -> bool, m: nat)
    requires m <= |v|
    requires forall i :: 0 <= i < m ==> !keep(v[i])
    ensures Runs(v, keep) == Runs(v[m..], keep)
    decreases m
  {
    if m > 0 {
      RunsSkip(v[1..], keep, m - 1);
      assert v[1..][m - 1..] == v[m..];
    }
  }

  /** Joining words with single spaces gives a canonical string that starts with the
      first word and ends with the last. */
  lemma {:induction false} JoinWords(ws: seq<string>)
    requires forall i :: 0 <= i < |ws| ==> IsWord(ws[i])
    ensures Canonical(Join(" ", ws))
    ensures ws != [] ==> |Join(" ", ws)| > 0 && Join(" ", ws)[0] == ws[0][0]
    ensures ws != [] ==> |Join(" ", ws)| > 0 && !IsSpace(Join(" ", ws)[|Join(" ", ws)| - 1])
    decreases |ws|
  {
    if |ws| >= 2 {
      var w := ws[0];
      var r := Join(" ", ws[1..]);
      JoinWords(ws[1..]);
      var j := w + " " + r;
      assert Join(" ", ws) == j;
      forall i | 0 <= i < |j| && IsSpace(j[i]) ensures j[i] == ' ' {
        if i > |w| { assert j[i] == r[i - |w| - 1]; }
      }
      forall i | 0 <= i < |j| - 1 && IsSpace(j[i]) ensures !IsSpace(j[i + 1]) {
        if i == |w| { assert j[i + 1] == r[0]; }
        else if i > |w| { assert j[i] == r[i - |w| - 1]; assert j[i + 1] == r[i - |w|]; }
      }
    }
  }

  /** On a string with no edge whitespace, collapsing whitespace runs is joining its words. */
  lemma {:induction false} CollapseIsJoinSplit(u: string)
    requires NoEdgeSpace(u)
    ensures Collapse(u) == Join(" ", Split(u))
    decreases |u|
  {
    if u != [] {
      var n := RunLen(u, NotSpace);
      CollapseWord(u);
      assert Split(u) == [u[..n]] + Split(u[n..]);
      if n < |u| {
        var v := u[n..];
        var m := RunLen(v, IsSpace);
        assert v[|v| - 1] == u[|u| - 1];
        assert m < |v|;
        var w := v[m..];
        assert w[|w| - 1] == u[|u| - 1];
        RunsSkip(v, NotSpace, m);
        CollapseIsJoinSplit(w);
        assert Runs(w, NotSpace) == [w[..RunLen(w, NotSpace)]] + Runs(w[RunLen(w, NotSpace)..], NotSpace);
        assert Split(u) == [u[..n]] + Split(w);
      }
    }
  }

  /** Lowering keeps a string free of edge whitespace. */
  lemma LowerNoEdge(s: string)
    requires NoEdgeSpace(s)
    ensures NoEdgeSpace(Lower(s))
  {
  }

  /** The retriever's query key and the catalog's title key are the same function:
      `re.sub(r"\s+", " ", s.strip()).lower() == " ".join(s.strip().lower().split())`. */
  lemma NormQueryIsNorm(s: string)
    ensures NormQuery(s) == Norm(s)
  {
    var t := Strip(s);
    LowerCollapse(t);
    LowerNoEdge(t);
    CollapseIsJoinSplit(Lower(t));
  }

  /** Every normalised key is canonical and lower-case: trimmed, single-spaced, no upper-case letter. */
  lemma NormCanonical(s: string)
    ensures Canonical(Norm(s)) && AllLower(Norm(s))
    ensures Canonical(NormQuery(s)) && AllLower(NormQuery(s))
  {
    JoinWords(Split(Lower(Strip(s))));
    NormQueryIsNorm(s);
  }

  /** A canonical string from a non-space position on is canonical. */
  lemma CanonicalSuffix(s: string, m: nat)
    requires Canonical(s) && m < |s| && !IsSpace(s[m])
    ensures Canonical(s[m..])
  {
    var t := s[m..];
    assert forall i :: 0 <= i < |t| ==> t[i] == s[m + i];
  }

  /** Collapsing whitespace runs leaves a canonical string as it is. */
  lemma {:induction false} CanonicalFixed(s: string)
    requires Canonical(s)
    ensures Collapse(s) == s
    decreases |s|, 1
  {
    if |s| >= 2 {
      CanonicalFixedStep(s);
    } else if |s| == 1 {
      assert Collapse(s) == [s[0]] + Collapse([]);
    }
  }

  /** The step of `CanonicalFixed` past the first word character. */
  lemma {:induction false} CanonicalFixedStep(s: string)
    requires Canonical(s) && |s| >= 2
    ensures Collapse(s) == s
    decreases |s|, 0
  {
    var t := s[1..];
    assert Collapse(s) == [s[0]] + Collapse(t);
    if IsSpace(s[1]) {
      var u := s[2..];
      assert Collapse(t) == " " + Collapse(u) by {
        assert s[1] == ' ' && !IsSpace(s[2]);
        assert RunLen(t, IsSpace) == 1;
        assert t[1..] == u;
      }
      assert Collapse(u) == u by {
        CanonicalSuffix(s, 2);
        CanonicalFixed(u);
      }
      assert s == [s[0]] + " " + u;
    } else {
      assert Collapse(t) == t by {
        CanonicalSuffix(s, 1);
        CanonicalFixed(t);
      }
      assert s == [s[0]] + t;
    }
  }

  /** A canonical lower-case string is its own key. */
  lemma NormFixed(k: string)
    requires Canonical(k) && AllLower(k)
    ensures Norm(k) == k
  {
    NormQueryIsNorm(k);
    assert Strip(k) == k;
    CanonicalFixed(k);
    assert Lower(k) == k;
    assert NormQuery(k) == k;
  }

  /** Normalising a normalised key changes nothing. */
  lemma NormIdempotent(s: string)
    ensures Norm(Norm(s)) == Norm(s)
  {
    NormCanonical(s);
    NormFixed(Norm(s));
  }
}
