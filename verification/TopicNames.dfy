/** What a slug's tokens are, when two topics are similar, and which topic of a cluster names it
    (memory/canonicalize.py). */
module TopicNames {
  import opened Text
  import opened Canonicalize
  import opened TopicFolding

  predicate IsCut(c: char) {
    c == '-' || c == '_'
  }

  ghost predicate IsWord(w: string) {
    forall k :: 0 <= k < |w| ==> !IsCut(w[k])
  }

  /** The words written out, each but the last followed by its cut. */
  function Slug(words: seq<string>, cuts: string): string
    requires |words| == |cuts| + 1
  {
    if cuts == "" then words[0] else words[0] + [cuts[0]] + Slug(words[1..], cuts[1..])
  }

  /** Every text is words and cuts. */
  lemma {:induction false} SlugIsWords(s: string) returns (words: seq<string>, cuts: string)
    ensures |words| == |cuts| + 1 && s == Slug(words, cuts)
    ensures (forall w :: w in words ==> IsWord(w)) && forall c :: c in cuts ==> IsCut(c)
  {
    if s == "" {
      words, cuts := [""], "";
    } else {
      var ws, cs := SlugIsWords(s[1..]);
      assert s == [s[0]] + s[1..];
      if IsCut(s[0]) {
        words, cuts := [""] + ws, [s[0]] + cs;
        assert words[1..] == ws && cuts[1..] == cs;
        assert s == "" + [s[0]] + Slug(ws, cs);
      } else {
        words, cuts := [[s[0]] + ws[0]] + ws[1..], cs;
        assert words[1..] == ws[1..];
        assert IsWord(ws[0]) && IsWord(words[0]);
        assert cs != "" ==> ([s[0]] + ws[0]) + [cs[0]] + Slug(ws[1..], cs[1..])
                            == [s[0]] + (ws[0] + [cs[0]] + Slug(ws[1..], cs[1..]));
      }
    }
  }

  lemma {:induction false} WordRead(w: string, rest: string, word: string)
    requires IsWord(w)
    ensures WordsFrom(w + rest, word) == WordsFrom(rest, word + w)
  {
    if w == "" {
      assert w + rest == rest && word + w == word;
    } else {
      assert (w + rest)[1..] == w[1..] + rest && (w + rest)[0] == w[0];
      WordRead(w[1..], rest, word + [w[0]]);
      assert word + [w[0]] + w[1..] == word + w;
    }
  }

  /** The tokens of a slug are its words, less blanks and stop words: neither their order, nor repeats, nor which
      cut stands between them matters. */
  lemma {:induction false} TokensAreWords(words: seq<string>, cuts: string, w: string)
    requires |words| == |cuts| + 1
    requires (forall x :: x in words ==> IsWord(x)) && forall c :: c in cuts ==> IsCut(c)
    ensures w in Tokens(Slug(words, cuts)) <==> w in words && w != "" && w !in STOP
  {
    var first := words[0];
    if cuts == "" {
      assert first + "" == first && "" + first == first;
      WordRead(first, "", "");
      assert words == [first];
    } else {
      var rest := Slug(words[1..], cuts[1..]);
      var tail := [cuts[0]] + rest;
      assert Slug(words, cuts) == first + tail && "" + first == first;
      WordRead(first, tail, "");
      assert tail[0] == cuts[0] && tail[1..] == rest && IsCut(cuts[0]);
      TokensAreWords(words[1..], cuts[1..], w);
      assert words == [first] + words[1..];
    }
  }

  /** Two topics with tokens are similar exactly when one's tokens are among the other's, or the Jaccard index of
      the two sets is at least one half. */
  lemma SimilarIff(a: Topic, b: Topic)
    ensures var ta, tb := Tokens(a), Tokens(b);
            Similar(a, b) <==>
              && ta != {} && tb != {}
              && (ta <= tb || tb <= ta || |ta * tb| as real / |ta + tb| as real >= 0.5)
  {
    var ta, tb := Tokens(a), Tokens(b);
    if ta != {} {
      var x :| x in ta;
      assert x in ta + tb;
      assert |ta + tb| > 0;
      HalfIs(|ta * tb|, |ta + tb|);
    }
  }

  lemma HalfIs(m: nat, n: nat)
    requires n > 0
    ensures m as real / n as real >= 0.5 <==> 2 * m >= n
  {
    var q := m as real / n as real;
    assert q * n as real == m as real;
    if q >= 0.5 {
      assert (q - 0.5) * n as real >= 0.0;
    } else {
      assert (0.5 - q) * n as real > 0.0;
    }
  }

  /** A topic with no tokens is linked to nothing but itself. */
  lemma {:induction false} TokenlessIsAlone(S: set<Topic>, p: seq<Topic>, t: Topic, u: Topic)
    requires Chain(S, p, t, u) && t != u
    ensures Tokens(t) != {} && Tokens(u) != {}
    decreases |p|
  {
    hide Tokens, HalfShared;
    assert Similar(p[0], p[1]);
    if |p| > 2 && p[1] != u {
      TokenlessIsAlone(S, p[1..], p[1], u);
    }
  }

  /** g is of t's cluster, with the fewest tokens, the first in order among those. */
  ghost predicate MostGeneral(S: set<Topic>, t: Topic, g: Topic) {
    && g in S && Linked(S, t, g)
    && forall u :: u in S && Linked(S, t, u) ==>
         |Tokens(g)| < |Tokens(u)| || (|Tokens(g)| == |Tokens(u)| && LexLeq(g, u))
  }

  lemma GeneralIsLeast(S: set<Topic>, t: Topic, r: Topic, u: Topic)
    requires t in S && r in S && u in S && Linked(S, t, r) && Linked(S, t, u)
    ensures KeyLeq(r, u) <==> |Tokens(r)| < |Tokens(u)| || (|Tokens(r)| == |Tokens(u)| && LexLeq(r, u))
  {
    hide Tokens, Similar, LexLeq;
    if r == u {
      LexReflexive(u);
    } else {
      LinkedSymmetric(S, t, r);
      LinkedTransitive(S, r, t, u);
      var p :| Chain(S, p, r, u);
      TokenlessIsAlone(S, p, r, u);
    }
  }

  /** A cluster is named by its most general topic. */
  lemma NamedByTheMostGeneral(S: set<Topic>, t: Topic, g: Topic)
    requires t in S
    ensures CanonicalMap(S)[t] == g <==> MostGeneral(S, t, g)
  {
    hide Tokens, Similar, LexLeq, KeyLeq, Linked;
    var r := Canonical(S, t);
    forall u | u in S && Linked(S, t, u)
      ensures |Tokens(r)| < |Tokens(u)| || (|Tokens(r)| == |Tokens(u)| && LexLeq(r, u))
    {
      GeneralIsLeast(S, t, r, u);
    }
    if MostGeneral(S, t, g) {
      forall u | u in S && Linked(S, t, u) ensures KeyLeq(g, u) { GeneralIsLeast(S, t, g, u); }
      LeastIsUnique(S, t, g);
    }
  }

  /** A topic folds onto the most general one of its cluster where that has a node or none in the cluster has, and
      otherwise onto the first by name of those that have one. */
  lemma FoldTarget(S: set<Topic>, sem: set<Topic>, t: Topic, g: Topic)
    requires t in S && MostGeneral(S, t, g)
    ensures var r := FoldMap(S, sem)[t];
            if g in sem || !exists u :: u in S && u in sem && Linked(S, t, u) then r == g
            else && r in S && r in sem && Linked(S, t, r)
                 && forall u :: u in S && u in sem && Linked(S, t, u) ==> LexLeq(r, u)
  {
    hide LexLeq, Linked, MostGeneral;
    NamedByTheMostGeneral(S, t, g);
    var r := FoldMap(S, sem)[t];
    assert IsFold(S, sem, t, r);
    forall u ensures SemanticLinked(S, sem, t, u) <==> u in S && u in sem && Linked(S, t, u) {}
  }
}
