/** Strings, options and orders shared by the other modules. */
module Text {

  datatype Option<+T> = None | Some(value: T)

  /** The characters that Python's `str.strip` removes. */
  predicate IsSpace(c: char) {
    || '\t' <= c <= '\r' || '\U{1c}' <= c <= ' '
    || c == '\U{85}' || c == '\U{a0}' || c == '\U{1680}'
    || '\U{2000}' <= c <= '\U{200a}' || c == '\U{2028}' || c == '\U{2029}'
    || c == '\U{202f}' || c == '\U{205f}' || c == '\U{3000}'
  }

  ghost predicate AllSpace(s: string) {
    forall i :: 0 <= i < |s| ==> IsSpace(s[i])
  }

  /** The first position from i on that is not whitespace. */
  function Lead(s: string, i: nat): (k: nat)
    requires i <= |s|
    ensures i <= k <= |s|
    decreases |s| - i
  {
    if i < |s| && IsSpace(s[i]) then Lead(s, i + 1) else i
  }

  /** One past the last position in [i, k) that is not whitespace, or i. */
  function Trail(s: string, i: nat, k: nat): (j: nat)
    requires i <= k <= |s|
    ensures i <= j <= k
  {
    if i < k && IsSpace(s[k - 1]) then Trail(s, i, k - 1) else k
  }

  lemma {:induction false} LeadSkips(s: string, i: nat)
    requires i <= |s|
    ensures var k := Lead(s, i);
            (k < |s| ==> !IsSpace(s[k])) && forall j :: i <= j < k ==> IsSpace(s[j])
    decreases |s| - i
  {
    if i < |s| && IsSpace(s[i]) { LeadSkips(s, i + 1); }
  }

  lemma {:induction false} TrailSkips(s: string, i: nat, k: nat)
    requires i <= k <= |s|
    ensures var j := Trail(s, i, k);
            (i < j ==> !IsSpace(s[j - 1])) && forall x :: j <= x < k ==> IsSpace(s[x])
  {
    if i < k && IsSpace(s[k - 1]) { TrailSkips(s, i, k - 1); }
  }

  /** Python's `s.strip()`. */
  function Strip(s: string): string {
    var i := Lead(s, 0);
    s[i..Trail(s, i, |s|)]
  }

  /** A string whose ends, if it has any, are not whitespace. */
  ghost predicate Trimmed(s: string) {
    s != "" ==> !IsSpace(s[0]) && !IsSpace(s[|s| - 1])
  }

  /** Stripping removes exactly the outer whitespace. */
  lemma StripOf(a: string, m: string, b: string)
    requires AllSpace(a) && AllSpace(b) && Trimmed(m)
    ensures Strip(a + m + b) == m
  {
    var s := a + m + b;
    var i := Lead(s, 0);
    var j := Trail(s, i, |s|);
    LeadSkips(s, 0);
    TrailSkips(s, i, |s|);
    assert forall x :: 0 <= x < |a| ==> s[x] == a[x];
    assert forall x :: 0 <= x < |m| ==> s[|a| + x] == m[x];
    assert forall x :: 0 <= x < |b| ==> s[|a| + |m| + x] == b[x];
    if m != "" {
      assert s[|a|] == m[0] && s[|a| + |m| - 1] == m[|m| - 1];
      assert i == |a| && j == |a| + |m|;
    }
  }

  /** Where the stripped text sits in the original. */
  lemma StripSlice(s: string) returns (i: nat, j: nat)
    ensures i <= j <= |s| && Strip(s) == s[i..j] && Trimmed(Strip(s))
    ensures AllSpace(s[..i]) && AllSpace(s[j..])
  {
    i := Lead(s, 0);
    j := Trail(s, i, |s|);
    LeadSkips(s, 0);
    TrailSkips(s, i, |s|);
  }

  lemma StripAgain(s: string)
    ensures Strip(Strip(s)) == Strip(s)
  {
    var i, j := StripSlice(s);
    assert "" + Strip(s) + "" == Strip(s);
    StripOf("", Strip(s), "");
  }

  /** Whitespace added at either end is invisible to `Strip`. */
  lemma StripPadded(a: string, s: string, b: string)
    requires AllSpace(a) && AllSpace(b)
    ensures Strip(a + s + b) == Strip(s)
  {
    var i, j := StripSlice(s);
    assert a + s + b == (a + s[..i]) + s[i..j] + (s[j..] + b);
    StripOf(a + s[..i], s[i..j], s[j..] + b);
  }

  lemma SliceOfDrop<T>(s: seq<T>, a: nat, i: nat, k: nat)
    requires i <= k && a + k <= |s|
    ensures s[a..][i..k] == s[a + i..a + k]
  {
  }

  lemma SliceOfTake<T>(s: seq<T>, n: nat, i: nat, k: nat)
    requires i <= k <= n <= |s|
    ensures s[..n][i..k] == s[i..k]
  {
  }

  /** Python's order on strings: code point by code point, a prefix first. */
  predicate LexLeq(a: string, b: string) {
    a == "" || (b != "" && (a[0] < b[0] || (a[0] == b[0] && LexLeq(a[1..], b[1..]))))
  }

  /** k is the first place where they differ, and a has the lesser character there. */
  ghost predicate LessAt(a: string, b: string, k: nat) {
    k < |a| && k < |b| && a[..k] == b[..k] && a[k] < b[k]
  }

  lemma {:induction false} LexLeqIff(a: string, b: string)
    ensures LexLeq(a, b) <==> a <= b || exists k: nat :: LessAt(a, b, k)
  {
    if a != "" && b != "" {
      if a[0] == b[0] {
        LexLeqIff(a[1..], b[1..]);
        assert a == [a[0]] + a[1..] && b == [b[0]] + b[1..];
        if k: nat :| LessAt(a[1..], b[1..], k) {
          assert a[..k + 1] == [a[0]] + a[1..][..k] && b[..k + 1] == [b[0]] + b[1..][..k];
          assert LessAt(a, b, k + 1);
        }
        if k: nat :| LessAt(a, b, k) {
          assert k > 0 && a[1..][..k - 1] == a[..k][1..] && b[1..][..k - 1] == b[..k][1..];
          assert LessAt(a[1..], b[1..], k - 1);
        }
      } else if a[0] < b[0] {
        assert LessAt(a, b, 0);
      } else {
        forall k: nat | 0 < k <= |a| && k <= |b| ensures a[..k] != b[..k] {
          assert a[..k][0] == a[0] && b[..k][0] == b[0];
        }
      }
    }
  }

  lemma {:induction false} LexReflexive(a: string)
    ensures LexLeq(a, a)
  {
    if a != "" { LexReflexive(a[1..]); }
  }

  lemma {:induction false} LexTotal(a: string, b: string)
    ensures LexLeq(a, b) || LexLeq(b, a)
  {
    if a != "" && b != "" && a[0] == b[0] { LexTotal(a[1..], b[1..]); }
  }

  lemma {:induction false} LexAntisymmetric(a: string, b: string)
    requires LexLeq(a, b) && LexLeq(b, a)
    ensures a == b
  {
    if a != "" && b != "" {
      LexAntisymmetric(a[1..], b[1..]);
      assert a == [a[0]] + a[1..] && b == [b[0]] + b[1..];
    }
  }

  lemma {:induction false} LexTransitive(a: string, b: string, c: string)
    requires LexLeq(a, b) && LexLeq(b, c)
    ensures LexLeq(a, c)
  {
    if a != "" && a[0] == b[0] && b[0] == c[0] { LexTransitive(a[1..], b[1..], c[1..]); }
  }

  /** `list(dict.fromkeys(s))`: the first occurrence of each element, in order. */
  function Dedup<T(==,!new)>(s: seq<T>): (r: seq<T>)
    ensures forall x :: x in r <==> x in s
    ensures forall i, j :: 0 <= i < j < |r| ==> r[i] != r[j]
  {
    if s == [] then []
    else
      var front := Dedup(s[..|s| - 1]);
      var last := s[|s| - 1];
      assert s == s[..|s| - 1] + [last];
      if last in front then front else front + [last]
  }

  /** Of two elements the one met first comes first. */
  lemma {:induction false} DedupInOrder<T(!new)>(s: seq<T>, i: nat, j: nat) returns (a: nat, b: nat)
    requires i < j < |s| && s[i] !in s[..i] && s[j] !in s[..j]
    ensures a < b < |Dedup(s)| && Dedup(s)[a] == s[i] && Dedup(s)[b] == s[j]
  {
    var front := s[..|s| - 1];
    if j < |front| {
      assert front[..i] == s[..i] && front[..j] == s[..j];
      a, b := DedupInOrder(front, i, j);
    } else {
      assert front[i] == s[i] && s[i] in Dedup(front);
      var k :| 0 <= k < |Dedup(front)| && Dedup(front)[k] == s[i];
      a, b := k, |Dedup(front)|;
    }
  }
}
