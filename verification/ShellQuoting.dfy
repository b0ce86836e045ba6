/** What the splitter and the metacharacter scan make of quoted, escaped and plain text, character by character
    (permissions/broadening.py). */
module ShellQuoting {
  import opened Text
  import opened ShellSplit

  /** Text without quotes, backslashes and separators; a lone `&` is none. */
  ghost predicate Plain(s: string) {
    && (forall k :: 0 <= k < |s| ==> s[k] != '\'' && s[k] != '"' && s[k] != '\\' && s[k] != '|' && s[k] != ';')
    && (forall k :: 0 <= k < |s| - 1 ==> !(s[k] == '&' && s[k + 1] == '&'))
  }

  ghost predicate Has(s: string, cs: string) {
    exists k :: 0 <= k < |s| && s[k] in cs
  }

  ghost predicate Lacks(s: string, cs: string) {
    forall k :: 0 <= k < |s| ==> s[k] !in cs
  }

  // ----- runs of characters that leave the quote state alone -----

  /** From i to j every step takes one character, stays in q and meets no separator. */
  ghost predicate Quiet(s: string, i: nat, j: nat, q: Quote)
    requires i <= j <= |s|
  {
    forall k :: i <= k < j ==> Width(s, k, q) == 1 && After(s[k], q) == q && !AtSep(s, k, q)
  }

  ghost predicate DangerIn(s: string, i: nat, j: nat, q: Quote)
    requires i <= j <= |s|
  {
    exists k :: i <= k < j && Danger(s[k], q)
  }

  lemma {:induction false} QuietRun(s: string, i: nat, j: nat, q: Quote)
    requires i <= j <= |s| && Quiet(s, i, j, q)
    ensures Cut(s, i, q) == Cut(s, j, q)
    ensures Unsafe(s, i, q) <==> DangerIn(s, i, j, q) || Unsafe(s, j, q)
    decreases j - i
  {
    hide Width, After, SepAt, Danger;
    if i < j {
      QuietRun(s, i + 1, j, q);
      assert DangerIn(s, i, j, q) <==> Danger(s[i], q) || DangerIn(s, i + 1, j, q);
    }
  }

  lemma PlainIsQuiet(s: string, i: nat, j: nat)
    requires i <= j <= |s| && Plain(s[i..j]) && (j == |s| || s[j] != '&')
    ensures Quiet(s, i, j, Unquoted)
    ensures DangerIn(s, i, j, Unquoted) <==> Has(s[i..j], "()$`<>{}")
  {
    var t := s[i..j];
    assert forall k :: i <= k < j ==> s[k] == t[k - i];
    forall k | i <= k < j
      ensures Width(s, k, Unquoted) == 1 && After(s[k], Unquoted) == Unquoted && !AtSep(s, k, Unquoted)
      ensures Danger(s[k], Unquoted) <==> t[k - i] in "()$`<>{}"
    {
      assert s[k] == t[k - i];
      if k + 1 < j { assert s[k + 1] == t[k + 1 - i] && !(t[k - i] == '&' && t[k - i + 1] == '&'); }
    }
    forall k | 0 <= k < |t| ensures t[k] in "()$`<>{}" <==> Danger(s[k + i], Unquoted) { assert s[k + i] == t[k]; }
  }

  lemma QuotedIsQuiet(s: string, i: nat, j: nat)
    requires i <= j <= |s|
    ensures Lacks(s[i..j], "'") ==> Quiet(s, i, j, Single) && !DangerIn(s, i, j, Single)
    ensures Lacks(s[i..j], "\"\\") ==> Quiet(s, i, j, Double) && (DangerIn(s, i, j, Double) <==> Has(s[i..j], "$`"))
  {
    var t := s[i..j];
    forall k | i <= k < j ensures s[k] == t[k - i] {}
    if Lacks(t, "\"\\") {
      forall k | i <= k < j
        ensures Width(s, k, Double) == 1 && After(s[k], Double) == Double && !AtSep(s, k, Double)
        ensures Danger(s[k], Double) <==> t[k - i] in "$`"
      {
        assert t[k - i] !in "\"\\" && "\"\\"[0] == '"' && "\"\\"[1] == '\\';
      }
      forall k | 0 <= k < |t| ensures t[k] in "$`" <==> Danger(s[k + i], Double) { assert s[k + i] == t[k]; }
    }
    if Lacks(t, "'") {
      forall k | i <= k < j ensures s[k] != '\'' { assert t[k - i] !in "'" && "'"[0] == '\''; }
    }
  }

  // ----- what each kind of text comes to -----

  lemma OneSegment(s: string)
    requires Cut(s, 0, Unquoted) == (|s|, Unquoted)
    ensures Split(s) == if Strip(s) == "" then None else Some([Piece(Strip(s), End)])
  {
    hide Strip, Cut;
    SplitAtEnd(s, 0, Unquoted);
    assert s[0..|s|] == s;
  }

  /** Plain text is one segment, and unsafe exactly when one of ( ) $ ` < > { } is in it. */
  lemma PlainText(s: string)
    requires Plain(s)
    ensures Split(s) == if Strip(s) == "" then None else Some([Piece(Strip(s), End)])
    ensures Unsafe(s, 0, Unquoted) <==> Has(s, "()$`<>{}")
  {
    hide Strip, Plain, Quiet, DangerIn, Danger, Width, After, SepAt;
    assert s[0..|s|] == s;
    PlainIsQuiet(s, 0, |s|);
    QuietRun(s, 0, |s|, Unquoted);
    OneSegment(s);
  }

  /** Plain text, then quoted text that may hold anything but its quote (and, in double quotes, a backslash),
      then plain text: it is one segment whatever is quoted. Single quotes make everything safe; in double
      quotes $ and ` stay unsafe. */
  lemma QuotedText(a: string, quote: char, b: string, c: string)
    requires Plain(a) && Plain(c)
    requires (quote == '\'' && Lacks(b, "'")) || (quote == '"' && Lacks(b, "\"\\"))
    ensures var s := a + [quote] + b + [quote] + c;
            && Split(s) == Some([Piece(Strip(s), End)])
            && (Unsafe(s, 0, Unquoted) <==>
                  Has(a, "()$`<>{}") || (quote == '"' && Has(b, "$`")) || Has(c, "()$`<>{}"))
  {
    var s := a + [quote] + b + [quote] + c;
    var i, j := |a| + 1, |a| + 1 + |b|;
    var q := if quote == '"' then Double else Single;
    hide Strip, Plain, Quiet, DangerIn, Has, Lacks, Width, After, SepAt, Danger, Cut, Unsafe, Split;
    QuotedParts(a, quote, b, c);
    QuoteSteps(s, |a|, quote);
    QuoteSteps(s, j, quote);
    NotBlank(s, |a|);
    PlainIsQuiet(s, 0, |a|);
    QuotedIsQuiet(s, i, j);
    PlainIsQuiet(s, j + 1, |s|);
    QuietRun(s, 0, |a|, Unquoted);
    QuietRun(s, i, j, q);
    QuietRun(s, j + 1, |s|, Unquoted);
    ScanEnds(s);
    OneSegment(s);
  }

  /** Opening and closing a quote. */
  lemma QuoteSteps(s: string, i: nat, quote: char)
    requires i < |s| && s[i] == quote && (quote == '\'' || quote == '"')
    ensures var q := if quote == '"' then Double else Single;
            && Cut(s, i, Unquoted) == Cut(s, i + 1, q) && Unsafe(s, i, Unquoted) == Unsafe(s, i + 1, q)
            && Cut(s, i, q) == Cut(s, i + 1, Unquoted) && Unsafe(s, i, q) == Unsafe(s, i + 1, Unquoted)
  {}

  lemma ScanEnds(s: string)
    ensures forall q :: Cut(s, |s|, q) == (|s|, q) && (Unsafe(s, |s|, q) <==> q != Unquoted)
  {}

  lemma NotBlank(s: string, i: nat)
    requires i < |s| && !IsSpace(s[i])
    ensures Strip(s) != ""
  {
    var _, _ := StripSlice(s);
  }

  /** Where the three parts lie. */
  lemma Parts(a: string, m: string, b: string)
    ensures var s, j := a + m + b, |a| + |m|;
            |s| == j + |b| && s[0..|a|] == a && s[|a|..j] == m && s[j..|s|] == b
  {
    var s, j := a + m + b, |a| + |m|;
    assert s[..j] == a + m;
    assert s[..j][|a|..] == m;
  }

  lemma QuotedParts(a: string, quote: char, b: string, c: string)
    ensures var s, i, j := a + [quote] + b + [quote] + c, |a| + 1, |a| + 1 + |b|;
            && |s| == j + 1 + |c| && s[|a|] == quote && s[j] == quote
            && s[0..|a|] == a && s[i..j] == b && s[j + 1..|s|] == c
  {
    var s := a + [quote] + b + [quote] + c;
    Parts(a + [quote] + b, [quote], c);
    assert s == a + [quote] + b + ([quote] + c);
    Parts(a + [quote], b, [quote] + c);
  }

  /** A quote opened in plain text and never closed is not split, and unsafe. */
  lemma OpenQuote(a: string, quote: char, b: string)
    requires Plain(a)
    requires (quote == '\'' && Lacks(b, "'")) || (quote == '"' && Lacks(b, "\"\\"))
    ensures var s := a + [quote] + b; Split(s) == None && Unsafe(s, 0, Unquoted)
  {
    var s := a + [quote] + b;
    var q := if quote == '"' then Double else Single;
    Parts(a, [quote], b);
    assert s[|a|] == quote;
    hide Split, Strip, Plain, Quiet, DangerIn, Has, Lacks, Width, After, SepAt, Danger, Cut, Unsafe;
    QuoteSteps(s, |a|, quote);
    PlainIsQuiet(s, 0, |a|);
    QuotedIsQuiet(s, |a| + 1, |s|);
    QuietRun(s, 0, |a|, Unquoted);
    QuietRun(s, |a| + 1, |s|, q);
    ScanEnds(s);
    OpenAtEnd(s, q);
  }

  lemma OpenAtEnd(s: string, q: Quote)
    requires Cut(s, 0, Unquoted) == (|s|, q) && q != Unquoted
    ensures Split(s) == None
  {
    hide Strip, Cut;
    SplitAtEnd(s, 0, q);
  }

  /** A backslash takes the next character with it, be it a separator, a quote or unsafe. */
  lemma EscapedText(a: string, x: char, b: string)
    requires Plain(a) && Plain(b)
    ensures var s := a + ['\\', x] + b;
            && Split(s) == Some([Piece(Strip(s), End)])
            && (Unsafe(s, 0, Unquoted) <==> Has(a, "()$`<>{}") || Has(b, "()$`<>{}"))
  {
    var s := a + ['\\', x] + b;
    var j := |a| + 2;
    assert s[0..|a|] == a && s[j..|s|] == b && s[|a|] == '\\';
    NotBlank(s, |a|);
    assert Cut(s, |a|, Unquoted) == Cut(s, j, Unquoted) && Unsafe(s, |a|, Unquoted) == Unsafe(s, j, Unquoted);
    hide Strip, Plain, Quiet, DangerIn, Has, Width, After, SepAt, Danger, Cut, Unsafe;
    PlainIsQuiet(s, 0, |a|);
    PlainIsQuiet(s, j, |s|);
    QuietRun(s, 0, |a|, Unquoted);
    QuietRun(s, j, |s|, Unquoted);
    ScanEnds(s);
    OneSegment(s);
  }

  /** So it does in double quotes, where an escaped quote does not close. */
  lemma EscapedInQuotes(b: string, x: char, c: string)
    requires Lacks(b, "\"\\") && Lacks(c, "\"\\")
    ensures var s := "\"" + b + ['\\', x] + c + "\"";
            && Split(s) == Some([Piece(Strip(s), End)])
            && (Unsafe(s, 0, Unquoted) <==> Has(b, "$`") || Has(c, "$`"))
  {
    var s := "\"" + b + ['\\', x] + c + "\"";
    var i, j := 1 + |b|, |b| + 3;
    hide Strip, Quiet, DangerIn, Has, Lacks, Width, After, SepAt, Danger, Cut, Unsafe, Split;
    assert s[0] == '"';
    EscapedParts(b, x, c);
    QuoteSteps(s, 0, '"');
    QuoteSteps(s, |s| - 1, '"');
    NotBlank(s, 0);
    EscapeStep(s, i);
    QuotedIsQuiet(s, 1, i);
    QuotedIsQuiet(s, j, |s| - 1);
    QuietRun(s, 1, i, Double);
    QuietRun(s, j, |s| - 1, Double);
    ScanEnds(s);
    OneSegment(s);
  }

  lemma EscapedParts(b: string, x: char, c: string)
    ensures var s := "\"" + b + ['\\', x] + c + "\"";
            && |s| == |b| + |c| + 4 && s[1 + |b|] == '\\' && s[|s| - 1] == '"'
            && s[1..1 + |b|] == b && s[|b| + 3..|s| - 1] == c
  {
    Parts("\"" + b + ['\\', x], c, "\"");
    Parts("\"" + b, ['\\', x], c + "\"");
    assert "\"" + b + ['\\', x] + (c + "\"") == "\"" + b + ['\\', x] + c + "\"";
  }

  lemma EscapeStep(s: string, i: nat)
    requires i + 1 < |s| && s[i] == '\\'
    ensures Cut(s, i, Double) == Cut(s, i + 2, Double) && Unsafe(s, i, Double) == Unsafe(s, i + 2, Double)
  {}

  /** Two plain commands with a separator between them are two segments, spaced or not; where one is blank the
      whole is not split. */
  lemma SeparatedText(a: string, sep: string, b: string)
    requires Plain(a) && Plain(b) && sep in ["&&", "||", "|", ";"]
    requires Lacks(a, "&") && Lacks(b, "&")
    ensures Split(a + sep + b) ==
            if Strip(a) == "" || Strip(b) == "" then None
            else Some([Piece(Strip(a), if sep == "&&" then And else if sep == "||" then Or
                                       else if sep == "|" then Pipe else Semi),
                       Piece(Strip(b), End)])
  {
    var s := a + sep + b;
    var j := |a| + |sep|;
    hide Strip, Quiet, DangerIn, Has, Width, After, SepAt, Danger, Cut, Unsafe, SplitFrom;
    Parts(a, sep, b);
    SeparatorIs(a, sep, b);
    QuietBefore(s, |a|, a);
    hide Plain, Lacks;
    QuietRun(s, 0, |a|, Unquoted);
    CutStep(s, |a|, Unquoted);
    SplitAtSep(s, 0, |a|);
    PlainIsQuiet(s, j, |s|);
    QuietRun(s, j, |s|, Unquoted);
    ScanEnds(s);
    SplitAtEnd(s, j, Unquoted);
    var p, last := Piece(Strip(a), SepAt(s, |a|)), Piece(Strip(b), End);
    assert [p] + [last] == [p, last];
  }

  lemma SeparatorIs(a: string, sep: string, b: string)
    requires Plain(b) && sep in ["&&", "||", "|", ";"]
    ensures SepAt(a + sep + b, |a|) == (if sep == "&&" then And else if sep == "||" then Or
                                        else if sep == "|" then Pipe else Semi)
    ensures SepAt(a + sep + b, |a|).Len() == |sep|
  {
    var s := a + sep + b;
    assert forall k :: 0 <= k < |sep| ==> s[|a| + k] == sep[k];
    if b != "" { assert s[|a| + |sep|] == b[0]; }
  }

  lemma QuietBefore(s: string, j: nat, a: string)
    requires j <= |s| && s[0..j] == a && Plain(a) && Lacks(a, "&")
    ensures Quiet(s, 0, j, Unquoted)
  {
    forall k | 0 <= k < j ensures s[k] == a[k] && s[k] != '&' { assert a[k] !in "&" && "&"[0] == '&'; }
  }
}
