/**
 * Page elements and the two renderers of static/js/main.js that work on them:
 * setResultWithHighlight (lines 137-149) and the "nothing to copy" decision of
 * copyResult (lines 187-243).
 */
module Elements {
  import opened Wrappers
  import opened JsText

  const HighlightClass := "result-area highlight"
  const OpenTag := "<span class=\"highlight-number\">"
  const CloseTag := "</span>"

  /** A DOM element: its class attribute, its textContent and its innerHTML. */
  class Element {
    var className: string
    var text: string
    var html: string

    constructor (className: string, text: string)
      ensures this.className == className && this.text == text && html == EscapeHtml(text)
    {
      this.className := className;
      this.text := text;
      html := EscapeHtml(text);
    }

    /** element.textContent = t; the class is untouched. */
    method SetText(t: string)
      modifies this
      ensures text == t && html == EscapeHtml(t) && className == old(className)
    {
      text := t;
      html := EscapeHtml(t);
    }

    /** element.className = c; the content is untouched. */
    method SetClass(c: string)
      modifies this
      ensures className == c && text == old(text) && html == old(html)
    {
      className := c;
    }

    /**
     * setResultWithHighlight: the class always becomes "result-area highlight"; the
     * content follows Highlight. The page text is fullText in both cases.
     */
    method SetResultWithHighlight(fullText: string, highlightText: string)
      modifies this
      ensures className == HighlightClass
      ensures text == fullText
      ensures html == Markup(Highlight(fullText, highlightText))
    {
      className := HighlightClass;
      var parts := Split(fullText, highlightText);
      if |parts| > 1 {
        html := parts[0] + OpenTag + highlightText + CloseTag + Join(parts[1..], highlightText);
        HighlightShowsFullText(fullText, highlightText);
        text := parts[0] + highlightText + Join(parts[1..], highlightText);
      } else {
        SetText(fullText);
      }
    }
  }

  /** What a highlighted result shows: plain text, or a prefix, an emphasised part and the rest. */
  datatype Rendering = PlainText(text: string) | Emphasised(before: string, mark: string, after: string)

  /** The split/join expression of lines 141-147. */
  function Highlight(fullText: string, highlightText: string): Rendering
  {
    var parts := Split(fullText, highlightText);
    if |parts| > 1 then Emphasised(parts[0], highlightText, Join(parts[1..], highlightText))
    else PlainText(fullText)
  }

  /** The text the rendering displays, with the emphasis span removed. */
  function Shown(r: Rendering): string
  {
    match r
    case PlainText(t) => t
    case Emphasised(b, m, a) => b + m + a
  }

  /** The innerHTML the rendering is written as. */
  function Markup(r: Rendering): string
  {
    match r
    case PlainText(t) => EscapeHtml(t)
    case Emphasised(b, m, a) => b + OpenTag + m + CloseTag + a
  }

  /** Splitting on "" gives the characters; there is more than one piece when there are two characters. */
  lemma SplitEmptySeparator(s: string)
    ensures |Split(s, "")| == |s|
    ensures |s| >= 1 ==> Split(s, "")[0] == s[..1] && Join(Split(s, "")[1..], "") == s[1..]
  {
    if |s| >= 1 {
      CharsJoin(s[1..]);
      assert Split(s, "")[1..] == Split(s[1..], "");
    }
  }

  /** Joining the single characters of s with "" gives s. */
  lemma {:induction false} CharsJoin(s: string)
    ensures Join(Split(s, ""), "") == s
  {
    if |s| > 1 {
      CharsJoin(s[1..]);
      assert Split(s, "")[1..] == Split(s[1..], "");
    }
  }

  /** Removing the span tags from the highlighted result gives back the full text exactly. */
  lemma HighlightShowsFullText(fullText: string, highlightText: string)
    ensures Shown(Highlight(fullText, highlightText)) == fullText
  {
    var parts := Split(fullText, highlightText);
    if |parts| > 1 {
      if highlightText == "" {
        SplitEmptySeparator(fullText);
        assert fullText == fullText[..1] + fullText[1..];
      } else {
        SplitOnJoin(fullText, highlightText);
      }
    }
  }

  /**
   * The highlight applies exactly when split yields more than one piece: for a non-empty
   * highlight when it occurs in the text, for "" when the text has two characters or more.
   */
  lemma HighlightWhen(fullText: string, highlightText: string)
    ensures Highlight(fullText, highlightText).Emphasised? <==>
              if highlightText == "" then |fullText| > 1 else Contains(fullText, highlightText)
  {
    if highlightText == "" {
      SplitEmptySeparator(fullText);
    } else {
      SplitOnFirstPiece(fullText, highlightText);
    }
  }

  /** A highlight that does not occur leaves the text as plain text, unchanged. */
  lemma HighlightAbsent(fullText: string, highlightText: string)
    requires highlightText != "" && !Contains(fullText, highlightText)
    ensures Highlight(fullText, highlightText) == PlainText(fullText)
  {
    HighlightWhen(fullText, highlightText);
  }

  /**
   * A highlight that occurs is emphasised at its FIRST occurrence only: the prefix ends
   * where it first occurs, and later occurrences stay in the plain remainder.
   */
  lemma HighlightFirstOccurrence(fullText: string, highlightText: string)
    requires highlightText != "" && Contains(fullText, highlightText)
    ensures Highlight(fullText, highlightText).Emphasised?
    ensures var r := Highlight(fullText, highlightText);
            && r.mark == highlightText
            && FirstOccurrence(fullText, highlightText, |r.before|)
            && fullText == r.before + highlightText + r.after
  {
    SplitOnFirstPiece(fullText, highlightText);
    HighlightShowsFullText(fullText, highlightText);
  }

  /** A highlight placed between two texts is emphasised, and the page text is the whole. */
  lemma HighlightOccurring(pre: string, a: string, suf: string)
    requires a != ""
    ensures var r := Highlight(pre + a + suf, a);
            r.Emphasised? && r.mark == a && Shown(r) == pre + a + suf
  {
    var s := pre + a + suf;
    assert s[|pre|..|pre| + |a|] == a;
    assert OccursAt(s, a, |pre|);
    HighlightFirstOccurrence(s, a);
    HighlightShowsFullText(s, a);
  }

  /**
   * When `a` does not end anywhere before the end of its copy after `pre`, the emphasis
   * lands on that copy: the part before it is `pre` and the part after it `suf`.
   */
  lemma HighlightBetween(pre: string, a: string, suf: string)
    requires a != "" && !Contains(pre + a[..|a| - 1], a)
    ensures Highlight(pre + a + suf, a) == Emphasised(pre, a, suf)
  {
    var s := pre + a + suf;
    var k := |pre|;
    assert s[k..k + |a|] == a;
    assert OccursAt(s, a, k);
    HighlightFirstOccurrence(s, a);
    var r := Highlight(s, a);
    var early := pre + a[..|a| - 1];
    assert early == s[..k + |a| - 1];
    var i := |r.before|;
    assert i <= k;
    if i < k {
      OccurrenceInPrefix(s, early, a, i);
      assert false;
    }
    assert r.before == s[..k] == pre;
    assert r.after == s[k + |a|..] == suf;
  }

  /** An occurrence that ends inside a prefix is an occurrence in that prefix. */
  lemma OccurrenceInPrefix(s: string, prefix: string, a: string, i: int)
    requires OccursAt(s, a, i) && |prefix| <= |s| && prefix == s[..|prefix|] && i + |a| <= |prefix|
    ensures OccursAt(prefix, a, i)
  {
    assert prefix[i..i + |a|] == s[i..i + |a|];
  }

  const Placeholder := "结果将显示在这里"
  const NothingToCopy := "无结果可复制"
  const Copied := "已复制 ✓"
  const CopyFailed := "复制失败"

  /** copyResult has nothing to copy when the trimmed text is empty or is the placeholder. */
  predicate NothingToCopyIn(shown: string)
  {
    var t := Trim(shown);
    t == "" || t == Placeholder
  }

  /** Text made only of whitespace, and the placeholder however it is padded, are never copied. */
  lemma NothingToCopyCases(shown: string, pad1: string, pad2: string)
    requires forall i :: 0 <= i < |pad1| ==> IsJsWhitespace(pad1[i])
    requires forall i :: 0 <= i < |pad2| ==> IsJsWhitespace(pad2[i])
    ensures NothingToCopyIn(pad1)
    ensures NothingToCopyIn(pad1 + Placeholder + pad2)
  {
    TrimEmptyIffBlank(pad1);
    var s := pad1 + Placeholder + pad2;
    TrimSpec(s);
    var r := Trim(s);
    var i :| TrimmedFrom(s, r, i);
    PlaceholderEnds();
    TrimPaddedWord(s, pad1, Placeholder, pad2, r, i);
  }

  /** The placeholder neither starts nor ends with whitespace. */
  lemma PlaceholderEnds()
    ensures |Placeholder| == 8
    ensures !IsJsWhitespace(Placeholder[0]) && !IsJsWhitespace(Placeholder[7])
  {
  }

  /** A word that neither starts nor ends with whitespace, padded by whitespace, trims to itself. */
  lemma TrimPaddedWord(s: string, pad1: string, w: string, pad2: string, r: string, i: int)
    requires s == pad1 + w + pad2 && w != ""
    requires !IsJsWhitespace(w[0]) && !IsJsWhitespace(w[|w| - 1])
    requires forall k :: 0 <= k < |pad1| ==> IsJsWhitespace(pad1[k])
    requires forall k :: 0 <= k < |pad2| ==> IsJsWhitespace(pad2[k])
    requires TrimmedFrom(s, r, i)
    requires r != "" ==> !IsJsWhitespace(r[0]) && !IsJsWhitespace(r[|r| - 1])
    ensures r == w
  {
    var a, b := |pad1|, |pad1| + |w|;
    assert s[a] == w[0];
    assert s[b - 1] == w[|w| - 1];
    assert i <= a;
    assert i + |r| >= b;
    if r != "" {
      assert r[0] == s[i];
      assert r[|r| - 1] == s[i + |r| - 1];
      forall k | 0 <= k < a ensures IsJsWhitespace(s[k]) {
        assert s[k] == pad1[k];
      }
      forall k | b <= k < |s| ensures IsJsWhitespace(s[k]) {
        assert s[k] == pad2[k - b];
      }
    }
    assert i == a && i + |r| == b;
    assert r == s[a..b];
  }
}
