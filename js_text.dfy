/**
 * The JavaScript string operations that static/js/main.js relies on: split with a string
 * separator and no limit, Array join, trim, and the escaping a browser applies when a
 * text write is read back through innerHTML.
 */
module JsText {

  /** `sep` occurs in `s` starting at index i. */
  predicate OccursAt(s: string, sep: string, i: int)
  {
    0 <= i && i + |sep| <= |s| && s[i..i + |sep|] == sep
  }

  predicate Contains(s: string, sep: string)
  {
    exists i :: 0 <= i <= |s| - |sep| && OccursAt(s, sep, i)
  }

  /** k is where the first occurrence of `sep` in `s` starts. */
  predicate FirstOccurrence(s: string, sep: string, k: int)
  {
    OccursAt(s, sep, k) && forall i :: 0 <= i < k ==> !OccursAt(s, sep, i)
  }

  /** split with a non-empty separator: the pieces between non-overlapping occurrences, left to right. */
  function SplitOn(s: string, sep: string): (parts: seq<string>)
    requires sep != ""
    ensures |parts| >= 1
    decreases |s|
  {
    if |s| < |sep| then [s]
    else if s[..|sep|] == sep then [""] + SplitOn(s[|sep|..], sep)
    else
      var rest := SplitOn(s[1..], sep);
      [[s[0]] + rest[0]] + rest[1..]
  }

  /** String.prototype.split: an empty separator splits into single characters ("" gives []). */
  function Split(s: string, sep: string): seq<string>
  {
    if sep == "" then seq(|s|, i requires 0 <= i < |s| => [s[i]])
    else SplitOn(s, sep)
  }

  /** Array.prototype.join: the parts with `sep` between neighbours; [] joins to "". */
  function Join(parts: seq<string>, sep: string): string
  {
    if parts == [] then ""
    else if |parts| == 1 then parts[0]
    else parts[0] + sep + Join(parts[1..], sep)
  }

  /** Joining a part in front of a non-empty list puts the separator between them. */
  lemma JoinCons(p: string, rest: seq<string>, sep: string)
    requires rest != []
    ensures Join([p] + rest, sep) == p + sep + Join(rest, sep)
  {
    assert ([p] + rest)[1..] == rest;
  }

  /** Prepending a character to the first part prepends it to the joined string. */
  lemma JoinExtendFirst(c: char, parts: seq<string>, sep: string)
    requires parts != []
    ensures Join([[c] + parts[0]] + parts[1..], sep) == [c] + Join(parts, sep)
  {
    if |parts| > 1 {
      JoinCons([c] + parts[0], parts[1..], sep);
      JoinCons(parts[0], parts[1..], sep);
      assert parts == [parts[0]] + parts[1..];
    }
  }

  /** Joining the pieces of a split with the same separator gives back the string. */
  lemma {:induction false} SplitOnJoin(s: string, sep: string)
    requires sep != ""
    ensures Join(SplitOn(s, sep), sep) == s
    decreases |s|
  {
    if |s| < |sep| {
    } else if s[..|sep|] == sep {
      var tail := s[|sep|..];
      SplitOnJoin(tail, sep);
      var rest := SplitOn(tail, sep);
      assert SplitOn(s, sep) == [""] + rest;
      JoinCons("", rest, sep);
      assert "" + sep + Join(rest, sep) == sep + tail;
      assert s == s[..|sep|] + tail;
    } else {
      SplitOnJoin(s[1..], sep);
      JoinExtendFirst(s[0], SplitOn(s[1..], sep), sep);
      assert s == [s[0]] + s[1..];
    }
  }

  /** Shifting past one leading character moves occurrences one index left. */
  lemma OccursAtTail(s: string, sep: string, i: int)
    requires |s| >= 1 && 0 <= i
    ensures OccursAt(s, sep, i + 1) <==> OccursAt(s[1..], sep, i)
  {
    if i + 1 + |sep| <= |s| {
      var direct, shifted := s[i + 1..i + 1 + |sep|], s[1..][i..i + |sep|];
      forall k | 0 <= k < |sep| ensures direct[k] == shifted[k] {
      }
      assert direct == shifted;
    }
  }

  /**
   * The first piece of a split ends where the separator first occurs, and there is more
   * than one piece exactly when the separator occurs at all.
   */
  lemma {:induction false} SplitOnFirstPiece(s: string, sep: string)
    requires sep != ""
    ensures var parts := SplitOn(s, sep);
            && (|parts| > 1 <==> Contains(s, sep))
            && (|parts| > 1 ==> FirstOccurrence(s, sep, |parts[0]|))
            && (|parts| == 1 ==> parts[0] == s)
            && s[..|parts[0]|] == parts[0]
    decreases |s|
  {
    var parts := SplitOn(s, sep);
    if |s| < |sep| {
      assert !Contains(s, sep);
    } else if s[..|sep|] == sep {
      assert OccursAt(s, sep, 0);
    } else {
      var rest := SplitOn(s[1..], sep);
      SplitOnFirstPiece(s[1..], sep);
      assert !OccursAt(s, sep, 0);
      ContainsTail(s, sep);
      assert parts == [[s[0]] + rest[0]] + rest[1..];
      if |rest| > 1 {
        FirstOccurrenceTail(s, sep, |rest[0]|);
      }
      assert s[..|parts[0]|] == [s[0]] + s[1..][..|rest[0]|];
    }
  }

  /** Without an occurrence at index 0, s contains sep exactly when its tail does. */
  lemma ContainsTail(s: string, sep: string)
    requires |s| >= 1 && !OccursAt(s, sep, 0)
    ensures Contains(s, sep) <==> Contains(s[1..], sep)
  {
    if Contains(s[1..], sep) {
      var i :| 0 <= i <= |s[1..]| - |sep| && OccursAt(s[1..], sep, i);
      OccursAtTail(s, sep, i);
      assert OccursAt(s, sep, i + 1);
    }
    if Contains(s, sep) {
      var i :| 0 <= i <= |s| - |sep| && OccursAt(s, sep, i);
      assert i != 0;
      OccursAtTail(s, sep, i - 1);
      assert OccursAt(s[1..], sep, i - 1);
    }
  }

  /** The first occurrence in the tail, shifted by one, is the first occurrence in s. */
  lemma FirstOccurrenceTail(s: string, sep: string, k: int)
    requires |s| >= 1 && !OccursAt(s, sep, 0) && FirstOccurrence(s[1..], sep, k)
    ensures FirstOccurrence(s, sep, k + 1)
  {
    OccursAtTail(s, sep, k);
    forall i | 0 <= i < k + 1 ensures !OccursAt(s, sep, i) {
      if i > 0 {
        OccursAtTail(s, sep, i - 1);
      }
    }
  }

  /** JavaScript's WhiteSpace and LineTerminator characters, which trim removes. */
  predicate IsJsWhitespace(c: char)
  {
    || c == '\t' || c == '\n' || c == '\U{000B}' || c == '\U{000C}' || c == '\r' || c == ' '
    || c == '\U{00A0}' || c == '\U{1680}' || ('\U{2000}' <= c <= '\U{200A}')
    || c == '\U{2028}' || c == '\U{2029}' || c == '\U{202F}' || c == '\U{205F}'
    || c == '\U{3000}' || c == '\U{FEFF}'
  }

  /** s without its leading whitespace. */
  function TrimStart(s: string): (r: string)
    ensures |r| <= |s| && r == s[|s| - |r|..]
    ensures forall i :: 0 <= i < |s| - |r| ==> IsJsWhitespace(s[i])
    ensures r != "" ==> !IsJsWhitespace(r[0])
  {
    if s != "" && IsJsWhitespace(s[0]) then TrimStart(s[1..]) else s
  }

  /** s without its trailing whitespace. */
  function TrimEnd(s: string): (r: string)
    ensures |r| <= |s| && r == s[..|r|]
    ensures forall i :: |r| <= i < |s| ==> IsJsWhitespace(s[i])
    ensures r != "" ==> !IsJsWhitespace(r[|r| - 1])
  {
    if s != "" && IsJsWhitespace(s[|s| - 1]) then TrimEnd(s[..|s| - 1]) else s
  }

  /** String.prototype.trim. */
  function Trim(s: string): string
  {
    TrimEnd(TrimStart(s))
  }

  /** r is s[i..i + |r|] and everything of s around it is whitespace. */
  predicate TrimmedFrom(s: string, r: string, i: int)
  {
    && 0 <= i <= |s| - |r| && s[i..i + |r|] == r
    && (forall k :: 0 <= k < i ==> IsJsWhitespace(s[k]))
    && (forall k :: i + |r| <= k < |s| ==> IsJsWhitespace(s[k]))
  }

  /**
   * trim keeps a contiguous middle part of s, drops only whitespace around it, and the
   * part it keeps neither starts nor ends with whitespace.
   */
  lemma TrimSpec(s: string)
    ensures exists i :: TrimmedFrom(s, Trim(s), i)
    ensures var r := Trim(s); r != "" ==> !IsJsWhitespace(r[0]) && !IsJsWhitespace(r[|r| - 1])
  {
    var t := TrimStart(s);
    var r := TrimEnd(t);
    StripBothEnds(s, t, r);
    assert Trim(s) == r;
    if r != "" {
      assert r[0] == t[0];
    }
  }

  /** Dropping leading whitespace and then trailing whitespace keeps a middle part of s. */
  lemma StripBothEnds(s: string, t: string, r: string)
    requires |t| <= |s| && t == s[|s| - |t|..]
    requires forall k :: 0 <= k < |s| - |t| ==> IsJsWhitespace(s[k])
    requires |r| <= |t| && r == t[..|r|]
    requires forall k :: |r| <= k < |t| ==> IsJsWhitespace(t[k])
    ensures TrimmedFrom(s, r, |s| - |t|)
  {
    var i := |s| - |t|;
    assert s[i..i + |r|] == t[..|r|];
    forall k | i + |r| <= k < |s| ensures IsJsWhitespace(s[k]) {
      assert s[k] == t[k - i];
    }
  }

  /** trim gives "" exactly when s is all whitespace. */
  lemma TrimEmptyIffBlank(s: string)
    ensures Trim(s) == "" <==> forall i :: 0 <= i < |s| ==> IsJsWhitespace(s[i])
  {
    var t := TrimStart(s);
    if t != "" {
      assert t[0] == s[|s| - |t|];
    }
  }

  /** What innerHTML reads back after a text write: '&', '<', '>' and NBSP as entities. */
  function EscapeHtml(s: string): (r: string)
    ensures |r| >= |s|
    ensures r == "" <==> s == ""
  {
    if s == "" then ""
    else
      var c := s[0];
      (if c == '&' then "&amp;" else if c == '<' then "&lt;" else if c == '>' then "&gt;"
       else if c == '\U{00A0}' then "&nbsp;" else [c])
      + EscapeHtml(s[1..])
  }

  /** Text with none of the escaped characters reads back unchanged. */
  lemma {:induction false} EscapeHtmlPlain(s: string)
    requires forall i :: 0 <= i < |s| ==> s[i] !in {'&', '<', '>', '\U{00A0}'}
    ensures EscapeHtml(s) == s
  {
    if s != "" {
      EscapeHtmlPlain(s[1..]);
      assert s == [s[0]] + s[1..];
    }
  }
}
