/** The two string operations the submission handler relies on: JavaScript's
    `String.prototype.trim` and the global removal of the `**` marker
    (a global `replace` of the pattern `**` by ""). */
module Strings {

  /** The characters `trim` removes: ECMAScript WhiteSpace (TAB, VT, FF, the
      byte order mark and the space separators) and LineTerminator. */
  predicate IsWhitespace(c: char) {
    c == '\t' || c == '\U{B}' || c == '\U{C}' || c == ' ' || c == '\U{A0}' ||
    c == '\U{1680}' || ('\U{2000}' <= c <= '\U{200A}') || c == '\U{202F}' ||
    c == '\U{205F}' || c == '\U{3000}' || c == '\U{FEFF}' ||
    c == '\n' || c == '\r' || c == '\U{2028}' || c == '\U{2029}'
  }

  /** Every character of `s` is whitespace (this includes the empty string). */
  predicate Blank(s: string) {
    forall i :: 0 <= i < |s| ==> IsWhitespace(s[i])
  }

  /** `s` without its leading whitespace. */
  function TrimStart(s: string): string {
    if |s| > 0 && IsWhitespace(s[0]) then TrimStart(s[1..]) else s
  }

  /** `s` without its trailing whitespace. */
  function TrimEnd(s: string): string {
    if |s| > 0 && IsWhitespace(s[|s| - 1]) then TrimEnd(s[..|s| - 1]) else s
  }

  /** `s.trim()`. */
  function Trim(s: string): string {
    TrimEnd(TrimStart(s))
  }

  /** TrimStart drops a whitespace prefix and keeps the rest, which starts
      with a non-whitespace character or is empty. */
  lemma {:induction false} TrimStartSpec(s: string)
    ensures |TrimStart(s)| <= |s| && TrimStart(s) == s[|s| - |TrimStart(s)|..]
    ensures forall i :: 0 <= i < |s| - |TrimStart(s)| ==> IsWhitespace(s[i])
    ensures TrimStart(s) == [] || !IsWhitespace(TrimStart(s)[0])
  {
    if |s| > 0 && IsWhitespace(s[0]) {
      var t := TrimStart(s[1..]);
      TrimStartSpec(s[1..]);
      assert TrimStart(s) == t;
      assert s[1..][|s| - 1 - |t|..] == s[|s| - |t|..];
      forall i | 0 <= i < |s| - |t|
        ensures IsWhitespace(s[i])
      {
        if i > 0 {
          assert s[i] == s[1..][i - 1];
        }
      }
    }
  }

  /** TrimEnd drops a whitespace suffix and keeps the rest, which ends with a
      non-whitespace character or is empty. */
  lemma {:induction false} TrimEndSpec(s: string)
    ensures |TrimEnd(s)| <= |s| && TrimEnd(s) == s[..|TrimEnd(s)|]
    ensures forall i :: |TrimEnd(s)| <= i < |s| ==> IsWhitespace(s[i])
    ensures TrimEnd(s) == [] || !IsWhitespace(TrimEnd(s)[|TrimEnd(s)| - 1])
  {
    if |s| > 0 && IsWhitespace(s[|s| - 1]) {
      var t := TrimEnd(s[..|s| - 1]);
      TrimEndSpec(s[..|s| - 1]);
      assert TrimEnd(s) == t;
      assert s[..|s| - 1][..|t|] == s[..|t|];
      forall i | |t| <= i < |s|
        ensures IsWhitespace(s[i])
      {
        if i < |s| - 1 {
          assert s[i] == s[..|s| - 1][i];
        }
      }
    }
  }

  /** `trim` yields a contiguous piece of `s` that neither starts nor ends
      with whitespace, and is empty exactly when `s` is blank. */
  lemma TrimSpec(s: string)
    ensures |Trim(s)| <= |s|
    ensures exists lo :: 0 <= lo <= |s| - |Trim(s)| && Trim(s) == s[lo..][..|Trim(s)|]
    ensures Trim(s) == [] || (!IsWhitespace(Trim(s)[0]) && !IsWhitespace(Trim(s)[|Trim(s)| - 1]))
    ensures Trim(s) == [] <==> Blank(s)
  {
    var t := TrimStart(s);
    TrimStartSpec(s);
    TrimEndSpec(t);
    assert Trim(s) == s[|s| - |t|..][..|Trim(s)|];
  }

  /** A `**` marker starts at index `i` of `s`. */
  predicate MarkerAt(s: string, i: int)
    requires 0 <= i < |s| - 1
  {
    s[i] == '*' && s[i + 1] == '*'
  }

  /** `s.includes("**")`. */
  predicate HasMarker(s: string) {
    exists i :: 0 <= i < |s| - 1 && MarkerAt(s, i)
  }

  /** The global replace of `**` by "": scanning left to right, every `**` found is
      removed and the scan resumes after it, so "***" becomes "*". */
  function Strip(s: string): string {
    if |s| < 2 then s
    else if s[0] == '*' && s[1] == '*' then Strip(s[2..])
    else [s[0]] + Strip(s[1..])
  }

  /** The number of non-overlapping `**` matches the global replace finds. */
  function MarkerCount(s: string): nat {
    if |s| < 2 then 0
    else if s[0] == '*' && s[1] == '*' then 1 + MarkerCount(s[2..])
    else MarkerCount(s[1..])
  }

  /** `s` with every `*` dropped: what no stripping can change. */
  function Unstarred(s: string): string {
    if s == [] then []
    else if s[0] == '*' then Unstarred(s[1..])
    else [s[0]] + Unstarred(s[1..])
  }

  /** A string that starts with a character other than `*` keeps it in front. */
  lemma {:induction false} StripKeepsHead(s: string)
    requires |s| > 0 && s[0] != '*'
    ensures |Strip(s)| > 0 && Strip(s)[0] == s[0]
  {
  }

  /** Each match removes two characters and nothing else goes. */
  lemma {:induction false} StripLength(s: string)
    ensures |Strip(s)| == |s| - 2 * MarkerCount(s)
  {
    if |s| < 2 {
    } else if s[0] == '*' && s[1] == '*' {
      StripLength(s[2..]);
    } else {
      StripLength(s[1..]);
    }
  }

  /** The result of the global replace contains no `**` at all. */
  lemma {:induction false} StripRemovesMarkers(s: string)
    ensures !HasMarker(Strip(s))
  {
    if |s| < 2 {
    } else if s[0] == '*' && s[1] == '*' {
      StripRemovesMarkers(s[2..]);
    } else {
      var rest := Strip(s[1..]);
      StripRemovesMarkers(s[1..]);
      var r := [s[0]] + rest;
      assert Strip(s) == r;
      if HasMarker(r) {
        var i :| 0 <= i < |r| - 1 && MarkerAt(r, i);
        if i == 0 {
          StripKeepsHead(s[1..]);
          assert false;
        } else {
          assert MarkerAt(rest, i - 1);
          assert false;
        }
      }
    }
  }

  /** Only `*` characters are removed: every other character survives, in order. */
  lemma {:induction false} StripKeepsOtherChars(s: string)
    ensures Unstarred(Strip(s)) == Unstarred(s)
  {
    if |s| < 2 {
    } else if s[0] == '*' && s[1] == '*' {
      StripKeepsOtherChars(s[2..]);
      assert s[1..][1..] == s[2..];
    } else {
      StripKeepsOtherChars(s[1..]);
      assert ([s[0]] + Strip(s[1..]))[1..] == Strip(s[1..]);
    }
  }

  /** The replace finds a match exactly when `includes("**")` holds. */
  lemma {:induction false} MarkerCountPositive(s: string)
    ensures MarkerCount(s) > 0 <==> HasMarker(s)
  {
    if |s| < 2 {
    } else if s[0] == '*' && s[1] == '*' {
      assert MarkerAt(s, 0);
    } else {
      MarkerCountPositive(s[1..]);
      if HasMarker(s[1..]) {
        var i :| 0 <= i < |s[1..]| - 1 && MarkerAt(s[1..], i);
        assert MarkerAt(s, i + 1);
      }
      if HasMarker(s) {
        var i :| 0 <= i < |s| - 1 && MarkerAt(s, i);
        assert i != 0;
        assert MarkerAt(s[1..], i - 1);
      }
    }
  }

  /** A string without `**` is returned unchanged, and only such a string is. */
  lemma StripUnchanged(s: string)
    ensures Strip(s) == s <==> !HasMarker(s)
  {
    StripLength(s);
    MarkerCountPositive(s);
    if !HasMarker(s) {
      NoMarkerStripIdentity(s);
    }
  }

  /** A string without `**` passes through the replace untouched. */
  lemma {:induction false} NoMarkerStripIdentity(s: string)
    requires !HasMarker(s)
    ensures Strip(s) == s
  {
    if |s| >= 2 {
      assert !MarkerAt(s, 0);
      forall i | 0 <= i < |s[1..]| - 1
        ensures !MarkerAt(s[1..], i)
      {
        assert !MarkerAt(s, i + 1);
      }
      NoMarkerStripIdentity(s[1..]);
    }
  }

  /** Characters that are not `*` pass through the strip unchanged. */
  lemma {:induction false} StripSkipsPlainChars(p: string, t: string)
    requires forall i :: 0 <= i < |p| ==> p[i] != '*'
    ensures Strip(p + t) == p + Strip(t)
  {
    if p != [] {
      assert (p + t)[1..] == p[1..] + t;
      StripSkipsPlainChars(p[1..], t);
      if |p + t| >= 2 {
        assert Strip(p + t) == [p[0]] + Strip(p[1..] + t);
      }
    } else {
      assert p + t == t;
    }
  }

  /** A leading marker is dropped. */
  lemma StripDropsMarker(t: string)
    ensures Strip("**" + t) == Strip(t)
  {
    assert ("**" + t)[2..] == t;
  }

  /** The global replace on a worked case: "**Great** job" becomes "Great job". */
  lemma StripExample()
    ensures Strip("**Great** job") == "Great job"
  {
    StripDropsMarker("Great** job");
    assert "**" + "Great** job" == "**Great** job";
    StripExampleTail();
  }

  /** The rest of the worked case, after its leading marker. */
  lemma StripExampleTail()
    ensures Strip("Great** job") == "Great job"
  {
    StripSkipsPlainChars("Great", "** job");
    assert "Great" + "** job" == "Great** job";
    StripExampleEnd();
    assert "Great" + " job" == "Great job";
  }

  /** The end of the worked case, from its second marker on. */
  lemma StripExampleEnd()
    ensures Strip("** job") == " job"
  {
    StripDropsMarker(" job");
  }
}
