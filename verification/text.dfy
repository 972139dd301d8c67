/** The JavaScript string built-ins the validators and the search filter rely on:
    the `\s` character class, `String.prototype.trim`, `toLowerCase`, `includes`
    and `split(/\s+/)`. */
module Text {

  /** JavaScript's `\s`: the WhiteSpace and LineTerminator code points of ECMA-262,
      which are also the characters `trim` removes. */
  predicate IsWhitespace(c: char)
  {
    || c == ' ' || c == '\t' || c == '\n' || c == '\r' || c == '\U{B}' || c == '\U{C}'
    || c == '\U{A0}' || c == '\U{1680}' || ('\U{2000}' <= c <= '\U{200A}')
    || c == '\U{2028}' || c == '\U{2029}' || c == '\U{202F}' || c == '\U{205F}'
    || c == '\U{3000}' || c == '\U{FEFF}'
  }

  /** No visible ASCII character is whitespace: only spaces, control characters and
      the Unicode space separators are. */
  lemma {:induction false} VisibleAsciiIsNotWhitespace(c: char)
    requires '!' <= c <= '~'
    ensures !IsWhitespace(c)
  {
  }

  predicate NoWhitespace(s: string)
  {
    forall i :: 0 <= i < |s| ==> !IsWhitespace(s[i])
  }

  /** Neither the first nor the last character is whitespace. */
  predicate IsTrimmed(s: string)
  {
    s == [] || (!IsWhitespace(s[0]) && !IsWhitespace(s[|s| - 1]))
  }

  /** Index of the last non-whitespace character before `e` plus one, or `lo` when
      `s[lo..e]` is all whitespace. */
  function TrimEndIndex(s: string, lo: nat, e: nat): (hi: nat)
    requires lo <= e <= |s|
    ensures lo <= hi <= e
    ensures forall j :: hi <= j < e ==> IsWhitespace(s[j])
    ensures hi > lo ==> !IsWhitespace(s[hi - 1])
    decreases e
  {
    if e == lo || !IsWhitespace(s[e - 1]) then e else TrimEndIndex(s, lo, e - 1)
  }

  /** `String.prototype.trim`: `s` without its leading and trailing whitespace. The
      result is the part of `s` between two runs of whitespace at its ends, and it
      neither starts nor ends with whitespace. */
  function Trim(s: string): (r: string)
    ensures IsTrimmed(r)
    ensures exists k :: 0 <= k <= |s| - |r| && TrimmedAt(s, r, k)
  {
    var lo := RunEnd(s, 0);
    var hi := TrimEndIndex(s, lo, |s|);
    assert TrimmedAt(s, s[lo..hi], lo);
    s[lo..hi]
  }

  /** `r` is the part of `s` at offset `k`, and everything before and after it is whitespace. */
  predicate TrimmedAt(s: string, r: string, k: nat)
  {
    && k + |r| <= |s|
    && r == s[k..k + |r|]
    && (forall i :: 0 <= i < k ==> IsWhitespace(s[i]))
    && (forall i :: k + |r| <= i < |s| ==> IsWhitespace(s[i]))
  }

  /** A trimmed string is its own trim. */
  lemma {:induction false} TrimOfTrimmed(s: string)
    requires IsTrimmed(s)
    ensures Trim(s) == s
  {
  }

  lemma {:induction false} TrimIdempotent(s: string)
    ensures Trim(Trim(s)) == Trim(s)
  {
    TrimOfTrimmed(Trim(s));
  }

  /** The trim is empty exactly when the string is all whitespace (`!s.trim()`). */
  lemma {:induction false} TrimEmptyIffBlank(s: string)
    ensures Trim(s) == "" <==> forall i :: 0 <= i < |s| ==> IsWhitespace(s[i])
  {
    var r := Trim(s);
    if r != "" {
      var k :| 0 <= k <= |s| - |r| && TrimmedAt(s, r, k);
      assert s[k] == r[0];
    }
  }

  /** `toLowerCase` on one character, for the ASCII letters. */
  function LowerChar(c: char): (d: char)
  {
    if 'A' <= c <= 'Z' then (c as int + 32) as char else c
  }

  function ToLower(s: string): (r: string)
    ensures |r| == |s|
    ensures forall i :: 0 <= i < |s| ==> r[i] == LowerChar(s[i])
  {
    if s == [] then [] else [LowerChar(s[0])] + ToLower(s[1..])
  }

  /** Lower-casing changes only the letters A to Z, and each into a lower-case letter. */
  lemma {:induction false} LowerCharChangesOnlyUpper(c: char)
    ensures LowerChar(c) != c <==> 'A' <= c <= 'Z'
    ensures 'A' <= c <= 'Z' ==> 'a' <= LowerChar(c) <= 'z'
    ensures IsWhitespace(LowerChar(c)) <==> IsWhitespace(c)
  {
  }

  /** Lower-casing does not move whitespace, so it commutes with trimming. */
  lemma {:induction false} LowerKeepsWhitespace(s: string)
    ensures forall i :: 0 <= i < |s| ==> (IsWhitespace(ToLower(s)[i]) <==> IsWhitespace(s[i]))
    ensures Trim(ToLower(s)) == ToLower(Trim(s))
  {
    var t := ToLower(s);
    forall i | 0 <= i < |s|
      ensures IsWhitespace(t[i]) <==> IsWhitespace(s[i])
    {
      LowerCharChangesOnlyUpper(s[i]);
    }
    RunEndSameWhitespace(s, t, 0);
    var lo := RunEnd(s, 0);
    TrimEndIndexSameWhitespace(s, t, lo, |s|);
    var hi := TrimEndIndex(s, lo, |s|);
    assert Trim(s) == s[lo..hi];
    assert Trim(t) == t[lo..hi];
    LowerOfSlice(s, lo, hi);
  }

  lemma {:induction false} LowerOfSlice(s: string, lo: nat, hi: nat)
    requires lo <= hi <= |s|
    ensures ToLower(s[lo..hi]) == ToLower(s)[lo..hi]
  {
    var a, b := ToLower(s[lo..hi]), ToLower(s)[lo..hi];
    assert |a| == |b|;
    forall i | 0 <= i < |a|
      ensures a[i] == b[i]
    {
      assert s[lo..hi][i] == s[lo + i];
    }
  }

  /** Where two strings have whitespace at the same positions, their runs of
      whitespace end at the same index. */
  lemma {:induction false} RunEndSameWhitespace(s: string, t: string, k: nat)
    requires |s| == |t| && k <= |s|
    requires forall i :: 0 <= i < |s| ==> (IsWhitespace(t[i]) <==> IsWhitespace(s[i]))
    ensures RunEnd(s, k) == RunEnd(t, k)
    decreases |s| - k
  {
    if k < |s| && IsWhitespace(s[k]) {
      RunEndSameWhitespace(s, t, k + 1);
    }
  }

  lemma {:induction false} TrimEndIndexSameWhitespace(s: string, t: string, lo: nat, e: nat)
    requires |s| == |t| && lo <= e <= |s|
    requires forall i :: 0 <= i < |s| ==> (IsWhitespace(t[i]) <==> IsWhitespace(s[i]))
    ensures TrimEndIndex(s, lo, e) == TrimEndIndex(t, lo, e)
    decreases e
  {
    if e != lo && IsWhitespace(s[e - 1]) {
      TrimEndIndexSameWhitespace(s, t, lo, e - 1);
    }
  }

  /** `s.includes(w)`: `w` occurs in `s` at some position. */
  predicate Contains(s: string, w: string)
    ensures w == "" ==> Contains(s, w)
    ensures Contains(s, w) ==> |w| <= |s|
  {
    assert w == "" ==> OccursAt(s, w, 0);
    exists i :: 0 <= i <= |s| - |w| && OccursAt(s, w, i)
  }

  predicate OccursAt(s: string, w: string, i: nat)
  {
    i + |w| <= |s| && s[i..i + |w|] == w
  }

  /** Index of the first whitespace character at or after `k`, or `|s|`. */
  function WordEnd(s: string, k: nat): (i: nat)
    requires k <= |s|
    ensures k <= i <= |s|
    ensures forall j :: k <= j < i ==> !IsWhitespace(s[j])
    ensures i < |s| ==> IsWhitespace(s[i])
    decreases |s| - k
  {
    if k == |s| || IsWhitespace(s[k]) then k else WordEnd(s, k + 1)
  }

  /** Index of the first non-whitespace character at or after `k`, or `|s|`. */
  function RunEnd(s: string, k: nat): (i: nat)
    requires k <= |s|
    ensures k <= i <= |s|
    ensures forall j :: k <= j < i ==> IsWhitespace(s[j])
    ensures i < |s| ==> !IsWhitespace(s[i])
    decreases |s| - k
  {
    if k == |s| || !IsWhitespace(s[k]) then k else RunEnd(s, k + 1)
  }

  /** `s.split(/\s+/)`: the pieces between maximal runs of whitespace, with an empty
      first (last) piece when `s` starts (ends) with whitespace, and `[""]` for `""`. */
  function Split(s: string): (r: seq<string>)
    ensures |r| >= 1
    ensures forall w <- r :: NoWhitespace(w)
    ensures SplitsAtRuns(r, s)
    decreases |s|
  {
    var i := WordEnd(s, 0);
    if i == |s| then
      assert s[..i] == s;
      [s]
    else
      var j := RunEnd(s, i);
      var rest := Split(s[j..]);
      var r := [s[..i]] + rest;
      assert r[1..] == rest;
      assert NoWhitespace(r[0]);
      assert forall k :: i <= k < j ==> IsWhitespace(s[k]);
      assert j == |s| || !IsWhitespace(s[j]);
      r
  }

  /** `pieces` are the parts of `s` between maximal runs of whitespace, in order:
      the first piece is a prefix of `s` without whitespace, and unless it is the
      only piece (and then all of `s`), a run of whitespace that extends as far as
      it can follows it, and the remaining pieces split the rest of `s` the same way. */
  ghost predicate SplitsAtRuns(pieces: seq<string>, s: string)
    decreases |pieces|
  {
    && |pieces| >= 1
    && NoWhitespace(pieces[0])
    && if |pieces| == 1 then s == pieces[0]
       else
         var n := |pieces[0]|;
         && n < |s|
         && s[..n] == pieces[0]
         && exists j :: n < j <= |s|
                        && (forall k :: n <= k < j ==> IsWhitespace(s[k]))
                        && (j == |s| || !IsWhitespace(s[j]))
                        && SplitsAtRuns(pieces[1..], s[j..])
  }

  /** On a trimmed, non-empty string every piece of the split is a non-empty word. */
  lemma {:induction false} SplitTrimmedHasNoEmptyWord(s: string)
    requires s != "" && IsTrimmed(s)
    ensures forall w <- Split(s) :: w != ""
    decreases |s|
  {
    var i := WordEnd(s, 0);
    if i < |s| {
      var j := RunEnd(s, i);
      assert j < |s| by {
        assert !IsWhitespace(s[|s| - 1]);
      }
      var rest := s[j..];
      assert rest[|rest| - 1] == s[|s| - 1];
      SplitTrimmedHasNoEmptyWord(rest);
      assert Split(s) == [s[..i]] + Split(rest);
    }
  }
}
