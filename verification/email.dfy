/** The e-mail pattern `/^[^\s@]+@[^\s@]+\.[^\s@]+$/` that the backend controller
    and both frontend forms test addresses against. */
module EmailPattern {
  import opened Text

  /** One character of the class `[^\s@]`. */
  predicate IsAddressChar(c: char)
  {
    !IsWhitespace(c) && c != '@'
  }

  /** A match of `[^\s@]+`. */
  predicate IsAddressToken(s: string)
  {
    s != [] && forall i :: 0 <= i < |s| ==> IsAddressChar(s[i])
  }

  /** `s` splits at an '@' (index `at`) and a later '.' (index `dot`) into three tokens. */
  predicate SplitsAt(s: string, at: nat, dot: nat)
  {
    && at < dot < |s|
    && s[at] == '@' && s[dot] == '.'
    && IsAddressToken(s[..at])
    && IsAddressToken(s[at + 1..dot])
    && IsAddressToken(s[dot + 1..])
  }

  /** The language of the anchored regular expression: `token '@' token '.' token`. */
  ghost predicate MatchesEmailRegex(s: string)
  {
    exists at: nat, dot: nat :: SplitsAt(s, at, dot)
  }

  /** Index of the first occurrence of `c` in `s`, or `|s|` when there is none. */
  function IndexOf(s: string, c: char): (k: nat)
    ensures k <= |s|
    ensures k < |s| ==> s[k] == c
    ensures forall i :: 0 <= i < k ==> s[i] != c
  {
    if s == [] then 0
    else if s[0] == c then 0
    else 1 + IndexOf(s[1..], c)
  }

  /** The domain `d` has a '.' that is neither its first nor its last character. */
  predicate HasInteriorDot(d: string)
  {
    exists k :: 0 < k < |d| - 1 && d[k] == '.'
  }

  /** `emailRegex.test(s)`, decided the way a reader states the rule: a non-empty
      local part, one '@', a domain with an inner '.', and no whitespace anywhere. */
  predicate EmailRegexTest(s: string)
    ensures EmailRegexTest(s) ==> 5 <= |s| && IsAddressChar(s[0]) && IsAddressChar(s[|s| - 1])
  {
    var at := IndexOf(s, '@');
    && 0 < at < |s|
    && NoWhitespace(s)
    && (forall i :: at < i < |s| ==> s[i] != '@')
    && HasInteriorDot(s[at + 1..])
  }

  /** The test accepts exactly the language of the regular expression. */
  lemma {:induction false} EmailRegexTestCorrect(s: string)
    ensures EmailRegexTest(s) <==> MatchesEmailRegex(s)
  {
    if EmailRegexTest(s) {
      EmailRegexTestSound(s);
    }
    if MatchesEmailRegex(s) {
      var at: nat, dot: nat :| SplitsAt(s, at, dot);
      EmailRegexTestComplete(s, at, dot);
    }
  }

  /** An address the test accepts splits at its '@' and an inner '.' of its domain. */
  lemma {:induction false} EmailRegexTestSound(s: string)
    requires EmailRegexTest(s)
    ensures MatchesEmailRegex(s)
  {
    var at := IndexOf(s, '@');
    var d := s[at + 1..];
    var k :| 0 < k < |d| - 1 && d[k] == '.';
    var dot := at + 1 + k;
    assert s[dot] == d[k];
    assert forall i :: 0 <= i < |s| && i != at ==> IsAddressChar(s[i]);
    TokenOfAddressChars(s, 0, at);
    TokenOfAddressChars(s, at + 1, dot);
    TokenOfAddressChars(s, dot + 1, |s|);
    assert s[dot + 1..|s|] == s[dot + 1..];
    assert s[0..at] == s[..at];
    assert SplitsAt(s, at, dot);
  }

  /** A non-empty slice of address characters is a token. */
  lemma {:induction false} TokenOfAddressChars(s: string, lo: nat, hi: nat)
    requires lo < hi <= |s|
    requires forall i :: lo <= i < hi ==> IsAddressChar(s[i])
    ensures IsAddressToken(s[lo..hi])
  {
    forall i | 0 <= i < hi - lo ensures IsAddressChar(s[lo..hi][i]) {
      assert s[lo..hi][i] == s[lo + i];
    }
  }

  /** An address that splits into three tokens passes the test. */
  lemma {:induction false} EmailRegexTestComplete(s: string, at: nat, dot: nat)
    requires SplitsAt(s, at, dot)
    ensures EmailRegexTest(s)
  {
    var local, mid, top := s[..at], s[at + 1..dot], s[dot + 1..];
    forall i | 0 <= i < |s| ensures !IsWhitespace(s[i]) && (i != at ==> s[i] != '@') {
      if i < at {
        assert s[i] == local[i];
      } else if at < i < dot {
        assert s[i] == mid[i - at - 1];
      } else if dot < i {
        assert s[i] == top[i - dot - 1];
      }
    }
    assert IndexOf(s, '@') == at;
    var d := s[at + 1..];
    assert d[dot - at - 1] == '.';
  }

  /** Lower-casing neither creates nor removes '@', '.' or whitespace. */
  lemma {:induction false} LowerKeepsMarkers(s: string)
    ensures forall i :: 0 <= i < |s| ==> (ToLower(s)[i] == '@' <==> s[i] == '@')
    ensures forall i :: 0 <= i < |s| ==> (ToLower(s)[i] == '.' <==> s[i] == '.')
    ensures forall i :: 0 <= i < |s| ==> (IsWhitespace(ToLower(s)[i]) <==> IsWhitespace(s[i]))
  {
    forall i | 0 <= i < |s|
      ensures ToLower(s)[i] == '@' <==> s[i] == '@'
      ensures ToLower(s)[i] == '.' <==> s[i] == '.'
      ensures IsWhitespace(ToLower(s)[i]) <==> IsWhitespace(s[i])
    {
      LowerCharChangesOnlyUpper(s[i]);
    }
  }

  lemma {:induction false} IndexOfSameMarkers(s: string, t: string)
    requires |s| == |t|
    requires forall i :: 0 <= i < |s| ==> (t[i] == '@' <==> s[i] == '@')
    ensures IndexOf(t, '@') == IndexOf(s, '@')
  {
    if s != [] {
      IndexOfSameMarkers(s[1..], t[1..]);
    }
  }

  lemma {:induction false} InteriorDotSameMarkers(d: string, e: string)
    requires |d| == |e|
    requires forall k :: 0 <= k < |d| ==> (e[k] == '.' <==> d[k] == '.')
    ensures HasInteriorDot(e) == HasInteriorDot(d)
  {
    if HasInteriorDot(d) {
      var k :| 0 < k < |d| - 1 && d[k] == '.';
      assert e[k] == '.';
    }
    if HasInteriorDot(e) {
      var k :| 0 < k < |e| - 1 && e[k] == '.';
      assert d[k] == '.';
    }
  }

  /** The backend tests the lower-cased address and the frontend the address as typed:
      both get the same answer. */
  lemma {:induction false} EmailRegexTestIgnoresCase(s: string)
    ensures EmailRegexTest(ToLower(s)) == EmailRegexTest(s)
  {
    var t := ToLower(s);
    LowerKeepsMarkers(s);
    IndexOfSameMarkers(s, t);
    var at := IndexOf(s, '@');
    assert NoWhitespace(t) == NoWhitespace(s);
    if 0 < at < |s| {
      InteriorDotSameMarkers(s[at + 1..], t[at + 1..]);
    }
  }
}
