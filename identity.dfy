/**
 * The player identity "name#tag": validation (`validar_nick_tag`, main.py:70-77)
 * and the name projection (`separar_nick_tag`, main.py:87-88).
 *
 * The pattern is `^[\wÀ-ÿ\s]{3,16}#[\wÀ-ÿ\d]{3,5}$`, matched with Python's
 * `re.match` against `nick.strip()`.  Python's Unicode classes `\w`, `\s` and
 * `\d` are not encoded as tables: they are the three predicates of a
 * `CharClasses` value, and `Wf` lists the few facts about them the proofs use.
 */
module Identity {

  /** Python's Unicode character classes, left uninterpreted:
      isWord  - `\w` (str.isalnum() or '_'),
      isSpace - `\s`, the same test str.strip() uses (str.isspace()),
      isDigit - `\d` (str.isdecimal()). */
  datatype CharClasses = CharClasses(isWord: char -> bool, isSpace: char -> bool, isDigit: char -> bool)

  predicate IsAsciiWord(c: char) {
    'a' <= c <= 'z' || 'A' <= c <= 'Z' || '0' <= c <= '9' || c == '_'
  }

  /** What holds of Python's classes and is relied upon here. */
  ghost predicate Wf(cc: CharClasses) {
    && !cc.isWord('#')
    && !cc.isSpace('#')
    && cc.isSpace('\n')
    && cc.isSpace(' ')
    && (forall c :: cc.isDigit(c) ==> cc.isWord(c))
    && (forall c :: IsAsciiWord(c) ==> cc.isWord(c) && !cc.isSpace(c))
    && (forall c :: '0' <= c <= '9' ==> cc.isDigit(c))
  }

  /** The literal range `À-ÿ`, U+00C0..U+00FF; it also holds '×' and '÷'. */
  predicate InLatinRange(c: char) {
    'À' <= c <= 'ÿ'
  }

  /** `[\wÀ-ÿ\s]` */
  predicate NameChar(cc: CharClasses, c: char) {
    cc.isWord(c) || InLatinRange(c) || cc.isSpace(c)
  }

  /** `[\wÀ-ÿ\d]` */
  predicate TagChar(cc: CharClasses, c: char) {
    cc.isWord(c) || InLatinRange(c) || cc.isDigit(c)
  }

  /** `[\wÀ-ÿ\s]{3,16}` over the whole of `n` */
  predicate IsName(cc: CharClasses, n: string) {
    3 <= |n| <= 16 && forall i :: 0 <= i < |n| ==> NameChar(cc, n[i])
  }

  /** `[\wÀ-ÿ\d]{3,5}` over the whole of `t` */
  predicate IsTag(cc: CharClasses, t: string) {
    3 <= |t| <= 5 && forall i :: 0 <= i < |t| ==> TagChar(cc, t[i])
  }

  /** The pattern body matches `s` when the name part ends at index `k`. */
  predicate MatchesAt(cc: CharClasses, s: string, k: nat) {
    k < |s| && s[k] == '#' && IsName(cc, s[..k]) && IsTag(cc, s[k + 1..])
  }

  /** `^…#…` up to the very end of `s`: the regex engine may end the name part
      at any length from 3 to 16 (backtracking over the greedy repetition). */
  predicate MatchesWhole(cc: CharClasses, s: string) {
    exists k: nat :: 3 <= k <= 16 && MatchesAt(cc, s, k)
  }

  /** `re.match(pattern, s)`: without MULTILINE, `$` matches at the end of `s`
      or just before a newline that ends `s`. */
  predicate RegexMatch(cc: CharClasses, s: string) {
    || MatchesWhole(cc, s)
    || (|s| > 0 && s[|s| - 1] == '\n' && MatchesWhole(cc, s[..|s| - 1]))
  }

  predicate AllSpace(cc: CharClasses, s: string) {
    forall i :: 0 <= i < |s| ==> cc.isSpace(s[i])
  }

  /** The part of `s` left after its leading whitespace. */
  function TrimStart(cc: CharClasses, s: string): (r: string)
    ensures |r| <= |s| && r == s[|s| - |r|..]
    ensures AllSpace(cc, s[..|s| - |r|])
    ensures r != [] ==> !cc.isSpace(r[0])
  {
    if s != [] && cc.isSpace(s[0]) then
      var r := TrimStart(cc, s[1..]);
      assert s[..|s| - |r|] == [s[0]] + s[1..][..|s| - 1 - |r|];
      r
    else s
  }

  /** The part of `s` left after its trailing whitespace. */
  function TrimEnd(cc: CharClasses, s: string): (r: string)
    ensures |r| <= |s| && r == s[..|r|]
    ensures AllSpace(cc, s[|r|..])
    ensures r != [] ==> !cc.isSpace(r[|r| - 1])
  {
    if s != [] && cc.isSpace(s[|s| - 1]) then
      var r := TrimEnd(cc, s[..|s| - 1]);
      assert s[|r|..] == s[..|s| - 1][|r|..] + [s[|s| - 1]];
      r
    else s
  }

  /** `str.strip()` with no argument. */
  function Strip(cc: CharClasses, s: string): (r: string)
    ensures |r| <= |s|
    ensures r != [] ==> !cc.isSpace(r[0]) && !cc.isSpace(r[|r| - 1])
  {
    TrimEnd(cc, TrimStart(cc, s))
  }

  /** Strip removes whitespace and only whitespace, from both ends: `lead`
      characters before the result and the rest after it. */
  lemma StripRemovesOnlySpace(cc: CharClasses, s: string) returns (lead: nat)
    ensures lead + |Strip(cc, s)| <= |s|
    ensures s == s[..lead] + Strip(cc, s) + s[lead + |Strip(cc, s)|..]
    ensures AllSpace(cc, s[..lead]) && AllSpace(cc, s[lead + |Strip(cc, s)|..])
  {
    var t := TrimStart(cc, s);
    var r := TrimEnd(cc, t);
    lead := |s| - |t|;
    assert s[lead + |r|..] == t[|r|..];
    assert s == s[..lead] + r + s[lead + |r|..];
  }

  /** `validar_nick_tag` (its two messages are output only). */
  predicate Validate(cc: CharClasses, nick: string) {
    RegexMatch(cc, Strip(cc, nick))
  }

  /** `nick.split('#')[0]`: everything before the first '#', or all of `nick`. */
  function SplitNick(nick: string): (r: string)
    ensures |r| <= |nick| && r == nick[..|r|] && '#' !in r
    ensures |r| < |nick| ==> nick[|r|] == '#'
  {
    if nick == [] || nick[0] == '#' then [] else [nick[0]] + SplitNick(nick[1..])
  }

  // ---------------------------------------------------------------------------
  // Properties of stripping

  /** Stripping twice is stripping once. */
  lemma StripIdempotent(cc: CharClasses, s: string)
    ensures Strip(cc, Strip(cc, s)) == Strip(cc, s)
  {
  }

  /** A stripped string never ends with a newline, so Python's special `$`
      (matching before a final newline) never applies to validated input. */
  lemma DollarIsEndOnStripped(cc: CharClasses, s: string)
    requires Wf(cc)
    ensures RegexMatch(cc, Strip(cc, s)) == MatchesWhole(cc, Strip(cc, s))
  {
  }

  // ---------------------------------------------------------------------------
  // What validation accepts

  lemma NameHasNoHash(cc: CharClasses, n: string)
    requires Wf(cc) && IsName(cc, n)
    ensures '#' !in n
  {
  }

  lemma TagHasNoHash(cc: CharClasses, t: string)
    requires Wf(cc) && IsTag(cc, t)
    ensures '#' !in t
  {
  }

  /** A match splitting at `k` is the same thing as `s == n + "#" + t`. */
  lemma MatchesAtJoin(cc: CharClasses, s: string, k: nat)
    requires MatchesAt(cc, s, k)
    ensures s == s[..k] + "#" + s[k + 1..]
  {
    assert s == s[..k] + [s[k]] + s[k + 1..];
  }

  /** An accepted input is, once stripped, a name, a '#' and a tag. */
  lemma {:induction false} AcceptedIsIdentity(cc: CharClasses, s: string) returns (n: string, t: string)
    requires Wf(cc) && Validate(cc, s)
    ensures IsName(cc, n) && IsTag(cc, t) && Strip(cc, s) == n + "#" + t
  {
    var r := Strip(cc, s);
    DollarIsEndOnStripped(cc, s);
    var k: nat :| 3 <= k <= 16 && MatchesAt(cc, r, k);
    MatchesAtJoin(cc, r, k);
    n, t := r[..k], r[k + 1..];
  }

  /** Every stripped name, '#' and tag is accepted. */
  lemma {:induction false} IdentityIsAccepted(cc: CharClasses, s: string, n: string, t: string)
    requires IsName(cc, n) && IsTag(cc, t) && Strip(cc, s) == n + "#" + t
    ensures Validate(cc, s)
  {
    var r := Strip(cc, s);
    var k := |n|;
    assert r[..k] == n && r[k] == '#' && r[k + 1..] == t;
    assert MatchesAt(cc, r, k);
  }

  /** `validar_nick_tag(s)` holds exactly when the stripped input is a name
      (3-16 of `[\wÀ-ÿ\s]`), a '#', and a tag (3-5 of `[\wÀ-ÿ\d]`). */
  lemma ValidateIff(cc: CharClasses, s: string)
    requires Wf(cc)
    ensures Validate(cc, s) <==>
      exists n, t :: IsName(cc, n) && IsTag(cc, t) && Strip(cc, s) == n + "#" + t
  {
    if Validate(cc, s) {
      var n, t := AcceptedIsIdentity(cc, s);
    }
    if exists n, t :: IsName(cc, n) && IsTag(cc, t) && Strip(cc, s) == n + "#" + t {
      var n, t :| IsName(cc, n) && IsTag(cc, t) && Strip(cc, s) == n + "#" + t;
      IdentityIsAccepted(cc, s, n, t);
    }
  }

  /** Validation depends only on the stripped input. */
  lemma ValidateStripped(cc: CharClasses, s: string)
    ensures Validate(cc, s) == Validate(cc, Strip(cc, s))
  {
    StripIdempotent(cc, s);
  }

  /** An accepted input holds exactly one '#' once stripped: neither character
      class admits '#'. */
  lemma {:induction false} AcceptedHasOneHash(cc: CharClasses, s: string)
    requires Wf(cc) && Validate(cc, s)
    ensures multiset(Strip(cc, s))['#'] == 1
  {
    var n, t := AcceptedIsIdentity(cc, s);
    NameHasNoHash(cc, n);
    TagHasNoHash(cc, t);
    assert multiset(n + "#" + t) == multiset(n) + multiset{'#'} + multiset(t);
  }

  /** Accepted input is 7 to 22 characters long once stripped, holds a '#'
      and does not end with one. */
  lemma AcceptedShape(cc: CharClasses, s: string)
    requires Wf(cc) && Validate(cc, s)
    ensures 7 <= |Strip(cc, s)| <= 22
    ensures '#' in Strip(cc, s) && Strip(cc, s)[|Strip(cc, s)| - 1] != '#'
  {
    var n, t := AcceptedIsIdentity(cc, s);
    TagHasNoHash(cc, t);
    JoinShape(n, t);
  }

  lemma JoinShape(n: string, t: string)
    requires 3 <= |n| <= 16 && 3 <= |t| <= 5 && '#' !in t
    ensures var r := n + "#" + t;
      && 7 <= |r| <= 22
      && '#' in r && r[|r| - 1] != '#'
  {
    var r := n + "#" + t;
    assert r[|n|] == '#';
    assert r[|r| - 1] == t[|t| - 1];
  }

  /** A string that starts and ends with non-blank characters is unchanged
      by strip. */
  lemma StripKeepsUnpadded(cc: CharClasses, s: string)
    requires s != [] && !cc.isSpace(s[0]) && !cc.isSpace(s[|s| - 1])
    ensures Strip(cc, s) == s
  {
    assert TrimStart(cc, s) == s;
  }

  /** The malformed inputs "ab#1" (too short), "noTagHere" (no '#') and
      "validname#" (no tag) are refused. */
  lemma MalformedRejected(cc: CharClasses)
    requires Wf(cc)
    ensures !Validate(cc, "ab#1") && !Validate(cc, "noTagHere") && !Validate(cc, "validname#")
  {
    TooShortRejected(cc);
    NoHashRejected(cc);
    NoTagRejected(cc);
  }

  lemma TooShortRejected(cc: CharClasses)
    requires Wf(cc)
    ensures !Validate(cc, "ab#1")
  {
    var s := "ab#1";
    assert IsAsciiWord(s[0]) && IsAsciiWord(s[|s| - 1]);
    StripKeepsUnpadded(cc, s);
    if Validate(cc, s) { AcceptedShape(cc, s); }
  }

  lemma NoTagRejected(cc: CharClasses)
    requires Wf(cc)
    ensures !Validate(cc, "validname#")
  {
    var s := "validname#";
    assert IsAsciiWord(s[0]);
    StripKeepsUnpadded(cc, s);
    if Validate(cc, s) { AcceptedShape(cc, s); }
  }

  lemma NoHashRejected(cc: CharClasses)
    requires Wf(cc)
    ensures !Validate(cc, "noTagHere")
  {
    var b := "noTagHere";
    assert IsAsciiWord(b[0]) && IsAsciiWord(b[|b| - 1]);
    StripKeepsUnpadded(cc, b);
    assert '#' !in b by {
      assert forall i :: 0 <= i < |b| ==> b[i] != '#';
    }
    RejectedWithoutHash(cc, b);
  }

  /** Input without a '#' is refused, whatever else it holds. */
  lemma RejectedWithoutHash(cc: CharClasses, s: string)
    requires Wf(cc) && '#' !in Strip(cc, s)
    ensures !Validate(cc, s)
  {
    if Validate(cc, s) {
      AcceptedShape(cc, s);
    }
  }

  /** The range `À-ÿ` is wider than letters with diacritics: it also admits the
      multiplication and division signs, so "ab×#c÷d" is accepted. */
  lemma LatinRangeAdmitsSigns(cc: CharClasses)
    requires Wf(cc)
    ensures Validate(cc, "ab×#c÷d")
  {
    SignsExampleParts(cc);
    IdentityIsAccepted(cc, "ab×#c÷d", "ab×", "c÷d");
  }

  lemma SignsExampleParts(cc: CharClasses)
    requires Wf(cc)
    ensures Strip(cc, "ab×#c÷d") == "ab×" + "#" + "c÷d"
    ensures IsName(cc, "ab×") && IsTag(cc, "c÷d")
  {
    var s, n, t := "ab×#c÷d", "ab×", "c÷d";
    assert IsAsciiWord(s[0]) && IsAsciiWord(s[|s| - 1]);
    StripKeepsUnpadded(cc, s);
    assert IsAsciiWord(n[0]) && IsAsciiWord(n[1]) && InLatinRange(n[2]);
    assert IsAsciiWord(t[0]) && InLatinRange(t[1]) && IsAsciiWord(t[2]);
    ShortIdentity(cc, n, t);
    assert s == n + "#" + t;
  }

  lemma ShortIdentity(cc: CharClasses, n: string, t: string)
    requires |n| == 3 && NameChar(cc, n[0]) && NameChar(cc, n[1]) && NameChar(cc, n[2])
    requires |t| == 3 && TagChar(cc, t[0]) && TagChar(cc, t[1]) && TagChar(cc, t[2])
    ensures IsName(cc, n) && IsTag(cc, t)
  {
  }

  // ---------------------------------------------------------------------------
  // The name projection

  /** Text before a '#'-free prefix is kept whole by the split. */
  lemma {:induction false} SplitNickAfterHashFree(a: string, b: string)
    requires '#' !in a
    ensures SplitNick(a + b) == a + SplitNick(b)
  {
    if a == [] {
      assert a + b == b;
    } else {
      assert a[0] in a;
      assert (a + b)[0] == a[0] && (a + b)[1..] == a[1..] + b;
      SplitNickAfterHashFree(a[1..], b);
      calc {
        SplitNick(a + b);
        [a[0]] + SplitNick(a[1..] + b);
        [a[0]] + (a[1..] + SplitNick(b));
        { assert a == [a[0]] + a[1..]; }
        a + SplitNick(b);
      }
    }
  }

  /** On a stripped accepted input `n#t`, the split gives exactly `n`. */
  lemma SplitNickOfIdentity(cc: CharClasses, n: string, t: string)
    requires Wf(cc) && IsName(cc, n) && IsTag(cc, t)
    ensures SplitNick(n + "#" + t) == n
  {
    NameHasNoHash(cc, n);
    assert n + "#" + t == n + ("#" + t);
    SplitNickAfterHashFree(n, "#" + t);
  }

  /** `main` splits the RAW input (main.py:24, main.py:28), not the stripped
      one: the nick is the input's leading whitespace followed by the name. */
  lemma {:induction false} SplitNickOfRawInput(cc: CharClasses, s: string) returns (lead: nat)
    requires Wf(cc) && Validate(cc, s)
    ensures IsName(cc, SplitNick(Strip(cc, s)))
    ensures lead <= |s| && AllSpace(cc, s[..lead])
    ensures SplitNick(s) == s[..lead] + SplitNick(Strip(cc, s))
  {
    var n, t := AcceptedIsIdentity(cc, s);
    SplitNickOfIdentity(cc, n, t);
    lead := StripRemovesOnlySpace(cc, s);
    HashIsNotSpace(cc, s[..lead]);
    NameHasNoHash(cc, n);
    SplitNickOfPadded(s[..lead], n, t, s[lead + |Strip(cc, s)|..]);
  }

  lemma HashIsNotSpace(cc: CharClasses, w: string)
    requires Wf(cc) && AllSpace(cc, w)
    ensures '#' !in w
  {
  }

  lemma SplitNickOfPadded(pre: string, n: string, t: string, post: string)
    requires '#' !in pre && '#' !in n
    ensures SplitNick(pre + (n + "#" + t) + post) == pre + n
  {
    assert pre + (n + "#" + t) + post == (pre + n) + ("#" + t + post);
    SplitNickAfterHashFree(pre + n, "#" + t + post);
  }
}
