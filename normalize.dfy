/** The comment-text preprocessing of the join: `remove_whitespace`,
    `remove_newlines` and `preprocess_string`. */
module Normalize {
  import opened PyStr

  /** Neither starts nor ends with whitespace. */
  predicate IsStripped(t: string) {
    t == [] || (!IsSpace(t[0]) && !IsSpace(t[|t| - 1]))
  }

  /** `remove_whitespace(s)`, which is `s.strip()`: the part of `s` between
      its leading and its trailing whitespace. */
  function RemoveWhitespace(s: string): (r: string)
    ensures IsStripped(r)
    ensures LeadingSpaces(s) + |r| <= |s|
    ensures r == s[LeadingSpaces(s)..LeadingSpaces(s) + |r|]
    ensures AllSpace(s[LeadingSpaces(s) + |r|..])
    ensures forall k :: 0 <= k < |r| ==> r[k] in s
  {
    var lead := LeadingSpaces(s);
    if lead == |s| then []
    else
      var trail := TrailingSpaces(s);
      SpacesDoNotMeet(s);
      assert s[|s| - trail..] == s[lead..][|s| - trail - lead..];
      s[lead..|s| - trail]
  }

  /** Unless the string is all whitespace, its leading and trailing
      whitespace are apart. */
  lemma SpacesDoNotMeet(s: string)
    requires LeadingSpaces(s) < |s|
    ensures LeadingSpaces(s) + TrailingSpaces(s) < |s|
  {
    var lead, trail := LeadingSpaces(s), TrailingSpaces(s);
    assert !IsSpace(s[lead]);
    assert forall k :: |s| - trail <= k < |s| ==> s[k] == s[|s| - trail..][k - (|s| - trail)];
  }

  /** Stripping is determined by its two properties: whatever string with no
      whitespace at either end is surrounded by whitespace, stripping gives
      exactly that string back. */
  lemma StripUnique(pre: string, t: string, post: string)
    requires AllSpace(pre) && AllSpace(post) && IsStripped(t)
    ensures RemoveWhitespace(pre + t + post) == t
  {
    var s := pre + t + post;
    if t == [] {
      assert AllSpace(s) by {
        forall k | 0 <= k < |s| ensures IsSpace(s[k]) {
          if k < |pre| { assert s[k] == pre[k]; } else { assert s[k] == post[k - |pre|]; }
        }
      }
      assert LeadingSpaces(s) == |s|;
    } else {
      LeadingSpacesOfPadded(pre, t, post);
      TrailingSpacesOfPadded(pre, t, post);
      assert s[|pre|..|s| - |post|] == t;
    }
  }

  /** Whitespace in front of text that starts with a non-whitespace
      character is exactly the leading whitespace. */
  lemma LeadingSpacesOfPadded(pre: string, t: string, post: string)
    requires AllSpace(pre) && t != [] && !IsSpace(t[0])
    ensures LeadingSpaces(pre + t + post) == |pre|
  {
    var s := pre + t + post;
    assert forall k :: 0 <= k < |pre| ==> s[k] == pre[k];
    assert s[|pre|] == t[0];
    LeadingSpacesAt(s, |pre|);
  }

  /** Whitespace after text that ends with a non-whitespace character is
      exactly the trailing whitespace. */
  lemma TrailingSpacesOfPadded(pre: string, t: string, post: string)
    requires AllSpace(post) && t != [] && !IsSpace(t[|t| - 1])
    ensures TrailingSpaces(pre + t + post) == |post|
  {
    var s := pre + t + post;
    assert forall k :: |s| - |post| <= k < |s| ==> s[k] == post[k - (|s| - |post|)];
    assert s[|s| - 1 - |post|] == t[|t| - 1];
    TrailingSpacesAt(s, |post|);
  }

  /** A string with no whitespace at either end is its own stripped form. */
  lemma RemoveWhitespaceOfStripped(t: string)
    requires IsStripped(t)
    ensures RemoveWhitespace(t) == t
  {
    StripUnique([], t, []);
    assert [] + t + [] == t;
  }

  /** Stripping a second time changes nothing. */
  lemma RemoveWhitespaceIdempotent(s: string)
    ensures RemoveWhitespace(RemoveWhitespace(s)) == RemoveWhitespace(s)
  {
    var r := RemoveWhitespace(s);
    StripUnique([], r, []);
    assert [] + r + [] == r;
  }

  /** The unit test of `remove_whitespace`. */
  lemma RemoveWhitespaceExample()
    ensures RemoveWhitespace("      hello world ") == "hello world"
  {
    assert AllSpace("      ") && AllSpace(" ");
    assert IsStripped("hello world");
    StripUnique("      ", "hello world", " ");
    HelloWorldPadded();
  }

  lemma HelloWorldPadded()
    ensures "      " + "hello world" + " " == "      hello world "
  {
  }

  /** `remove_newlines(s)`: every newline character deleted, then every
      two-character sequence backslash-n, each as `str.replace` does it. */
  function RemoveNewlines(s: string): string {
    Replace(Replace(s, "\n", ""), "\\n", "")
  }

  /** No newline character is left, and a string with neither a newline nor
      a backslash is left as it is. */
  lemma RemoveNewlinesSpec(s: string)
    ensures '\n' !in RemoveNewlines(s)
    ensures '\n' !in s && '\\' !in s ==> RemoveNewlines(s) == s
  {
    ReplaceCharRemovesIt(s, '\n');
  }

  /** A trailing newline is all that is removed from text that otherwise
      holds neither a newline nor a backslash. */
  lemma RemoveNewlinesOfTrailingNewline(s: string)
    requires '\n' !in s && '\\' !in s
    ensures RemoveNewlines(s + "\n") == s
  {
    ReplaceCharAppend(s, '\n', '\n');
    assert s + ['\n'] == s + "\n";
  }

  /** The unit test of `remove_newlines`. */
  lemma RemoveNewlinesExample()
    ensures RemoveNewlines("hello world\n") == "hello world"
  {
    var s := "hello world";
    assert '\n' !in s && '\\' !in s;
    RemoveNewlinesOfTrailingNewline(s);
    assert s + "\n" == "hello world\n";
  }

  /** Removing the backslash-n sequences is not idempotent: deleting one can
      bring a backslash and an `n` together. */
  lemma RemoveNewlinesNotIdempotent()
    ensures exists s :: RemoveNewlines(RemoveNewlines(s)) != RemoveNewlines(s)
  {
    var t := "\\n";
    var s := ['\\'] + (t + "n");
    assert '\n' !in s && '\n' !in t;
    assert s[..2][1] != t[1];
    ReplaceSkipFirst('\\', t + "n", t);
    ReplacePatternFirst(t, "n");
    assert |"n"| < |t|;
    assert RemoveNewlines(s) == ['\\'] + "n";
    ReplacePatternFirst(t, "");
    assert t + "" == t;
    assert RemoveNewlines(t) == "";
  }

  /** A string that starts with the pattern loses it first. */
  lemma ReplacePatternFirst(pat: string, rest: string)
    requires pat != []
    ensures Replace(pat + rest, pat, "") == Replace(rest, pat, "")
  {
    assert (pat + rest)[..|pat|] == pat && (pat + rest)[|pat|..] == rest;
  }

  /** A string that does not start with the pattern keeps its first
      character. */
  lemma ReplaceSkipFirst(c: char, rest: string, pat: string)
    requires pat != [] && |pat| <= 1 + |rest| && ([c] + rest)[..|pat|] != pat
    ensures Replace([c] + rest, pat, "") == [c] + Replace(rest, pat, "")
  {
    assert ([c] + rest)[1..] == rest;
  }

  /** `preprocess_string(s)`: strip, then remove newlines. */
  function PreprocessString(s: string): string {
    RemoveNewlines(RemoveWhitespace(s))
  }

  /** Preprocessed text holds no newline character. */
  lemma PreprocessStringHasNoNewline(s: string)
    ensures '\n' !in PreprocessString(s)
  {
    RemoveNewlinesSpec(RemoveWhitespace(s));
  }

  /** Preprocessing is not idempotent: stripping comes first, so removing a
      trailing backslash-n can leave trailing whitespace behind that a second
      pass strips. */
  lemma PreprocessStringNotIdempotent()
    ensures PreprocessString("a \\n") == "a "
    ensures PreprocessString("a ") == "a"
  {
    StripOfStripped();
    NewlinesOfEscapedEnd();
    StripOfPadded();
    assert RemoveNewlines("a") == "a" by { RemoveNewlinesSpec("a"); }
  }

  lemma StripOfStripped()
    ensures RemoveWhitespace("a \\n") == "a \\n"
  {
    assert IsStripped("a \\n");
    StripUnique([], "a \\n", []);
    assert [] + "a \\n" + [] == "a \\n";
  }

  lemma NewlinesOfEscapedEnd()
    ensures RemoveNewlines("a \\n") == "a "
  {
    var p := "a ";
    assert '\n' !in p && '\\' !in p;
    RemoveNewlinesOfEscapedEnd(p);
    assert p + "\\n" == "a \\n";
  }

  /** A backslash-n at the end of text with no newline and no backslash is
      all that `remove_newlines` deletes. */
  lemma RemoveNewlinesOfEscapedEnd(p: string)
    requires '\n' !in p && '\\' !in p
    ensures RemoveNewlines(p + "\\n") == p
  {
    var t := "\\n";
    assert '\n' !in p + t;
    ReplaceBeforePattern(p, t);
  }

  /** Text that does not hold the pattern's first character, followed by the
      pattern, loses just the pattern. */
  lemma {:induction false} ReplaceBeforePattern(p: string, pat: string)
    requires pat != [] && pat[0] !in p
    ensures Replace(p + pat, pat, "") == p
  {
    if p == [] {
      assert p + pat == pat + [];
      ReplacePatternFirst(pat, []);
    } else {
      var rest := p[1..] + pat;
      assert p + pat == [p[0]] + rest;
      assert ([p[0]] + rest)[..|pat|][0] == p[0];
      ReplaceSkipFirst(p[0], rest, pat);
      ReplaceBeforePattern(p[1..], pat);
      assert [p[0]] + p[1..] == p;
    }
  }

  lemma StripOfPadded()
    ensures RemoveWhitespace("a ") == "a"
  {
    assert AllSpace(" ") && IsStripped("a");
    StripUnique([], "a", " ");
    assert [] + "a" + " " == "a ";
  }

  /** Deleting one character from the end of a string deletes it from the
      result of deleting that character everywhere. */
  lemma {:induction false} ReplaceCharAppend(a: string, x: char, c: char)
    ensures Replace(a + [x], [c], []) == Replace(a, [c], []) + (if x == c then [] else [x])
  {
    if a != [] {
      ReplaceCharAppend(a[1..], x, c);
      assert (a + [x])[1..] == a[1..] + [x];
      assert (a + [x])[..1] == a[..1];
    }
  }

  /** Deleting newlines from a stripped string leaves it stripped, since a
      newline is whitespace and so is at neither end. */
  lemma RemoveNewlineCharsKeepsStripped(t: string)
    requires IsStripped(t)
    ensures IsStripped(Replace(t, "\n", ""))
  {
    if t != [] {
      var first, last := t[0], t[|t| - 1];
      assert IsSpace('\n');
      assert first != '\n' && last != '\n';
      assert t == [first] + t[1..];
      ReplaceCharPrepend(first, t[1..], '\n');
      assert t == t[..|t| - 1] + [last];
      ReplaceCharAppend(t[..|t| - 1], last, '\n');
    }
  }

  /** Deleting a character from a string with one more character in front
      keeps that one unless it is the deleted character. */
  lemma ReplaceCharPrepend(x: char, a: string, c: char)
    ensures Replace([x] + a, [c], []) == (if x == c then [] else [x]) + Replace(a, [c], [])
  {
    assert ([x] + a)[..1] == [x] && ([x] + a)[1..] == a;
  }

  /** Text without backslashes is preprocessed once and for all: the result
      is stripped, holds no newline, and preprocessing it again changes
      nothing. */
  lemma PreprocessStringIdempotentWithoutBackslash(s: string)
    requires '\\' !in s
    ensures IsStripped(PreprocessString(s))
    ensures PreprocessString(PreprocessString(s)) == PreprocessString(s)
  {
    var t := RemoveWhitespace(s);
    assert '\\' !in t;
    var u := Replace(t, "\n", "");
    ReplaceCharRemovesIt(t, '\n');
    assert '\\' !in u;
    assert RemoveNewlines(t) == u;
    RemoveNewlineCharsKeepsStripped(t);
    StripUnique([], u, []);
    assert [] + u + [] == u;
  }
}
