/**
 * `slugify` from the end-to-end test utilities: lower-case the text, replace
 * every run of whitespace by one `-`, then delete every character that is
 * neither a word character nor `-`.
 *
 * The regular expressions carry no `u` flag, so `\w` is `[A-Za-z0-9_]` and
 * `\s` is the fixed set of JavaScript white-space and line-terminator
 * characters spelled out in `IsSpace`.
 */
module Slug {

  /** JavaScript's `\s`: the WhiteSpace and LineTerminator code points. */
  const SpaceChars: set<char> := {
    '\t', '\n', '\U{B}', '\U{C}', '\r', ' ', '\U{A0}', '\U{1680}',
    '\U{2000}', '\U{2001}', '\U{2002}', '\U{2003}', '\U{2004}', '\U{2005}',
    '\U{2006}', '\U{2007}', '\U{2008}', '\U{2009}', '\U{200A}',
    '\U{2028}', '\U{2029}', '\U{202F}', '\U{205F}', '\U{3000}', '\U{FEFF}'
  }

  predicate IsSpace(c: char) { c in SpaceChars }

  predicate IsUpperAscii(c: char) { 'A' <= c <= 'Z' }

  /** JavaScript's `\w` without the `u` flag. */
  predicate IsWordChar(c: char) {
    ('a' <= c <= 'z') || IsUpperAscii(c) || ('0' <= c <= '9') || c == '_'
  }

  /** What `[^\w-]+` leaves in place. */
  predicate IsKept(c: char) { IsWordChar(c) || c == '-' }

  /** The alphabet a slug is made of: `a-z`, `0-9`, `_` and `-`. */
  predicate IsSlugChar(c: char) {
    ('a' <= c <= 'z') || ('0' <= c <= '9') || c == '_' || c == '-'
  }

  predicate IsAscii(c: char) { c < '\U{80}' }

  /**
   * `toLowerCase` on one character. ASCII capitals map to their lower-case
   * letter. U+0130 and U+212A are the two characters outside ASCII whose
   * lower-case form contains an ASCII letter; every other character stands
   * for itself here (its real lower-case form is neither ASCII nor white
   * space, so the later steps treat it alike).
   */
  function LowerChar(c: char): (r: seq<char>)
    ensures 1 <= |r| <= 2
    ensures IsAscii(c) ==> |r| == 1
  {
    if IsUpperAscii(c) then [(c as int + 32) as char]
    else if c == '\U{130}' then ['i', '\U{307}']
    else if c == '\U{212A}' then ['k']
    else [c]
  }

  /** `text.toLowerCase()` */
  function Lower(s: seq<char>): (r: seq<char>)
    ensures forall i :: 0 <= i < |r| ==> !IsUpperAscii(r[i])
    ensures (forall i :: 0 <= i < |s| ==> IsAscii(s[i])) ==> |r| == |s|
  {
    if s == [] then [] else LowerChar(s[0]) + Lower(s[1..])
  }

  /**
   * `.replace(/\s+/g, "-")`: each maximal run of white space becomes one `-`,
   * written where the run ends.
   */
  function Collapse(s: seq<char>): (r: seq<char>)
    ensures |r| <= |s|
  {
    if s == [] then []
    else if IsSpace(s[0]) && |s| > 1 && IsSpace(s[1]) then Collapse(s[1..])
    else if IsSpace(s[0]) then "-" + Collapse(s[1..])
    else [s[0]] + Collapse(s[1..])
  }

  /** `.replace(/[^\w-]+/g, "")`: every character outside `[\w-]` is deleted. */
  function Strip(s: seq<char>): (r: seq<char>)
    ensures |r| <= |s|
    ensures forall i :: 0 <= i < |r| ==> IsKept(r[i])
    ensures |s| == 1 ==> r == if IsKept(s[0]) then s else []
  {
    if s == [] then []
    else if IsKept(s[0]) then [s[0]] + Strip(s[1..])
    else Strip(s[1..])
  }

  /**
   * `slugify`: every character of the result is in `a-z`, `0-9`, `_` or `-`
   * (so none is white space); the empty text gives the empty slug, and an
   * ASCII text never gives a longer one.
   */
  function Slugify(text: seq<char>): (r: seq<char>)
    ensures forall i :: 0 <= i < |r| ==> IsSlugChar(r[i]) && !IsSpace(r[i])
    ensures text == [] ==> r == []
    ensures (forall i :: 0 <= i < |text| ==> IsAscii(text[i])) ==> |r| <= |text|
  {
    SlugCharsOnly(text);
    Strip(Collapse(Lower(text)))
  }

  // ---------------------------------------------------------------------
  // Lower-casing

  /** On ASCII text, lower-casing works position by position. */
  lemma {:induction false} LowerAscii(s: seq<char>)
    requires forall i :: 0 <= i < |s| ==> IsAscii(s[i])
    ensures |Lower(s)| == |s|
    ensures forall i :: 0 <= i < |s| ==>
      Lower(s)[i] == if IsUpperAscii(s[i]) then (s[i] as int + 32) as char else s[i]
  {
    if s != [] {
      LowerAscii(s[1..]);
    }
  }

  /** Text with no capitals and none of the two special letters is already lower case. */
  lemma {:induction false} LowerOfSlugChars(s: seq<char>)
    requires forall i :: 0 <= i < |s| ==> IsSlugChar(s[i])
    ensures Lower(s) == s
  {
    if s != [] {
      LowerOfSlugChars(s[1..]);
    }
  }

  // ---------------------------------------------------------------------
  // Collapsing white space

  /** A run of white space followed by text that does not start with white space becomes one `-`. */
  lemma {:induction false} CollapseLeadingRun(w: seq<char>, t: seq<char>)
    requires |w| > 0 && forall i :: 0 <= i < |w| ==> IsSpace(w[i])
    requires t == [] || !IsSpace(t[0])
    ensures Collapse(w + t) == "-" + Collapse(t)
  {
    assert (w + t)[1..] == w[1..] + t;
    if |w| > 1 {
      CollapseLeadingRun(w[1..], t);
    } else {
      assert w[1..] + t == t;
    }
  }

  /** The output of `Collapse` holds no white space, only characters of the input and `-`. */
  lemma {:induction false} CollapseAlphabet(s: seq<char>)
    ensures forall i :: 0 <= i < |Collapse(s)| ==>
      !IsSpace(Collapse(s)[i]) && (Collapse(s)[i] == '-' || Collapse(s)[i] in s)
    decreases |s|
  {
    if s != [] {
      CollapseAlphabet(s[1..]);
      assert forall c :: c in s[1..] ==> c in s;
    }
  }

  /**
   * One maximal run of white space `w`, preceded by text that does not end in
   * white space and followed by text that does not start with it, becomes
   * exactly one `-`, and the text on either side is collapsed on its own.
   */
  lemma {:induction false} CollapseRun(p: seq<char>, w: seq<char>, t: seq<char>)
    requires p == [] || !IsSpace(p[|p| - 1])
    requires |w| > 0 && forall i :: 0 <= i < |w| ==> IsSpace(w[i])
    requires t == [] || !IsSpace(t[0])
    ensures Collapse(p + w + t) == Collapse(p) + "-" + Collapse(t)
  {
    if p == [] {
      assert p + w + t == w + t;
      CollapseLeadingRun(w, t);
    } else {
      var p' := p[1..];
      assert (p + w + t)[1..] == p' + w + t;
      if p' == [] {
        CollapseRun(p', w, t);
        assert !IsSpace(p[0]);
        assert Collapse(p) == [p[0]];
      } else {
        assert p'[|p'| - 1] == p[|p| - 1];
        assert (p + w + t)[1] == p'[0];
        CollapseRun(p', w, t);
      }
    }
  }

  /** Text without white space passes through `Collapse` unchanged. */
  lemma {:induction false} CollapseWithoutSpaces(s: seq<char>)
    requires forall i :: 0 <= i < |s| ==> !IsSpace(s[i])
    ensures Collapse(s) == s
  {
    if s != [] {
      CollapseWithoutSpaces(s[1..]);
    }
  }

  // ---------------------------------------------------------------------
  // Stripping

  lemma {:induction false} StripKeepsSource(s: seq<char>)
    ensures forall i :: 0 <= i < |Strip(s)| ==> Strip(s)[i] in s
  {
    if s != [] {
      StripKeepsSource(s[1..]);
      assert forall c :: c in s[1..] ==> c in s;
    }
  }

  /** Text made of kept characters passes through `Strip` unchanged. */
  lemma {:induction false} StripOfKept(s: seq<char>)
    requires forall i :: 0 <= i < |s| ==> IsKept(s[i])
    ensures Strip(s) == s
  {
    if s != [] {
      StripOfKept(s[1..]);
    }
  }

  // ---------------------------------------------------------------------
  // Properties of slugify

  /** The three steps leave only characters in `a-z`, `0-9`, `_` and `-`. */
  lemma SlugCharsOnly(text: seq<char>)
    ensures forall i :: 0 <= i < |Strip(Collapse(Lower(text)))| ==>
      IsSlugChar(Strip(Collapse(Lower(text)))[i]) && !IsSpace(Strip(Collapse(Lower(text)))[i])
  {
    var l := Lower(text);
    var c := Collapse(l);
    var r := Strip(c);
    CollapseAlphabet(l);
    StripKeepsSource(c);
    forall i | 0 <= i < |r|
      ensures IsSlugChar(r[i]) && !IsSpace(r[i])
    {
      assert r[i] in c;
      var j :| 0 <= j < |c| && c[j] == r[i];
      if r[i] != '-' {
        assert r[i] in l;
        var k :| 0 <= k < |l| && l[k] == r[i];
        assert !IsUpperAscii(r[i]);
      }
    }
  }

  /** A slug is its own slug. */
  lemma SlugifyIdempotent(text: seq<char>)
    ensures Slugify(Slugify(text)) == Slugify(text)
  {
    SlugifyOfSlugChars(Slugify(text));
  }

  /** Text that already consists of slug characters is kept as it is, in order. */
  lemma SlugifyOfSlugChars(s: seq<char>)
    requires forall i :: 0 <= i < |s| ==> IsSlugChar(s[i])
    ensures Slugify(s) == s
  {
    LowerOfSlugChars(s);
    CollapseWithoutSpaces(s);
    StripOfKept(s);
  }

  /**
   * On ASCII text without white space, a slug is the lower-cased text with
   * the characters outside `[\w-]` deleted: capitals become their lower-case
   * letters, and everything kept stays in order.
   */
  lemma SlugifyAsciiWord(s: seq<char>)
    requires forall i :: 0 <= i < |s| ==> IsAscii(s[i]) && !IsSpace(s[i])
    ensures |Lower(s)| == |s|
    ensures forall i :: 0 <= i < |s| ==>
      Lower(s)[i] == if IsUpperAscii(s[i]) then (s[i] as int + 32) as char else s[i]
    ensures Slugify(s) == Strip(Lower(s))
  {
    LowerAscii(s);
    forall i | 0 <= i < |Lower(s)|
      ensures !IsSpace(Lower(s)[i])
    {
      if IsUpperAscii(s[i]) {
        assert 'a' <= Lower(s)[i] <= 'z';
      }
    }
    CollapseWithoutSpaces(Lower(s));
  }

  lemma {:induction false} StripAppend(a: seq<char>, b: seq<char>)
    ensures Strip(a + b) == Strip(a) + Strip(b)
  {
    if a == [] {
      assert a + b == b;
    } else {
      assert (a + b)[1..] == a[1..] + b;
      StripAppend(a[1..], b);
    }
  }

  /**
   * Every kept character of the collapsed, lower-cased text survives in the
   * slug at its place: the slug is the slug of what comes before it, then the
   * character, then the slug of what follows.
   */
  lemma SlugKeepsKeptChars(text: seq<char>, i: nat)
    requires i < |Collapse(Lower(text))| && IsKept(Collapse(Lower(text))[i])
    ensures var c := Collapse(Lower(text));
      Slugify(text) == Strip(c[..i]) + [c[i]] + Strip(c[i + 1..])
  {
    var c := Collapse(Lower(text));
    assert c == c[..i] + [c[i]] + c[i + 1..];
    StripAppend(c[..i] + [c[i]], c[i + 1..]);
    StripAppend(c[..i], [c[i]]);
  }

}
