/** String operations the survey applies to typed text: Python's `str.strip()`,
    `str.upper()` and `str.replace(" ", "")`, and the answer normalisation built
    from the last two. */
module Text {

  /** The characters Python's `str.isspace` accepts, which `str.strip()` removes
      from both ends: ASCII tab to carriage return, the separators U+001C..U+001F,
      the space, and the Unicode space characters. */
  predicate IsSpace(c: char) {
    c == ' ' || ('\t' <= c <= '\r') || ('\U{1C}' <= c <= '\U{1F}')
    || c == '\U{85}' || c == '\U{A0}' || c == '\U{1680}'
    || ('\U{2000}' <= c <= '\U{200A}') || c == '\U{2028}' || c == '\U{2029}'
    || c == '\U{202F}' || c == '\U{205F}' || c == '\U{3000}'
  }

  predicate AllSpace(s: string) {
    forall k :: 0 <= k < |s| ==> IsSpace(s[k])
  }

  /** Number of whitespace characters at the front of `s`. */
  function LeadingSpaces(s: string): (n: nat)
    ensures n <= |s|
    ensures AllSpace(s[..n])
    ensures n < |s| ==> !IsSpace(s[n])
  {
    if s == [] || !IsSpace(s[0]) then 0
    else
      var m := LeadingSpaces(s[1..]);
      assert s[1..][..m] == s[1..m + 1];
      1 + m
  }

  /** Number of whitespace characters at the back of `s`. */
  function TrailingSpaces(s: string): (n: nat)
    ensures n <= |s|
    ensures AllSpace(s[|s| - n..])
    ensures n < |s| ==> !IsSpace(s[|s| - 1 - n])
  {
    if s == [] || !IsSpace(s[|s| - 1]) then 0
    else
      var m := TrailingSpaces(s[..|s| - 1]);
      assert s[..|s| - 1][|s| - 1 - m..] + [s[|s| - 1]] == s[|s| - 1 - m..];
      1 + m
  }

  /** Python's `s.strip()`: `s` without its leading and trailing whitespace.
      The result is blank exactly when `s` is all whitespace; otherwise it
      starts and ends with a non-space. */
  function Strip(s: string): (r: string)
    ensures r == [] <==> AllSpace(s)
    ensures r != [] ==> !IsSpace(r[0]) && !IsSpace(r[|r| - 1])
  {
    var lead := LeadingSpaces(s);
    if lead == |s| then
      assert s[..lead] == s;
      []
    else
      var trail := TrailingSpaces(s);
      assert trail < |s| - lead;
      assert !AllSpace(s) by { assert !IsSpace(s[lead]); }
      s[lead..|s| - trail]
  }

  /** What `Strip` keeps is the middle of `s`: what it cuts off on either
      side is whitespace. */
  lemma StripIsInfix(s: string)
    ensures var r := Strip(s);
            exists i :: 0 <= i <= |s| - |r| && r == s[i..i + |r|]
                        && AllSpace(s[..i]) && AllSpace(s[i + |r|..])
  {
    var r := Strip(s);
    var lead := LeadingSpaces(s);
    if lead == |s| {
      assert s[..0] == [] && s[0..0] == [];
      assert AllSpace(s[0..]) by { assert s[0..] == s[..lead]; }
    } else {
      assert r == s[lead..lead + |r|];
    }
  }

  lemma StripIdempotent(s: string)
    ensures Strip(Strip(s)) == Strip(s)
  {
    var r := Strip(s);
    if r != [] {
      assert LeadingSpaces(r) == 0;
      assert TrailingSpaces(r) == 0;
    }
  }

  predicate IsLower(c: char) {
    'a' <= c <= 'z'
  }

  /** `str.upper()` on one character; only the ASCII letters are mapped. */
  function UpperChar(c: char): (u: char)
    ensures !IsLower(u)
    ensures IsLower(c) ==> u as int == c as int - 32
    ensures !IsLower(c) ==> u == c
  {
    if IsLower(c) then (c as int - 32) as char else c
  }

  /** `s.upper()`: same length, every character upper-cased in place. */
  function Upper(s: string): (r: string)
    ensures |r| == |s|
    ensures forall k :: 0 <= k < |s| ==> r[k] == UpperChar(s[k])
  {
    if s == [] then [] else [UpperChar(s[0])] + Upper(s[1..])
  }

  /** `s.replace(" ", "")`: every space removed, every other character kept;
      shorter exactly when there was a space to remove. */
  function RemoveSpaces(s: string): (r: string)
    ensures forall c :: c in r <==> c in s && c != ' '
    ensures |r| == |s| <==> ' ' !in s
    ensures |r| <= |s|
  {
    if s == [] then []
    else
      assert s == [s[0]] + s[1..];
      if s[0] == ' ' then RemoveSpaces(s[1..])
      else [s[0]] + RemoveSpaces(s[1..])
  }

  /** Removing spaces works piecewise, so the kept characters stay in order. */
  lemma {:induction false} RemoveSpacesAppend(a: string, b: string)
    ensures RemoveSpaces(a + b) == RemoveSpaces(a) + RemoveSpaces(b)
  {
    if a == [] {
      assert a + b == b;
    } else {
      assert (a + b)[0] == a[0];
      assert (a + b)[1..] == a[1..] + b;
      RemoveSpacesAppend(a[1..], b);
    }
  }

  /** A string that normalisation leaves as it is: no space, no lower-case letter. */
  predicate IsNormal(s: string) {
    forall k :: 0 <= k < |s| ==> s[k] != ' ' && !IsLower(s[k])
  }

  /** The normalised answer, `answer.upper().replace(" ", "")`. */
  function Normalize(s: string): (r: string)
    ensures IsNormal(r)
    ensures |r| <= |s|
  {
    var u := Upper(s);
    var r := RemoveSpaces(u);
    forall k | 0 <= k < |r| ensures r[k] != ' ' && !IsLower(r[k]) {
      assert r[k] in r;
    }
    r
  }

  lemma {:induction false} UpperOfNormal(s: string)
    requires IsNormal(s)
    ensures Upper(s) == s
  {
    if s != [] {
      UpperOfNormal(s[1..]);
    }
  }

  lemma {:induction false} RemoveSpacesOfSpaceless(s: string)
    requires ' ' !in s
    ensures RemoveSpaces(s) == s
  {
    if s != [] {
      assert s == [s[0]] + s[1..];
      RemoveSpacesOfSpaceless(s[1..]);
    }
  }

  /** Normalisation leaves a string alone exactly when it holds no space and
      no lower-case letter. */
  lemma NormalizeFixpoint(s: string)
    ensures Normalize(s) == s <==> IsNormal(s)
  {
    if IsNormal(s) {
      UpperOfNormal(s);
      RemoveSpacesOfSpaceless(s);
    }
  }

  /** Normalising twice is normalising once. */
  lemma NormalizeIdempotent(s: string)
    ensures Normalize(Normalize(s)) == Normalize(s)
  {
    NormalizeFixpoint(Normalize(s));
  }
}
