/** The string primitives the catalog query relies on: the blank-term test,
    substring search with ordinal case-insensitive comparison, and the
    order used to sort product names. */
module Text {
  import opened Options

  /** The characters the platform's white-space test accepts: the control
      characters tab through carriage return, the Unicode space separators,
      next line, and the line and paragraph separators. */
  predicate IsWhiteSpace(c: char)
  {
    || ('\U{9}' <= c <= '\U{D}')
    || c == ' '
    || c == '\U{85}'
    || c == '\U{A0}'
    || c == '\U{1680}'
    || ('\U{2000}' <= c <= '\U{200A}')
    || c == '\U{2028}'
    || c == '\U{2029}'
    || c == '\U{202F}'
    || c == '\U{205F}'
    || c == '\U{3000}'
  }

  /** True when no character of `s` is anything but white space. */
  function AllWhiteSpace(s: string): (r: bool)
    ensures r <==> forall i :: 0 <= i < |s| ==> IsWhiteSpace(s[i])
  {
    if s == [] then true else IsWhiteSpace(s[0]) && AllWhiteSpace(s[1..])
  }

  /** The null-or-white-space test applied to the search term: a missing
      term, the empty term and a term of spaces only are all blank. */
  function IsNullOrWhiteSpace(s: Option<string>): (r: bool)
    ensures !r <==> s.Some? && exists i :: 0 <= i < |s.value| && !IsWhiteSpace(s.value[i])
  {
    match s
    case None => true
    case Some(t) => AllWhiteSpace(t)
  }

  /** A term that is not blank is present and has at least one character. */
  lemma NonBlankIsNonEmpty(s: Option<string>)
    requires !IsNullOrWhiteSpace(s)
    ensures s.Some? && |s.value| > 0
  {
  }

  /** Case folding of the ordinal ignore-case comparison, restricted to
      ASCII: a lower-case Latin letter becomes its upper-case form, every
      other character is left alone. */
  function ToUpperAscii(c: char): (u: char)
  {
    if 'a' <= c <= 'z' then (c as int - 32) as char else c
  }

  /** Folding maps onto upper case and folding twice changes nothing. */
  lemma ToUpperAsciiFacts(c: char)
    ensures !('a' <= ToUpperAscii(c) <= 'z')
    ensures ToUpperAscii(ToUpperAscii(c)) == ToUpperAscii(c)
    ensures ToUpperAscii(c) != c <==> 'a' <= c <= 'z'
  {
  }

  /** The string with every character folded. */
  function UpperAscii(s: string): (r: string)
    ensures |r| == |s|
    ensures forall k :: 0 <= k < |s| ==> r[k] == ToUpperAscii(s[k])
  {
    seq(|s|, k requires 0 <= k < |s| => ToUpperAscii(s[k]))
  }

  /** `term` matches `text` at position `i`, character by character after
      folding both. */
  ghost predicate MatchesAt(text: string, term: string, i: int)
  {
    && 0 <= i
    && i + |term| <= |text|
    && forall k :: 0 <= k < |term| ==> ToUpperAscii(text[i + k]) == ToUpperAscii(term[k])
  }

  /** `term` occurs somewhere in `text`, ignoring the case of ASCII letters. */
  ghost predicate OccursIgnoreCase(text: string, term: string)
  {
    exists i :: MatchesAt(text, term, i)
  }

  /** Whether `text` begins with `prefix`, ignoring case. */
  function StartsWithIgnoreCase(text: string, prefix: string): (r: bool)
    ensures r <==> MatchesAt(text, prefix, 0)
  {
    if prefix == [] then true
    else
      && text != []
      && ToUpperAscii(text[0]) == ToUpperAscii(prefix[0])
      && StartsWithIgnoreCase(text[1..], prefix[1..])
  }

  /** Dropping the first character of the text shifts every match one
      position to the left. */
  lemma MatchesAtShift(text: string, term: string, i: int)
    requires text != [] && 0 <= i
    ensures MatchesAt(text[1..], term, i) <==> MatchesAt(text, term, i + 1)
  {
    if i + |term| < |text| {
      forall k | 0 <= k < |term|
        ensures ToUpperAscii(text[1..][i + k]) == ToUpperAscii(term[k])
            <==> ToUpperAscii(text[i + 1 + k]) == ToUpperAscii(term[k])
      {
        assert text[1..][i + k] == text[i + 1 + k];
      }
    }
  }

  /** The ordinal ignore-case substring test: `term` occurs in `text` when
      both are compared after case folding. */
  function ContainsIgnoreCase(text: string, term: string): (r: bool)
    ensures r <==> OccursIgnoreCase(text, term)
    decreases |text|
  {
    if |text| < |term| then
      false
    else if StartsWithIgnoreCase(text, term) then
      true
    else if text == [] then
      false
    else
      ContainsStep(text, term);
      ContainsIgnoreCase(text[1..], term)
  }

  /** After the first position fails, an occurrence in `text` is exactly an
      occurrence in its tail. */
  lemma ContainsStep(text: string, term: string)
    requires text != [] && !MatchesAt(text, term, 0)
    ensures OccursIgnoreCase(text, term) <==> OccursIgnoreCase(text[1..], term)
  {
    if OccursIgnoreCase(text, term) {
      var i :| MatchesAt(text, term, i);
      assert i > 0;
      MatchesAtShift(text, term, i - 1);
    }
    if OccursIgnoreCase(text[1..], term) {
      var i :| MatchesAt(text[1..], term, i);
      MatchesAtShift(text, term, i);
    }
  }

  /** A term that appears literally inside a text is found in it. */
  lemma {:induction false} LiteralOccurrenceIsFound(before: string, term: string, after: string)
    ensures ContainsIgnoreCase(before + term + after, term)
  {
    var text := before + term + after;
    forall k | 0 <= k < |term|
      ensures ToUpperAscii(text[|before| + k]) == ToUpperAscii(term[k])
    {
      assert text[|before| + k] == term[k];
    }
    assert MatchesAt(text, term, |before|);
  }

  /** Every text contains itself. */
  lemma SelfFound(t: string)
    ensures ContainsIgnoreCase(t, t)
  {
    LiteralOccurrenceIsFound([], t, []);
    assert [] + t + [] == t;
  }

  /** The comparison ignores the case of both arguments: folding the text or
      the term beforehand does not change the answer. */
  lemma CaseOfArgumentsIsIgnored(text: string, term: string)
    ensures ContainsIgnoreCase(text, term) == ContainsIgnoreCase(UpperAscii(text), UpperAscii(term))
  {
    var ut, um := UpperAscii(text), UpperAscii(term);
    forall i | MatchesAt(text, term, i) ensures MatchesAt(ut, um, i) {
      forall k | 0 <= k < |um| ensures ToUpperAscii(ut[i + k]) == ToUpperAscii(um[k]) {
        ToUpperAsciiFacts(text[i + k]);
        ToUpperAsciiFacts(term[k]);
      }
    }
    forall i | MatchesAt(ut, um, i) ensures MatchesAt(text, term, i) {
      forall k | 0 <= k < |term| ensures ToUpperAscii(text[i + k]) == ToUpperAscii(term[k]) {
        ToUpperAsciiFacts(text[i + k]);
        ToUpperAsciiFacts(term[k]);
        assert ToUpperAscii(ut[i + k]) == ToUpperAscii(um[k]);
      }
    }
  }

  /** A term longer than the text is never found in it. */
  lemma LongerTermIsNotFound(text: string, term: string)
    requires |term| > |text|
    ensures !ContainsIgnoreCase(text, term)
  {
  }

  /** Ordinal order on strings: character codes compared left to right, and
      a proper prefix before the longer string. */
  predicate OrdinalLe(a: string, b: string)
  {
    || a == []
    || (b != [] && (a[0] < b[0] || (a[0] == b[0] && OrdinalLe(a[1..], b[1..]))))
  }

  lemma {:induction false} OrdinalLeReflexive(a: string)
    ensures OrdinalLe(a, a)
  {
    if a != [] {
      OrdinalLeReflexive(a[1..]);
    }
  }

  lemma {:induction false} OrdinalLeAntisymmetric(a: string, b: string)
    requires OrdinalLe(a, b) && OrdinalLe(b, a)
    ensures a == b
  {
    if a != [] && b != [] {
      OrdinalLeAntisymmetric(a[1..], b[1..]);
      assert a == [a[0]] + a[1..] && b == [b[0]] + b[1..];
    }
  }

  lemma {:induction false} OrdinalLeTransitive(a: string, b: string, c: string)
    requires OrdinalLe(a, b) && OrdinalLe(b, c)
    ensures OrdinalLe(a, c)
  {
    if a != [] && b != [] && c != [] && a[0] == b[0] == c[0] {
      OrdinalLeTransitive(a[1..], b[1..], c[1..]);
    }
  }

  lemma {:induction false} OrdinalLeTotal(a: string, b: string)
    ensures OrdinalLe(a, b) || OrdinalLe(b, a)
  {
    if a != [] && b != [] && a[0] == b[0] {
      OrdinalLeTotal(a[1..], b[1..]);
    }
  }

  /** A common prefix does not change how two strings compare. */
  lemma {:induction false} OrdinalLeCommonPrefix(prefix: string, a: string, b: string)
    requires OrdinalLe(a, b)
    ensures OrdinalLe(prefix + a, prefix + b)
  {
    if prefix != [] {
      OrdinalLeCommonPrefix(prefix[1..], a, b);
      assert (prefix + a)[0] == prefix[0] == (prefix + b)[0];
      assert (prefix + a)[1..] == prefix[1..] + a;
      assert (prefix + b)[1..] == prefix[1..] + b;
    } else {
      assert prefix + a == a && prefix + b == b;
    }
  }

  /** A term whose first character, folded, appears at no position where the
      term could start is not found. */
  lemma FirstCharNowhere(text: string, term: string)
    requires term != []
    requires forall i :: 0 <= i <= |text| - |term| ==> ToUpperAscii(text[i]) != ToUpperAscii(term[0])
    ensures !ContainsIgnoreCase(text, term)
  {
    forall i ensures !MatchesAt(text, term, i) {
      if 0 <= i && i + |term| <= |text| {
        assert ToUpperAscii(text[i + 0]) != ToUpperAscii(term[0]);
      }
    }
  }

  /** A term as long as the text that differs from it at some position,
      even after folding, is not found. */
  lemma SameLengthMismatch(text: string, term: string, k: int)
    requires |text| == |term| && 0 <= k < |term|
    requires ToUpperAscii(text[k]) != ToUpperAscii(term[k])
    ensures !ContainsIgnoreCase(text, term)
  {
    forall i ensures !MatchesAt(text, term, i) {
      if i == 0 {
        assert ToUpperAscii(text[i + k]) != ToUpperAscii(term[k]);
      }
    }
  }
}
