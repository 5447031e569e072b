/**
 * The text rules the task list relies on: trimming of Foundation's
 * `whitespacesAndNewlines` set, the case- and diacritic-insensitive folding
 * behind `CONTAINS[cd]`, and substring containment.
 */
module Text {

  /**
   * Membership in `CharacterSet.whitespacesAndNewlines`: the Unicode
   * separators (general categories Zs, Zl and Zp), U+0009 to U+000D and U+0085.
   */
  predicate IsWhitespace(c: char) {
    || ('\U{0009}' <= c <= '\U{000D}')
    || c == ' ' || c == '\U{0085}' || c == '\U{00A0}' || c == '\U{1680}'
    || ('\U{2000}' <= c <= '\U{200A}')
    || c == '\U{2028}' || c == '\U{2029}' || c == '\U{202F}' || c == '\U{205F}'
    || c == '\U{3000}'
  }

  /** `s` without its leading whitespace. */
  function TrimLeading(s: string): (r: string)
    ensures |r| <= |s|
    ensures r == [] || !IsWhitespace(r[0])
    ensures forall i :: 0 <= i < |s| - |r| ==> IsWhitespace(s[i])
  {
    if s != [] && IsWhitespace(s[0]) then TrimLeading(s[1..]) else s
  }

  /** What `TrimLeading` keeps is a suffix of its input. */
  lemma {:induction false} TrimLeadingIsSuffix(s: string)
    ensures TrimLeading(s) == s[|s| - |TrimLeading(s)|..]
  {
    if s != [] && IsWhitespace(s[0]) {
      TrimLeadingIsSuffix(s[1..]);
    }
  }

  /** `s` without its trailing whitespace. */
  function TrimTrailing(s: string): (r: string)
    ensures |r| <= |s|
    ensures r == [] || !IsWhitespace(r[|r| - 1])
    ensures forall i :: |r| <= i < |s| ==> IsWhitespace(s[i])
  {
    if s != [] && IsWhitespace(s[|s| - 1]) then TrimTrailing(s[..|s| - 1]) else s
  }

  /** What `TrimTrailing` keeps is a prefix of its input. */
  lemma {:induction false} TrimTrailingIsPrefix(s: string)
    ensures TrimTrailing(s) == s[..|TrimTrailing(s)|]
  {
    if s != [] && IsWhitespace(s[|s| - 1]) {
      TrimTrailingIsPrefix(s[..|s| - 1]);
    }
  }

  /**
   * `trimmingCharacters(in: .whitespacesAndNewlines)`: a piece of `s` that,
   * unless empty, starts and ends with a character that is not whitespace.
   */
  function Trim(s: string): (r: string)
    ensures |r| <= |s|
    ensures r != [] ==> !IsWhitespace(r[0]) && !IsWhitespace(r[|r| - 1])
    ensures exists a, b :: 0 <= a <= b <= |s| && r == s[a..b] &&
              (forall i :: 0 <= i < a ==> IsWhitespace(s[i])) &&
              (forall i :: b <= i < |s| ==> IsWhitespace(s[i]))
  {
    var r := TrimTrailing(TrimLeading(s));
    var a := |s| - |TrimLeading(s)|;
    TrimBounds(s, a);
    TrimTrailingIsPrefix(TrimLeading(s));
    r
  }

  /** Trimming keeps `s[a..b]`, where `a` is the length of the leading whitespace. */
  lemma TrimBounds(s: string, a: int)
    requires a == |s| - |TrimLeading(s)|
    ensures 0 <= a <= a + |TrimTrailing(TrimLeading(s))| <= |s|
    ensures TrimTrailing(TrimLeading(s)) == s[a..a + |TrimTrailing(TrimLeading(s))|]
    ensures forall i :: 0 <= i < a ==> IsWhitespace(s[i])
    ensures forall i :: a + |TrimTrailing(TrimLeading(s))| <= i < |s| ==> IsWhitespace(s[i])
  {
    var lead := TrimLeading(s);
    var r := TrimTrailing(lead);
    TrimLeadingIsSuffix(s);
    TrimTrailingIsPrefix(lead);
    forall i | a + |r| <= i < |s|
      ensures IsWhitespace(s[i])
    {
      assert s[i] == lead[i - a];
    }
  }

  /** Every character of `s` is whitespace, so that trimming leaves nothing. */
  predicate IsBlank(s: string) {
    s == [] || (IsWhitespace(s[0]) && IsBlank(s[1..]))
  }

  /** `IsBlank` is the test the application performs: trimming empties the text. */
  lemma {:induction false} BlankIffTrimmedEmpty(s: string)
    ensures IsBlank(s) <==> Trim(s) == []
  {
    AllWhitespaceIffBlank(s);
    var lead := TrimLeading(s);
    TrimLeadingIsSuffix(s);
    assert forall i :: |s| - |lead| <= i < |s| ==> s[i] == lead[i - (|s| - |lead|)];
  }

  /** `IsBlank` read by position. */
  lemma {:induction false} AllWhitespaceIffBlank(s: string)
    ensures IsBlank(s) <==> forall i :: 0 <= i < |s| ==> IsWhitespace(s[i])
  {
    if s != [] {
      AllWhitespaceIffBlank(s[1..]);
      assert forall i :: 1 <= i < |s| ==> s[i] == s[1..][i - 1];
    }
  }

  /** Trimming an already trimmed text changes nothing. */
  lemma {:induction false} TrimIdempotent(s: string)
    ensures Trim(Trim(s)) == Trim(s)
  {
    var r := Trim(s);
    if r != [] {
      assert TrimLeading(r) == r;
      assert TrimTrailing(r) == r;
    }
  }

  /** A non-empty trimmed text is never blank. */
  lemma TrimmedIsNotBlank(s: string)
    requires Trim(s) != []
    ensures !IsBlank(Trim(s))
  {
    TrimIdempotent(s);
    BlankIffTrimmedEmpty(Trim(s));
  }

  /** Lower-case form of a letter (ASCII, Latin-1, Cyrillic); any other character is kept. */
  function LowerChar(c: char): char {
    if 'A' <= c <= 'Z' then (c as int + 32) as char
    else if '\U{00C0}' <= c <= '\U{00DE}' && c != '\U{00D7}' then (c as int + 32) as char
    else if '\U{0410}' <= c <= '\U{042F}' then (c as int + 32) as char
    else if '\U{0400}' <= c <= '\U{040F}' then (c as int + 80) as char
    else c
  }

  /** Base letter of a lower-case letter that carries a diacritic (Latin-1 and Russian). */
  function BaseChar(c: char): char {
    if '\U{00E0}' <= c <= '\U{00E5}' then 'a'
    else if c == '\U{00E7}' then 'c'
    else if '\U{00E8}' <= c <= '\U{00EB}' then 'e'
    else if '\U{00EC}' <= c <= '\U{00EF}' then 'i'
    else if c == '\U{00F1}' then 'n'
    else if '\U{00F2}' <= c <= '\U{00F6}' then 'o'
    else if '\U{00F9}' <= c <= '\U{00FC}' then 'u'
    else if c == '\U{00FD}' || c == '\U{00FF}' then 'y'
    else if c == '\U{0451}' then '\U{0435}'
    else if c == '\U{0439}' then '\U{0438}'
    else c
  }

  /** Case and diacritic folding of one character. */
  function FoldChar(c: char): char {
    BaseChar(LowerChar(c))
  }

  /** Case and diacritic folding of a text, character by character. */
  function Fold(s: string): (r: string)
    ensures |r| == |s|
    ensures forall i :: 0 <= i < |s| ==> r[i] == FoldChar(s[i])
  {
    seq(|s|, i requires 0 <= i < |s| => FoldChar(s[i]))
  }

  /** A folded character folds to itself: folded forms are canonical. */
  lemma FoldCharStable(c: char)
    ensures FoldChar(FoldChar(c)) == FoldChar(c)
  {
  }

  /** Folding a folded text changes nothing. */
  lemma FoldStable(s: string)
    ensures Fold(Fold(s)) == Fold(s)
  {
    forall i | 0 <= i < |s|
      ensures Fold(Fold(s))[i] == Fold(s)[i]
    {
      FoldCharStable(s[i]);
    }
  }

  /** Upper-case form of a lower-case letter (ASCII, Latin-1, Cyrillic); any other character is kept. */
  function UpperChar(c: char): char {
    if 'a' <= c <= 'z' then (c as int - 32) as char
    else if '\U{00E0}' <= c <= '\U{00FE}' && c != '\U{00F7}' then (c as int - 32) as char
    else if '\U{0430}' <= c <= '\U{044F}' then (c as int - 32) as char
    else if '\U{0450}' <= c <= '\U{045F}' then (c as int - 80) as char
    else c
  }

  /** A letter and its upper-case form fold alike. */
  lemma FoldCharIgnoresCase(c: char)
    ensures FoldChar(UpperChar(c)) == FoldChar(c)
  {
  }

  /** `a` and `b` differ at most in the case of their letters, position by position. */
  predicate SameUpToCase(a: string, b: string) {
    |a| == |b| && forall i :: 0 <= i < |a| ==> a[i] == b[i] || a[i] == UpperChar(b[i]) || b[i] == UpperChar(a[i])
  }

  /** Texts that differ only in case fold to the same text. */
  lemma FoldIgnoresCase(a: string, b: string)
    requires SameUpToCase(a, b)
    ensures Fold(a) == Fold(b)
  {
    forall i | 0 <= i < |a|
      ensures Fold(a)[i] == Fold(b)[i]
    {
      FoldCharIgnoresCase(a[i]);
      FoldCharIgnoresCase(b[i]);
    }
  }

  /**
   * The folded match ignores case on both sides: changing the case of any
   * letters of the text or of the query never turns a match into a miss or
   * the reverse.
   */
  lemma FoldedContainsIgnoresCase(text: string, text': string, query: string, query': string)
    requires SameUpToCase(text, text') && SameUpToCase(query, query')
    ensures Contains(Fold(text), Fold(query)) <==> Contains(Fold(text'), Fold(query'))
  {
    FoldIgnoresCase(text, text');
    FoldIgnoresCase(query, query');
  }

  /** An accented letter of either case folds to its base letter. */
  lemma FoldStripsDiacritics(c: char)
    ensures ('\U{00C0}' <= c <= '\U{00C5}' || '\U{00E0}' <= c <= '\U{00E5}') ==> FoldChar(c) == 'a'
    ensures (c == '\U{00C7}' || c == '\U{00E7}') ==> FoldChar(c) == 'c'
    ensures ('\U{00C8}' <= c <= '\U{00CB}' || '\U{00E8}' <= c <= '\U{00EB}') ==> FoldChar(c) == 'e'
    ensures ('\U{00CC}' <= c <= '\U{00CF}' || '\U{00EC}' <= c <= '\U{00EF}') ==> FoldChar(c) == 'i'
    ensures (c == '\U{00D1}' || c == '\U{00F1}') ==> FoldChar(c) == 'n'
    ensures ('\U{00D2}' <= c <= '\U{00D6}' || '\U{00F2}' <= c <= '\U{00F6}') ==> FoldChar(c) == 'o'
    ensures ('\U{00D9}' <= c <= '\U{00DC}' || '\U{00F9}' <= c <= '\U{00FC}') ==> FoldChar(c) == 'u'
    ensures (c == '\U{00DD}' || c == '\U{00FD}' || c == '\U{00FF}') ==> FoldChar(c) == 'y'
    ensures (c == '\U{0401}' || c == '\U{0451}') ==> FoldChar(c) == '\U{0435}'
    ensures (c == '\U{0419}' || c == '\U{0439}') ==> FoldChar(c) == '\U{0438}'
  {
  }

  /** Two folded matches the list's search makes: an accent and case, and "ё" against "Е". */
  lemma FoldExamples()
    ensures Fold("Caf\U{00E9}") == Fold("CAFE")
    ensures Fold("\U{0451}\U{043B}\U{043A}\U{0430}") == Fold("\U{0415}\U{041B}\U{041A}\U{0410}")
  {
    FoldStripsDiacritics('\U{00E9}');
    FoldStripsDiacritics('\U{0451}');
    assert Fold("Caf\U{00E9}") == "cafe";
    assert Fold("CAFE") == "cafe";
  }

  /** `text` contains `query` as a contiguous piece. */
  predicate Contains(text: string, query: string) {
    query <= text || (text != [] && Contains(text[1..], query))
  }

  /** `query` occurs in `text` starting at offset `i`. */
  predicate OccursAt(text: string, query: string, i: nat) {
    i + |query| <= |text| && text[i..i + |query|] == query
  }

  /** `Contains` agrees with the definition by position: `query` occurs at some offset of `text`. */
  lemma {:induction false} ContainsIffOccurs(text: string, query: string)
    ensures Contains(text, query) <==> exists i: nat :: OccursAt(text, query, i)
  {
    if query <= text {
      assert OccursAt(text, query, 0);
    } else if text != [] {
      ContainsIffOccurs(text[1..], query);
      if Contains(text[1..], query) {
        var i: nat :| OccursAt(text[1..], query, i);
        assert OccursAt(text, query, i + 1);
      }
      if exists i: nat :: OccursAt(text, query, i) {
        var i: nat :| OccursAt(text, query, i);
        if i > 0 {
          assert OccursAt(text[1..], query, i - 1);
        }
      }
    } else {
      forall i: nat | OccursAt(text, query, i)
        ensures false
      {
      }
    }
  }

  /** A query longer than the text is never contained in it. */
  lemma {:induction false} LongerNeverContained(text: string, query: string)
    requires |query| > |text|
    ensures !Contains(text, query)
  {
    if text != [] {
      LongerNeverContained(text[1..], query);
    }
  }

  /** Every text contains itself. */
  lemma ContainsItself(text: string)
    ensures Contains(text, text)
  {
  }

  /**
   * Folding keeps matches: whatever the case-sensitive match finds, the
   * case- and diacritic-insensitive match finds too.
   */
  lemma FoldKeepsContains(text: string, query: string)
    requires Contains(text, query)
    ensures Contains(Fold(text), Fold(query))
  {
    ContainsIffOccurs(text, query);
    var i: nat :| OccursAt(text, query, i);
    assert OccursAt(Fold(text), Fold(query), i) by {
      assert Fold(text)[i..i + |query|] == Fold(query);
    }
    ContainsIffOccurs(Fold(text), Fold(query));
  }
}
