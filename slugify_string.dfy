/** src/utils/slugifyString.ts: `slugify`, which turns free text into the
    lower-case, hyphen-separated form used in URLs and file names. */
module SlugifyString {

  import opened Text

  predicate IsAsciiUpper(c: char) {
    'A' <= c <= 'Z'
  }

  predicate IsAsciiAlnum(c: char) {
    'a' <= c <= 'z' || IsAsciiUpper(c) || '0' <= c <= '9'
  }

  /** The regular-expression class `\w` (no `u` flag): ASCII letters,
      digits and the underscore. */
  predicate IsWordChar(c: char) {
    IsAsciiAlnum(c) || c == '_'
  }

  /** The class `[\s_-]`. */
  predicate IsSeparator(c: char) {
    IsWhitespace(c) || c == '_' || c == '-'
  }

  /** The characters a slug is made of. */
  predicate IsSlugChar(c: char) {
    'a' <= c <= 'z' || '0' <= c <= '9' || c == '-'
  }

  /** A slug: only `a-z`, `0-9` and `-`, no `-` at either end, and never two
      `-` in a row. */
  predicate IsSlug(s: string) {
    AllSlugChars(s) && (s == [] || (s[0] != '-' && s[|s| - 1] != '-')) && NoDoubleHyphen(s)
  }

  predicate AllSlugChars(s: string) {
    forall i :: 0 <= i < |s| ==> IsSlugChar(s[i])
  }

  predicate NoDoubleHyphen(s: string) {
    forall i :: 0 <= i < |s| - 1 ==> !(s[i] == '-' && s[i + 1] == '-')
  }

  /** Canonical decomposition (NFD), removal of the combining diacritics
      U+0300 to U+036F, then `toLowerCase()`. */
  function Fold(s: string): (f: string)
    ensures forall i :: 0 <= i < |f| ==> !IsAsciiUpper(f[i])
  {
    LowerHasNoAsciiCapital(StripCombiningMarks(Nfd(s)));
    Lower(StripCombiningMarks(Nfd(s)))
  }

  /** `.replace(/[^\w\s-]/g, '')`. */
  function KeepWordSpaceHyphen(s: string): (r: string)
    ensures forall i :: 0 <= i < |r| ==> IsWordChar(r[i]) || IsWhitespace(r[i]) || r[i] == '-'
    ensures forall c :: c in r ==> c in s
  {
    if s == [] then []
    else if IsWordChar(s[0]) || IsWhitespace(s[0]) || s[0] == '-' then [s[0]] + KeepWordSpaceHyphen(s[1..])
    else KeepWordSpaceHyphen(s[1..])
  }

  /** Filtering a concatenation filters each part. */
  lemma {:induction false} KeepWordSpaceHyphenAppend(a: string, b: string)
    ensures KeepWordSpaceHyphen(a + b) == KeepWordSpaceHyphen(a) + KeepWordSpaceHyphen(b)
  {
    if a == [] {
      assert a + b == b;
    } else {
      var ab := a + b;
      assert ab[0] == a[0] && ab[1..] == a[1..] + b;
      KeepWordSpaceHyphenAppend(a[1..], b);
    }
  }

  /** A single character is kept exactly when it is a word character,
      white space or `-`. */
  lemma KeepWordSpaceHyphenOfChar(c: char)
    ensures KeepWordSpaceHyphen([c]) == if IsWordChar(c) || IsWhitespace(c) || c == '-' then [c] else []
  {
    assert [c][1..] == [];
  }

  /** The text after its leading run of separators. */
  function DropSeparators(s: string): (r: string)
    ensures |r| <= |s| && r == s[|s| - |r|..]
    ensures r == [] || !IsSeparator(r[0])
    ensures forall i :: 0 <= i < |s| - |r| ==> IsSeparator(s[i])
  {
    if s != [] && IsSeparator(s[0]) then
      var r := DropSeparators(s[1..]);
      DropSeparatorsStep(s, r);
      r
    else s
  }

  /** A separator in front of a dropped run lengthens the run by one. */
  lemma DropSeparatorsStep(s: string, r: string)
    requires s != [] && IsSeparator(s[0]) && |r| <= |s| - 1 && r == s[1..][|s| - 1 - |r|..]
    requires forall i :: 0 <= i < |s| - 1 - |r| ==> IsSeparator(s[1..][i])
    ensures r == s[|s| - |r|..]
    ensures forall i :: 0 <= i < |s| - |r| ==> IsSeparator(s[i])
  {
    forall i | 0 <= i < |s| - |r|
      ensures IsSeparator(s[i])
    {
      if i > 0 {
        assert s[i] == s[1..][i - 1];
      }
    }
  }

  /** `.replace(/[\s_-]+/g, '-')`: every maximal run of separators becomes
      one `-`. */
  function CollapseSeparators(s: string): (r: string)
    ensures r == [] <==> s == []
    ensures s != [] ==> r[0] == if IsSeparator(s[0]) then '-' else s[0]
    ensures forall i :: 0 <= i < |r| ==> r[i] == '-' || (r[i] in s && !IsSeparator(r[i]))
    ensures forall i :: 0 <= i < |r| - 1 && r[i] == '-' ==> !IsSeparator(r[i + 1])
    decreases |s|
  {
    if s == [] then []
    else if IsSeparator(s[0]) then
      var rest := DropSeparators(s[1..]);
      var tail := CollapseSeparators(rest);
      CollapseStep(s, rest, '-', tail);
      ['-'] + tail
    else
      var tail := CollapseSeparators(s[1..]);
      CollapseStep(s, s[1..], s[0], tail);
      [s[0]] + tail
  }

  /** A run of separators is dropped up to the first other character. */
  lemma {:induction false} DropSeparatorsOfRun(w: string, y: string)
    requires forall i :: 0 <= i < |w| ==> IsSeparator(w[i])
    requires y == [] || !IsSeparator(y[0])
    ensures DropSeparators(w + y) == y
  {
    if w == [] {
      assert w + y == y;
    } else {
      var wy := w + y;
      assert wy[0] == w[0] && wy[1..] == w[1..] + y;
      DropSeparatorsOfRun(w[1..], y);
    }
  }

  /** A maximal run of separators becomes a single `-`. */
  lemma CollapseOfRun(w: string, y: string)
    requires |w| >= 1 && forall i :: 0 <= i < |w| ==> IsSeparator(w[i])
    requires y == [] || !IsSeparator(y[0])
    ensures CollapseSeparators(w + y) == ['-'] + CollapseSeparators(y)
  {
    var wy := w + y;
    assert wy[0] == w[0] && wy[1..] == w[1..] + y;
    DropSeparatorsOfRun(w[1..], y);
  }

  /** Any other character is kept in its place. */
  lemma CollapseOfOther(x: char, y: string)
    requires !IsSeparator(x)
    ensures CollapseSeparators([x] + y) == [x] + CollapseSeparators(y)
  {
    assert ([x] + y)[0] == x && ([x] + y)[1..] == y;
  }

  /** One step of `CollapseSeparators`: putting the run's `-` (or the
      character itself) in front of the collapsed rest keeps its shape. */
  lemma CollapseStep(s: string, rest: string, head: char, tail: string)
    requires s != [] && |rest| < |s| && rest == s[|s| - |rest|..]
    requires head == if IsSeparator(s[0]) then '-' else s[0]
    requires IsSeparator(s[0]) ==> rest == [] || !IsSeparator(rest[0])
    requires tail == [] <==> rest == []
    requires rest != [] ==> tail[0] == if IsSeparator(rest[0]) then '-' else rest[0]
    requires forall i :: 0 <= i < |tail| ==> tail[i] == '-' || (tail[i] in rest && !IsSeparator(tail[i]))
    requires forall i :: 0 <= i < |tail| - 1 && tail[i] == '-' ==> !IsSeparator(tail[i + 1])
    ensures forall i :: 0 <= i < |[head] + tail| ==>
      ([head] + tail)[i] == '-' || (([head] + tail)[i] in s && !IsSeparator(([head] + tail)[i]))
    ensures forall i :: 0 <= i < |[head] + tail| - 1 && ([head] + tail)[i] == '-' ==>
      !IsSeparator(([head] + tail)[i + 1])
  {
    var r := [head] + tail;
    forall i | 0 <= i < |r|
      ensures r[i] == '-' || (r[i] in s && !IsSeparator(r[i]))
    {
      if i > 0 && r[i] != '-' {
        assert r[i] == tail[i - 1];
        assert tail[i - 1] in rest;
        var k :| 0 <= k < |rest| && rest[k] == tail[i - 1];
        assert s[|s| - |rest| + k] == r[i];
      }
    }
    forall i | 0 <= i < |r| - 1 && r[i] == '-'
      ensures !IsSeparator(r[i + 1])
    {
      assert r[i + 1] == tail[i];
      if i == 0 {
        assert IsSeparator(s[0]);
      }
    }
  }

  /** `.replace(/^-+/, '')`. */
  function DropLeadingHyphens(s: string): (r: string)
    ensures |r| <= |s| && r == s[|s| - |r|..]
    ensures r == [] || r[0] != '-'
    ensures forall i :: 0 <= i < |s| - |r| ==> s[i] == '-'
  {
    if s != [] && s[0] == '-' then
      var r := DropLeadingHyphens(s[1..]);
      assert forall i :: 1 <= i < |s| - |r| ==> s[i] == s[1..][i - 1];
      r
    else s
  }

  /** `.replace(/-+$/, '')`. */
  function DropTrailingHyphens(s: string): (r: string)
    ensures |r| <= |s| && r == s[..|r|]
    ensures r == [] || r[|r| - 1] != '-'
    ensures forall i :: |r| <= i < |s| ==> s[i] == '-'
  {
    if s != [] && s[|s| - 1] == '-' then DropTrailingHyphens(s[..|s| - 1]) else s
  }

  /** `slugify(text)`. The two hyphen-trimming alternatives of the last
      replacement act on the two ends separately. */
  function Slugify(text: string): (slug: string)
    ensures slug == [] || (slug[0] != '-' && slug[|slug| - 1] != '-')
  {
    DropTrailingHyphens(DropLeadingHyphens(CollapseSeparators(KeepWordSpaceHyphen(Trim(Fold(text))))))
  }

  // ---------------------------------------------------------------------
  // The slug shape

  /** What `KeepWordSpaceHyphen` leaves of text without capitals. */
  predicate IsSlugCharOrSeparator(c: char) {
    IsSlugChar(c) || IsSeparator(c)
  }

  predicate NoAsciiUpper(s: string) {
    forall i :: 0 <= i < |s| ==> !IsAsciiUpper(s[i])
  }

  lemma NoCapitalOfSlice(s: string, lo: nat, hi: nat)
    requires NoAsciiUpper(s) && lo <= hi <= |s|
    ensures NoAsciiUpper(s[lo..hi])
  {
    forall i | 0 <= i < hi - lo
      ensures !IsAsciiUpper(s[lo..hi][i])
    {
      assert s[lo..hi][i] == s[lo + i];
    }
  }

  lemma TrimKeepsNoCapital(f: string)
    requires NoAsciiUpper(f)
    ensures NoAsciiUpper(Trim(f))
  {
    var t0 := TrimStart(f);
    NoCapitalOfSlice(f, |f| - |t0|, |f|);
    assert t0 == f[|f| - |t0|..|f|];
    var t := TrimEnd(t0);
    NoCapitalOfSlice(t0, 0, |t|);
    assert t == t0[0..|t|];
  }

  predicate AllSlugCharsOrSeparators(s: string) {
    forall i :: 0 <= i < |s| ==> IsSlugCharOrSeparator(s[i])
  }

  lemma KeepGivesSlugCharsOrSeparators(t: string)
    requires NoAsciiUpper(t)
    ensures AllSlugCharsOrSeparators(KeepWordSpaceHyphen(t))
  {
    var k := KeepWordSpaceHyphen(t);
    forall i | 0 <= i < |k|
      ensures IsSlugCharOrSeparator(k[i])
    {
      assert k[i] in t;
    }
  }

  lemma CollapseGivesSlugChars(k: string)
    requires AllSlugCharsOrSeparators(k)
    ensures AllSlugChars(CollapseSeparators(k)) && NoDoubleHyphen(CollapseSeparators(k))
  {
    var c := CollapseSeparators(k);
    forall i | 0 <= i < |c|
      ensures IsSlugChar(c[i])
    {
      if c[i] != '-' {
        assert c[i] in k;
      }
    }
  }

  /** A slice of text made of slug characters with no doubled `-` is such
      text too. */
  lemma SlugShapeOfSlice(s: string, lo: nat, hi: nat)
    requires AllSlugChars(s) && NoDoubleHyphen(s) && lo <= hi <= |s|
    ensures AllSlugChars(s[lo..hi]) && NoDoubleHyphen(s[lo..hi])
  {
    var t := s[lo..hi];
    forall i | 0 <= i < |t|
      ensures IsSlugChar(t[i])
    {
      assert t[i] == s[lo + i];
    }
    forall i | 0 <= i < |t| - 1
      ensures !(t[i] == '-' && t[i + 1] == '-')
    {
      assert t[i] == s[lo + i] && t[i + 1] == s[lo + i + 1];
    }
  }

  lemma DropHyphensGivesSlug(c: string)
    requires AllSlugChars(c) && NoDoubleHyphen(c)
    ensures IsSlug(DropTrailingHyphens(DropLeadingHyphens(c)))
  {
    var d := DropLeadingHyphens(c);
    SlugShapeOfSlice(c, |c| - |d|, |c|);
    assert d == c[|c| - |d|..|c|];
    var e := DropTrailingHyphens(d);
    SlugShapeOfSlice(d, 0, |e|);
    assert e == d[0..|e|];
    if e != [] {
      assert e[0] == d[0] && d[0] != '-';
      assert e[|e| - 1] != '-';
    }
  }

  /** Whatever the input, `slugify` returns a slug. */
  lemma SlugifyIsSlug(text: string)
    ensures IsSlug(Slugify(text))
  {
    var f := Fold(text);
    assert NoAsciiUpper(f);
    TrimKeepsNoCapital(f);
    var k := KeepWordSpaceHyphen(Trim(f));
    KeepGivesSlugCharsOrSeparators(Trim(f));
    var c := CollapseSeparators(k);
    CollapseGivesSlugChars(k);
    DropHyphensGivesSlug(c);
    assert Slugify(text) == DropTrailingHyphens(DropLeadingHyphens(c));
  }

  // ---------------------------------------------------------------------
  // Idempotence

  lemma {:induction false} KeepOfSlug(s: string)
    requires AllSlugChars(s)
    ensures KeepWordSpaceHyphen(s) == s
  {
    if s != [] {
      KeepOfSlug(s[1..]);
      assert s == [s[0]] + s[1..];
    }
  }

  /** Of the slug characters only `-` is a separator. */
  lemma SlugCharSeparator(c: char)
    requires IsSlugChar(c)
    ensures IsSeparator(c) <==> c == '-'
  {
  }

  /** The tail of text made of slug characters with no doubled `-` is
      such text too. */
  lemma SlugShapeOfTail(s: string)
    requires s != [] && AllSlugChars(s) && NoDoubleHyphen(s)
    ensures AllSlugChars(s[1..]) && NoDoubleHyphen(s[1..])
  {
    var tail := s[1..];
    forall i | 0 <= i < |tail|
      ensures IsSlugChar(tail[i])
    {
      assert tail[i] == s[i + 1];
    }
    forall i | 0 <= i < |tail| - 1
      ensures !(tail[i] == '-' && tail[i + 1] == '-')
    {
      assert tail[i] == s[i + 1] && tail[i + 1] == s[i + 2];
    }
  }

  lemma {:induction false} CollapseOfSlug(s: string)
    requires AllSlugChars(s)
    requires NoDoubleHyphen(s)
    ensures CollapseSeparators(s) == s
  {
    if s != [] {
      var tail := s[1..];
      SlugShapeOfTail(s);
      CollapseOfSlug(tail);
      SlugCharSeparator(s[0]);
      if s[0] == '-' {
        if tail != [] {
          assert tail[0] == s[1];
          assert s[1] != '-';
          SlugCharSeparator(s[1]);
        }
        assert DropSeparators(tail) == tail;
        assert CollapseSeparators(s) == ['-'] + CollapseSeparators(tail);
      } else {
        assert CollapseSeparators(s) == [s[0]] + CollapseSeparators(tail);
      }
      assert s == [s[0]] + tail;
    }
  }

  lemma FoldOfSlugChars(s: string)
    requires AllSlugChars(s)
    ensures Fold(s) == s
  {
    NfdBelowLatin1(s);
    StripWithoutMarks(s);
    LowerWithoutCapitals(s);
  }

  lemma TrimOfSlug(s: string)
    requires IsSlug(s)
    ensures Trim(s) == s
  {
    if s != [] {
      SlugCharSeparator(s[0]);
      SlugCharSeparator(s[|s| - 1]);
      assert TrimStart(s) == s;
    }
  }

  lemma DropHyphensOfSlug(s: string)
    requires IsSlug(s)
    ensures DropTrailingHyphens(DropLeadingHyphens(s)) == s
  {
    assert DropLeadingHyphens(s) == s;
  }

  /** Text that every stage of `slugify` leaves alone is its own slug. */
  lemma SlugifyOfStageFixedPoint(s: string)
    requires Fold(s) == s && Trim(s) == s && KeepWordSpaceHyphen(s) == s && CollapseSeparators(s) == s
    requires DropTrailingHyphens(DropLeadingHyphens(s)) == s
    ensures Slugify(s) == s
  {
  }

  /** A slug is left as it is. */
  lemma SlugIsFixedPoint(s: string)
    requires IsSlug(s)
    ensures Slugify(s) == s
  {
    FoldOfSlugChars(s);
    TrimOfSlug(s);
    KeepOfSlug(s);
    CollapseOfSlug(s);
    DropHyphensOfSlug(s);
    SlugifyOfStageFixedPoint(s);
  }

  /** Slugifying a slug changes nothing: `slugify(slugify(s)) == slugify(s)`. */
  lemma SlugifyIdempotent(text: string)
    ensures Slugify(Slugify(text)) == Slugify(text)
  {
    SlugifyIsSlug(text);
    SlugIsFixedPoint(Slugify(text));
  }

  // ---------------------------------------------------------------------
  // Letters and digits survive, everything else is a separator or dropped

  /** The ASCII letters and digits of `s`, in order. */
  function Alnums(s: string): (r: string)
    ensures forall i :: 0 <= i < |r| ==> IsAsciiAlnum(r[i])
  {
    if s == [] then []
    else if IsAsciiAlnum(s[0]) then [s[0]] + Alnums(s[1..])
    else Alnums(s[1..])
  }

  lemma {:induction false} AlnumsAppend(a: string, b: string)
    ensures Alnums(a + b) == Alnums(a) + Alnums(b)
  {
    if a == [] {
      assert a + b == b;
    } else {
      assert (a + b)[1..] == a[1..] + b;
      AlnumsAppend(a[1..], b);
    }
  }

  lemma {:induction false} AlnumsEmptyIff(s: string)
    ensures Alnums(s) == [] <==> forall i :: 0 <= i < |s| ==> !IsAsciiAlnum(s[i])
  {
    if s != [] {
      AlnumsEmptyIff(s[1..]);
      if !IsAsciiAlnum(s[0]) {
        forall i | 0 <= i < |s| && forall j :: 0 <= j < |s[1..]| ==> !IsAsciiAlnum(s[1..][j])
          ensures !IsAsciiAlnum(s[i])
        {
          if i > 0 {
            assert s[i] == s[1..][i - 1];
          }
        }
      }
    }
  }

  lemma {:induction false} AlnumsOfNone(s: string)
    requires forall i :: 0 <= i < |s| ==> !IsAsciiAlnum(s[i])
    ensures Alnums(s) == []
  {
    if s != [] {
      assert forall i :: 0 <= i < |s[1..]| ==> s[1..][i] == s[i + 1];
      AlnumsOfNone(s[1..]);
    }
  }

  lemma WhitespaceIsNotAlnum(c: char)
    requires IsWhitespace(c)
    ensures !IsAsciiAlnum(c)
  {
  }

  lemma {:induction false} AlnumsOfTrimStart(s: string)
    ensures Alnums(TrimStart(s)) == Alnums(s)
  {
    if s != [] && IsWhitespace(s[0]) {
      AlnumsOfTrimStart(s[1..]);
      WhitespaceIsNotAlnum(s[0]);
    }
  }

  lemma {:induction false} AlnumsOfTrimEnd(s: string)
    ensures Alnums(TrimEnd(s)) == Alnums(s)
  {
    if s != [] && IsWhitespace(s[|s| - 1]) {
      var init, last := s[..|s| - 1], s[|s| - 1];
      AlnumsOfTrimEnd(init);
      assert s == init + [last];
      AlnumsAppend(init, [last]);
      WhitespaceIsNotAlnum(last);
      assert Alnums([last]) == [];
    }
  }

  lemma AlnumsOfTrim(s: string)
    ensures Alnums(Trim(s)) == Alnums(s)
  {
    AlnumsOfTrimStart(s);
    AlnumsOfTrimEnd(TrimStart(s));
  }

  lemma {:induction false} AlnumsOfKeep(s: string)
    ensures Alnums(KeepWordSpaceHyphen(s)) == Alnums(s)
  {
    if s != [] {
      AlnumsOfKeep(s[1..]);
    }
  }

  lemma SeparatorIsNotAlnum(c: char)
    requires IsSeparator(c)
    ensures !IsAsciiAlnum(c)
  {
    if IsWhitespace(c) {
      WhitespaceIsNotAlnum(c);
    }
  }

  lemma {:induction false} AlnumsOfDropSeparators(s: string)
    ensures Alnums(DropSeparators(s)) == Alnums(s)
  {
    if s != [] && IsSeparator(s[0]) {
      AlnumsOfDropSeparators(s[1..]);
      SeparatorIsNotAlnum(s[0]);
    }
  }

  lemma {:induction false} AlnumsOfCollapse(s: string)
    ensures Alnums(CollapseSeparators(s)) == Alnums(s)
    decreases |s|
  {
    if s != [] {
      if IsSeparator(s[0]) {
        var rest := DropSeparators(s[1..]);
        AlnumsOfDropSeparators(s[1..]);
        AlnumsOfCollapse(rest);
        SeparatorIsNotAlnum(s[0]);
        var tail := CollapseSeparators(rest);
        assert CollapseSeparators(s) == ['-'] + tail;
        assert (['-'] + tail)[1..] == tail;
      } else {
        var tail := CollapseSeparators(s[1..]);
        AlnumsOfCollapse(s[1..]);
        assert CollapseSeparators(s) == [s[0]] + tail;
        assert ([s[0]] + tail)[1..] == tail;
      }
    }
  }

  lemma AlnumsOfDropLeadingHyphens(s: string)
    ensures Alnums(DropLeadingHyphens(s)) == Alnums(s)
  {
    var d := DropLeadingHyphens(s);
    var head := s[..|s| - |d|];
    assert s == head + d;
    assert forall i :: 0 <= i < |head| ==> head[i] == s[i];
    AlnumsOfNone(head);
    AlnumsAppend(head, d);
  }

  lemma AlnumsOfDropTrailingHyphens(s: string)
    ensures Alnums(DropTrailingHyphens(s)) == Alnums(s)
  {
    var e := DropTrailingHyphens(s);
    var tail := s[|e|..];
    assert s == e + tail;
    assert forall i :: 0 <= i < |tail| ==> tail[i] == s[|e| + i];
    AlnumsOfNone(tail);
    AlnumsAppend(e, tail);
  }

  /** The slug keeps exactly the letters and digits of the folded text, in
      order: only separators and other characters are lost. */
  lemma SlugifyKeepsLettersAndDigits(text: string)
    ensures Alnums(Slugify(text)) == Alnums(Fold(text))
  {
    var t := Trim(Fold(text));
    AlnumsOfTrim(Fold(text));
    AlnumsOfKeep(t);
    AlnumsOfCollapse(KeepWordSpaceHyphen(t));
    AlnumsOfDropLeadingHyphens(CollapseSeparators(KeepWordSpaceHyphen(t)));
    AlnumsOfDropTrailingHyphens(DropLeadingHyphens(CollapseSeparators(KeepWordSpaceHyphen(t))));
  }

  /** The slug is empty exactly when the folded text has no letter or
      digit. */
  lemma SlugifyEmptyIffNoLetterOrDigit(text: string)
    ensures Slugify(text) == [] <==> forall i :: 0 <= i < |Fold(text)| ==> !IsAsciiAlnum(Fold(text)[i])
  {
    var slug := Slugify(text);
    SlugifyKeepsLettersAndDigits(text);
    SlugifyIsSlug(text);
    AlnumsEmptyIff(Fold(text));
    if slug != [] {
      assert IsAsciiAlnum(slug[0]);
      assert Alnums(slug) != [];
    }
  }

  /** Two texts that fold to the same text have the same slug. */
  lemma SameFoldSameSlug(a: string, b: string)
    requires Fold(a) == Fold(b)
    ensures Slugify(a) == Slugify(b)
  {
  }

  /** Folding an accented letter leaves its lower-cased base letter. */
  lemma FoldOfAccented(c: char)
    requires |Decompose(c)| == 2
    ensures Fold([c]) == LowerChar(Decompose(c)[0])
  {
    var b, m := Decompose(c)[0], Decompose(c)[1];
    assert Nfd([c]) == [b, m] by {
      assert Nfd([c]) == Decompose(c) + Nfd([]);
    }
    assert StripCombiningMarks([b, m]) == [b] by {
      assert [b, m][1..] == [m] && [m][1..] == [];
      assert StripCombiningMarks([m]) == [];
    }
    assert Lower([b]) == LowerChar(b) + Lower([]);
  }

  /** The lower case of an ASCII letter or digit is a one-character slug. */
  lemma LowerOfAsciiAlnum(b: char)
    requires IsAsciiAlnum(b)
    ensures |LowerChar(b)| == 1 && IsAsciiAlnum(LowerChar(b)[0]) && IsSlug(LowerChar(b))
  {
  }

  /** An accented letter keeps its lower-cased base letter. */
  lemma AccentedLetterKeepsBase(c: char)
    requires |Decompose(c)| == 2 && IsAsciiAlnum(Decompose(c)[0])
    ensures Slugify([c]) == LowerChar(Decompose(c)[0])
    ensures |Slugify([c])| == 1 && IsAsciiAlnum(Slugify([c])[0])
  {
    var l := LowerChar(Decompose(c)[0]);
    FoldOfAccented(c);
    LowerOfAsciiAlnum(Decompose(c)[0]);
    FoldOfSlugChars(l);
    SameFoldSameSlug([c], l);
    SlugIsFixedPoint(l);
  }
}
