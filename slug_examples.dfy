/** A worked example contrasting `slugify` with the slug written inside
    `getContractFileName` on the input "! a". */
module SlugExamples {

  import opened Text
  import opened SlugifyString
  import opened CustomerReservationRow

  lemma FoldOfPunctuatedA(s: string)
    requires s == ['!', ' ', 'a']
    ensures Trim(Fold(s)) == s
  {
    FoldKeepsPlainAscii(s);
    TrimOfPunctuatedA(s);
  }

  lemma FoldKeepsPlainAscii(s: string)
    requires s == ['!', ' ', 'a']
    ensures Fold(s) == s
  {
    NfdBelowLatin1(s);
    StripWithoutMarks(s);
    LowerWithoutCapitals(s);
  }

  lemma TrimOfPunctuatedA(s: string)
    requires s == ['!', ' ', 'a']
    ensures Trim(s) == s
  {
    TrimStartKeeps(s);
    TrimEndKeeps(s);
  }

  lemma TrimStartKeeps(s: string)
    requires s != [] && !IsWhitespace(s[0])
    ensures TrimStart(s) == s
  {
  }

  lemma TrimEndKeeps(s: string)
    requires s != [] && !IsWhitespace(s[|s| - 1])
    ensures TrimEnd(s) == s
  {
  }

  lemma SlugifyOfPunctuatedA(s: string)
    requires s == ['!', ' ', 'a'] && Trim(Fold(s)) == s
    ensures Slugify(s) == ['a']
  {
    KeepOfPunctuatedA(s);
    CollapseOfSpacedA([' ', 'a']);
    TrimHyphensOfHyphenatedA(['-', 'a']);
  }

  lemma KeepOfPunctuatedA(s: string)
    requires s == ['!', ' ', 'a']
    ensures KeepWordSpaceHyphen(s) == [' ', 'a']
  {
    assert KeepWordSpaceHyphen(s[2..]) == s[2..];
    assert KeepWordSpaceHyphen(s[1..]) == s[1..];
  }

  lemma CollapseOfSpacedA(t: string)
    requires t == [' ', 'a']
    ensures CollapseSeparators(t) == ['-', 'a']
  {
    CollapseOfSpacedLetter(' ', 'a');
  }

  /** A separator followed by a letter collapses to `-` and the letter. */
  lemma CollapseOfSpacedLetter(w: char, c: char)
    requires IsSeparator(w) && !IsSeparator(c)
    ensures CollapseSeparators([w, c]) == ['-', c]
  {
    assert [w, c][1..] == [c];
    assert DropSeparators([c]) == [c];
    CollapseOfLetter(c);
  }

  lemma CollapseOfLetter(c: char)
    requires !IsSeparator(c)
    ensures CollapseSeparators([c]) == [c]
  {
    assert [c][1..] == [];
  }

  lemma TrimHyphensOfHyphenatedA(h: string)
    requires h == ['-', 'a']
    ensures DropTrailingHyphens(DropLeadingHyphens(h)) == ['a']
  {
    assert DropLeadingHyphens(h[1..]) == h[1..];
    assert DropTrailingHyphens(h[1..]) == h[1..];
  }

  /** Unlike `slugify`, the contract slug can start with `-`: the trim runs
      before other characters are dropped. */
  lemma ContractSlugCanStartWithHyphen(s: string)
    requires s == "! a"
    ensures ContractSlug(s) == "-a"
    ensures Slugify(s) == "a"
  {
    FoldOfPunctuatedA(s);
    ContractSlugOfPunctuatedA(s);
    SlugifyOfPunctuatedA(s);
  }

  lemma ContractSlugOfPunctuatedA(s: string)
    requires s == ['!', ' ', 'a'] && Trim(Fold(s)) == s
    ensures ContractSlug(s) == ['-', 'a']
  {
    KeepLowerOfPunctuatedA(s);
    HyphenateOfSpacedA(s[1..]);
  }

  lemma KeepLowerOfPunctuatedA(s: string)
    requires s == ['!', ' ', 'a']
    ensures KeepLowerAlnumSpace(s) == [' ', 'a']
  {
    assert KeepLowerAlnumSpace(s[2..]) == s[2..];
    assert KeepLowerAlnumSpace(s[1..]) == s[1..];
  }

  lemma HyphenateOfSpacedA(t: string)
    requires t == [' ', 'a']
    ensures HyphenateWhitespaceRuns(t) == ['-', 'a']
  {
    HyphenateOfSpacedLetter(' ', 'a');
  }

  /** White space followed by a letter becomes `-` and the letter. */
  lemma HyphenateOfSpacedLetter(w: char, c: char)
    requires IsWhitespace(w) && !IsWhitespace(c)
    ensures HyphenateWhitespaceRuns([w, c]) == ['-', c]
  {
    assert [w, c][1..] == [c];
    assert DropWhitespace([c]) == [c];
    HyphenateOfLetter(c);
  }

  lemma HyphenateOfLetter(c: char)
    requires !IsWhitespace(c)
    ensures HyphenateWhitespaceRuns([c]) == [c]
  {
    assert [c][1..] == [];
  }
}
