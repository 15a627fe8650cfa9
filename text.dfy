/** The JavaScript string operations the components rely on: `trim`,
    `toLowerCase`, `normalize('NFD')`, `includes`, `join`, and the decimal
    text of an integer (`String(n)`, template literals) with its parse. */
module Text {

  import opened Wrappers

  /** ECMAScript white space and line terminators: the characters `trim()`
      removes and the regular expression class `\s` matches. */
  predicate IsWhitespace(c: char) {
    c == '\t' || c == '\n' || c == '\U{000B}' || c == '\U{000C}' || c == '\r' || c == ' '
    || c == '\U{00A0}' || c == '\U{1680}' || ('\U{2000}' <= c <= '\U{200A}')
    || c == '\U{2028}' || c == '\U{2029}' || c == '\U{202F}' || c == '\U{205F}'
    || c == '\U{3000}' || c == '\U{FEFF}'
  }

  function TrimStart(s: string): (r: string)
    ensures r == [] || !IsWhitespace(r[0])
    ensures forall i :: 0 <= i < |s| - |r| ==> IsWhitespace(s[i])
    ensures |r| <= |s| && r == s[|s| - |r|..]
  {
    if s != [] && IsWhitespace(s[0]) then TrimStart(s[1..]) else s
  }

  function TrimEnd(s: string): (r: string)
    ensures r == [] || !IsWhitespace(r[|r| - 1])
    ensures forall i :: |r| <= i < |s| ==> IsWhitespace(s[i])
    ensures |r| <= |s| && r == s[..|r|]
  {
    if s != [] && IsWhitespace(s[|s| - 1]) then TrimEnd(s[..|s| - 1]) else s
  }

  /** `s.trim()`. */
  function Trim(s: string): string {
    TrimEnd(TrimStart(s))
  }

  /** `s.trim() === ''`, the test for a blank input field. */
  predicate IsBlank(s: string) {
    Trim(s) == []
  }

  /** A string is blank exactly when every character of it is white space. */
  lemma BlankIffAllWhitespace(s: string)
    ensures IsBlank(s) <==> forall i :: 0 <= i < |s| ==> IsWhitespace(s[i])
  {
    var t := TrimStart(s);
    var k := |s| - |t|;
    assert t == s[k..];
    if t != [] {
      assert t[0] == s[k];
      assert !IsWhitespace(s[k]);
    }
  }

  /** Trimming leaves no white space at either end. */
  lemma TrimEnds(s: string)
    ensures Trim(s) == [] || (!IsWhitespace(Trim(s)[0]) && !IsWhitespace(Trim(s)[|Trim(s)| - 1]))
  {
    var t := TrimStart(s);
    var r := TrimEnd(t);
    if r != [] {
      assert r[0] == t[0];
    }
  }

  /** Trimming twice is trimming once. */
  lemma TrimIdempotent(s: string)
    ensures Trim(Trim(s)) == Trim(s)
  {
    TrimEnds(s);
  }

  // ---------------------------------------------------------------------
  // Case mapping and canonical decomposition

  /** The precomposed letters of the Latin-1 Supplement (U+00C0 to U+00FF)
      that decompose under NFD, by base letter; `_` marks a letter that has
      no canonical decomposition. */
  const Latin1Bases: string := "AAAAAA_CEEEEIIII_NOOOOO__UUUUY__aaaaaa_ceeeeiiii_nooooo__uuuuy_y"

  /** The combining mark of each decomposition in `Latin1Bases`. */
  const Latin1Marks: string :=
    "\U{0300}\U{0301}\U{0302}\U{0303}\U{0308}\U{030A}_\U{0327}"
    + "\U{0300}\U{0301}\U{0302}\U{0308}\U{0300}\U{0301}\U{0302}\U{0308}"
    + "_\U{0303}\U{0300}\U{0301}\U{0302}\U{0303}\U{0308}_"
    + "_\U{0300}\U{0301}\U{0302}\U{0308}\U{0301}__"
    + "\U{0300}\U{0301}\U{0302}\U{0303}\U{0308}\U{030A}_\U{0327}"
    + "\U{0300}\U{0301}\U{0302}\U{0308}\U{0300}\U{0301}\U{0302}\U{0308}"
    + "_\U{0303}\U{0300}\U{0301}\U{0302}\U{0303}\U{0308}_"
    + "_\U{0300}\U{0301}\U{0302}\U{0308}\U{0301}_\U{0308}"

  /** Combining diacritical marks, the block U+0300 to U+036F. */
  predicate IsCombiningMark(c: char) {
    '\U{0300}' <= c <= '\U{036F}'
  }

  /** The canonical decomposition of one character, for the Latin-1
      letters, the caron letters of Finnish (Š, š, Ž, ž), dotted capital I and the
      Kelvin and Ångström signs; every other character is left as it is. */
  function Decompose(c: char): (d: seq<char>)
    ensures 1 <= |d| <= 2
    ensures |d| == 2 ==> IsCombiningMark(d[1]) && !IsCombiningMark(d[0])
  {
    if '\U{00C0}' <= c <= '\U{00FF}' && IsCombiningMark(Latin1Marks[c as int - 0xC0])
      && !IsCombiningMark(Latin1Bases[c as int - 0xC0]) then
      [Latin1Bases[c as int - 0xC0], Latin1Marks[c as int - 0xC0]]
    else if c == '\U{0160}' then ['S', '\U{030C}']
    else if c == '\U{0161}' then ['s', '\U{030C}']
    else if c == '\U{017D}' then ['Z', '\U{030C}']
    else if c == '\U{017E}' then ['z', '\U{030C}']
    else if c == '\U{0130}' then ['I', '\U{0307}']
    else if c == '\U{212A}' then ['K']
    else if c == '\U{212B}' then ['A', '\U{030A}']
    else [c]
  }

  /** Characters below the Latin-1 letters are their own decomposition. */
  lemma DecomposeBelowLatin1(c: char)
    requires c < '\U{00C0}'
    ensures Decompose(c) == [c]
  {
  }

  /** `s.normalize('NFD')` over the characters `Decompose` knows. */
  function Nfd(s: string): string {
    if s == [] then [] else Decompose(s[0]) + Nfd(s[1..])
  }

  /** Text below the Latin-1 letters is already decomposed. */
  lemma {:induction false} NfdBelowLatin1(s: string)
    requires forall i :: 0 <= i < |s| ==> s[i] < '\U{00C0}'
    ensures Nfd(s) == s
  {
    if s != [] {
      NfdBelowLatin1(s[1..]);
      DecomposeBelowLatin1(s[0]);
      assert s == [s[0]] + s[1..];
    }
  }

  /** Removes every combining diacritical mark (U+0300 to U+036F). */
  function StripCombiningMarks(s: string): (r: string)
    ensures forall i :: 0 <= i < |r| ==> !IsCombiningMark(r[i])
  {
    if s == [] then []
    else if IsCombiningMark(s[0]) then StripCombiningMarks(s[1..])
    else [s[0]] + StripCombiningMarks(s[1..])
  }

  lemma {:induction false} StripWithoutMarks(s: string)
    requires forall i :: 0 <= i < |s| ==> !IsCombiningMark(s[i])
    ensures StripCombiningMarks(s) == s
  {
    if s != [] {
      StripWithoutMarks(s[1..]);
      assert s == [s[0]] + s[1..];
    }
  }

  /** `c.toLowerCase()` for Basic Latin, the Latin-1 capitals, Š, Ž, the
      Kelvin and Ångström signs and dotted capital I (which becomes two
      characters); other characters are left as they are. */
  function LowerChar(c: char): (r: seq<char>)
    ensures 1 <= |r| <= 2
  {
    if 'A' <= c <= 'Z' then [(c as int + 32) as char]
    else if '\U{00C0}' <= c <= '\U{00DE}' && c != '\U{00D7}' then [(c as int + 32) as char]
    else if c == '\U{0160}' || c == '\U{017D}' then [(c as int + 1) as char]
    else if c == '\U{212A}' then ['k']
    else if c == '\U{212B}' then ['\U{00E5}']
    else if c == '\U{0130}' then ['i', '\U{0307}']
    else [c]
  }

  /** `s.toLowerCase()`. */
  function Lower(s: string): string {
    if s == [] then [] else LowerChar(s[0]) + Lower(s[1..])
  }

  /** Lower-casing a character's lower case changes nothing. */
  lemma LowerCharIdempotent(c: char)
    ensures Lower(LowerChar(c)) == LowerChar(c)
  {
    var r := LowerChar(c);
    if |r| == 1 {
      assert Lower(r) == LowerChar(r[0]) + Lower([]);
    } else {
      assert r == ['i', '\U{0307}'];
      assert Lower(r) == LowerChar('i') + Lower(['\U{0307}']);
    }
  }

  /** Lower-casing twice is lower-casing once. */
  lemma {:induction false} LowerIdempotent(s: string)
    ensures Lower(Lower(s)) == Lower(s)
  {
    if s != [] {
      LowerIdempotent(s[1..]);
      LowerCharIdempotent(s[0]);
      LowerAppend(LowerChar(s[0]), Lower(s[1..]));
    }
  }

  /** ASCII text without capitals is its own lower case. */
  lemma {:induction false} LowerWithoutCapitals(s: string)
    requires forall i :: 0 <= i < |s| ==> s[i] < '\U{0080}' && !('A' <= s[i] <= 'Z')
    ensures Lower(s) == s
  {
    if s != [] {
      LowerWithoutCapitals(s[1..]);
      assert LowerChar(s[0]) == [s[0]];
      assert s == [s[0]] + s[1..];
    }
  }

  lemma {:induction false} LowerAppend(a: string, b: string)
    ensures Lower(a + b) == Lower(a) + Lower(b)
  {
    if a != [] {
      assert (a + b)[1..] == a[1..] + b;
      LowerAppend(a[1..], b);
    } else {
      assert a + b == b;
    }
  }

  /** Lower-casing never produces an upper-case ASCII letter. */
  lemma {:induction false} LowerHasNoAsciiCapital(s: string)
    ensures forall i :: 0 <= i < |Lower(s)| ==> !('A' <= Lower(s)[i] <= 'Z')
  {
    if s != [] {
      LowerHasNoAsciiCapital(s[1..]);
      assert Lower(s) == LowerChar(s[0]) + Lower(s[1..]);
    }
  }

  // ---------------------------------------------------------------------
  // Searching and joining

  /** `s.includes(sub)`. */
  predicate Contains(s: string, sub: string)
    decreases |s|
  {
    |sub| <= |s| && (s[..|sub|] == sub || Contains(s[1..], sub))
  }

  /** `sub` occurs in `s` starting at position `i`. */
  predicate OccursAt(s: string, sub: string, i: int) {
    0 <= i <= |s| - |sub| && s[i..i + |sub|] == sub
  }

  /** `includes` finds exactly the positions where `sub` occurs. */
  lemma {:induction false} ContainsIffOccurs(s: string, sub: string)
    ensures Contains(s, sub) <==> exists i :: OccursAt(s, sub, i)
    decreases |s|
  {
    if |sub| <= |s| && s[..|sub|] != sub {
      ContainsIffOccurs(s[1..], sub);
      if Contains(s[1..], sub) {
        var i :| OccursAt(s[1..], sub, i);
        assert s[1..][i..i + |sub|] == s[i + 1..i + 1 + |sub|];
        assert OccursAt(s, sub, i + 1);
      }
      if exists i :: OccursAt(s, sub, i) {
        var i :| OccursAt(s, sub, i);
        assert i != 0;
        assert s[1..][i - 1..i - 1 + |sub|] == s[i..i + |sub|];
        assert OccursAt(s[1..], sub, i - 1);
      }
    } else if |sub| <= |s| {
      assert OccursAt(s, sub, 0);
    }
  }

  /** `parts.join(sep)`. */
  function Join(parts: seq<string>, sep: string): string {
    if parts == [] then []
    else if |parts| == 1 then parts[0]
    else parts[0] + sep + Join(parts[1..], sep)
  }

  /** Joining with a separator the parts do not contain can be undone: the
      first part is everything before the first separator. */
  lemma {:induction false} JoinFirstPart(parts: seq<string>, sep: char)
    requires |parts| >= 1
    requires forall i :: 0 <= i < |parts| ==> sep !in parts[i]
    ensures Join(parts, [sep])[..|parts[0]|] == parts[0]
    ensures |parts| == 1 <==> sep !in Join(parts, [sep])
  {
    if |parts| > 1 {
      assert Join(parts, [sep])[|parts[0]|] == sep;
    } else {
      assert Join(parts, [sep]) == parts[0];
    }
  }

  /** The position of the first `c` in `s`. */
  function IndexOf(s: string, c: char): (k: nat)
    requires c in s
    ensures k < |s| && s[k] == c && c !in s[..k]
  {
    if s[0] == c then 0
    else
      assert c in s[1..] by { assert s == [s[0]] + s[1..]; }
      var k := 1 + IndexOf(s[1..], c);
      assert s[..k] == [s[0]] + s[1..][..k - 1];
      k
  }

  /** The first `c` is the one before which there is none. */
  lemma IndexOfFirst(s: string, c: char, n: nat)
    requires n < |s| && s[n] == c && c !in s[..n]
    ensures IndexOf(s, c) == n
  {
    var k := IndexOf(s, c);
    assert forall j :: 0 <= j < k ==> s[..k][j] == s[j];
    assert forall j :: 0 <= j < n ==> s[..n][j] == s[j];
  }

  /** `s.split(sep)` for a one-character separator. */
  function Split(s: string, sep: char): (parts: seq<string>)
    ensures |parts| >= 1
    decreases |s|
  {
    if sep !in s then [s]
    else
      var k := IndexOf(s, sep);
      [s[..k]] + Split(s[k + 1..], sep)
  }

  /** Splitting a joined list at a separator none of its parts contains
      gives the list back. */
  lemma {:induction false} SplitJoin(parts: seq<string>, sep: char)
    requires |parts| >= 1
    requires forall i :: 0 <= i < |parts| ==> sep !in parts[i]
    ensures Split(Join(parts, [sep]), sep) == parts
  {
    if |parts| == 1 {
      assert Join(parts, [sep]) == parts[0];
    } else {
      SplitJoin(parts[1..], sep);
      SplitAtFirst(parts[0], Join(parts[1..], [sep]), sep);
      assert parts == [parts[0]] + parts[1..];
    }
  }

  /** A text that starts with a part free of the separator splits into
      that part and the split of what follows the separator. */
  lemma SplitAtFirst(first: string, rest: string, sep: char)
    requires sep !in first
    ensures Split(first + [sep] + rest, sep) == [first] + Split(rest, sep)
  {
    var s := first + [sep] + rest;
    var n := |first|;
    assert s[..n] == first;
    IndexOfFirst(s, sep, n);
    assert s[n + 1..] == rest;
  }

  /** `s.replaceAll(from, to)` for one-character patterns. */
  function ReplaceChar(s: string, from: char, to: char): (r: string)
    ensures |r| == |s|
    ensures forall i :: 0 <= i < |s| ==> r[i] == if s[i] == from then to else s[i]
  {
    if s == [] then [] else [if s[0] == from then to else s[0]] + ReplaceChar(s[1..], from, to)
  }

  // ---------------------------------------------------------------------
  // Decimal text of integers

  predicate IsDigit(c: char) {
    '0' <= c <= '9'
  }

  predicate AllDigits(s: string) {
    forall i :: 0 <= i < |s| ==> IsDigit(s[i])
  }

  function DigitChar(d: nat): (c: char)
    requires d < 10
    ensures IsDigit(c)
  {
    ('0' as int + d) as char
  }

  function DigitValue(c: char): (d: nat)
    requires IsDigit(c)
    ensures d < 10
  {
    c as int - '0' as int
  }

  /** The number a string of decimal digits spells. */
  function DigitsValue(s: string): nat
    requires AllDigits(s)
  {
    if s == [] then 0 else DigitsValue(s[..|s| - 1]) * 10 + DigitValue(s[|s| - 1])
  }

  /** `String(n)` for a natural number: its shortest decimal digits. */
  function NatToString(n: nat): (s: string)
    ensures AllDigits(s) && |s| >= 1
  {
    if n < 10 then [DigitChar(n)] else NatToString(n / 10) + [DigitChar(n % 10)]
  }

  /** `String(n)` for an integer. */
  function IntToString(n: int): string {
    if n < 0 then "-" + NatToString(-n) else NatToString(n)
  }

  /** The decimal text of a number spells that number and has no leading
      zero. */
  lemma {:induction false} NatToStringValue(n: nat)
    ensures DigitsValue(NatToString(n)) == n
    ensures NatToString(n)[0] != '0' || n == 0
  {
    if n >= 10 {
      NatToStringValue(n / 10);
      var s := NatToString(n);
      assert s[..|s| - 1] == NatToString(n / 10);
    }
  }

  /** A number in a template literal: `undefined` and `null` print their
      names. */
  function TemplateInt(v: Nullable<int>): (s: string)
    ensures v.Present? ==> s == IntToString(v.value)
    ensures v == Undefined ==> s == "undefined"
    ensures v == Null ==> s == "null"
  {
    match v
    case Undefined => "undefined"
    case Null => "null"
    case Present(n) => IntToString(n)
  }

  /** A number field used as a condition: present and not zero. */
  predicate IsTruthyInt(v: Nullable<int>) {
    v.Present? && v.value != 0
  }

  /** `Number(s)` for the decimal text of an integer: an optional minus sign
      followed by one or more digits; any other text is not a number. */
  function ParseInt(s: string): Option<int> {
    if |s| >= 2 && s[0] == '-' && AllDigits(s[1..]) then Some(-(DigitsValue(s[1..]) as int))
    else if |s| >= 1 && AllDigits(s) then Some(DigitsValue(s))
    else None
  }

  /** Reading back the decimal text of an integer gives that integer. */
  lemma IntToStringRoundTrip(n: int)
    ensures ParseInt(IntToString(n)) == Some(n)
  {
    var s := IntToString(n);
    if n < 0 {
      var d := NatToString(-n);
      NatToStringValue(-n);
      assert s == "-" + d;
      assert s[0] == '-' && s[1..] == d;
    } else {
      NatToStringValue(n);
      assert IsDigit(s[0]);
    }
  }

  /** Distinct integers have distinct decimal texts. */
  lemma IntToStringInjective(m: int, n: int)
    requires IntToString(m) == IntToString(n)
    ensures m == n
  {
    IntToStringRoundTrip(m);
    IntToStringRoundTrip(n);
  }
}
