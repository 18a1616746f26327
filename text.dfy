/**
 * Locality-name normalisation: the fixed diacritic table behind `remove_tildes`
 * and the `strip`/`upper` steps the dashboard applies before it.
 *
 * The incident file is decoded as Latin-1, so every character of its
 * localities lies in U+0000..U+00FF; `IsSpace` and `UpperChar` follow Python
 * exactly on that range and leave every other character alone. Polygon names
 * from the shapefile are not limited to that range; the map script only
 * removes accents from them and matches them case-insensitively against ASCII.
 */
module Text {

  // ---------------------------------------------------------------------------
  // remove_tildes
  // ---------------------------------------------------------------------------

  /** The twelve accented letters `remove_tildes` rewrites, each to its bare letter. */
  const TildeTable: map<char, char> :=
    map['Á' := 'A', 'É' := 'E', 'Í' := 'I', 'Ó' := 'O', 'Ú' := 'U', 'Ñ' := 'N',
        'á' := 'a', 'é' := 'e', 'í' := 'i', 'ó' := 'o', 'ú' := 'u', 'ñ' := 'n']

  predicate IsTilde(c: char) {
    c in TildeTable
  }

  /** The per-character view of `remove_tildes`: the table entry, or the character itself. */
  function Untilde(c: char): (d: char)
    ensures !IsTilde(d)
    ensures !IsTilde(c) ==> d == c
    ensures IsSpace(d) <==> IsSpace(c)
  {
    if c in TildeTable then TildeTable[c] else c
  }

  /** `str.replace(from, to)` for one character by another: every occurrence is rewritten. */
  function ReplaceChar(s: string, from: char, to: char): (r: string)
    ensures |r| == |s|
    ensures forall i :: 0 <= i < |s| ==> r[i] == if s[i] == from then to else s[i]
  {
    if s == [] then []
    else [if s[0] == from then to else s[0]] + ReplaceChar(s[1..], from, to)
  }

  /** The twelve `.replace` calls of `remove_tildes`, in the order the source chains them. */
  const TildeReplacements: seq<(char, char)> :=
    [('Á', 'A'), ('É', 'E'), ('Í', 'I'), ('Ó', 'O'), ('Ú', 'U'), ('Ñ', 'N'),
     ('á', 'a'), ('é', 'e'), ('í', 'i'), ('ó', 'o'), ('ú', 'u'), ('ñ', 'n')]

  /** What a chain of replacements does to one character. */
  function ReplaceCharChain(c: char, steps: seq<(char, char)>): char
    decreases steps
  {
    if steps == [] then c
    else ReplaceCharChain(if c == steps[0].0 then steps[0].1 else c, steps[1..])
  }

  /** `s.replace(a1, b1).replace(a2, b2)...`: the replacements applied one after another. */
  function ReplaceChain(s: string, steps: seq<(char, char)>): (r: string)
    ensures |r| == |s|
    ensures forall i :: 0 <= i < |s| ==> r[i] == ReplaceCharChain(s[i], steps)
    decreases steps
  {
    if steps == [] then s
    else ReplaceChain(ReplaceChar(s, steps[0].0, steps[0].1), steps[1..])
  }

  /** No step produces a character that a later step replaces. */
  predicate NoFeed(steps: seq<(char, char)>) {
    forall i, j :: 0 <= i < j < |steps| ==> steps[i].1 != steps[j].0
  }

  /** The replacement of the first step that targets `c`, or `c` when none does. */
  function FirstReplacement(c: char, steps: seq<(char, char)>): char
    decreases steps
  {
    if steps == [] then c
    else if steps[0].0 == c then steps[0].1
    else FirstReplacement(c, steps[1..])
  }

  lemma {:induction false} ChainSkips(c: char, steps: seq<(char, char)>)
    requires forall k :: 0 <= k < |steps| ==> steps[k].0 != c
    ensures ReplaceCharChain(c, steps) == c
    decreases steps
  {
    if steps != [] {
      ChainSkips(c, steps[1..]);
    }
  }

  /**
   * A chain of single-character replacements in which no step feeds a later
   * one rewrites every character at most once: it is a per-character lookup.
   */
  lemma {:induction false} ChainIsLookup(c: char, steps: seq<(char, char)>)
    requires NoFeed(steps)
    ensures ReplaceCharChain(c, steps) == FirstReplacement(c, steps)
    decreases steps
  {
    if steps != [] {
      if c == steps[0].0 {
        ChainSkips(steps[0].1, steps[1..]);
      } else {
        ChainIsLookup(c, steps[1..]);
      }
    }
  }

  /** The chain of `remove_tildes` has that property, and its lookup is the table. */
  lemma TildeChainIsTable(c: char)
    ensures ReplaceCharChain(c, TildeReplacements) == Untilde(c)
  {
    TildeReplacementsNoFeed();
    ChainIsLookup(c, TildeReplacements);
    TildeLookupIsTable(c);
  }

  lemma TildeReplacementsNoFeed()
    ensures NoFeed(TildeReplacements)
  {
  }

  lemma TildeLookupIsTable(c: char)
    ensures FirstReplacement(c, TildeReplacements) == Untilde(c)
  {
    if c in TildeTable {
      var k := TildeIndex(c);
      TildeSourcesDistinct();
      FirstReplacementOfDistinct(TildeReplacements, k);
    } else {
      assert forall k :: 0 <= k < |TildeReplacements| ==> TildeReplacements[k].0 != c;
      FirstReplacementMissing(c, TildeReplacements);
    }
  }

  /** Where an accented letter sits in the chain, and that its step agrees with the table. */
  function TildeIndex(c: char): (k: nat)
    requires c in TildeTable
    ensures k < |TildeReplacements| && TildeReplacements[k] == (c, TildeTable[c])
  {
    if c == 'Á' then 0 else if c == 'É' then 1 else if c == 'Í' then 2
    else if c == 'Ó' then 3 else if c == 'Ú' then 4 else if c == 'Ñ' then 5
    else if c == 'á' then 6 else if c == 'é' then 7 else if c == 'í' then 8
    else if c == 'ó' then 9 else if c == 'ú' then 10 else 11
  }

  /** No character is the target of two steps of the chain. */
  predicate SourcesDistinct(steps: seq<(char, char)>) {
    forall i, j :: 0 <= i < j < |steps| ==> steps[i].0 != steps[j].0
  }

  lemma TildeSourcesDistinct()
    ensures SourcesDistinct(TildeReplacements)
  {
  }

  /** When no two steps target the same character, a step's character gets that step's replacement. */
  lemma {:induction false} FirstReplacementOfDistinct(steps: seq<(char, char)>, k: nat)
    requires SourcesDistinct(steps) && k < |steps|
    ensures FirstReplacement(steps[k].0, steps) == steps[k].1
    decreases k
  {
    if k > 0 {
      assert steps[0].0 != steps[k].0;
      assert steps[1..][k - 1] == steps[k];
      FirstReplacementOfDistinct(steps[1..], k - 1);
    }
  }

  lemma {:induction false} FirstReplacementMissing(c: char, steps: seq<(char, char)>)
    requires forall k :: 0 <= k < |steps| ==> steps[k].0 != c
    ensures FirstReplacement(c, steps) == c
    decreases steps
  {
    if steps != [] {
      FirstReplacementMissing(c, steps[1..]);
    }
  }

  /**
   * `remove_tildes`: the twelve chained replacements. Because no replacement
   * produces a character a later one targets, the chain is the single
   * per-character map `Untilde`.
   */
  function RemoveTildes(s: string): (r: string)
    ensures |r| == |s|
    ensures forall i :: 0 <= i < |s| ==> r[i] == Untilde(s[i])
  {
    var r := ReplaceChain(s, TildeReplacements);
    forall i | 0 <= i < |s| ensures r[i] == Untilde(s[i]) {
      TildeChainIsTable(s[i]);
    }
    r
  }

  /** No accented letter of the table survives `remove_tildes`. */
  lemma RemoveTildesLeavesNoTilde(s: string)
    ensures forall i :: 0 <= i < |RemoveTildes(s)| ==> !IsTilde(RemoveTildes(s)[i])
  {
  }

  /** Removing tildes twice is removing them once. */
  lemma RemoveTildesIdempotent(s: string)
    ensures RemoveTildes(RemoveTildes(s)) == RemoveTildes(s)
  {
  }

  /** `remove_tildes` changes only the accented letters: a string without any is its own image. */
  lemma RemoveTildesFixesPlainText(s: string)
    requires forall i :: 0 <= i < |s| ==> !IsTilde(s[i])
    ensures RemoveTildes(s) == s
  {
  }

  /** Plain ASCII text has no accented letter, so `remove_tildes` returns it unchanged. */
  lemma RemoveTildesFixesAscii(s: string)
    requires forall i :: 0 <= i < |s| ==> s[i] < '\U{80}'
    ensures RemoveTildes(s) == s
  {
    forall i | 0 <= i < |s| ensures !IsTilde(s[i]) {
      AsciiIsNotTilde(s[i]);
    }
    RemoveTildesFixesPlainText(s);
  }

  lemma AsciiIsNotTilde(c: char)
    requires c < '\U{80}'
    ensures !IsTilde(c)
  {
  }

  // ---------------------------------------------------------------------------
  // str.strip
  // ---------------------------------------------------------------------------

  /** Python's whitespace among the Latin-1 characters. */
  predicate IsSpace(c: char) {
    c == ' ' || ('\t' <= c <= '\r') || ('\U{1C}' <= c <= '\U{1F}') || c == '\U{85}' || c == '\U{A0}'
  }

  /** Neither end of `s` is whitespace. */
  predicate Trimmed(s: string) {
    s == [] || (!IsSpace(s[0]) && !IsSpace(s[|s| - 1]))
  }

  /** `lstrip()`: the longest suffix of `s` that does not start with whitespace. */
  function StripLeading(s: string): (r: string)
    ensures |r| <= |s| && r == s[|s| - |r|..]
    ensures forall i :: 0 <= i < |s| - |r| ==> IsSpace(s[i])
    ensures r != [] ==> !IsSpace(r[0])
  {
    if s == [] || !IsSpace(s[0]) then s else StripLeading(s[1..])
  }

  /** `rstrip()`: the longest prefix of `s` that does not end with whitespace. */
  function StripTrailing(s: string): (r: string)
    ensures |r| <= |s| && r == s[..|r|]
    ensures forall i :: |r| <= i < |s| ==> IsSpace(s[i])
    ensures r != [] ==> !IsSpace(r[|r| - 1])
  {
    if s == [] || !IsSpace(s[|s| - 1]) then s else StripTrailing(s[..|s| - 1])
  }

  /** `strip()`: `s` without its leading and trailing whitespace. */
  function Strip(s: string): (r: string)
    ensures Trimmed(r)
    ensures exists i, j :: 0 <= i <= j <= |s| && r == s[i..j]
              && (forall k :: 0 <= k < i ==> IsSpace(s[k]))
              && (forall k :: j <= k < |s| ==> IsSpace(s[k]))
  {
    var l := StripLeading(s);
    var r := StripTrailing(l);
    assert r == s[|s| - |l|..|s| - |l| + |r|];
    r
  }

  /** A string padded by one whitespace character at each end strips to its middle. */
  lemma StripOnePad(s: string)
    requires |s| >= 3 && IsSpace(s[0]) && IsSpace(s[|s| - 1])
    requires !IsSpace(s[1]) && !IsSpace(s[|s| - 2])
    ensures Strip(s) == s[1..|s| - 1]
  {
    var t := s[1..];
    assert t[0] == s[1];
    assert StripLeading(t) == t;
    assert StripLeading(s) == t;
    var m := t[..|t| - 1];
    assert m == s[1..|s| - 1];
    assert m[|m| - 1] == s[|s| - 2];
    assert StripTrailing(m) == m;
    assert t[|t| - 1] == s[|s| - 1];
    assert StripTrailing(t) == m;
  }

  /** Stripping a string whose ends are not whitespace changes nothing. */
  lemma StripTrimmed(s: string)
    requires Trimmed(s)
    ensures Strip(s) == s
  {
  }

  // ---------------------------------------------------------------------------
  // str.upper
  // ---------------------------------------------------------------------------

  /** Python's `upper()` of one Latin-1 character; `ß` becomes two letters. */
  function UpperChar(c: char): (r: string)
    ensures |r| >= 1
    ensures IsSpace(r[0]) <==> IsSpace(c)
    ensures IsSpace(r[|r| - 1]) <==> IsSpace(c)
  {
    if 'a' <= c <= 'z' then [(c as int - 32) as char]
    else if 'à' <= c <= 'þ' && c != '÷' then [(c as int - 32) as char]
    else if c == 'ß' then "SS"
    else if c == 'µ' then ['\U{039C}']
    else if c == 'ÿ' then ['\U{0178}']
    else [c]
  }

  /** `c` is its own upper case: `upper()` leaves it as it is. */
  predicate IsUpperForm(c: char) {
    UpperChar(c) == [c]
  }

  lemma UpperCharIsUpperForm(c: char)
    ensures forall i :: 0 <= i < |UpperChar(c)| ==> IsUpperForm(UpperChar(c)[i])
  {
  }

  /** `upper()`: every character replaced by its upper case. */
  function Upper(s: string): string {
    if s == [] then [] else UpperChar(s[0]) + Upper(s[1..])
  }

  /** `upper()` never empties a string and keeps whether each end is whitespace. */
  lemma {:induction false} UpperKeepsEnds(s: string)
    ensures |Upper(s)| >= |s|
    ensures s != [] ==> IsSpace(Upper(s)[0]) == IsSpace(s[0])
    ensures s != [] ==> IsSpace(Upper(s)[|Upper(s)| - 1]) == IsSpace(s[|s| - 1])
  {
    if s != [] {
      UpperKeepsEnds(s[1..]);
    }
  }

  /** Everything `upper()` returns is already upper case. */
  lemma {:induction false} UpperIsUpperForm(s: string)
    ensures forall i :: 0 <= i < |Upper(s)| ==> IsUpperForm(Upper(s)[i])
  {
    if s != [] {
      UpperCharIsUpperForm(s[0]);
      UpperIsUpperForm(s[1..]);
      var u, rest := UpperChar(s[0]), Upper(s[1..]);
      assert Upper(s) == u + rest;
      forall i | 0 <= i < |Upper(s)| ensures IsUpperForm(Upper(s)[i]) {
        if i >= |u| { assert Upper(s)[i] == rest[i - |u|]; }
      }
    }
  }

  /** Where no character upper-cases to two, `upper()` works character by character. */
  lemma {:induction false} UpperOneToOne(s: string)
    requires forall i :: 0 <= i < |s| ==> |UpperChar(s[i])| == 1
    ensures |Upper(s)| == |s|
    ensures forall i :: 0 <= i < |s| ==> Upper(s)[i] == UpperChar(s[i])[0]
  {
    if s != [] {
      UpperOneToOne(s[1..]);
    }
  }

  /** Upper-casing lower-case ASCII letters shifts each one to its capital. */
  lemma UpperOfAsciiLower(s: string)
    requires forall i :: 0 <= i < |s| ==> 'a' <= s[i] <= 'z'
    ensures |Upper(s)| == |s|
    ensures forall i :: 0 <= i < |s| ==> Upper(s)[i] == (s[i] as int - 32) as char
  {
    UpperOneToOne(s);
  }

  /** Upper-casing a string that is already upper case changes nothing. */
  lemma {:induction false} UpperFixesUpperForm(s: string)
    requires forall i :: 0 <= i < |s| ==> IsUpperForm(s[i])
    ensures Upper(s) == s
  {
    if s != [] {
      UpperFixesUpperForm(s[1..]);
    }
  }

  /** Removing a tilde from an upper-case letter gives an upper-case letter. */
  lemma UntildeKeepsUpperForm(c: char)
    requires IsUpperForm(c)
    ensures IsUpperForm(Untilde(c))
  {
  }

  // ---------------------------------------------------------------------------
  // The dashboard's normaliser
  // ---------------------------------------------------------------------------

  function IsAsciiLower(c: char): bool {
    'a' <= c <= 'z'
  }

  lemma UpperFormIsNotAsciiLower(c: char)
    requires IsUpperForm(c)
    ensures !IsAsciiLower(c)
  {
  }

  /** `remove_tildes(x.strip().upper())`. */
  function Normalize(s: string): string {
    RemoveTildes(Upper(Strip(s)))
  }

  /**
   * A normalised name has no whitespace at either end, no lower-case ASCII
   * letter, none of the twelve accented letters, and is its own upper case.
   */
  lemma NormalizeShape(s: string)
    ensures Trimmed(Normalize(s))
    ensures forall i :: 0 <= i < |Normalize(s)| ==>
              !IsAsciiLower(Normalize(s)[i]) && !IsTilde(Normalize(s)[i]) && IsUpperForm(Normalize(s)[i])
  {
    var t := Strip(s);
    var u := Upper(t);
    UpperIsUpperForm(t);
    UpperKeepsEnds(t);
    var r := RemoveTildes(u);
    assert Trimmed(u);
    forall i | 0 <= i < |r| ensures !IsAsciiLower(r[i]) && !IsTilde(r[i]) && IsUpperForm(r[i]) {
      UntildeKeepsUpperForm(u[i]);
      UpperFormIsNotAsciiLower(r[i]);
    }
  }

  /** Normalising twice is normalising once. */
  lemma NormalizeIdempotent(s: string)
    ensures Normalize(Normalize(s)) == Normalize(s)
  {
    NormalizedIsStripped(s);
    NormalizedIsUpper(s);
    NormalizedHasNoTilde(s);
    NormalizeOfFixedParts(Normalize(s));
  }

  lemma NormalizedIsStripped(s: string)
    ensures Strip(Normalize(s)) == Normalize(s)
  {
    NormalizeShape(s);
    StripTrimmed(Normalize(s));
  }

  lemma NormalizedIsUpper(s: string)
    ensures Upper(Normalize(s)) == Normalize(s)
  {
    NormalizeShape(s);
    UpperFixesUpperForm(Normalize(s));
  }

  lemma NormalizedHasNoTilde(s: string)
    ensures RemoveTildes(Normalize(s)) == Normalize(s)
  {
    NormalizeShape(s);
    RemoveTildesFixesPlainText(Normalize(s));
  }

  lemma NormalizeOfFixedParts(n: string)
    requires Strip(n) == n && Upper(n) == n && RemoveTildes(n) == n
    ensures Normalize(n) == n
  {
  }

  // ---------------------------------------------------------------------------
  // str.contains(..., case=False)
  // ---------------------------------------------------------------------------

  /** ASCII case folding, the part of Python's case-insensitive matching the model keeps. */
  function LowerAscii(c: char): (d: char)
    ensures !('A' <= d <= 'Z')
  {
    if 'A' <= c <= 'Z' then (c as int + 32) as char else c
  }

  /** `a` and `b` are the same string up to ASCII case. */
  predicate EqualIgnoringCase(a: string, b: string) {
    |a| == |b| && forall k :: 0 <= k < |a| ==> LowerAscii(a[k]) == LowerAscii(b[k])
  }

  /** `needle` matches `hay`, ignoring case, at position `i`. */
  predicate MatchesAt(hay: string, needle: string, i: int) {
    0 <= i && i + |needle| <= |hay| && EqualIgnoringCase(hay[i..i + |needle|], needle)
  }

  lemma SliceOfTail(s: string, i: int, j: int)
    requires 1 <= i <= j <= |s|
    ensures s[i..j] == s[1..][i - 1..j - 1]
  {
    assert forall k :: 0 <= k < j - i ==> s[i..j][k] == s[1..][i - 1..j - 1][k];
  }

  /** Case-insensitive substring search, as `str.contains(needle, case=False)`. */
  function ContainsIgnoringCase(hay: string, needle: string): (b: bool)
    ensures b <==> exists i :: MatchesAt(hay, needle, i)
    decreases |hay|
  {
    if MatchesAt(hay, needle, 0) then true
    else if |hay| <= |needle| then
      assert forall i :: MatchesAt(hay, needle, i) ==> i == 0;
      false
    else
      var b := ContainsIgnoringCase(hay[1..], needle);
      forall i | 1 <= i ensures MatchesAt(hay, needle, i) <==> MatchesAt(hay[1..], needle, i - 1) {
        if i + |needle| <= |hay| {
          SliceOfTail(hay, i, i + |needle|);
        }
      }
      assert forall i :: MatchesAt(hay[1..], needle, i) ==> MatchesAt(hay, needle, i + 1);
      b
  }
}
