/** Initial consonants of Hangul syllables, after the syllable arithmetic of section 3.12 of the
    Unicode Standard: syllable = 0xAC00 + (l * 21 + v) * 28 + t. */
module Chosung {
  import opened Lists

  const HANGUL_FIRST := 0xAC00
  const HANGUL_LAST := 0xD7A3
  const SYLLABLES_PER_INITIAL := 588

  /** The nineteen initial consonants as compatibility letters. */
  const CHOSUNG_LIST: string := "ㄱㄲㄴㄷㄸㄹㅁㅂㅃㅅㅆㅇㅈㅉㅊㅋㅌㅍㅎ"

  predicate IsSyllable(c: char) {
    HANGUL_FIRST <= c as int <= HANGUL_LAST
  }

  function InitialIndex(c: char): int
    requires IsSyllable(c)
  {
    (c as int - HANGUL_FIRST) / SYLLABLES_PER_INITIAL
  }

  lemma IndexInRange(c: char)
    requires IsSyllable(c)
    ensures 0 <= InitialIndex(c) < |CHOSUNG_LIST| == 19
  {}

  function Initial(c: char): char {
    if IsSyllable(c) then IndexInRange(c); CHOSUNG_LIST[InitialIndex(c)] else c
  }

  function InitialsOf(text: string): string {
    if text == "" then "" else InitialsOf(text[..|text| - 1]) + [Initial(text[|text| - 1])]
  }

  /** What is stored and what is searched: initials, without spaces. */
  function Normalized(text: string): string {
    Remove(' ', InitialsOf(text))
  }

  /** The loop over the characters. */
  method GetChosung(text: string) returns (result: string)
    ensures result == InitialsOf(text)
    ensures |result| == |text| && forall i :: 0 <= i < |text| ==> result[i] == Initial(text[i])
  {
    result := "";
    for i := 0 to |text|
      invariant result == InitialsOf(text[..i])
      invariant |result| == i && forall k :: 0 <= k < i ==> result[k] == Initial(text[k])
    {
      var c := text[i];
      assert text[..i + 1][..i] == text[..i];
      if IsSyllable(c) {
        IndexInRange(c);
        result := result + [CHOSUNG_LIST[(c as int - HANGUL_FIRST) / SYLLABLES_PER_INITIAL]];
      } else {
        result := result + [c];
      }
    }
    assert text[..|text|] == text;
  }

  method GetChosungNormalized(text: string) returns (result: string)
    ensures result == Normalized(text)
  {
    if text == "" { return ""; }
    var initials := GetChosung(text);
    result := Remove(' ', initials);
  }

  /** The index of a composed syllable is the index of its leading consonant. */
  lemma ComposedInitial(l: nat, v: nat, t: nat, c: char)
    requires l < 19 && v < 21 && t < 28 && c as int == 0xAC00 + (l * 21 + v) * 28 + t
    ensures IsSyllable(c) && Initial(c) == CHOSUNG_LIST[l]
  {}

  /** The list is the nineteen initial consonants in Unicode order: the compatibility consonants from
      U+3131 to U+314E without the eleven clusters. */
  lemma ListIsTheInitials()
    ensures |CHOSUNG_LIST| == 19 && forall i, j :: 0 <= i < j < 19 ==> CHOSUNG_LIST[i] < CHOSUNG_LIST[j]
    ensures forall i :: 0 <= i < 19 ==> '\U{3131}' <= CHOSUNG_LIST[i] <= '\U{314E}' && !IsCluster(CHOSUNG_LIST[i])
  {}

  predicate IsCluster(c: char) {
    c == '\U{3133}' || '\U{3135}' <= c <= '\U{3136}' || '\U{313A}' <= c <= '\U{3140}' || c == '\U{3144}'
  }

  /** Every other character stays as it is. */
  lemma OtherCharacterStays(c: char)
    requires c < '\U{AC00}' || c > '\U{D7A3}'
    ensures Initial(c) == c
  {}

  /** Character by character, with nothing added or lost. */
  lemma {:induction false} InitialsAt(text: string)
    ensures |InitialsOf(text)| == |text| && forall i :: 0 <= i < |text| ==> InitialsOf(text)[i] == Initial(text[i])
  {
    if text != "" { InitialsAt(text[..|text| - 1]); }
  }

  lemma InitialsSnoc(a: string, c: char)
    ensures InitialsOf(a + [c]) == InitialsOf(a) + [Initial(c)]
  {
    assert (a + [c])[..|a|] == a;
  }

  lemma Regroup(x: string, y: string, c: char)
    ensures x + y + [c] == x + (y + [c])
  {}

  lemma {:induction false} InitialsAppend(a: string, b: string)
    ensures InitialsOf(a + b) == InitialsOf(a) + InitialsOf(b)
  {
    if b == "" {
      assert a + b == a;
    } else {
      var n := |b| - 1;
      InitialsAppend(a, b[..n]);
      assert b == b[..n] + [b[n]] && a + b == (a + b[..n]) + [b[n]];
      InitialsSnoc(a + b[..n], b[n]);
      InitialsSnoc(b[..n], b[n]);
      Regroup(InitialsOf(a), InitialsOf(b[..n]), Initial(b[n]));
    }
  }

  /** Normalisation distributes over concatenation. */
  lemma NormalizedAppend(a: string, b: string)
    ensures Normalized(a + b) == Normalized(a) + Normalized(b)
  {
    InitialsAppend(a, b);
    RemoveAppend(' ', InitialsOf(a), InitialsOf(b));
  }

  /** A prefix of a name normalises to a prefix of the normalised name. */
  lemma PrefixNormalizes(query: string, name: string)
    requires query <= name
    ensures Normalized(query) <= Normalized(name)
  {
    NormalizedAppend(query, name[|query|..]);
    assert name == query + name[|query|..];
  }

  /** No letter of the list is a syllable or a space. */
  lemma InitialsAreFixed(c: char)
    ensures Initial(Initial(c)) == Initial(c)
    ensures Initial(c) == ' ' <==> c == ' '
  {
    if IsSyllable(c) { ListLetters(InitialIndex(c)); }
  }

  lemma ListLetters(i: int)
    requires 0 <= i < |CHOSUNG_LIST|
    ensures !IsSyllable(CHOSUNG_LIST[i]) && CHOSUNG_LIST[i] != ' '
  {}

  /** A query typed as initials is searched as it stands: normalising twice changes nothing. */
  lemma {:induction false} NormalizedIdempotent(text: string)
    ensures Normalized(Normalized(text)) == Normalized(text)
  {
    if text != "" {
      var n := |text| - 1;
      var c := text[n];
      NormalizedIdempotent(text[..n]);
      assert text == text[..n] + [c];
      NormalizedAppend(text[..n], [c]);
      NormalizedAppend(Normalized(text[..n]), Normalized([c]));
      NormalizedOne(c);
      NormalizedOne(Initial(c));
      InitialsAreFixed(c);
    } else {
      assert InitialsOf("") == "" && Normalized("") == "";
    }
  }

  lemma NormalizedOne(c: char)
    ensures Normalized([c]) == if c == ' ' then "" else [Initial(c)]
  {
    assert [c][..0] == "";
    assert InitialsOf([c]) == [Initial(c)];
    InitialsAreFixed(c);
    assert [Initial(c)][1..] == "";
    assert Remove(' ', "") == "";
  }
}
