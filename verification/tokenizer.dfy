/**
  The tokenizer: lower-case the text, blank out every character that is
  not a lower-case ASCII letter, a digit or a space, split at the spaces,
  stem every non-empty fragment and keep the non-empty stems, in input
  order. The Porter stemmer is not part of this model: it is the
  parameter `stem`, about which nothing is assumed.
*/
module Tokenizer {

  type Stemmer = string -> string

  /** toLowerCase at the ASCII level. */
  function LowerAscii(c: char): (d: char)
    ensures 'A' <= c <= 'Z' ==> 'a' <= d <= 'z' && d as int == c as int + 32
    ensures !('A' <= c <= 'Z') ==> d == c
  {
    if 'A' <= c <= 'Z' then (c as int + ('a' as int - 'A' as int)) as char else c
  }

  /** The characters that the pattern [^a-z0-9 ] leaves alone. */
  predicate Kept(c: char)
  {
    'a' <= c <= 'z' || '0' <= c <= '9' || c == ' '
  }

  /** text.toLowerCase().replaceAll("[^a-z0-9 ]", " ") */
  function Normalize(text: string): (s: string)
    ensures |s| == |text|
    ensures forall i :: 0 <= i < |s| ==> Kept(s[i])
    ensures forall i :: 0 <= i < |s| && Kept(text[i]) ==> s[i] == text[i]
    ensures forall i :: 0 <= i < |s| && 'A' <= text[i] <= 'Z' ==> s[i] as int == text[i] as int + 32
    ensures forall i :: 0 <= i < |s| && !Kept(text[i]) && !('A' <= text[i] <= 'Z') ==> s[i] == ' '
  {
    seq(|text|, i requires 0 <= i < |text| =>
      var c := LowerAscii(text[i]); if Kept(c) then c else ' ')
  }

  /** The fragments joined back with single spaces. */
  function JoinSpaces(ws: seq<string>): string
    requires |ws| >= 1
    decreases |ws|
  {
    if |ws| == 1 then ws[0] else ws[0] + " " + JoinSpaces(ws[1..])
  }

  /** The fragments between consecutive spaces, empty ones included. */
  function SplitSpaces(s: string): (ws: seq<string>)
    ensures |ws| >= 1
    decreases |s|
  {
    if |s| == 0 then [[]]
    else
      var rest := SplitSpaces(s[1..]);
      if s[0] == ' ' then [[]] + rest else [[s[0]] + rest[0]] + rest[1..]
  }

  /**
    The split loses nothing: joining the fragments with single spaces
    gives back the string. With SplitSpacesFragments (no fragment holds a
    space) this pins the split.
  */
  lemma {:induction false} SplitSpacesJoin(s: string)
    ensures JoinSpaces(SplitSpaces(s)) == s
    decreases |s|
  {
    if |s| > 0 {
      SplitSpacesJoin(s[1..]);
      var rest := SplitSpaces(s[1..]);
      if s[0] == ' ' {
        assert ([[]] + rest)[1..] == rest;
      } else {
        var ws := [[s[0]] + rest[0]] + rest[1..];
        assert ws[1..] == rest[1..];
      }
      assert s == [s[0]] + s[1..];
    }
  }

  /** No fragment holds a space, and each holds only characters of s. */
  lemma {:induction false} SplitSpacesFragments(s: string)
    ensures forall w, c :: w in SplitSpaces(s) && c in w ==> c in s && c != ' '
    decreases |s|
  {
    if |s| > 0 {
      SplitSpacesFragments(s[1..]);
      var rest := SplitSpaces(s[1..]);
      forall w, c | w in SplitSpaces(s) && c in w
        ensures c in s && c != ' '
      {
        if s[0] != ' ' && w == [s[0]] + rest[0] && c != s[0] {
          assert c in rest[0];
          assert rest[0] in rest;
        }
        assert c in s[1..] ==> c in s;
      }
    }
  }

  /** The loop body of tokenize, run over the fragments words. */
  function StemWords(words: seq<string>, stem: Stemmer): (ts: seq<string>)
    decreases |words|
  {
    if |words| == 0 then []
    else
      var prev := StemWords(words[..|words| - 1], stem);
      var w := words[|words| - 1];
      if |w| == 0 then prev
      else if |stem(w)| == 0 then prev
      else prev + [stem(w)]
  }

  /**
    Every kept token is the non-empty stem of a non-empty fragment, and
    every non-empty fragment with a non-empty stem contributes that stem.
  */
  lemma {:induction false} StemWordsAreStems(words: seq<string>, stem: Stemmer)
    ensures forall t :: t in StemWords(words, stem) ==>
      t != [] && exists w :: w in words && w != [] && stem(w) == t
    ensures forall w :: w in words && w != [] && stem(w) != [] ==> stem(w) in StemWords(words, stem)
    decreases |words|
  {
    if |words| > 0 {
      var init := words[..|words| - 1];
      StemWordsAreStems(init, stem);
      forall w | w in words && w != [] && stem(w) != []
        ensures stem(w) in StemWords(words, stem)
      {
        assert words == init + [words[|words| - 1]];
        if w in init {
          assert StemWords(init, stem) <= StemWords(words, stem);
        }
      }
      forall t | t in StemWords(words, stem)
        ensures t != [] && exists w :: w in words && w != [] && stem(w) == t
      {
        if t in StemWords(init, stem) {
          var w :| w in init && w != [] && stem(w) == t;
          assert w in words;
        } else {
          assert words[|words| - 1] in words;
        }
      }
    }
  }

  /** The tokens of text, as tokenize returns them. */
  function Tokens(text: string, stem: Stemmer): seq<string>
  {
    StemWords(SplitSpaces(Normalize(text)), stem)
  }

  /**
    What tokenize promises its callers: every token is non-empty and is
    the stem of a fragment made of lower-case ASCII letters and digits,
    and every non-empty fragment whose stem is non-empty yields a token.
  */
  lemma TokensAreStemsOfWords(text: string, stem: Stemmer)
    ensures forall t :: t in Tokens(text, stem) ==>
      t != [] && exists w :: w in SplitSpaces(Normalize(text)) && w != [] && stem(w) == t
    ensures forall w :: w in SplitSpaces(Normalize(text)) && w != [] && stem(w) != [] ==>
      stem(w) in Tokens(text, stem)
    ensures forall w, c :: w in SplitSpaces(Normalize(text)) && c in w ==>
      'a' <= c <= 'z' || '0' <= c <= '9'
  {
    var s := Normalize(text);
    StemWordsAreStems(SplitSpaces(s), stem);
    SplitSpacesFragments(s);
  }

  /** tokenize(text) */
  method Tokenize(text: string, stem: Stemmer) returns (stems: seq<string>)
    ensures stems == Tokens(text, stem)
    ensures forall t :: t in stems ==> t != []
  {
    var rawTokens := SplitSpaces(Normalize(text));
    stems := [];
    for i := 0 to |rawTokens|
      invariant stems == StemWords(rawTokens[..i], stem)
    {
      assert rawTokens[..i + 1][..i] == rawTokens[..i];
      var token := rawTokens[i];
      if |token| == 0 {
        continue;
      }
      var s := stem(token);
      if |s| != 0 {
        stems := stems + [s];
      }
    }
    assert rawTokens[..|rawTokens|] == rawTokens;
    TokensAreStemsOfWords(text, stem);
  }
}
