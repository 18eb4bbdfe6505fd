/** Text normalisation of the chat widget: the tokenizer, `trim`, substring search,
    the sentence split used for snippets and the `'\n'` join of extracted texts.

    The tokenizer lowercases its input, turns every run of characters outside an
    allowed class into one space, splits on whitespace and drops empty pieces.
    Because no whitespace character is in the allowed class, the result is exactly
    the sequence of maximal runs of allowed characters of the lowercased text, which
    is how `Tokenize` is defined below. */
module ChatText {
  import opened Wrappers

  /** One of the accented letters the tokenizer keeps besides `a`-`z` and `0`-`9`. */
  predicate IsAccentedLetter(c: char) {
    c == 'ç' || c == 'ë' || c == 'ä' || c == 'ö' || c == 'ü' || c == 'õ' || c == 'ß' || c == 'ÿ' ||
    c == 'ğ' || c == 'ş' || c == 'ž' || c == 'ŭ' || c == 'ė' || c == 'à' || c == 'á' || c == 'â' ||
    c == 'î' || c == 'í' || c == 'ì' || c == 'é' || c == 'ê' || c == 'ô' || c == 'û' || c == 'ù' ||
    c == 'ỳ' || c == 'ś' || c == 'č' || c == 'ń' || c == 'ř' || c == 'ť'
  }

  /** A character the tokenizer keeps. */
  predicate Allowed(c: char) {
    ('a' <= c <= 'z') || ('0' <= c <= '9') || IsAccentedLetter(c)
  }

  /** Upper-case letters outside Latin-1 whose lower-case forms are accented letters the
      tokenizer keeps; each is one code point below its lower-case form. */
  predicate IsExtendedUpper(c: char) {
    c == 'Ğ' || c == 'Ş' || c == 'Ž' || c == 'Ŭ' || c == 'Ė' || c == 'Ỳ' || c == 'Ś' || c == 'Č' ||
    c == 'Ń' || c == 'Ř' || c == 'Ť'
  }

  /** The characters `Lower` changes: ASCII and Latin-1 capitals, and the capitals of
      the accented letters the tokenizer keeps. */
  predicate HasLowerForm(c: char) {
    ('A' <= c <= 'Z') || ('\U{C0}' <= c <= '\U{DE}' && c != '\U{D7}') || IsExtendedUpper(c) || c == 'Ÿ'
  }

  /** Case mapping of one character, restricted to the letters above; every other
      character is its own lower-case form. */
  function Lower(c: char): (l: char)
    ensures !HasLowerForm(c) ==> l == c
    ensures HasLowerForm(c) ==> l != c && !HasLowerForm(l)
  {
    if ('A' <= c <= 'Z') || ('\U{C0}' <= c <= '\U{DE}' && c != '\U{D7}') then (c as int + 32) as char
    else if IsExtendedUpper(c) then (c as int + 1) as char
    else if c == 'Ÿ' then 'ÿ'
    else c
  }

  /** `toLowerCase`, character by character. */
  function Lowercase(s: string): (l: string)
    ensures |l| == |s|
  {
    seq(|s|, i requires 0 <= i < |s| => Lower(s[i]))
  }

  /** The whitespace and line terminators that `trim` removes and `\s` matches. */
  predicate IsWhitespace(c: char) {
    c == ' ' || c == '\t' || c == '\n' || c == '\r' || c == '\U{B}' || c == '\U{C}' || c == '\U{A0}' ||
    c == '\U{1680}' || ('\U{2000}' <= c <= '\U{200A}') || c == '\U{2028}' || c == '\U{2029}' ||
    c == '\U{202F}' || c == '\U{205F}' || c == '\U{3000}' || c == '\U{FEFF}'
  }

  /** The characters the snippet extraction splits sentences on. */
  predicate IsSentenceEnd(c: char) {
    c == '.' || c == '!' || c == '?' || c == '\n'
  }

  /** Allowed characters are lower case and are neither whitespace nor sentence ends. */
  lemma AllowedChar(c: char)
    requires Allowed(c)
    ensures Lower(c) == c && !IsWhitespace(c) && !IsSentenceEnd(c)
  {
  }

  /** Whitespace and sentence ends are their own lower case and are not kept by the tokenizer. */
  lemma SeparatorChar(c: char)
    requires IsWhitespace(c) || IsSentenceEnd(c)
    ensures Lower(c) == c && !Allowed(c)
  {
  }

  /** A token: non-empty, made only of allowed characters. */
  ghost predicate IsToken(t: string) {
    t != [] && forall j :: 0 <= j < |t| ==> Allowed(t[j])
  }

  function Flush(word: string): seq<string> {
    if word == [] then [] else [word]
  }

  /** The maximal runs of allowed characters of `word + s`, where `word` is the run
      being collected when `s` starts. */
  function Words(s: string, word: string): seq<string>
    decreases |s|
  {
    if s == [] then Flush(word)
    else if Allowed(s[0]) then Words(s[1..], word + [s[0]])
    else Flush(word) + Words(s[1..], [])
  }

  /** The tokenizer of the chat widget. */
  function Tokenize(s: string): seq<string> {
    Words(Lowercase(s), [])
  }

  /** The tokenizer on an argument that may be missing: `s || ''` tokenizes a missing
      argument as the empty text, which has no tokens. */
  function TokenizeMaybe(s: Option<string>): (r: seq<string>)
    ensures s.None? ==> r == []
    ensures s.Some? ==> r == Tokenize(s.value)
  {
    Tokenize(if s.Some? then s.value else "")
  }

  /** Every run collected from allowed characters is a token. */
  lemma {:induction false} WordsAreTokens(s: string, word: string)
    requires forall j :: 0 <= j < |word| ==> Allowed(word[j])
    ensures forall i :: 0 <= i < |Words(s, word)| ==> IsToken(Words(s, word)[i])
    decreases |s|
  {
    if s != [] {
      if Allowed(s[0]) {
        WordsAreTokens(s[1..], word + [s[0]]);
      } else {
        WordsAreTokens(s[1..], []);
      }
    }
  }

  /** Every token is non-empty, and every character of it is allowed, lower case, and
      not whitespace. */
  lemma {:induction false} TokenCharacters(s: string)
    ensures forall i :: 0 <= i < |Tokenize(s)| ==> Tokenize(s)[i] != []
    ensures forall i, j :: 0 <= i < |Tokenize(s)| && 0 <= j < |Tokenize(s)[i]| ==>
              var c := Tokenize(s)[i][j]; Allowed(c) && Lower(c) == c && !IsWhitespace(c)
  {
    var tokens := Tokenize(s);
    WordsAreTokens(Lowercase(s), []);
    forall i, j | 0 <= i < |tokens| && 0 <= j < |tokens[i]|
      ensures Allowed(tokens[i][j]) && Lower(tokens[i][j]) == tokens[i][j] && !IsWhitespace(tokens[i][j])
    {
      assert IsToken(tokens[i]);
      AllowedChar(tokens[i][j]);
    }
  }

  /** The empty string, and any string of whitespace and punctuation alone, has no tokens. */
  lemma {:induction false} TokenizeNothing(s: string)
    requires forall i :: 0 <= i < |s| ==> !Allowed(Lower(s[i]))
    ensures Tokenize(s) == []
  {
    NoWords(Lowercase(s));
  }

  lemma {:induction false} NoWords(s: string)
    requires forall i :: 0 <= i < |s| ==> !Allowed(s[i])
    ensures Words(s, []) == []
    decreases |s|
  {
    if s != [] {
      NoWords(s[1..]);
    }
  }

  /** A character the tokenizer drops splits the tokens of the text around it. */
  lemma {:induction false} WordsSplit(a: string, c: char, b: string, word: string)
    requires !Allowed(c)
    ensures Words(a + [c] + b, word) == Words(a, word) + Words(b, [])
    decreases |a|
  {
    if a == [] {
      assert a + [c] + b == [c] + b;
    } else {
      assert (a + [c] + b)[1..] == a[1..] + [c] + b;
      WordsSplit(a[1..], c, b, if Allowed(a[0]) then word + [a[0]] else []);
    }
  }

  lemma LowercaseSplit(a: string, c: char, b: string)
    ensures Lowercase(a + [c] + b) == Lowercase(a) + [Lower(c)] + Lowercase(b)
  {
    assert Lowercase(a + [c] + b) == Lowercase(a) + [Lower(c)] + Lowercase(b);
  }

  /** The tokens of a text split at a separator are the tokens of the two halves. */
  lemma TokenizeSplit(a: string, c: char, b: string)
    requires IsWhitespace(c) || IsSentenceEnd(c)
    ensures Tokenize(a + [c] + b) == Tokenize(a) + Tokenize(b)
  {
    SeparatorChar(c);
    LowercaseSplit(a, c, b);
    WordsSplit(Lowercase(a), c, Lowercase(b), []);
  }

  /** `trimStart`: drops leading whitespace. */
  function TrimStart(s: string): (t: string)
    ensures |t| <= |s| && t == s[|s| - |t|..]
    ensures forall k :: 0 <= k < |s| - |t| ==> IsWhitespace(s[k])
    ensures t == [] || !IsWhitespace(t[0])
    decreases |s|
  {
    if s != [] && IsWhitespace(s[0]) then TrimStart(s[1..]) else s
  }

  /** `trimEnd`: drops trailing whitespace. */
  function TrimEnd(s: string): (t: string)
    ensures |t| <= |s| && t == s[..|t|]
    ensures forall k :: |t| <= k < |s| ==> IsWhitespace(s[k])
    ensures t == [] || !IsWhitespace(t[|t| - 1])
    decreases |s|
  {
    if s != [] && IsWhitespace(s[|s| - 1]) then TrimEnd(s[..|s| - 1]) else s
  }

  /** `trim`: the text between its leading and its trailing whitespace. */
  function Trim(s: string): (t: string)
  {
    TrimEnd(TrimStart(s))
  }

  /** `trim` keeps a contiguous slice of its input and drops only whitespace: the slice
      starts after the leading whitespace and ends before the trailing whitespace. */
  lemma TrimSlice(s: string)
    ensures var i := |s| - |TrimStart(s)|; var j := i + |Trim(s)|;
              && j <= |s| && Trim(s) == s[i..j]
              && (forall k :: 0 <= k < i ==> IsWhitespace(s[k]))
              && (forall k :: j <= k < |s| ==> IsWhitespace(s[k]))
  {
    var u := TrimStart(s);
    var t := TrimEnd(u);
    var i := |s| - |u|;
    assert u == s[i..];
    assert t == u[..|t|];
    assert t == s[i..i + |t|];
    forall k | i + |t| <= k < |s| ensures IsWhitespace(s[k]) {
      assert s[k] == u[k - i];
    }
  }

  /** `trim` leaves no whitespace at either end. */
  lemma TrimEnds(s: string)
    ensures Trim(s) == [] || (!IsWhitespace(Trim(s)[0]) && !IsWhitespace(Trim(s)[|Trim(s)| - 1]))
  {
    var u := TrimStart(s);
    var t := TrimEnd(u);
    if t != [] {
      assert t[0] == u[0];
    }
  }

  /** `trim` adds no character. */
  lemma TrimKeeps(s: string, c: char)
    requires c !in s
    ensures c !in Trim(s)
  {
  }

  /** Trimming does not change the tokens of a text. */
  lemma {:induction false} TokenizeTrimStart(s: string)
    ensures Tokenize(TrimStart(s)) == Tokenize(s)
    decreases |s|
  {
    if s != [] && IsWhitespace(s[0]) {
      var c, rest := s[0], s[1..];
      assert TrimStart(s) == TrimStart(rest);
      TokenizeTrimStart(rest);
      TokenizeSplit([], c, rest);
      assert [] + [c] + rest == s;
      assert Tokenize([]) == [];
    }
  }

  lemma {:induction false} TokenizeTrimEnd(s: string)
    ensures Tokenize(TrimEnd(s)) == Tokenize(s)
    decreases |s|
  {
    if s != [] && IsWhitespace(s[|s| - 1]) {
      var init := s[..|s| - 1];
      TokenizeTrimEnd(init);
      assert s == init + [s[|s| - 1]] + [];
      TokenizeSplit(init, s[|s| - 1], []);
    }
  }

  lemma TokenizeTrim(s: string)
    ensures Tokenize(Trim(s)) == Tokenize(s)
  {
    TokenizeTrimStart(s);
    TokenizeTrimEnd(TrimStart(s));
  }

  /** `s.startsWith(prefix)`. */
  predicate StartsWith(s: string, prefix: string) {
    |prefix| <= |s| && s[..|prefix|] == prefix
  }

  /** `s.includes(t)`: `t` occurs in `s` at some position. */
  predicate Includes(s: string, t: string)
    decreases |s|
  {
    StartsWith(s, t) || (s != [] && Includes(s[1..], t))
  }

  /** `t` occurs in `s` starting at position `i`. */
  predicate OccursAt(s: string, t: string, i: int) {
    0 <= i <= |s| - |t| && s[i..i + |t|] == t
  }

  /** `Includes` agrees with the definition of a substring by position, both ways. */
  lemma {:induction false} IncludesAt(s: string, t: string)
    ensures Includes(s, t) <==> exists i :: OccursAt(s, t, i)
    decreases |s|
  {
    if StartsWith(s, t) {
      assert OccursAt(s, t, 0);
    }
    if s != [] {
      IncludesAt(s[1..], t);
      if Includes(s[1..], t) {
        var i :| OccursAt(s[1..], t, i);
        assert s[1..][i..i + |t|] == s[i + 1..i + 1 + |t|];
        assert OccursAt(s, t, i + 1);
      }
      if i :| OccursAt(s, t, i) && i > 0 {
        assert s[1..][i - 1..i - 1 + |t|] == s[i..i + |t|];
        assert OccursAt(s[1..], t, i - 1);
      }
    } else {
      if i :| OccursAt(s, t, i) {
        assert i == 0 && t == [];
      }
    }
  }

  /** The pieces of `piece + s` between runs of sentence ends, where `piece` is the
      piece being collected when `s` starts; this is `split(/[.!?\n]+/)` without the
      empty leading and trailing pieces, which the snippet extraction drops anyway. */
  function Pieces(s: string, piece: string): (ps: seq<string>)
    ensures (forall j :: 0 <= j < |piece| ==> !IsSentenceEnd(piece[j])) ==>
              forall i, j :: 0 <= i < |ps| && 0 <= j < |ps[i]| ==> !IsSentenceEnd(ps[i][j])
    decreases |s|
  {
    if s == [] then Flush(piece)
    else if !IsSentenceEnd(s[0]) then Pieces(s[1..], piece + [s[0]])
    else Flush(piece) + Pieces(s[1..], [])
  }

  /** `parts.map(trim).filter(Boolean)`. */
  function TrimmedNonEmpty(parts: seq<string>): (r: seq<string>)
    ensures |r| <= |parts|
    decreases |parts|
  {
    if parts == [] then []
    else
      var t := Trim(parts[0]);
      (if t == [] then [] else [t]) + TrimmedNonEmpty(parts[1..])
  }

  /** Every kept part is non-empty, has no whitespace at either end, and keeps no
      character that some part did not have. */
  lemma {:induction false} TrimmedNonEmptyParts(parts: seq<string>, c: char)
    requires forall i, j :: 0 <= i < |parts| && 0 <= j < |parts[i]| ==> parts[i][j] != c
    ensures forall i :: 0 <= i < |TrimmedNonEmpty(parts)| ==>
              var t := TrimmedNonEmpty(parts)[i];
              t != [] && !IsWhitespace(t[0]) && !IsWhitespace(t[|t| - 1]) && c !in t
    decreases |parts|
  {
    if parts != [] {
      var tail := parts[1..];
      forall i, j | 0 <= i < |tail| && 0 <= j < |tail[i]| ensures tail[i][j] != c {
        assert tail[i] == parts[i + 1];
      }
      TrimmedNonEmptyParts(tail, c);
      var t := Trim(parts[0]);
      assert c !in parts[0];
      TrimEnds(parts[0]);
      TrimKeeps(parts[0], c);
      var head := if t == [] then [] else [t];
      var rest := TrimmedNonEmpty(tail);
      assert TrimmedNonEmpty(parts) == head + rest;
    }
  }

  /** The sentences of a text: `text.split(/[.!?\n]+/).map(trim).filter(Boolean)`. */
  function Sentences(text: string): seq<string> {
    TrimmedNonEmpty(Pieces(text, []))
  }

  /** Each sentence is non-empty, trimmed, and holds no sentence end. */
  lemma SentencesShape(text: string)
    ensures forall i :: 0 <= i < |Sentences(text)| ==>
              var t := Sentences(text)[i];
              t != [] && !IsWhitespace(t[0]) && !IsWhitespace(t[|t| - 1])
              && '.' !in t && '!' !in t && '?' !in t && '\n' !in t
  {
    var ps := Pieces(text, []);
    TrimmedNonEmptyParts(ps, '.');
    TrimmedNonEmptyParts(ps, '!');
    TrimmedNonEmptyParts(ps, '?');
    TrimmedNonEmptyParts(ps, '\n');
  }

  /** The tokens of several texts, one after the other. */
  function TokensOfAll(parts: seq<string>): seq<string>
    decreases |parts|
  {
    if parts == [] then [] else Tokenize(parts[0]) + TokensOfAll(parts[1..])
  }

  lemma {:induction false} TokensOfAllAppend(a: seq<string>, b: seq<string>)
    ensures TokensOfAll(a + b) == TokensOfAll(a) + TokensOfAll(b)
    decreases |a|
  {
    if a == [] {
      assert a + b == b;
    } else {
      assert (a + b)[1..] == a[1..] + b;
      TokensOfAllAppend(a[1..], b);
    }
  }

  /** Splitting at sentence ends loses no token and makes none up. */
  lemma {:induction false} PiecesCoverTokens(s: string, piece: string)
    ensures Tokenize(piece + s) == TokensOfAll(Pieces(s, piece))
    decreases |s|
  {
    if s == [] {
      assert piece + s == piece;
    } else if !IsSentenceEnd(s[0]) {
      assert piece + s == (piece + [s[0]]) + s[1..];
      PiecesCoverTokens(s[1..], piece + [s[0]]);
    } else {
      assert piece + s == piece + [s[0]] + s[1..];
      TokenizeSplit(piece, s[0], s[1..]);
      PiecesCoverTokens(s[1..], []);
      assert [] + s[1..] == s[1..];
      TokensOfAllAppend(Flush(piece), Pieces(s[1..], []));
    }
  }

  /** Trimming the parts and dropping the empty ones loses no token. */
  lemma {:induction false} TrimmedCoverTokens(parts: seq<string>)
    ensures TokensOfAll(TrimmedNonEmpty(parts)) == TokensOfAll(parts)
    decreases |parts|
  {
    if parts != [] {
      var t := Trim(parts[0]);
      TokenizeTrim(parts[0]);
      TrimmedCoverTokens(parts[1..]);
      TokensOfAllAppend(if t == [] then [] else [t], TrimmedNonEmpty(parts[1..]));
    }
  }

  /** The tokens of a text are the tokens of its sentences, in order. */
  lemma SentencesCoverTokens(text: string)
    ensures Tokenize(text) == TokensOfAll(Sentences(text))
  {
    assert [] + text == text;
    PiecesCoverTokens(text, []);
    TrimmedCoverTokens(Pieces(text, []));
  }

  /** `parts.join('\n')`. */
  function JoinLines(parts: seq<string>): string
    decreases |parts|
  {
    if parts == [] then ""
    else if |parts| == 1 then parts[0]
    else parts[0] + "\n" + JoinLines(parts[1..])
  }

  /** The tokens of joined lines are the tokens of the lines, in order. */
  lemma {:induction false} TokenizeJoinLines(parts: seq<string>)
    ensures Tokenize(JoinLines(parts)) == TokensOfAll(parts)
    decreases |parts|
  {
    if |parts| == 1 {
      assert TokensOfAll(parts[1..]) == [];
    } else if |parts| > 1 {
      TokenizeJoinLines(parts[1..]);
      TokenizeSplit(parts[0], '\n', JoinLines(parts[1..]));
    }
  }
}
