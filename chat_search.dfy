/** The site search of the chat widget: substring-count scoring of a query against
    an ordered index of pages, first-maximum selection of the page, and the choice
    of the snippet sentence inside the winning page. */
module ChatSearch {
  import opened Wrappers
  import opened ChatText

  /** One indexed page: a label, its address, its extracted text and the tokens of that text. */
  datatype PageEntry = PageEntry(source: string, url: string, text: string, tokens: seq<string>)

  /** What a successful search returns: the winning page, the chosen sentence and the page's score. */
  datatype SearchResult = SearchResult(page: PageEntry, snippet: string, score: nat)

  /** The index builder stores in every entry exactly the tokens of its text. */
  ghost predicate WellFormed(page: PageEntry) {
    page.tokens == Tokenize(page.text)
  }

  /** `tokens.filter(x => x.includes(t)).length`. */
  function CountContaining(tokens: seq<string>, t: string): (n: nat)
    ensures n <= |tokens|
    decreases |tokens|
  {
    if tokens == [] then 0
    else (if Includes(tokens[0], t) then 1 else 0) + CountContaining(tokens[1..], t)
  }

  /** The score of a token sequence against the query tokens: for each query token, in
      order and with repetition, the number of tokens that contain it. */
  function Score(tokens: seq<string>, query: seq<string>): nat
    decreases |query|
  {
    if query == [] then 0
    else Score(tokens, query[..|query| - 1]) + CountContaining(tokens, query[|query| - 1])
  }

  lemma {:induction false} CountContainingAppend(a: seq<string>, b: seq<string>, t: string)
    ensures CountContaining(a + b, t) == CountContaining(a, t) + CountContaining(b, t)
    decreases |a|
  {
    if a == [] {
      assert a + b == b;
    } else {
      assert (a + b)[1..] == a[1..] + b;
      CountContainingAppend(a[1..], b, t);
    }
  }

  lemma {:induction false} ScoreOfNoTokens(query: seq<string>)
    ensures Score([], query) == 0
    decreases |query|
  {
    if query != [] {
      ScoreOfNoTokens(query[..|query| - 1]);
    }
  }

  /** The score of two token sequences put together is the sum of their scores. */
  lemma {:induction false} ScoreAppendTokens(a: seq<string>, b: seq<string>, query: seq<string>)
    ensures Score(a + b, query) == Score(a, query) + Score(b, query)
    decreases |query|
  {
    if query != [] {
      ScoreAppendTokens(a, b, query[..|query| - 1]);
      CountContainingAppend(a, b, query[|query| - 1]);
    }
  }

  /** The score against two query token sequences put together is the sum of the scores. */
  lemma {:induction false} ScoreAppendQuery(tokens: seq<string>, q1: seq<string>, q2: seq<string>)
    ensures Score(tokens, q1 + q2) == Score(tokens, q1) + Score(tokens, q2)
    decreases |q2|
  {
    if q2 == [] {
      assert q1 + q2 == q1;
    } else {
      var init := q2[..|q2| - 1];
      assert (q1 + q2)[..|q1 + q2| - 1] == q1 + init;
      ScoreAppendQuery(tokens, q1, init);
    }
  }

  /** Adding tokens to a page never lowers its score against any query. */
  lemma ScoreMonotoneInTokens(tokens: seq<string>, more: seq<string>, query: seq<string>)
    ensures Score(tokens, query) <= Score(tokens + more, query)
    ensures Score(tokens, query) <= Score(more + tokens, query)
  {
    ScoreAppendTokens(tokens, more, query);
    ScoreAppendTokens(more, tokens, query);
  }

  /** Repeating a query token (or adding any token to the query) never lowers a score. */
  lemma ScoreMonotoneInQuery(tokens: seq<string>, query: seq<string>, t: string)
    ensures Score(tokens, query) <= Score(tokens, query + [t])
    ensures query != [] ==> Score(tokens, query) + Score(tokens, [query[0]]) == Score(tokens, [query[0]] + query)
  {
    ScoreAppendQuery(tokens, query, [t]);
    if query != [] {
      ScoreAppendQuery(tokens, [query[0]], query);
    }
  }

  /** The largest of the first `n` scores, 0 for none. */
  function MaxUpTo(s: seq<nat>, n: nat): (m: nat)
    requires n <= |s|
    ensures forall j :: 0 <= j < n ==> s[j] <= m
    ensures n == 0 ==> m == 0
  {
    if n == 0 then 0
    else
      var m' := MaxUpTo(s, n - 1);
      if s[n - 1] > m' then s[n - 1] else m'
  }

  /** The first position, among the first `n`, of the largest of the first `n` scores. */
  function ArgMaxUpTo(s: seq<nat>, n: nat): (k: nat)
    requires 0 < n <= |s|
    ensures k < n && s[k] == MaxUpTo(s, n)
    ensures forall j :: 0 <= j < k ==> s[j] < s[k]
  {
    if n == 1 then 0
    else
      var k' := ArgMaxUpTo(s, n - 1);
      if s[n - 1] > s[k'] then n - 1 else k'
  }

  /** The largest score in a sequence, 0 for none. */
  function Max(s: seq<nat>): nat {
    MaxUpTo(s, |s|)
  }

  /** The first position of the largest score. */
  function ArgMax(s: seq<nat>): nat
    requires s != []
  {
    ArgMaxUpTo(s, |s|)
  }

  /** The score of every page of the index, in index order. */
  function PageScores(index: seq<PageEntry>, query: seq<string>): (scores: seq<nat>)
    ensures |scores| == |index|
    ensures forall i :: 0 <= i < |index| ==> scores[i] == Score(index[i].tokens, query)
    decreases |index|
  {
    if index == [] then [] else [Score(index[0].tokens, query)] + PageScores(index[1..], query)
  }

  /** The score of every sentence, counted on the tokens of that sentence. */
  function SentenceScores(sentences: seq<string>, query: seq<string>): (scores: seq<nat>)
    ensures |scores| == |sentences|
    ensures forall i :: 0 <= i < |sentences| ==> scores[i] == Score(Tokenize(sentences[i]), query)
    decreases |sentences|
  {
    if sentences == [] then []
    else [Score(Tokenize(sentences[0]), query)] + SentenceScores(sentences[1..], query)
  }

  /** The sentence of `text` reported as the snippet: the first sentence with the highest
      score, the first sentence when none scores, the whole text when it has no sentences. */
  function Snippet(text: string, query: seq<string>): string {
    BestSentence(Sentences(text), text, query)
  }

  /** The first of `sentences` with the highest score, `fallback` when there are none. */
  function BestSentence(sentences: seq<string>, fallback: string, query: seq<string>): string {
    if sentences == [] then fallback else sentences[ArgMax(SentenceScores(sentences, query))]
  }

  /** What `searchIndex` returns for a query against an index. */
  function Search(index: seq<PageEntry>, query: string): Option<SearchResult> {
    var q := Tokenize(query);
    if q == [] then None
    else
      var scores := PageScores(index, q);
      var top := Max(scores);
      if top == 0 then None
      else
        var page := index[ArgMax(scores)];
        Some(SearchResult(page, Snippet(page.text, q), top))
  }

  /** The search finds nothing exactly when the query has no tokens or no page scores. */
  lemma SearchNone(index: seq<PageEntry>, query: string)
    ensures Search(index, query).None? <==>
              (Tokenize(query) == [] || forall i :: 0 <= i < |index| ==> Score(index[i].tokens, Tokenize(query)) == 0)
  {
    var q := Tokenize(query);
    if q != [] {
      var scores := PageScores(index, q);
      if Max(scores) != 0 {
        var i := ArgMax(scores);
        assert Score(index[i].tokens, q) != 0;
      }
    }
  }

  /** A search that finds something reports the highest page score, which is at least 1,
      and the first page in index order that reaches it. */
  lemma SearchFirstBest(index: seq<PageEntry>, query: string)
    requires Search(index, query).Some?
    ensures var r := Search(index, query).value; var q := Tokenize(query);
              && r.score >= 1
              && (forall i :: 0 <= i < |index| ==> Score(index[i].tokens, q) <= r.score)
              && exists k :: 0 <= k < |index| && index[k] == r.page && Score(index[k].tokens, q) == r.score
                   && forall j :: 0 <= j < k ==> Score(index[j].tokens, q) < r.score
  {
    var q := Tokenize(query);
    var scores := PageScores(index, q);
    var k := ArgMax(scores);
    assert index[k] == Search(index, query).value.page;
  }

  /** The snippet is the whole text when the text has no sentences; otherwise it is the
      first sentence with the highest score (the first sentence when all score 0). */
  lemma SnippetFirstBest(text: string, query: seq<string>)
    ensures Sentences(text) == [] ==> Snippet(text, query) == text
    ensures Sentences(text) != [] ==>
              exists k :: 0 <= k < |Sentences(text)| && Sentences(text)[k] == Snippet(text, query)
                && (forall j :: 0 <= j < |Sentences(text)| ==>
                      Score(Tokenize(Sentences(text)[j]), query) <= Score(Tokenize(Sentences(text)[k]), query))
                && (forall j :: 0 <= j < k ==>
                      Score(Tokenize(Sentences(text)[j]), query) < Score(Tokenize(Sentences(text)[k]), query))
  {
    var sentences := Sentences(text);
    if sentences != [] {
      var scores := SentenceScores(sentences, query);
      var k := ArgMax(scores);
      assert sentences[k] == Snippet(text, query);
    }
  }

  /** If the tokens of several texts together score, one of the texts scores on its own. */
  lemma {:induction false} SomePartScores(parts: seq<string>, query: seq<string>)
    requires Score(TokensOfAll(parts), query) > 0
    ensures Max(SentenceScores(parts, query)) > 0
    decreases |parts|
  {
    if parts == [] {
      ScoreOfNoTokens(query);
      assert false;
    }
    var scores := SentenceScores(parts, query);
    ScoreAppendTokens(Tokenize(parts[0]), TokensOfAll(parts[1..]), query);
    if scores[0] == 0 {
      SomePartScores(parts[1..], query);
      var rest := SentenceScores(parts[1..], query);
      var i := ArgMax(rest);
      assert scores[i + 1] == rest[i];
    }
  }

  /** When the winning page is well formed, its snippet is a sentence that itself matches
      the query: the page's tokens are the tokens of its sentences, so one of them scores. */
  lemma WinningSnippetMatches(index: seq<PageEntry>, query: string)
    requires forall i :: 0 <= i < |index| ==> WellFormed(index[i])
    requires Search(index, query).Some?
    ensures var r := Search(index, query).value;
              r.snippet in Sentences(r.page.text) && Score(Tokenize(r.snippet), Tokenize(query)) >= 1
  {
    var q := Tokenize(query);
    var r := Search(index, query).value;
    SearchFirstBest(index, query);
    var text := r.page.text;
    SentencesCoverTokens(text);
    assert WellFormed(r.page);
    SomePartScores(Sentences(text), q);
  }

  /** `score += filter(...).length` for each query token in turn. */
  method ScoreTokens(tokens: seq<string>, query: seq<string>) returns (score: nat)
    ensures score == Score(tokens, query)
  {
    score := 0;
    var j := 0;
    while j < |query|
      invariant 0 <= j <= |query|
      invariant score == Score(tokens, query[..j])
    {
      assert query[..j + 1][..j] == query[..j];
      score := score + CountContaining(tokens, query[j]);
      j := j + 1;
    }
    assert query[..j] == query;
  }

  /** `searchIndex`: scores every page and keeps the strictly better one, then picks the
      snippet inside the winner. */
  method SearchIndex(index: seq<PageEntry>, query: string) returns (r: Option<SearchResult>)
    ensures r == Search(index, query)
  {
    var qtokens := Tokenize(query);
    if |qtokens| == 0 {
      return None;
    }
    var best, bestScore := PickPage(index, qtokens);
    if best.None? || bestScore == 0 {
      return None;
    }
    var page := best.value;
    var snippet := PickSnippet(Sentences(page.text), page.text, qtokens);
    r := Some(SearchResult(page, snippet, bestScore));
  }

  /** The page loop of `searchIndex`: `best` is the first page with the highest score,
      and none when no page scores. */
  method PickPage(index: seq<PageEntry>, query: seq<string>) returns (best: Option<PageEntry>, bestScore: nat)
    ensures bestScore == Max(PageScores(index, query))
    ensures best.None? <==> bestScore == 0
    ensures bestScore > 0 ==> best == Some(index[ArgMax(PageScores(index, query))])
  {
    ghost var scores := PageScores(index, query);
    best := None;
    bestScore := 0;
    var i := 0;
    while i < |index|
      invariant 0 <= i <= |index|
      invariant bestScore == MaxUpTo(scores, i)
      invariant best.None? <==> bestScore == 0
      invariant bestScore > 0 ==> best == Some(index[ArgMaxUpTo(scores, i)])
    {
      var page := index[i];
      var score := ScoreTokens(page.tokens, query);
      if score > bestScore {
        bestScore := score;
        best := Some(page);
      }
      i := i + 1;
    }
  }

  /** The sentence loop of `searchIndex`: scores the sentences of the winning page and
      keeps the strictly better one, starting from the first sentence (or the text). */
  method PickSnippet(sentences: seq<string>, text: string, query: seq<string>) returns (bestSent: string)
    ensures bestSent == BestSentence(sentences, text, query)
  {
    if |sentences| == 0 {
      // `sentences[0] || best.text`, and the loop below does not run
      return text;
    }
    bestSent := sentences[0];
    var sentScore: nat := 0;
    ghost var sscores := SentenceScores(sentences, query);
    var k := 0;
    while k < |sentences|
      invariant 0 <= k <= |sentences|
      invariant sentScore == MaxUpTo(sscores, k)
      invariant k == 0 ==> bestSent == sentences[0]
      invariant k > 0 ==> bestSent == sentences[ArgMaxUpTo(sscores, k)]
    {
      var sc := ScoreTokens(Tokenize(sentences[k]), query);
      if sc > sentScore {
        sentScore := sc;
        bestSent := sentences[k];
      }
      k := k + 1;
    }
  }
}
