/** What `buildIndex` puts in the site index of `chat.js`: the text of the current page
    first, then every other site page that could be fetched, in site order. The loop
    that builds it lives in `ChatWidget.Widget.BuildIndex`; this module states what it
    builds. */
module ChatIndex {
  import opened ChatText
  import opened ChatSearch

  /** A parsed page as `collectTextFromDocument` sees it: the `textContent` of its
      `h1, h2, h3, h4, p, li, span` elements, in document order. */
  type Document = seq<string>

  /** `collectTextFromDocument`: the trimmed, non-empty element texts joined by line breaks. */
  function CollectText(doc: Document): string {
    JoinLines(TrimmedNonEmpty(doc))
  }

  /** Collecting the text of a page loses no token and makes none up. */
  lemma CollectTextTokens(doc: Document)
    ensures Tokenize(CollectText(doc)) == TokensOfAll(doc)
  {
    TokenizeJoinLines(TrimmedNonEmpty(doc));
    TrimmedCoverTokens(doc);
  }

  /** Trimming keeps no part exactly when every part is blank. */
  lemma {:induction false} NoneKept(doc: Document)
    ensures TrimmedNonEmpty(doc) == [] <==> forall i :: 0 <= i < |doc| ==> Trim(doc[i]) == []
    decreases |doc|
  {
    if doc != [] {
      NoneKept(doc[1..]);
      if Trim(doc[0]) == [] && forall i :: 0 <= i < |doc| - 1 ==> Trim(doc[1..][i]) == [] {
        forall i | 0 <= i < |doc|
          ensures Trim(doc[i]) == []
        {
          if i > 0 {
            assert doc[i] == doc[1..][i - 1];
          }
        }
      }
      if i :| 0 <= i < |doc| - 1 && Trim(doc[1..][i]) != [] {
        assert Trim(doc[i + 1]) != [];
      }
    }
  }

  /** The first kept part is not empty. */
  lemma {:induction false} FirstKeptNonEmpty(doc: Document)
    ensures TrimmedNonEmpty(doc) != [] ==> TrimmedNonEmpty(doc)[0] != []
    decreases |doc|
  {
    if doc != [] && Trim(doc[0]) == [] {
      FirstKeptNonEmpty(doc[1..]);
    }
  }

  /** A page has no text exactly when each of its elements is blank. */
  lemma CollectTextEmpty(doc: Document)
    ensures CollectText(doc) == [] <==> forall i :: 0 <= i < |doc| ==> Trim(doc[i]) == []
  {
    NoneKept(doc);
    FirstKeptNonEmpty(doc);
    var parts := TrimmedNonEmpty(doc);
    if parts != [] {
      assert |JoinLines(parts)| >= |parts[0]|;
    }
  }

  /** `SITE_PAGES`, and the page the widget runs on. */
  const SitePages: seq<string> := ["index.html", "about.html", "projects.html", "contact.html"]
  const HomePage: string := "index.html"

  /** `s.replace(pat, '')` with a string pattern: only the first occurrence goes. */
  function RemoveFirst(s: string, pat: string): (r: string)
    ensures |r| <= |s|
    decreases |s|
  {
    if StartsWith(s, pat) then s[|pat|..]
    else if s == [] then []
    else [s[0]] + RemoveFirst(s[1..], pat)
  }

  /** Without an occurrence, nothing is removed. */
  lemma {:induction false} RemoveFirstAbsent(s: string, pat: string)
    requires !Includes(s, pat)
    ensures RemoveFirst(s, pat) == s
    decreases |s|
  {
    if s != [] {
      RemoveFirstAbsent(s[1..], pat);
      assert [s[0]] + s[1..] == s;
    }
  }

  /** A non-empty pattern put after a text that lacks its first character is removed
      whole, and only it. */
  lemma {:induction false} RemoveFirstSuffix(b: string, pat: string)
    requires pat != [] && pat[0] !in b
    ensures RemoveFirst(b + pat, pat) == b
    decreases |b|
  {
    if b == [] {
      assert b + pat == pat;
      assert StartsWith(pat, pat);
    } else {
      assert (b + pat)[0] == b[0] != pat[0];
      assert (b + pat)[1..] == b[1..] + pat;
      RemoveFirstSuffix(b[1..], pat);
    }
  }

  /** The source label of a fetched page, `p.replace('.html', '')`. */
  function PageName(url: string): string {
    RemoveFirst(url, ".html")
  }

  /** The labels of the site pages after the home page, in site order. */
  const SiteLabels: seq<string> := ["about", "projects", "contact"]

  /** The label of each site page after the home page is its file name without the
      extension. */
  lemma SitePageName(i: nat)
    requires 1 <= i < |SitePages|
    ensures PageName(SitePages[i]) == SiteLabels[i - 1]
    ensures SitePages[i] == SiteLabels[i - 1] + ".html"
  {
    var name := SiteLabels[i - 1];
    RemoveFirstSuffix(name, ".html");
    assert name + ".html" == SitePages[i];
  }

  /** Each of `tokens` is a non-empty run of allowed lower-case characters. */
  ghost predicate LowerTokens(tokens: seq<string>) {
    forall i :: 0 <= i < |tokens| ==>
      IsToken(tokens[i]) && forall j :: 0 <= j < |tokens[i]| ==> Lower(tokens[i][j]) == tokens[i][j]
  }

  /** An index entry, `{ source, url, text, tokens: tokenize(text) }`: it keeps its label,
      address and text, carries the tokens of its own text, and each of those is a
      non-empty run of allowed lower-case characters. */
  function Entry(source: string, url: string, text: string): (e: PageEntry)
    ensures e.source == source && e.url == url && e.text == text && WellFormed(e)
    ensures LowerTokens(e.tokens)
  {
    TokenCharacters(text);
    PageEntry(source, url, text, Tokenize(text))
  }

  /** The first entry: the text of the page the widget runs on. */
  function HomeEntry(current: Document): PageEntry {
    Entry("Kreu", HomePage, CollectText(current))
  }

  /** The entry a page adds: none for the home page, which is never fetched, and none
      when the fetch fails; `server` maps the address of each page that fetches with an
      `ok` response to its parsed document. */
  function FetchedEntry(p: string, server: map<string, Document>): seq<PageEntry> {
    if p == HomePage || p !in server then [] else [Entry(PageName(p), p, CollectText(server[p]))]
  }

  /** The entries the fetch loop adds for the first `n` pages of `pages`. */
  function FetchedUpTo(pages: seq<string>, n: nat, server: map<string, Document>): seq<PageEntry>
    requires n <= |pages|
  {
    if n == 0 then [] else FetchedUpTo(pages, n - 1, server) + FetchedEntry(pages[n - 1], server)
  }

  /** The addresses the fetch loop requests for the first `n` pages of `pages`. */
  function RequestedUpTo(pages: seq<string>, n: nat): seq<string>
    requires n <= |pages|
  {
    if n == 0 then [] else RequestedUpTo(pages, n - 1) + (if pages[n - 1] == HomePage then [] else [pages[n - 1]])
  }

  /** The index `buildIndex` leaves behind. */
  function BuiltIndex(current: Document, server: map<string, Document>): seq<PageEntry> {
    [HomeEntry(current)] + FetchedUpTo(SitePages, |SitePages|, server)
  }

  /** Every fetched entry comes from a page of `pages` other than the home page that the
      server answered, and carries that page's label and text. */
  lemma {:induction false} FetchedSound(pages: seq<string>, n: nat, server: map<string, Document>)
    requires n <= |pages|
    ensures forall k :: 0 <= k < |FetchedUpTo(pages, n, server)| ==>
              var e := FetchedUpTo(pages, n, server)[k];
              && e.url in pages[..n] && e.url != HomePage && e.url in server
              && e == Entry(PageName(e.url), e.url, CollectText(server[e.url]))
  {
    if n > 0 {
      FetchedSound(pages, n - 1, server);
      assert pages[..n - 1] == pages[..n][..n - 1];
      assert pages[n - 1] == pages[..n][n - 1];
    }
  }

  /** Every page other than the home page that the server answers gets an entry. */
  lemma {:induction false} FetchedComplete(pages: seq<string>, n: nat, server: map<string, Document>, i: nat)
    requires i < n <= |pages|
    requires pages[i] != HomePage && pages[i] in server
    ensures exists k :: 0 <= k < |FetchedUpTo(pages, n, server)| && FetchedUpTo(pages, n, server)[k].url == pages[i]
  {
    var before := FetchedUpTo(pages, n - 1, server);
    var all := FetchedUpTo(pages, n, server);
    if i == n - 1 {
      assert all[|before|].url == pages[i];
    } else {
      FetchedComplete(pages, n - 1, server, i);
      var k :| 0 <= k < |before| && before[k].url == pages[i];
      assert all[k] == before[k];
    }
  }

  /** The fetch loop adds the entries of the three pages after the home page, in order. */
  lemma FetchedSitePages(server: map<string, Document>)
    ensures FetchedUpTo(SitePages, |SitePages|, server)
              == FetchedEntry(SitePages[1], server) + FetchedEntry(SitePages[2], server) + FetchedEntry(SitePages[3], server)
  {
    assert FetchedUpTo(SitePages, 1, server) == [];
    assert FetchedUpTo(SitePages, 2, server) == FetchedEntry(SitePages[1], server);
  }

  /** Each site page after the home page adds one entry, under its label, when the server
      answers it, and none otherwise. */
  lemma SitePageEntry(i: nat, server: map<string, Document>)
    requires 1 <= i < |SitePages|
    ensures FetchedEntry(SitePages[i], server)
              == if SitePages[i] in server
                 then [Entry(SiteLabels[i - 1], SitePages[i], CollectText(server[SitePages[i]]))]
                 else []
  {
    SitePageName(i);
  }

  /** The built index: the home entry, then about, projects and contact each when the
      server answered it, in that order, with the file name without `.html` as the label. */
  lemma BuiltIndexPages(current: Document, server: map<string, Document>)
    ensures BuiltIndex(current, server) ==
              [Entry("Kreu", "index.html", CollectText(current))]
              + (if "about.html" in server then [Entry("about", "about.html", CollectText(server["about.html"]))] else [])
              + (if "projects.html" in server then [Entry("projects", "projects.html", CollectText(server["projects.html"]))] else [])
              + (if "contact.html" in server then [Entry("contact", "contact.html", CollectText(server["contact.html"]))] else [])
  {
    var about, projects, contact := FetchedEntry(SitePages[1], server), FetchedEntry(SitePages[2], server), FetchedEntry(SitePages[3], server);
    FetchedSitePages(server);
    assert BuiltIndex(current, server) == [HomeEntry(current)] + about + projects + contact;
    SitePageName(1);
    SitePageName(2);
    SitePageName(3);
  }

  /** The fetch loop asks for every site page but the home page, in site order. */
  lemma RequestedPages()
    ensures RequestedUpTo(SitePages, |SitePages|) == ["about.html", "projects.html", "contact.html"]
    ensures HomePage !in RequestedUpTo(SitePages, |SitePages|)
  {
    assert RequestedUpTo(SitePages, 1) == [];
    assert RequestedUpTo(SitePages, 2) == ["about.html"];
    assert RequestedUpTo(SitePages, 3) == ["about.html", "projects.html"];
  }

  /** Every entry of a built index is well formed, so the search sees each page's own
      tokens; and the index is never empty. */
  lemma BuiltIndexWellFormed(current: Document, server: map<string, Document>)
    ensures BuiltIndex(current, server) != []
    ensures forall i :: 0 <= i < |BuiltIndex(current, server)| ==> WellFormed(BuiltIndex(current, server)[i])
  {
    FetchedSound(SitePages, |SitePages|, server);
  }
}
