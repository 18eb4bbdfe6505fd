# Portfolio site: chat assistant and page interactions

This project models the two scripts that carry the logic of a static portfolio site.

**The chat widget (`chat.js`).** It keeps a log of messages in local storage. When the log is empty on boot, it greets the visitor. Each message the visitor sends is answered by a simulated bot:

- On the first answer, the bot builds a small index of the site. The index holds the text of the current page first, then every other site page that could be fetched.
- It scores the message's tokens against every page and takes the first page with the highest score.
- From that page it picks the best-matching sentence as the snippet, and answers with the snippet and the page's address.
- When no page matches, it falls back to fixed keyword answers, tried in priority order.
- The answer arrives after a typing delay that grows with the length of the message.

**The portfolio page (`portfolio-script.js`).** This part covers:

- the dark/light theme toggle and the theme the page starts with;
- the greeting chosen by hour and language;
- the project filter;
- the ten-point cursor trail;
- the mobile menu;
- the single ripple of a clicked button;
- the contact modal.

Modules:

- `Wrappers`: `Option`.
- `ChatText`: the tokenizer, `trim`, `includes`, the sentence split and the line join, with the lemmas that relate them.
- `ChatSearch`: page and sentence scores, and `searchIndex`. This is a specification function `Search` and the method `SearchIndex`, which is proved to compute it. `SearchIndex` has no loop of its own; it calls three loops, each proved against its own specification: `PickPage` gives the highest page score and the first page reaching it (`MaxUpTo` and `ArgMaxUpTo` of `PageScores`), `PickSnippet` gives `BestSentence`, and `ScoreTokens`, which both of them call, gives `Score`.
- `ChatReplies`: `decideReply`, the bot's answer text, the typing delay, and the boot greeting.
- `ChatIndex`: what `collectTextFromDocument` and `buildIndex` produce.
- `ChatWidget`: the class `Widget` with the message log, the stored copy of the log and the site index. Its methods are `load`, `save`, `pushMessage`, `buildIndex`, `simulateBotReply`, `sendText` and the image upload.
- `Portfolio`: the rules of `portfolio-script.js`. The classes `Theme`, `ProjectFilter`, `CursorTrail`, `MobileMenu`, `RippleButton` and `ContactModal` hold the state each handler changes.

Inputs from the host become parameters:

- The page being read is a `Document`: the text contents of its `h1, h2, h3, h4, p, li, span` elements, in document order.
- The network is a map `server` from each address that fetches with an `ok` response to its parsed document. An address missing from the map stands for every kind of failure.
- Local storage is a `Stored` value: absent, unparsable, or a saved log.
- The hour, the stored language, the saved theme, the colour-scheme preference, the window width, the mouse position, the clock and the button size are arguments.

`decideReply` answers with the clarification request only for the empty text (`if(!text)`). A message of spaces is not empty, so the keyword rules answer it. The model follows the code here; `ChatReplies.BlankIsNotClarified` states it.

## Model

| member | source | states |
|---|---|---|
| ChatText.Tokenize | chat.js:32 | the tokenizer, a definition: `TokenCharacters`, `TokenizeNothing`, `TokenizeSplit` and `TokenizeTrim` state its properties |
| ChatText.Allowed | chat.js:32 | the character class the tokenizer keeps, a definition: `TokenCharacters` and `TokenizeNothing` state what it means for the tokens |
| ChatText.Lowercase | chat.js:32 | `toLowerCase` character by character: the result is as long as the text; `Lower` states what each character becomes, and `LowercaseSplit` that lowering goes character by character |
| ChatText.Lower | chat.js:32 | lowering changes exactly the capitals it knows, and their lower forms have no further lower form |
| ChatText.TokenCharacters | chat.js:32 | every token is non-empty, and each of its characters is in the tokenizer's allowed class, is lower case and is not whitespace |
| ChatText.TokenizeNothing | chat.js:32 | a text with no allowed character, the empty text included, has no tokens |
| ChatText.TokenizeMaybe | chat.js:32 | a missing argument has no tokens, a present one has the tokens of its text |
| ChatText.TokenizeSplit | chat.js:32 | a whitespace or sentence-end character splits the tokens: the tokens of `a + [c] + b` are those of `a` followed by those of `b` |
| ChatText.IsWhitespace | chat.js:32 | the characters `trim` removes and `\s` matches, a definition: `TrimSlice`, `TrimEnds` and `TokenizeSplit` state what it means for trimming and tokens |
| ChatText.Trim | chat.js:150 | `trim`, a definition: `TrimSlice`, `TrimEnds` and `TrimKeeps` state its properties |
| ChatText.TrimStart | chat.js:150 | removes a prefix made only of whitespace and leaves a text that is empty or starts with a non-whitespace character |
| ChatText.TrimEnd | chat.js:150 | removes a suffix made only of whitespace and leaves a text that is empty or ends with a non-whitespace character |
| ChatText.TrimSlice | chat.js:150-151 | `trim` returns a contiguous slice of its input, and everything before and after the slice is whitespace |
| ChatText.TrimEnds | chat.js:150-151 | a trimmed text is empty or has no whitespace at either end |
| ChatText.TrimKeeps | chat.js:60 | trimming adds no character |
| ChatText.TokenizeTrim | chat.js:60 | trimming does not change the tokens of a text |
| ChatText.Includes | chat.js:70 | `includes`, a definition: `IncludesAt` states what it means |
| ChatText.IncludesAt | chat.js:70 | `includes` holds exactly when the word occurs at some position, in both directions |
| ChatText.IsSentenceEnd | chat.js:75 | the class `[.!?\n]` the sentence split breaks on, a definition: `Pieces`, `SentencesShape` and `TokenizeSplit` state its properties |
| ChatText.TrimmedNonEmpty | chat.js:60 | `map(trim).filter(Boolean)`: keeps at most as many parts as it gets; `TrimmedNonEmptyParts` and `ChatIndex.NoneKept` state its properties |
| ChatText.Sentences | chat.js:75 | the sentence split, a definition: `SentencesShape` and `SentencesCoverTokens` state its properties |
| ChatText.Pieces | chat.js:75 | no piece of the sentence split holds a sentence end |
| ChatText.TrimmedNonEmptyParts | chat.js:75 | each part kept by `map(trim).filter(Boolean)` is non-empty, has no whitespace at either end, and holds no character that no input part held |
| ChatText.SentencesShape | chat.js:75 | each sentence is non-empty and trimmed, and holds none of `.`, `!`, `?` and the line break |
| ChatText.SentencesCoverTokens | chat.js:75-80 | the tokens of a text are the tokens of its sentences, in order |
| ChatText.JoinLines | chat.js:61 | `join('\n')`, a definition: `TokenizeJoinLines` states its property |
| ChatText.TokenizeJoinLines | chat.js:61 | the tokens of texts joined by line breaks are the tokens of the texts, in order |
| ChatSearch.CountContaining | chat.js:70 | counts at most as many tokens as there are; `CountContainingAppend` states how counts add up |
| ChatSearch.CountContainingAppend | chat.js:70 | the count of tokens containing a word adds up over two token sequences |
| ChatSearch.Score | chat.js:69-70 | a page's score, a definition: `ScoreOfNoTokens`, `ScoreAppendTokens`, `ScoreAppendQuery` and the two `ScoreMonotone` lemmas state its properties, and `ScoreTokens` computes it |
| ChatSearch.ScoreOfNoTokens | chat.js:69-70 | a page with no tokens scores 0 against every query |
| ChatSearch.ScoreAppendTokens | chat.js:69-70 | the score of two token sequences put together is the sum of their scores |
| ChatSearch.ScoreAppendQuery | chat.js:69-70 | the score against two query sequences put together is the sum of the scores, since query tokens count with repetition |
| ChatSearch.ScoreMonotoneInTokens | chat.js:69-70 | adding tokens to a page, on either side, never lowers its score |
| ChatSearch.ScoreMonotoneInQuery | chat.js:69-70 | adding or repeating a query token never lowers a score, and a repeated first token counts twice |
| ChatSearch.MaxUpTo | chat.js:67-72 | the running best score bounds every score seen so far, and is 0 before any |
| ChatSearch.ArgMaxUpTo | chat.js:67-72 | the running winner reaches the best score, and every earlier position scores strictly less: ties go to the first |
| ChatSearch.PageScores | chat.js:68-70 | built page by page; the proof that each position holds the score of that page's tokens rests on the contract of the recursive call |
| ChatSearch.SentenceScores | chat.js:78-80 | built sentence by sentence; the proof that each position holds the score counted on the tokens of that sentence rests on the contract of the recursive call |
| ChatSearch.Search | chat.js:64-84 | `searchIndex` as a specification, a definition: `SearchNone`, `SearchFirstBest` and `WinningSnippetMatches` state its properties, and `SearchIndex` computes it |
| ChatSearch.Snippet | chat.js:75-82 | the snippet of a found page, a definition: `SnippetFirstBest` states its property, and `PickSnippet` computes it |
| ChatSearch.BestSentence | chat.js:75-82 | the first best sentence with its fallback, a definition: `SnippetFirstBest` states its property |
| ChatSearch.SearchNone | chat.js:65-73 | the search finds nothing exactly when the query has no tokens or no page scores above 0 |
| ChatSearch.SearchFirstBest | chat.js:67-73 | a found result has score at least 1, no page scores more, and its page is the first page in index order that reaches the score |
| ChatSearch.SnippetFirstBest | chat.js:75-82 | the snippet is the whole text when there are no sentences; otherwise it is the first sentence with the highest score, which is the first sentence when none scores |
| ChatSearch.SomePartScores | chat.js:78-81 | when the tokens of several texts taken together score, one of the texts scores on its own |
| ChatSearch.WinningSnippetMatches | chat.js:68-82 | on a well-formed index, the snippet of a found page is one of its sentences and itself matches the query |
| ChatSearch.ScoreTokens | chat.js:69-70 | the inner loop computes the page score |
| ChatSearch.PickPage | chat.js:67-72 | the page loop ends with the highest page score and, when that is positive, the first page reaching it; no page exactly when nothing scores |
| ChatSearch.PickSnippet | chat.js:75-82 | the sentence loop ends with the first best sentence, or with the text when there are no sentences |
| ChatSearch.SearchIndex | chat.js:64-84 | `searchIndex` returns what `Search` specifies |
| ChatReplies.MentionsAny | chat.js:142-145 | the alternation tests `/…/.test(t)` of the keyword rules, a definition: `MentionsAnyWord` states what it means |
| ChatReplies.MentionsAnyWord | chat.js:142-145 | an alternation of words matches exactly when one of its words occurs in the text |
| ChatReplies.ContactIsKontakt | chat.js:145 | the contact pattern matches exactly the texts that contain `kontakt` |
| ChatReplies.RepliesDistinct | chat.js:140-146 | the six answers are pairwise different |
| ChatReplies.DecideReply | chat.js:139-147 | `decideReply`, a definition: `DecideReplyPriority` and the quick-reply lemmas state its properties |
| ChatReplies.DecideReplyPriority | chat.js:139-147 | each answer is given exactly for the texts routed to it: empty text gets the clarification; otherwise pricing, greeting, portfolio and contact are tried in that order and the first match wins; thanks when none matches |
| ChatReplies.PricesQuickReply | chat.js:142 | the quick reply `Çmimet` gets the pricing answer from the keyword rules |
| ChatReplies.ProjectsQuickReply | chat.js:144 | the quick reply `Projektet` gets the portfolio answer |
| ChatReplies.ContactQuickReply | chat.js:145 | the quick reply `Kontakt` gets the contact answer |
| ChatReplies.ImageIsThanked | chat.js:170 | an uploaded image, answered as the text `image`, gets the thank-you answer from the keyword rules |
| ChatReplies.BlankIsNotClarified | chat.js:140 | a message of one space is not empty, so the keyword rules answer it (with thanks) |
| ChatReplies.BotReply | chat.js:127-135 | the bot's answer, a definition: `BotReplyCites` and `EmptyIndexFallsBack` state its properties |
| ChatReplies.BotReplyCites | chat.js:127-135 | a site-aware answer starts with the snippet and ends with the address of the page; without a result the answer is `decideReply`'s |
| ChatReplies.EmptyIndexFallsBack | chat.js:127-134 | on an empty index the answer is always the keyword answer |
| ChatReplies.Utf16Length | chat.js:120 | `length` counts UTF-16 code units: at least one and at most two per character |
| ChatReplies.Utf16LengthAppend | chat.js:120 | the length of two texts put together is the sum of their lengths |
| ChatReplies.ReplyDelay | chat.js:120 | the typing delay lies between 600 and 1800 milliseconds |
| ChatReplies.ReplyDelayShape | chat.js:120 | the delay is 600 plus 15 per code unit up to 80 units, and is 1800 exactly from 80 units on; a longer message never waits less |
| ChatReplies.BootGreetingAsWrittenBreaksLine | chat.js:205 | the boot greeting as written differs from the intended one only in one character: a line break where `ë` of `të` belongs |
| ChatReplies.BootGreetingSpelling | chat.js:205 | the intended boot greeting spells `të ` as the greeting answer at chat.js:143 does |
| ChatIndex.CollectText | chat.js:57-62 | `collectTextFromDocument`, a definition: `CollectTextTokens` and `CollectTextEmpty` state its properties |
| ChatIndex.CollectTextTokens | chat.js:57-62 | the collected text of a page has exactly the tokens of its element texts, in order |
| ChatIndex.NoneKept | chat.js:60 | no element text is kept exactly when every element text trims to empty |
| ChatIndex.FirstKeptNonEmpty | chat.js:60 | the first kept element text is not empty |
| ChatIndex.CollectTextEmpty | chat.js:57-62 | a page has no collected text exactly when each of its elements is blank |
| ChatIndex.RemoveFirst | chat.js:52 | `replace` with a string pattern never lengthens the text |
| ChatIndex.RemoveFirstAbsent | chat.js:52 | without an occurrence of the pattern, `replace` changes nothing |
| ChatIndex.RemoveFirstSuffix | chat.js:52 | a pattern appended to a text that lacks its first character is removed whole, and nothing else is |
| ChatIndex.PageName | chat.js:52 | the source label of a fetched page, a definition: `SitePageName` states its values |
| ChatIndex.SitePageName | chat.js:52 | the label of each of `about.html`, `projects.html` and `contact.html` is its file name without `.html` |
| ChatIndex.Entry | chat.js:39-52 | each token of an entry is a non-empty run of allowed lower-case characters, and the entry keeps its label, address and text |
| ChatIndex.HomeEntry | chat.js:38-39 | the `Kreu` entry of the current page, a definition: `BuiltIndexPages` and `BuiltIndexWellFormed` state its place and shape |
| ChatIndex.FetchedUpTo | chat.js:43-54 | the entries the fetch loop adds, a definition: `FetchedSound`, `FetchedComplete` and `FetchedSitePages` state its properties, and `ChatWidget.Widget.FetchPages` computes it |
| ChatIndex.RequestedUpTo | chat.js:43-46 | the addresses the fetch loop requests, a definition: `RequestedPages` states its value, and `ChatWidget.Widget.FetchPages` computes it |
| ChatIndex.FetchedEntry | chat.js:44-53 | the entry one page of the fetch loop adds, a definition: `SitePageEntry` states its values |
| ChatIndex.FetchedSound | chat.js:43-53 | every fetched entry comes from a site page other than `index.html` that the server answered, and carries that page's label and collected text |
| ChatIndex.FetchedComplete | chat.js:43-53 | every site page other than `index.html` that the server answers gets an entry |
| ChatIndex.FetchedSitePages | chat.js:43-54 | the fetch loop adds the entries of `about.html`, `projects.html` and `contact.html`, in that order |
| ChatIndex.SitePageEntry | chat.js:46-52 | each of `about.html`, `projects.html` and `contact.html` adds one entry under its label when the server answers it, and none otherwise |
| ChatIndex.BuiltIndex | chat.js:34-55 | the index `buildIndex` leaves, a definition: `BuiltIndexPages`, `BuiltIndexWellFormed`, `FetchedSound` and `FetchedComplete` state its properties, and `ChatWidget.Widget.BuildIndex` computes it |
| ChatIndex.BuiltIndexPages | chat.js:34-55 | the built index is the `Kreu` entry for `index.html`, then the entries of the answered pages among about, projects and contact, in that order |
| ChatIndex.RequestedPages | chat.js:43-46 | the fetch loop requests about, projects and contact, in that order, and never `index.html` |
| ChatIndex.BuiltIndexWellFormed | chat.js:39-52 | a built index is never empty, and each of its entries carries the tokens of its own text |
| ChatWidget.Loaded | chat.js:24-26 | missing or unparsable storage loads as the empty log |
| ChatWidget.SaveThenLoad | chat.js:23-26 | what `save` writes, `load` reads back |
| ChatWidget.Widget.constructor | chat.js:204-205 | after boot the log is the stored log when that is non-empty, and otherwise the single greeting message; the log is never empty |
| ChatWidget.Widget.Load | chat.js:24-26 | `load` sets the log to what storage holds |
| ChatWidget.Widget.Save | chat.js:23 | `save` stores the current log |
| ChatWidget.Widget.PushMessage | chat.js:113-116 | appends exactly one message with its sender, keeps every earlier message, and saves the log, so storage holds the new log whenever writing to storage succeeds |
| ChatWidget.Widget.BuildIndex | chat.js:34-55 | resets the index and leaves exactly the built index; it requests about, projects and contact, and changes neither the log nor storage |
| ChatWidget.Widget.FetchPages | chat.js:43-54 | the fetch loop appends the entries of the answered pages in order and requests every page other than `index.html` |
| ChatWidget.Widget.SimulateBotReply | chat.js:118-137 | builds the index only when it is empty, appends exactly one bot message holding the site-aware or keyword answer, and returns the typing delay |
| ChatWidget.Widget.SendText | chat.js:149-154 | blank text changes nothing; otherwise it appends the trimmed text as the visitor's message, then the bot's answer to the text as typed; the index is built, with its three requests, exactly when it was empty, and left as it was otherwise |
| ChatWidget.Widget.SendImage | chat.js:168-172 | the image is logged as the visitor's message, then the bot answers the text `image`; the index is built, with its three requests, exactly when it was empty, and left as it was otherwise |
| Portfolio.InitialTheme | portfolio-script.js:32-36 | the starting theme is the saved one when that is non-empty; otherwise it is dark exactly when the system prefers dark |
| Portfolio.NextTheme | portfolio-script.js:40-41 | a click switches to dark exactly from a theme that is not dark, and the result is dark or light |
| Portfolio.ThemeRoundTrip | portfolio-script.js:39-44 | two clicks restore the theme, and the saved theme is the one the next load starts with, whatever the system prefers |
| Portfolio.Theme.Current | portfolio-script.js:40 | the theme read back from the page is dark or light |
| Portfolio.Theme.constructor | portfolio-script.js:32-36 | start-up shows the initial theme with the matching label |
| Portfolio.Theme.ApplyTheme | portfolio-script.js:22-30 | `dark` sets the attribute and the moon label; any other value removes the attribute and shows the sun; the page then reads dark exactly when the argument was `dark` |
| Portfolio.Theme.Click | portfolio-script.js:39-44 | a click shows the other theme, with its label, and saves it |
| Portfolio.PeriodOf | portfolio-script.js:130-139 | morning before 12, afternoon from 12 to before 18, evening from 18 |
| Portfolio.GreetingIn | portfolio-script.js:129-140 | the table has a non-empty greeting for exactly the ten listed languages |
| Portfolio.Greeting | portfolio-script.js:124-145 | the greeting shown is never empty |
| Portfolio.GreetingFallback | portfolio-script.js:127-143 | a listed language gets its own greeting; any other stored value, an empty one, and no value all get the Albanian greeting |
| Portfolio.AlbanianGreetings | portfolio-script.js:130 | the Albanian greetings by hour: before 12, before 18, and after |
| Portfolio.Shown | portfolio-script.js:108 | the filter condition, a definition: `FilterSelects` states what it selects |
| Portfolio.FilterSelects | portfolio-script.js:108 | the `all` filter shows every card; any other filter shows exactly the cards whose category equals it |
| Portfolio.ProjectFilter.constructor | portfolio-script.js:93-94 | the buttons and cards as the page has them, every card displayed |
| Portfolio.ProjectFilter.Click | portfolio-script.js:96-121 | after a click exactly the clicked button is active, and exactly the cards the filter selects are displayed |
| Portfolio.LastN | portfolio-script.js:279-287 | the last `n` elements, in order, or all of them when there are fewer |
| Portfolio.LastNPush | portfolio-script.js:283-287 | pushing one point appends it to the last ten and drops the oldest of them when there were already ten |
| Portfolio.CursorTrail.constructor | portfolio-script.js:278-279 | the trail starts empty |
| Portfolio.CursorTrail.OnMouseMove | portfolio-script.js:281-287 | on a window wider than 968 the point is pushed last and only the oldest point goes once there are more than ten; the trail is always the last ten accepted points; a narrow window changes nothing |
| Portfolio.MobileMenu.constructor | portfolio-script.js:3-4 | neither the button nor the list starts `active`, so the two start in step |
| Portfolio.MobileMenu.Toggle | portfolio-script.js:16-19 | a click flips both `active` classes, so a button and list in step stay in step |
| Portfolio.MobileMenu.LinkClick | portfolio-script.js:51-56 | a link click clears both `active` classes |
| Portfolio.RemoveFirstRipple | portfolio-script.js:259-262 | drops the first ripple, a definition: `RemoveFirstRippleCount` states its property |
| Portfolio.RippleCount | portfolio-script.js:259 | a button has no more ripples than children |
| Portfolio.RemoveFirstRippleCount | portfolio-script.js:259-262 | removing the first ripple takes away exactly one ripple when there is one, keeps every other child, and changes nothing when there is none |
| Portfolio.RippleCountAppend | portfolio-script.js:264 | ripples add up over children put together |
| Portfolio.RippleButton.constructor | portfolio-script.js:267-269 | a button with the children it has |
| Portfolio.RippleButton.CreateRipple | portfolio-script.js:248-265 | drops the first ripple and appends one as wide as the larger side; a button with at most one ripple ends with exactly one |
| Portfolio.ContactModal.constructor | portfolio-script.js:340-345 | the modal as the page has it, page scrolling on and focus unmoved |
| Portfolio.ContactModal.Open | portfolio-script.js:347-353 | opening shows the modal, stops page scrolling and focuses the first action when there is one |
| Portfolio.ContactModal.Close | portfolio-script.js:355-359 | closing hides the modal, restores page scrolling and focuses the contact button |
| Portfolio.ContactModal.KeyDown | portfolio-script.js:369-373 | Escape closes an open modal; any other key, or Escape on a closed modal, changes nothing |

## Left out

- DOM rendering and scrolling are not modelled: `render`, `scrollToBottom`, `isNearBottom`, `appendTyping` and the quick-reply buttons. The quick-reply labels are kept, as `QuickItems`.
- Opening, closing and minimising the chat widget (chat.js:178-180) set `isOpen`, switch the widget's class, the launcher's display and `aria-hidden`, and opening also re-renders and focuses the input; they are left out.
- The chat script's own navigation toggle (chat.js:182-188) and the draggable header (chat.js:190-201) are drag handling and class switching; they are left out.
- Timers and `await` are not modelled. The bot's answer is appended at once, and the delay itself is returned as a number. Three interleavings go with them:
  - A visitor's message sent while an answer is pending lands in the source's log before that answer: chat.js:151 runs at once, chat.js:130-134 only inside the timer. `SendText` always puts its answer right after its own message.
  - `buildIndex` pushes the `Kreu` entry (chat.js:39) before its first `await` (chat.js:46). A message sent while the other pages are still being fetched finds a non-empty index (chat.js:122) and skips the build. Its search runs in its timer callback 600 to 1800 ms later (chat.js:124-127) and may find an index that still lacks the fetched pages.
  - A second filter click within 300 ms can have its displayed cards hidden by the first click's `display = "none"` timer (portfolio-script.js:115-117).
- `fetch`, `DOMParser`, `FileReader` and JSON are left out. A failed fetch, a non-`ok` response and a parser error are all one case: an address missing from `server`.
- A stored value that parses to a falsy value (`null`, `0`, `false`, `""`) loads as the empty log through `|| []` (chat.js:25), which is what `Absent` and `Malformed` give, so the model stands for it by either. A stored value that parses to a truthy non-array, such as `{}`, `1`, `true` or `"x"`, is not modelled; `Stored` has only absent, unparsable and a saved log. With such a value the source's boot `render()` throws at `messages.forEach` (chat.js:95, called at chat.js:204), so the greeting of chat.js:205 is never pushed, and every later `pushMessage` throws at `messages.push` (chat.js:115), so no message is sent or answered.
- ChatWidget.Widget.constructor: boots with the corrected greeting `BootGreeting` (`të`), not the text chat.js:205 pushes (`t` and a line break); the Findings section states both.
- ChatWidget.Widget.PushMessage: assumes writing to storage succeeds. `localStorage.setItem` (chat.js:23) can throw, for instance when the quota is full of image data addresses. Then `pushMessage` (chat.js:115) leaves the log one message ahead of storage, and `sendText` (chat.js:151-153) and the image handler (chat.js:170) stop before `simulateBotReply`.
- Lower: covers ASCII, Latin-1 and the capitals of the accented letters the tokenizer keeps. Every other character is treated as its own lower case. Multi-character lower forms, such as that of `İ`, are not modelled.
- Greeting: ignores keys inherited by the object `greetings`, such as `constructor`, which the source would find in the table.
- Theme: assumes the toggle button exists. Without it, the source changes only the attribute.
- The theme code's `try`/`catch` around storage errors is left out.
- Cursor-dot drawing, opacity, size and the 500 ms fade are floating-point visuals; they are left out.
- The ripple's `left`/`top` offsets are left out. The ripples of a button are modelled as its direct children, while `getElementsByClassName` also finds deeper descendants.
- Portfolio.MobileMenu.constructor: neither the menu button nor the list starting `active` comes from the page's markup, which is not part of this model, and is assumed; `MobileMenu.Toggle` keeps the two in step whenever they start in step.
- Portfolio.ProjectFilter.constructor: every card starting displayed comes from the page's markup and is assumed.
- Portfolio.ContactModal.constructor: page scrolling on and focus unmoved at start come from the page's markup and are assumed.
- The contact modal is modelled as if the contact button and the modal exist. Without either, portfolio-script.js:345 installs no handler at all.
- The contact modal's e-mail and WhatsApp fallbacks and its action links' navigation are left out. Closing from the overlay, the close button and the actions is `Close`.
- Scroll effects, smooth scrolling, the intersection observer, the card tilt, the stagger delays and `typeWriter` are decorative; they are left out.

## Findings

| source | as written | input that shows it | evidently intended | confidence | as-written member | corrected member |
|---|---|---|---|---|---|---|
| chat.js:205 | the boot greeting spells `t\u000a ndihmoj`, a line break | on any boot with an empty log, the greeting message's text holds a line break in place of `ë`; how it renders depends on the page's CSS | `t\u00eb`, that is `të`, as the answers at chat.js:143 and chat.js:146 spell it | not executed | ChatReplies.BootGreetingAsWrittenBreaksLine | ChatReplies.BootGreetingSpelling |
