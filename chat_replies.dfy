/** The simulated bot's answers in `chat.js`: the keyword fallback `decideReply`, the
    reply chosen in `simulateBotReply`, its typing delay, and the boot greeting. */
module ChatReplies {
  import opened Wrappers
  import opened ChatText
  import opened ChatSearch

  const ClarifyReply: string := "Mund ta shpjegoni pak më shumë?"
  const PricingReply: string := "Shërbimet fillojnë nga 80€ — shkruaj \"Çmimet\" për më shumë detaje."
  const GreetingReply: string := "Përshëndetje! Si mund të ju ndihmoj sot?"
  const PortfolioReply: string := "Mund të shikoni portofolin te seksioni \"Projektet\" në sit."
  const ContactReply: string := "Mund të më shkruani këtu ose të përdorni formularin në Kontakt."
  const ThanksReply: string := "Faleminderit për mesazhin! Do ta shqyrtoj dhe do të përgjigjem së shpejti."

  /** The alternatives of the four keyword patterns, in the order they are tried. */
  const PricingWords: seq<string> := ["price", "çmim", "sa", "kost"]
  const GreetingWords: seq<string> := ["hello", "hi", "pershendetje", "hej"]
  const PortfolioWords: seq<string> := ["portfolio", "projek"]
  const ContactWords: seq<string> := ["kontakt", "kontaktimi", "kontaktoj"]

  /** The three quick-reply buttons, each of which sends its label as a message. */
  const QuickItems: seq<string> := ["Çmimet", "Projektet", "Kontakt"]

  /** `/a|b|c/.test(t)`: some alternative occurs in `t`. */
  predicate MentionsAny(t: string, words: seq<string>)
    decreases |words|
  {
    words != [] && (Includes(t, words[0]) || MentionsAny(t, words[1..]))
  }

  /** An alternation matches exactly when one of its words occurs, whichever it is. */
  lemma {:induction false} MentionsAnyWord(t: string, words: seq<string>)
    ensures MentionsAny(t, words) <==> exists i :: 0 <= i < |words| && Includes(t, words[i])
    decreases |words|
  {
    if words != [] {
      MentionsAnyWord(t, words[1..]);
      if i :| 1 <= i < |words| && Includes(t, words[i]) {
        assert words[1..][i - 1] == words[i];
      }
      if i :| 0 <= i < |words| - 1 && Includes(t, words[1..][i]) {
        assert words[i + 1] == words[1..][i];
      }
    }
  }

  /** The longer contact words both contain `kontakt`, so the contact pattern matches
      exactly the texts that contain `kontakt`. */
  lemma ContactIsKontakt(t: string)
    ensures MentionsAny(t, ContactWords) <==> Includes(t, "kontakt")
  {
    if Includes(t, "kontaktimi") {
      IncludesAt(t, "kontaktimi");
      var i :| OccursAt(t, "kontaktimi", i);
      assert t[i..i + 7] == t[i..i + 10][..7];
      assert OccursAt(t, "kontakt", i);
      IncludesAt(t, "kontakt");
    }
    if Includes(t, "kontaktoj") {
      IncludesAt(t, "kontaktoj");
      var i :| OccursAt(t, "kontaktoj", i);
      assert t[i..i + 7] == t[i..i + 9][..7];
      assert OccursAt(t, "kontakt", i);
      IncludesAt(t, "kontakt");
    }
  }

  /** `decideReply`: the empty text asks for more; otherwise the first keyword group the
      lower-cased text mentions picks the answer, and thanks when none does. */
  function DecideReply(text: string): (reply: string) {
    if text == [] then ClarifyReply
    else
      var t := Lowercase(text);
      if MentionsAny(t, PricingWords) then PricingReply
      else if MentionsAny(t, GreetingWords) then GreetingReply
      else if MentionsAny(t, PortfolioWords) then PortfolioReply
      else if MentionsAny(t, ContactWords) then ContactReply
      else ThanksReply
  }

  /** The six answers are different texts, so each can be told apart from the others. */
  lemma RepliesDistinct()
    ensures var rs := [ClarifyReply, PricingReply, GreetingReply, PortfolioReply, ContactReply, ThanksReply];
              forall i, j :: 0 <= i < j < |rs| ==> rs[i] != rs[j]
  {
    var rs := [ClarifyReply, PricingReply, GreetingReply, PortfolioReply, ContactReply, ThanksReply];
    assert |ClarifyReply| < |GreetingReply| < |PortfolioReply| < |ContactReply| < |PricingReply| < |ThanksReply|;
  }

  /** Each answer is given for exactly the texts the rules route to it: the groups are
      tried in priority order, and a text that mentions an earlier group never gets a
      later group's answer. */
  lemma DecideReplyPriority(text: string)
    ensures var t := Lowercase(text);
      && (DecideReply(text) == ClarifyReply <==> text == [])
      && (DecideReply(text) == PricingReply <==> text != [] && MentionsAny(t, PricingWords))
      && (DecideReply(text) == GreetingReply <==>
            text != [] && !MentionsAny(t, PricingWords) && MentionsAny(t, GreetingWords))
      && (DecideReply(text) == PortfolioReply <==>
            text != [] && !MentionsAny(t, PricingWords) && !MentionsAny(t, GreetingWords)
            && MentionsAny(t, PortfolioWords))
      && (DecideReply(text) == ContactReply <==>
            text != [] && !MentionsAny(t, PricingWords) && !MentionsAny(t, GreetingWords)
            && !MentionsAny(t, PortfolioWords) && Includes(t, "kontakt"))
      && (DecideReply(text) == ThanksReply <==>
            text != [] && !MentionsAny(t, PricingWords) && !MentionsAny(t, GreetingWords)
            && !MentionsAny(t, PortfolioWords) && !Includes(t, "kontakt"))
  {
    RepliesDistinct();
    ContactIsKontakt(Lowercase(text));
  }

  /** The quick reply `Çmimet` is answered with the prices, when the search finds nothing. */
  lemma PricesQuickReply()
    ensures DecideReply(QuickItems[0]) == PricingReply
  {
    assert Lowercase("Çmimet") == "çmimet";
    assert StartsWith("çmimet", "çmim");
  }

  /** A word with a letter that `s` lacks does not occur in `s`. */
  lemma MissingLetter(s: string, w: string, j: nat)
    requires j < |w|
    requires w[j] !in s
    ensures !Includes(s, w)
  {
    IncludesAt(s, w);
  }

  /** A text without `i`, `ç`, `s` and `h` that starts with `projek` mentions the projects
      and neither prices nor greetings. */
  lemma ProjectsText(t: string)
    requires 'i' !in t && 'ç' !in t && 's' !in t && 'h' !in t && StartsWith(t, "projek")
    ensures !MentionsAny(t, PricingWords) && !MentionsAny(t, GreetingWords) && MentionsAny(t, PortfolioWords)
  {
    MissingLetter(t, "price", 2);
    MissingLetter(t, "çmim", 0);
    MissingLetter(t, "sa", 0);
    MissingLetter(t, "kost", 2);
    MissingLetter(t, "hello", 0);
    MissingLetter(t, "hi", 0);
    MissingLetter(t, "pershendetje", 3);
    MissingLetter(t, "hej", 0);
  }

  /** The quick reply `Projektet` is sent to the projects section. */
  lemma ProjectsQuickReply()
    ensures DecideReply(QuickItems[1]) == PortfolioReply
  {
    var text := QuickItems[1];
    var t := Lowercase(text);
    assert t == "projektet";
    assert StartsWith(t, "projek");
    ProjectsText(t);
    DecideReplyPriority(text);
  }

  /** A text without `p`, `ç`, `s` and `h` that starts with `kontakt` mentions the contact
      form and no earlier group. */
  lemma ContactText(t: string)
    requires 'p' !in t && 'ç' !in t && 's' !in t && 'h' !in t && StartsWith(t, "kontakt")
    ensures !MentionsAny(t, PricingWords) && !MentionsAny(t, GreetingWords)
      && !MentionsAny(t, PortfolioWords) && Includes(t, "kontakt")
  {
    MissingLetter(t, "price", 0);
    MissingLetter(t, "çmim", 0);
    MissingLetter(t, "sa", 0);
    MissingLetter(t, "kost", 2);
    MissingLetter(t, "hello", 0);
    MissingLetter(t, "hi", 0);
    MissingLetter(t, "pershendetje", 0);
    MissingLetter(t, "hej", 0);
    MissingLetter(t, "portfolio", 0);
    MissingLetter(t, "projek", 0);
  }

  /** The quick reply `Kontakt` is sent to the contact form. */
  lemma ContactQuickReply()
    ensures DecideReply(QuickItems[2]) == ContactReply
  {
    var text := QuickItems[2];
    var t := Lowercase(text);
    assert t == "kontakt";
    assert StartsWith(t, "kontakt");
    ContactText(t);
    DecideReplyPriority(text);
  }

  /** A text without `p`, `ç`, `s`, `k` and `h` mentions no keyword group. */
  lemma NoKeywordText(t: string)
    requires 'p' !in t && 'ç' !in t && 's' !in t && 'k' !in t && 'h' !in t
    ensures !MentionsAny(t, PricingWords) && !MentionsAny(t, GreetingWords)
      && !MentionsAny(t, PortfolioWords) && !Includes(t, "kontakt")
  {
    MissingLetter(t, "price", 0);
    MissingLetter(t, "çmim", 0);
    MissingLetter(t, "sa", 0);
    MissingLetter(t, "kost", 0);
    MissingLetter(t, "hello", 0);
    MissingLetter(t, "hi", 0);
    MissingLetter(t, "pershendetje", 0);
    MissingLetter(t, "hej", 0);
    MissingLetter(t, "portfolio", 0);
    MissingLetter(t, "projek", 0);
    MissingLetter(t, "kontakt", 0);
  }

  /** An image upload is answered as the text `image`, which mentions no keyword. */
  lemma ImageIsThanked()
    ensures DecideReply("image") == ThanksReply
  {
    var t := Lowercase("image");
    assert t == "image";
    NoKeywordText(t);
    DecideReplyPriority("image");
  }

  /** Only the empty message is asked to explain itself: a message of blanks is not
      empty and is answered by the keyword rules. */
  lemma BlankIsNotClarified()
    ensures DecideReply(" ") == ThanksReply
  {
    var t := Lowercase(" ");
    assert t == " ";
    NoKeywordText(t);
    DecideReplyPriority(" ");
  }

  /** The link suffix of a site-aware answer. */
  const MoreAt: string := " — Më shumë: "

  /** The text of the bot's answer in `simulateBotReply`: the best snippet and its page's
      address when the search finds something, the keyword answer otherwise. */
  function BotReply(index: seq<PageEntry>, userText: string): (reply: string)
  {
    match Search(index, userText)
    case Some(found) => found.snippet + MoreAt + found.page.url
    case None => DecideReply(userText)
  }

  /** A site-aware answer starts with the snippet and ends with the address of the page it
      comes from; with nothing found, the answer is the keyword answer. */
  lemma BotReplyCites(index: seq<PageEntry>, userText: string)
    ensures Search(index, userText).Some? ==>
              var found := Search(index, userText).value;
              && StartsWith(BotReply(index, userText), found.snippet)
              && BotReply(index, userText)[|BotReply(index, userText)| - |found.page.url|..] == found.page.url
    ensures Search(index, userText).None? ==> BotReply(index, userText) == DecideReply(userText)
  {
    if Search(index, userText).Some? {
      var found := Search(index, userText).value;
      var reply := BotReply(index, userText);
      assert reply == found.snippet + MoreAt + found.page.url;
      assert reply[..|found.snippet|] == found.snippet;
    }
  }

  /** On an empty index (no page was indexed) the bot always falls back to the keywords. */
  lemma EmptyIndexFallsBack(userText: string)
    ensures BotReply([], userText) == DecideReply(userText)
  {
    SearchNone([], userText);
  }

  /** `String.length`: the number of UTF-16 code units, two for a character outside the
      Basic Multilingual Plane. */
  function Utf16Length(s: string): (n: nat)
    ensures |s| <= n <= 2 * |s|
  {
    if s == [] then 0
    else (if s[0] as int > 0xFFFF then 2 else 1) + Utf16Length(s[1..])
  }

  /** `Utf16Length` adds up over concatenation. */
  lemma {:induction false} Utf16LengthAppend(a: string, b: string)
    ensures Utf16Length(a + b) == Utf16Length(a) + Utf16Length(b)
    decreases |a|
  {
    if a == [] {
      assert a + b == b;
    } else {
      assert (a + b)[1..] == a[1..] + b;
      Utf16LengthAppend(a[1..], b);
    }
  }

  /** The typing delay in milliseconds: `600 + Math.min(1200, userText.length * 15)`. */
  function ReplyDelay(userText: string): (ms: nat)
    ensures 600 <= ms <= 1800
  {
    600 + Min(1200, 15 * Utf16Length(userText))
  }

  function Min(a: nat, b: nat): nat {
    if a <= b then a else b
  }

  /** The delay grows by 15 ms per code unit and is capped at 1800 ms from 80 code units on;
      a longer message never waits less. */
  lemma ReplyDelayShape(userText: string, more: string)
    ensures Utf16Length(userText) <= 80 ==> ReplyDelay(userText) == 600 + 15 * Utf16Length(userText)
    ensures ReplyDelay(userText) == 1800 <==> Utf16Length(userText) >= 80
    ensures ReplyDelay(userText) <= ReplyDelay(userText + more)
  {
    Utf16LengthAppend(userText, more);
  }

  /** The boot greeting as the source spells it: `t\u000a` puts a line break where the
      letter `ë` of `të` belongs. */
  const BootGreetingAsWritten: string := "Përshëndetje! Unë jam Olti Assistant. Si mund t\n ndihmoj?"

  /** The boot greeting as intended, spelling `të` as the other answers do. */
  const BootGreeting: string := "Përshëndetje! Unë jam Olti Assistant. Si mund të ndihmoj?"

  /** The greeting as written breaks the line in the middle of `të`: it differs from the
      intended one only at that letter, where it holds a line break. */
  lemma BootGreetingAsWrittenBreaksLine()
    ensures |BootGreetingAsWritten| == |BootGreeting|
    ensures exists k :: 0 <= k < |BootGreeting| && BootGreetingAsWritten[k] == '\n' && BootGreeting[k] == 'ë'
                && BootGreetingAsWritten[..k] == BootGreeting[..k]
                && BootGreetingAsWritten[k + 1..] == BootGreeting[k + 1..]
  {
    var k := |BootGreeting| - 10;
    assert BootGreetingAsWritten[k] == '\n' && BootGreeting[k] == 'ë';
  }

  /** The intended greeting spells `të ` as the greeting answer does. */
  lemma BootGreetingSpelling()
    ensures OccursAt(BootGreeting, "të ", |BootGreeting| - 11) && OccursAt(GreetingReply, "të ", 22)
  {
  }
}
