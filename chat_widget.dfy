/** The state of the chat widget in `chat.js`: the message log, its copy in local storage,
    and the site index, with the operations that change them. */
module ChatWidget {
  import opened Wrappers
  import opened ChatText
  import opened ChatSearch
  import opened ChatReplies
  import opened ChatIndex

  datatype Sender = User | Bot

  /** A message is text or an attached image, given by its data address. */
  datatype Body = TextBody(text: string) | ImageBody(src: string)

  datatype Message = Message(from: Sender, body: Body)

  /** What local storage holds under the widget's key: nothing, something that does not
      parse as a message log, or a saved log. */
  datatype Stored = Absent | Malformed | Saved(log: seq<Message>)

  /** `load`: `JSON.parse(...) || []`, with a parse error caught as `[]`. */
  function Loaded(s: Stored): (log: seq<Message>)
    ensures !s.Saved? ==> log == []
  {
    if s.Saved? then s.log else []
  }

  /** What `save` writes is what `load` reads back. */
  lemma SaveThenLoad(log: seq<Message>)
    ensures Loaded(Saved(log)) == log
    ensures Saved(log) != Absent && Saved(log) != Malformed
  {
  }

  class Widget {
    var messages: seq<Message>
    var pageIndex: seq<PageEntry>
    var storage: Stored
    /** The addresses fetched so far, in order. */
    ghost var requests: seq<string>

    /** The log is always what storage would load, and each indexed page carries the
        tokens of its own text. */
    ghost predicate Valid()
      reads this
    {
      && Loaded(storage) == messages
      && forall i :: 0 <= i < |pageIndex| ==> WellFormed(pageIndex[i])
    }

    /** Boot: `load()`, then the greeting when the loaded log is empty. */
    constructor(stored: Stored)
      ensures Valid()
      ensures messages != []
      ensures Loaded(stored) != [] ==> messages == Loaded(stored) && storage == stored
      ensures Loaded(stored) == [] ==> messages == [Message(Bot, TextBody(BootGreeting))]
      ensures pageIndex == [] && requests == []
    {
      messages := [];
      pageIndex := [];
      storage := stored;
      requests := [];
      new;
      Load();
      if |messages| == 0 {
        PushMessage(Bot, TextBody(BootGreeting));
      }
    }

    /** `load`. */
    method Load()
      modifies this
      ensures messages == Loaded(storage)
      ensures storage == old(storage) && pageIndex == old(pageIndex) && requests == old(requests)
    {
      messages := Loaded(storage);
    }

    /** `save`. */
    method Save()
      modifies this
      ensures storage == Saved(messages)
      ensures messages == old(messages) && pageIndex == old(pageIndex) && requests == old(requests)
    {
      storage := Saved(messages);
    }

    /** `pushMessage`: appends one message and saves the log; earlier messages stay. */
    method PushMessage(from: Sender, body: Body)
      modifies this
      ensures messages == old(messages) + [Message(from, body)]
      ensures storage == Saved(messages)
      ensures pageIndex == old(pageIndex) && requests == old(requests)
      ensures old(Valid()) ==> Valid()
    {
      messages := messages + [Message(from, body)];
      Save();
    }

    /** `buildIndex`: resets the index, indexes the current page, then fetches every other
        site page and indexes the ones that answer. */
    method BuildIndex(current: Document, server: map<string, Document>)
      modifies this
      ensures pageIndex == BuiltIndex(current, server)
      ensures requests == old(requests) + RequestedUpTo(SitePages, |SitePages|)
      ensures messages == old(messages) && storage == old(storage)
    {
      pageIndex := [];
      pageIndex := pageIndex + [Entry("Kreu", HomePage, CollectText(current))];
      FetchPages(SitePages, server);
    }

    /** The fetch loop of `buildIndex`: each page other than the home page is requested,
        and each one the server answers is appended to the index, in order. */
    method FetchPages(pages: seq<string>, server: map<string, Document>)
      modifies this
      ensures pageIndex == old(pageIndex) + FetchedUpTo(pages, |pages|, server)
      ensures requests == old(requests) + RequestedUpTo(pages, |pages|)
      ensures messages == old(messages) && storage == old(storage)
    {
      var added: seq<PageEntry> := [];
      ghost var asked: seq<string> := [];
      for i := 0 to |pages|
        invariant added == FetchedUpTo(pages, i, server)
        invariant asked == RequestedUpTo(pages, i)
        invariant pageIndex == old(pageIndex) && requests == old(requests)
        invariant messages == old(messages) && storage == old(storage)
      {
        var p := pages[i];
        if p == HomePage {
          continue;
        }
        asked := asked + [p];
        if p !in server {
          continue;
        }
        var t := CollectText(server[p]);
        added := added + [Entry(PageName(p), p, t)];
      }
      pageIndex := pageIndex + added;
      requests := requests + asked;
    }

    /** `simulateBotReply`: builds the index if it is empty, then appends exactly one bot
        message, the search answer or the keyword answer, and returns the typing delay. */
    method SimulateBotReply(userText: string, current: Document, server: map<string, Document>)
      returns (delay: nat)
      requires Valid()
      modifies this
      ensures Valid()
      ensures delay == ReplyDelay(userText)
      ensures old(pageIndex) == [] ==>
                pageIndex == BuiltIndex(current, server)
                && requests == old(requests) + RequestedUpTo(SitePages, |SitePages|)
      ensures old(pageIndex) != [] ==> pageIndex == old(pageIndex) && requests == old(requests)
      ensures pageIndex != []
      ensures messages == old(messages) + [Message(Bot, TextBody(BotReply(pageIndex, userText)))]
    {
      delay := 600 + Min(1200, Utf16Length(userText) * 15);
      if |pageIndex| == 0 {
        BuildIndex(current, server);
        BuiltIndexWellFormed(current, server);
      }
      var found := SearchIndex(pageIndex, userText);
      var reply: string;
      if found.Some? {
        reply := found.value.snippet + MoreAt + found.value.page.url;
      } else {
        reply := DecideReply(userText);
      }
      PushMessage(Bot, TextBody(reply));
    }

    /** `sendText`: blank text changes nothing; otherwise the trimmed text is logged as the
        user's, and the bot answers the text as typed. */
    method SendText(text: string, current: Document, server: map<string, Document>)
      returns (delay: Option<nat>)
      requires Valid()
      modifies this
      ensures Valid()
      ensures Trim(text) == [] ==>
                delay == None && messages == old(messages) && storage == old(storage)
                && pageIndex == old(pageIndex) && requests == old(requests)
      ensures Trim(text) != [] && old(pageIndex) == [] ==>
                pageIndex == BuiltIndex(current, server)
                && requests == old(requests) + RequestedUpTo(SitePages, |SitePages|)
      ensures Trim(text) != [] && old(pageIndex) != [] ==> pageIndex == old(pageIndex) && requests == old(requests)
      ensures Trim(text) != [] ==>
                && delay == Some(ReplyDelay(text))
                && pageIndex != []
                && messages == old(messages) + [Message(User, TextBody(Trim(text)))]
                                + [Message(Bot, TextBody(BotReply(pageIndex, text)))]
    {
      var trimmed := Trim(text);
      if trimmed == [] {
        return None;
      }
      PushMessage(User, TextBody(trimmed));
      var d := SimulateBotReply(text, current, server);
      delay := Some(d);
    }

    /** The image upload: the image is logged as the user's, and the bot answers the text
        `image`. */
    method SendImage(src: string, current: Document, server: map<string, Document>)
      returns (delay: nat)
      requires Valid()
      modifies this
      ensures Valid()
      ensures delay == ReplyDelay("image")
      ensures old(pageIndex) == [] ==>
                pageIndex == BuiltIndex(current, server)
                && requests == old(requests) + RequestedUpTo(SitePages, |SitePages|)
      ensures old(pageIndex) != [] ==> pageIndex == old(pageIndex) && requests == old(requests)
      ensures messages == old(messages) + [Message(User, ImageBody(src))]
                            + [Message(Bot, TextBody(BotReply(pageIndex, "image")))]
    {
      PushMessage(User, ImageBody(src));
      delay := SimulateBotReply("image", current, server);
    }
  }
}
