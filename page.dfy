/** The `Index` page component: its state hooks become the fields of a class
    and each event handler a method that runs as one atomic transition. */
module Page {
  import opened Options
  import opened Text
  import opened Data
  import opened Search
  import opened View

  class Index {
    /** The chat rows the component is built with; never changed. */
    const chats: seq<Chat>
    /** The navigation bar's entries; never changed. */
    const menuItems: seq<MenuItem>

    /** Id of the menu entry that is highlighted. */
    var activeSection: string
    /** The open chat, or `None` for `null`. */
    var selectedChat: Option<int>
    /** The draft in the compose box. */
    var messageInput: string
    /** The text of the search box. */
    var searchQuery: string
    /** The one conversation history, shared by every chat. */
    var messages: seq<Message>

    /** What every handler keeps: chat ids are distinct and at least 1, menu ids
        are distinct and every entry has an icon; the section is a menu entry,
        the open chat (if any) is one of the chats and is open only in the
        'chats' section, and message `i` carries id `i + 1`. */
    ghost predicate Valid()
      reads this
    {
      && DistinctChatIds(chats)
      && (forall c :: c in chats ==> c.id >= 1)
      && DistinctMenuIds(menuItems)
      && (forall m :: m in menuItems ==> m.icon != "")
      && activeSection in MenuIds(menuItems)
      && (selectedChat.Some? ==> selectedChat.value in ChatIds(chats) && activeSection == "chats")
      && SequentialIds(messages)
    }

    /** The panel `renderContent` returns for the current state; because chat
        ids are at least 1, JavaScript's `if (selectedChat)` is the same as
        "a chat is selected". */
    function Content(): (p: Panel)
      reads this
      requires Valid()
      ensures p.Conversation? <==> selectedChat.Some?
      ensures p.ChatList? <==> selectedChat.None? && activeSection == "chats"
    {
      RenderContent(chats, menuItems, activeSection, selectedChat, searchQuery, messages)
    }

    /** The initial state: the seed data, section 'chats', nothing open,
        both text boxes empty. */
    constructor ()
      ensures Valid()
      ensures chats == SeedChats && menuItems == MenuItems
      ensures activeSection == "chats" && selectedChat == None
      ensures messageInput == "" && searchQuery == ""
      ensures messages == SeedMessages
    {
      SeedWellFormed();
      chats := SeedChats;
      menuItems := MenuItems;
      activeSection := "chats";
      selectedChat := None;
      messageInput := "";
      searchQuery := "";
      messages := SeedMessages;
    }

    /** Clicking a menu entry: make its section active and close the chat.
        'chats' then shows the chat list, any other entry its placeholder. */
    method SelectSection(item: MenuItem)
      requires Valid() && item in menuItems
      modifies this`activeSection, this`selectedChat
      ensures Valid()
      ensures activeSection == item.id && selectedChat == None
      ensures item.id == "chats" ==> Content() == ChatList(searchQuery, FilterChats(chats, searchQuery))
      ensures item.id != "chats" ==> Content() == Placeholder(item.icon, Some(item.caption))
    {
      activeSection := item.id;
      selectedChat := None;
      if item.id != "chats" {
        PlaceholderForOtherSections(chats, menuItems, item, searchQuery, messages);
      }
    }

    /** Clicking a row of the chat list: open that chat. The rows and their
        click handlers exist only while the list is on screen, that is with
        no chat open and the 'chats' section active. The header lookup then
        finds exactly the clicked chat. */
    method OpenChat(chat: Chat)
      requires Valid() && selectedChat.None? && activeSection == "chats"
      requires chat in FilterChats(chats, searchQuery)
      modifies this`selectedChat
      ensures Valid()
      ensures selectedChat == Some(chat.id) && activeSection == old(activeSection)
      ensures Content() == Conversation(Some(chat), messages)
    {
      selectedChat := Some(chat.id);
      ConversationForSelectedChat(chats, menuItems, activeSection, chat, searchQuery, messages);
    }

    /** The back arrow: close the chat and keep the section. */
    method GoBack()
      requires Valid()
      modifies this`selectedChat
      ensures Valid()
      ensures selectedChat == None && activeSection == old(activeSection)
      ensures !Content().Conversation?
    {
      selectedChat := None;
    }

    /** Typing into the compose box. */
    method EditDraft(text: string)
      requires Valid()
      modifies this`messageInput
      ensures Valid()
      ensures messageInput == text
    {
      messageInput := text;
    }

    /** Typing into the search box. */
    method EditSearch(text: string)
      requires Valid()
      modifies this`searchQuery
      ensures Valid()
      ensures searchQuery == text
    {
      searchQuery := text;
    }

    /** `handleSendMessage`, with the clock reading `time` passed in: a blank
        draft changes nothing; otherwise the draft, untrimmed, is appended as
        the user's message with the next id and the draft is cleared. The open
        chat and the section play no part and are left alone. */
    method SendMessage(time: string)
      requires Valid()
      modifies this`messages, this`messageInput
      ensures Valid()
      ensures selectedChat == old(selectedChat) && activeSection == old(activeSection)
      ensures IsBlank(old(messageInput)) ==>
                messages == old(messages) && messageInput == old(messageInput)
      ensures !IsBlank(old(messageInput)) ==>
                && messages == old(messages) + [Outgoing(old(messages), old(messageInput), time)]
                && messageInput == ""
    {
      if Trim(messageInput) != "" {
        var newMessage := Outgoing(messages, messageInput, time);
        messages := messages + [newMessage];
        messageInput := "";
      }
    }
  }

}
