/** `renderContent`: which panel the page shows for a given state. Only the
    choice of panel and the data it displays are modelled, not its markup. */
module View {
  import opened Options
  import opened Data
  import opened Search

  /** The three panels `renderContent` can return. */
  datatype Panel =
      /** The open conversation: the header's chat lookup and the bubbles. */
    | Conversation(chat: Option<Chat>, messages: seq<Message>)
      /** The chat list: the search box's text and the rows that match it. */
    | ChatList(query: string, rows: seq<Chat>)
      /** "Раздел в разработке": the section's icon (falling back to
          'MessageCircle') and its label, both looked up in the menu. */
    | Placeholder(icon: string, caption: Option<string>)

  /** JavaScript's `if (selectedChat)` on a `number | null`: the falsy values
      of that type are exactly `null` and `0`. */
  function Truthy(selected: Option<int>): (b: bool)
    ensures !b <==> selected == None || selected == Some(0)
  {
    selected.Some? && selected.value != 0
  }

  /** The section's placeholder panel, looked up in the menu by id: always an
      icon to show; a label exactly when the section is a menu entry, and then
      that entry's label and its icon unless the icon is empty; otherwise
      'MessageCircle' and no label (`undefined`). */
  function PlaceholderFor(menuItems: seq<MenuItem>, section: string): (p: Panel)
    ensures p.Placeholder? && p.icon != ""
    ensures p.caption.Some? <==> section in MenuIds(menuItems)
    ensures p.caption.None? ==> p.icon == "MessageCircle"
    ensures p.caption.Some? ==>
              exists m :: m in menuItems && m.id == section && p.caption == Some(m.caption)
                          && (p.icon == m.icon || (m.icon == "" && p.icon == "MessageCircle"))
  {
    match MenuItemById(menuItems, section)
    case Some(item) => Placeholder(if item.icon != "" then item.icon else "MessageCircle", Some(item.caption))
    case None => Placeholder("MessageCircle", None)
  }

  /** The panel shown for the page state: a selected chat wins, then the
      'chats' section lists the filtered chats, every other section gets the
      placeholder. */
  function RenderContent(chats: seq<Chat>, menuItems: seq<MenuItem>, section: string,
                         selected: Option<int>, query: string, messages: seq<Message>): (p: Panel)
    ensures p.Conversation? <==> Truthy(selected)
    ensures p.ChatList? <==> !Truthy(selected) && section == "chats"
    ensures p.Placeholder? <==> !Truthy(selected) && section != "chats"
  {
    if Truthy(selected) then
      Conversation(ChatById(chats, selected.value), messages)
    else if section == "chats" then
      ChatList(query, FilterChats(chats, query))
    else
      PlaceholderFor(menuItems, section)
  }

  /** With a chat of the list selected, the conversation shows that chat in
      its header and the one shared message list, whatever the section is. */
  lemma ConversationForSelectedChat(chats: seq<Chat>, menuItems: seq<MenuItem>, section: string,
                                    c: Chat, query: string, messages: seq<Message>)
    requires DistinctChatIds(chats) && c in chats && c.id != 0
    ensures RenderContent(chats, menuItems, section, Some(c.id), query, messages)
         == Conversation(Some(c), messages)
  {
    ChatByIdFindsRow(chats, c);
  }

  /** With no chat selected, the 'chats' section lists exactly the chats that
      match the search box, in their original order. */
  lemma ChatListShowsFilteredChats(chats: seq<Chat>, menuItems: seq<MenuItem>, query: string,
                                   messages: seq<Message>)
    ensures var p := RenderContent(chats, menuItems, "chats", None, query, messages);
      && p.ChatList?
      && p.query == query
      && IsSubsequence(p.rows, chats)
      && forall c :: c in p.rows <==> c in chats && Matches(c, query)
  {
    FilterIsSubsequence(chats, query);
    forall c ensures c in FilterChats(chats, query) <==> c in chats && Matches(c, query) {
      FilterMembership(chats, query, c);
    }
  }

  /** With no chat selected, every section other than 'chats' shows the
      placeholder labelled by its own menu entry, with the entry's icon or,
      when that is empty, 'MessageCircle'. */
  lemma PlaceholderForOtherSections(chats: seq<Chat>, menuItems: seq<MenuItem>, item: MenuItem,
                                    query: string, messages: seq<Message>)
    requires DistinctMenuIds(menuItems) && item in menuItems && item.id != "chats"
    ensures RenderContent(chats, menuItems, item.id, None, query, messages)
         == Placeholder(if item.icon != "" then item.icon else "MessageCircle", Some(item.caption))
  {
    MenuItemByIdFindsEntry(menuItems, item);
  }

  /** In the seeded page, 'settings' has no panel of its own: it shows the
      placeholder labelled "Настройки". */
  lemma SettingsIsPlaceholder(query: string, messages: seq<Message>)
    ensures RenderContent(SeedChats, MenuItems, "settings", None, query, messages)
         == Placeholder("Settings", Some("Настройки"))
  {
    SeedWellFormed();
    PlaceholderForOtherSections(SeedChats, MenuItems, MenuItems[5], query, messages);
  }

}
