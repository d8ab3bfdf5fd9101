/** The page's records (`Chat`, `Message`, the menu entries) and the literal
    seed data it is built from. */
module Data {
  import opened Options

  /** A conversation row. `unread` and `online` are optional in the source
      record and are `None` where the literal leaves them out. */
  datatype Chat = Chat(
    id: int,
    name: string,
    avatar: string,
    lastMessage: string,
    time: string,
    unread: Option<int>,
    online: Option<bool>)

  /** One bubble of the conversation; `isMine` tells sent from received. */
  datatype Message = Message(id: int, text: string, time: string, isMine: bool)

  /** An entry of the bottom navigation bar: a section id, an icon name and
      the label the placeholder panel shows (`label` in the source; the word
      is reserved in Dafny). */
  datatype MenuItem = MenuItem(id: string, icon: string, caption: string)

  // ---------------------------------------------------------------------------
  // Array.prototype.find
  // ---------------------------------------------------------------------------

  /** `xs.find(p)`: the first element satisfying `p`, if any. */
  function Find<T>(xs: seq<T>, p: T -> bool): (r: Option<T>)
    ensures r.None? <==> forall i :: 0 <= i < |xs| ==> !p(xs[i])
    ensures r.Some? ==> exists i :: 0 <= i < |xs| && xs[i] == r.value && p(r.value)
                                    && forall j :: 0 <= j < i ==> !p(xs[j])
  {
    if xs == [] then None
    else if p(xs[0]) then Some(xs[0])
    else
      var r := Find(xs[1..], p);
      assert r.Some? ==> exists i :: 0 <= i < |xs| && xs[i] == r.value && p(r.value)
                                     && forall j :: 0 <= j < i ==> !p(xs[j]) by {
        if r.Some? {
          var i :| 0 <= i < |xs| - 1 && xs[1..][i] == r.value && p(r.value)
                   && forall j :: 0 <= j < i ==> !p(xs[1..][j]);
          assert xs[i + 1] == r.value;
          assert forall j :: 0 <= j < i + 1 ==> !p(xs[j]) by {
            forall j | 0 < j < i + 1 ensures !p(xs[j]) { assert xs[j] == xs[1..][j - 1]; }
          }
        }
      }
      r
  }

  // ---------------------------------------------------------------------------
  // Identifiers
  // ---------------------------------------------------------------------------

  function ChatIds(chats: seq<Chat>): set<int> {
    set c | c in chats :: c.id
  }

  /** No two rows share an id (React's `key={chat.id}`). */
  predicate DistinctChatIds(chats: seq<Chat>) {
    forall i, j :: 0 <= i < j < |chats| ==> chats[i].id != chats[j].id
  }

  /** `chats.find(c => c.id === id)`: the header lookup of the open chat. It
      finds nothing exactly when no chat has that id, and what it finds is a
      chat with that id. */
  function ChatById(chats: seq<Chat>, id: int): (r: Option<Chat>)
    ensures r.None? <==> id !in ChatIds(chats)
    ensures r.Some? ==> r.value in chats && r.value.id == id
  {
    var r := Find(chats, (c: Chat) => c.id == id);
    assert id in ChatIds(chats) ==> r.Some? by {
      if id in ChatIds(chats) {
        var c :| c in chats && c.id == id;
        var k :| 0 <= k < |chats| && chats[k] == c;
        assert !(forall i :: 0 <= i < |chats| ==> !(chats[i].id == id));
      }
    }
    r
  }

  /** With distinct ids, looking a row up by its own id gives back that row,
      so the conversation header names the chat that was clicked. */
  lemma ChatByIdFindsRow(chats: seq<Chat>, c: Chat)
    requires DistinctChatIds(chats) && c in chats
    ensures ChatById(chats, c.id) == Some(c)
  {
    var k :| 0 <= k < |chats| && chats[k] == c;
    var r := ChatById(chats, c.id);
    var i :| 0 <= i < |chats| && chats[i] == r.value && r.value.id == c.id
             && forall j :: 0 <= j < i ==> chats[j].id != c.id;
    assert i == k;
  }

  /** `menuItems.find(item => item.id === activeSection)`: nothing exactly
      when no entry has that id, otherwise an entry with that id. */
  function MenuItemById(items: seq<MenuItem>, id: string): (r: Option<MenuItem>)
    ensures r.None? <==> id !in MenuIds(items)
    ensures r.Some? ==> r.value in items && r.value.id == id
  {
    var r := Find(items, (m: MenuItem) => m.id == id);
    assert id in MenuIds(items) ==> r.Some? by {
      if id in MenuIds(items) {
        var m :| m in items && m.id == id;
        var k :| 0 <= k < |items| && items[k] == m;
        assert !(forall i :: 0 <= i < |items| ==> !(items[i].id == id));
      }
    }
    r
  }

  function MenuIds(items: seq<MenuItem>): set<string> {
    set m | m in items :: m.id
  }

  predicate DistinctMenuIds(items: seq<MenuItem>) {
    forall i, j :: 0 <= i < j < |items| ==> items[i].id != items[j].id
  }

  /** With distinct ids, looking an entry up by its own id gives back that entry. */
  lemma MenuItemByIdFindsEntry(items: seq<MenuItem>, m: MenuItem)
    requires DistinctMenuIds(items) && m in items
    ensures MenuItemById(items, m.id) == Some(m)
  {
    var k :| 0 <= k < |items| && items[k] == m;
    var r := MenuItemById(items, m.id);
    var i :| 0 <= i < |items| && items[i] == r.value && r.value.id == m.id
             && forall j :: 0 <= j < i ==> items[j].id != m.id;
    assert i == k;
  }

  /** Message `i` (from 0) carries id `i + 1`: ids are `length + 1` at the
      time each one was appended. */
  predicate SequentialIds(messages: seq<Message>) {
    forall i :: 0 <= i < |messages| ==> messages[i].id == i + 1
  }

  /** Sequential ids are distinct, so they are usable as React keys. */
  lemma SequentialIdsDistinct(messages: seq<Message>, i: nat, j: nat)
    requires SequentialIds(messages) && i < j < |messages|
    ensures messages[i].id < messages[j].id
  {
  }

  /** The message `handleSendMessage` builds from the draft: the next id,
      the draft text verbatim (not trimmed), the given time label, sent by
      the user. */
  function Outgoing(messages: seq<Message>, draft: string, time: string): (m: Message)
    ensures SequentialIds(messages) ==> SequentialIds(messages + [m])
    ensures m.id == |messages| + 1 && m.isMine && m.text == draft && m.time == time
  {
    Message(|messages| + 1, draft, time, true)
  }

  // ---------------------------------------------------------------------------
  // Seed data
  // ---------------------------------------------------------------------------

  /** The seven chats of the list, in display order. */
  const SeedChats: seq<Chat> := [
    Chat(1, "Анна Смирнова", "\U{1F469}", "Привет! Как дела?", "14:23", Some(2), Some(true)),
    Chat(2, "Рабочая группа", "\U{1F465}", "Максим: Встреча перенесена на 15:00", "13:45", Some(5), None),
    Chat(3, "Мама", "\U{2764}\U{FE0F}", "Не забудь позвонить", "12:30", None, Some(true)),
    Chat(4, "Александр", "\U{1F468}", "Отправил документы", "11:15", None, None),
    Chat(5, "Проект 2024", "\U{1F4C1}", "Вы: Всё готово", "вчера", None, None),
    Chat(6, "Елена", "\U{1F469}\U{200D}\U{1F4BC}", "Спасибо за помощь!", "вчера", None, None),
    Chat(7, "Техподдержка", "\U{1F916}", "Бот: Ваш запрос обработан", "вчера", None, None)
  ]

  /** The four messages the conversation starts with. */
  const SeedMessages: seq<Message> := [
    Message(1, "Привет! Как дела?", "14:20", false),
    Message(2, "Привет! Всё отлично, спасибо! А у тебя?", "14:21", true),
    Message(3, "Тоже хорошо! Хотела спросить про завтрашнюю встречу", "14:22", false),
    Message(4, "Да, конечно! В 15:00 как договаривались", "14:23", true)
  ]

  /** The six sections of the navigation bar. */
  const MenuItems: seq<MenuItem> := [
    MenuItem("chats", "MessageCircle", "Чаты"),
    MenuItem("contacts", "Users", "Контакты"),
    MenuItem("calls", "Phone", "Звонки"),
    MenuItem("channels", "Radio", "Каналы"),
    MenuItem("groups", "UsersRound", "Группы"),
    MenuItem("settings", "Settings", "Настройки")
  ]


  /** The seed data is well formed: chat ids are distinct and positive (so
      `if (selectedChat)` is true for every one of them), menu ids are
      distinct and every entry has an icon, the seed messages are numbered
      1..4, and the initial section 'chats' is a menu entry. */
  lemma SeedWellFormed()
    ensures DistinctChatIds(SeedChats)
    ensures forall c :: c in SeedChats ==> c.id >= 1
    ensures DistinctMenuIds(MenuItems) && forall m :: m in MenuItems ==> m.icon != ""
    ensures SequentialIds(SeedMessages)
    ensures "chats" in MenuIds(MenuItems)
  {
    assert MenuItems[0].id == "chats";
  }

}
