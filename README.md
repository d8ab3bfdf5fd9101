# Messenger page state model

This project models the one piece of logic in the messenger mock-up's main
page, `src/pages/Index.tsx`. The page is a React component that holds five
pieces of state:

- the active navigation section;
- the open chat, which may be absent;
- the compose-box draft;
- the search-box text;
- one message history, shared by every chat.

The page has a handful of event handlers and one view dispatch that picks the
panel to show. The model has six modules:

- `Options`: an `Option` type that stands for `null` and `undefined`.
- `Text`: the ECMAScript string built-ins the page uses. `trim` guards the send.
  `toLowerCase` and `includes` drive the search. `Array.prototype.find` lives in
  `Data`.
- `Data`: the records `Chat`, `Message` and the menu entry, plus the literal seed
  data (seven chats, four messages, six menu sections). It also holds the id
  lookups done with `find` and the message the send handler builds.
- `Search`: `filteredChats`, the case-insensitive substring filter over the
  chats.
- `View`: `renderContent` as a pure choice among three panels. A selected chat
  gives the conversation, section `'chats'` gives the filtered chat list, and
  any other section gives the "under construction" placeholder.
- `Page`: the component as the class `Index`. Its fields are the state hooks
  plus the constant chat and menu arrays. Its methods are the handlers, and
  each handler runs as one atomic transition. `Valid()` is what every handler
  preserves:
  - chat ids are distinct and at least 1;
  - menu ids are distinct and every menu entry has a non-empty icon;
  - the section is a menu entry;
  - the open chat is one of the chats, and a chat is open only while the
    section is `'chats'` (the rows that open a chat are shown only there);
  - message `i` has id `i + 1`.

Behaviour the model takes from the code as written, though a messenger might be expected to differ:

- The `'settings'` section shows the generic placeholder labelled "Настройки".
  There is no settings panel (`View.SettingsIsPlaceholder`).
- All chats share one message list. The conversation panel shows the same
  history whichever chat is open, and a send does not look at the open chat.
- The send handler does not check that a chat is open. It is only reachable
  from the conversation panel, but the model's `SendMessage` has no such
  precondition, like the handler.
- Sending never updates a chat's `lastMessage` or `time`, and neither does the
  model.

## Model

| member | source | states |
|---|---|---|
| `Text.TrimStart` | src/pages/Index.tsx:73 | what is dropped is all whitespace; what is left is a suffix that does not start with whitespace |
| `Text.TrimEnd` | src/pages/Index.tsx:73 | what is dropped is all whitespace; what is left is a prefix that does not end with whitespace |
| `Text.Trim` | src/pages/Index.tsx:73 | `trim()` gives a contiguous piece of the input that neither starts nor ends with whitespace, and everything cut off before and after it is whitespace |
| `Text.TrimEmptyIffAllWhitespace` | src/pages/Index.tsx:73 | the trimmed draft is empty (falsy) exactly when the draft is empty or whitespace only |
| `Text.IsBlank` | src/pages/Index.tsx:73 | `messageInput.trim()` is falsy exactly when the draft is all whitespace, the empty draft included |
| `Text.NotBlankWithVisibleChar` | src/pages/Index.tsx:73 | one non-whitespace character makes the draft pass the send guard |
| `Text.Lower` | src/pages/Index.tsx:86 | lower-casing one character leaves no capital, and it changes the character exactly when it is a capital |
| `Text.LowerStr` | src/pages/Index.tsx:86 | `toLowerCase()` keeps the length and lower-cases every character in place |
| `Text.LowerStrIdempotent` | src/pages/Index.tsx:86 | lower-casing an already lower-cased name or query changes nothing |
| `Text.LowerStrSlice` | src/pages/Index.tsx:86 | lower-casing commutes with taking a piece of a string |
| `Text.Includes` | src/pages/Index.tsx:86 | `includes` holds exactly when the query occurs at some position of the name |
| `Text.IncludesEmpty` | src/pages/Index.tsx:86 | every name includes the empty query |
| `Text.IncludesExtension` | src/pages/Index.tsx:86 | a name that includes a longer query also includes each prefix of that query |
| `Data.Find` | src/pages/Index.tsx:100-108 | `find` gives nothing exactly when no element satisfies the test; otherwise it gives the first element that does |
| `Data.ChatById` | src/pages/Index.tsx:100-108 | `chats.find(c => c.id === id)` gives nothing exactly when no chat has that id, and otherwise one of the chats with that id |
| `Data.ChatByIdFindsRow` | src/pages/Index.tsx:100-108 | if chat ids are distinct, `chats.find(c => c.id === id)` for a row's id gives back that same row |
| `Data.MenuItemById` | src/pages/Index.tsx:263-267 | `menuItems.find(item => item.id === activeSection)` gives nothing exactly when no entry has that id, and otherwise an entry with that id |
| `Data.MenuItemByIdFindsEntry` | src/pages/Index.tsx:263-267 | if menu ids are distinct, `menuItems.find(item => item.id === id)` gives back that entry |
| `Data.SequentialIdsDistinct` | src/pages/Index.tsx:125-127 | sequential message ids strictly increase along the list, so the React keys are distinct |
| `Data.Outgoing` | src/pages/Index.tsx:74-79 | the new message has id `length + 1`, the draft verbatim as its text, the given time and `isMine`; appending it keeps ids sequential |
| `Data.SeedWellFormed` | src/pages/Index.tsx:46-70 | the seed chats have distinct ids that are all at least 1; menu ids are distinct and every entry has an icon; seed messages are numbered 1..4; `'chats'` is a menu entry |
| `Search.Matches` | src/pages/Index.tsx:86 | the filter test holds exactly when the lower-cased query occurs somewhere in the lower-cased name; the empty query matches every chat |
| `Search.FilterChats` | src/pages/Index.tsx:85-87 | the rows are no more than the chats, and every row is a chat whose lower-cased name includes the lower-cased query |
| `Search.FilterMembership` | src/pages/Index.tsx:85-87 | a chat is listed if and only if it is one of the chats and its name matches the query case-insensitively |
| `Search.FilterIsSubsequence` | src/pages/Index.tsx:85-87 | the rows are an order-preserving subsequence of the chats |
| `Search.FilterEmptyQuery` | src/pages/Index.tsx:85-87 | an empty search box lists every chat, in order |
| `Search.FilterNoMatch` | src/pages/Index.tsx:85-87 | a query that matches no name lists nothing |
| `Search.CaseInsensitiveHit` | src/pages/Index.tsx:85-87 | a query equal to a piece of a chat's name up to letter case lists that chat |
| `Search.FilterIdempotent` | src/pages/Index.tsx:85-87 | filtering the rows again by the same query changes nothing |
| `Search.FilterNarrows` | src/pages/Index.tsx:85-87 | typing more characters into the search box only removes rows, keeping the order |
| `View.Truthy` | src/pages/Index.tsx:90 | `if (selectedChat)` fails exactly for `null` and for `0` |
| `View.PlaceholderFor` | src/pages/Index.tsx:263-267 | the placeholder always has an icon. It has a label exactly when the section is a menu entry; then the label is that entry's and the icon is the entry's, or 'MessageCircle' when that is empty. Otherwise the icon is 'MessageCircle' and the label is `undefined` |
| `View.RenderContent` | src/pages/Index.tsx:89-275 | exactly one panel is shown. A truthy `selectedChat` gives the conversation. Otherwise `'chats'` gives the list and any other section gives the placeholder |
| `View.ConversationForSelectedChat` | src/pages/Index.tsx:90-125 | if a chat is selected, the conversation shows that chat in the header and the shared message list, whatever the section |
| `View.ChatListShowsFilteredChats` | src/pages/Index.tsx:181-221 | with no chat selected, `'chats'` lists exactly the matching chats in their original order, next to the search text |
| `View.PlaceholderForOtherSections` | src/pages/Index.tsx:259-267 | with no chat selected, every other section shows a placeholder with its own menu entry's label and icon, falling back to 'MessageCircle' when the icon is empty |
| `View.SettingsIsPlaceholder` | src/pages/Index.tsx:259-267 | `'settings'` shows the placeholder labelled "Настройки", not a settings panel |
| `Page.Index.Content` | src/pages/Index.tsx:89-90 | under the invariant, `if (selectedChat)` is the same as "a chat is selected", and the list shows exactly when no chat is open and the section is `'chats'` |
| `Page.Index.constructor` | src/pages/Index.tsx:33-70 | the initial state: seed data, section `'chats'`, no chat open, empty draft and search, and the invariant holds |
| `Page.Index.SelectSection` | src/pages/Index.tsx:289-292 | sets the section to the entry's id and clears the open chat. `'chats'` then shows the list; any other entry shows its placeholder |
| `Page.Index.OpenChat` | src/pages/Index.tsx:218-221 | callable only while the chat list is on screen (no chat open, section `'chats'`) and for a listed row; opens that row's chat and keeps the section. The header lookup then finds exactly that chat |
| `Page.Index.GoBack` | src/pages/Index.tsx:95 | clears the open chat, leaves the section unchanged, and no longer shows the conversation |
| `Page.Index.EditDraft` | src/pages/Index.tsx:163 | the draft becomes the typed text, and nothing else changes |
| `Page.Index.EditSearch` | src/pages/Index.tsx:190 | the search text becomes the typed text, and nothing else changes |
| `Page.Index.SendMessage` | src/pages/Index.tsx:72-83 | a blank draft leaves messages and draft unchanged. Otherwise exactly one message is appended at the end, earlier messages are kept, ids stay sequential and the draft becomes `""`. The open chat and section are untouched |

## Left out

- Markup, class names, styling and animation. They are presentational only.
- The `Icon`, `Input`, `Button` and `Avatar` components and `cn`. These come from
  a UI library that is not part of this model.
- The stories strip. It is static data that is rendered and never changes.
- The clock. `new Date().toLocaleTimeString('ru-RU', …)` becomes the `time`
  parameter of `SendMessage`.
- The Enter key binding. It calls the same send handler as the button.
- React's update scheduling and re-rendering. Each handler is one atomic
  transition on the fields.
- `Text.Lower`: does not model full Unicode `toLowerCase`. Only Latin A–Z and
  the Cyrillic capitals U+0400–U+042F are folded. Every other character is left
  unchanged, which is enough for the seeded names.
- Strings are sequences of Unicode scalar values, not UTF-16 code units. This
  matters only for emoji avatars, which the model never inspects.
- The conversation header's presence text ("в сети" / "был(а) недавно") and
  the unread badge. They are markup over fields the model keeps.
- `Page.Index.OpenChat` requires that the chat list is on screen (no chat
  open, section `'chats'`) and that the clicked chat is one of its rows. Only
  those rows have the click handler, so no other call can happen on the page.
