# TileTalk core in Dafny

TileTalk is a shared tile world. Players walk a grid in the browser, and the Go
server tells each pair of players when they become neighbours. Two neighbours
can then open a chat window and talk. This project models the four parts of
TileTalk that carry logic, and proves what each one promises:

- **The browser view** (`dashboard.dfy`, module `Dashboard`).
  - Loading the room grid: house and player markers are cleared, the house
    anchors and the spawn cell are extracted.
  - `movePlayer`: bounds, walkable tiles, and 5 x 5 house footprints.
  - The inbound frame dispatcher: the other players and the one adjacent peer.
  - The chat gate on the C and Escape keys.
  - The component's state is the class `Client`. Frames sent on the socket
    are a sequence field.
- **The chat window** (`retro_chat.dfy`, module `RetroChat`).
  - An append-only log that starts with one SYSTEM greeting.
  - A filter that keeps only frames from the bound recipient.
  - Sending: the log shows an upper-cased copy while the wire gets the text
    as typed.
  - The state is the class `Session`.
- **The server's proximity engine**: the pure logic is in `proximity.dfy` (module
  `Proximity`), the shared maps in `hub.dfy` (module `Hub`).
  - Adjacency: Manhattan distance exactly 1.
  - The pair key.
  - One iteration of the read loop of `handleConnections`:
    - it records the sender's position;
    - it updates the set of adjacent pairs on each edge transition;
    - it emits mirrored approach/leave frames;
    - it copies chat frames;
    - it broadcasts the frame.
  - Cleanup on disconnect.
  - The shared maps are the class `Hub`. Everything written to the broadcast
    channel or to a socket is a sequence field.
- **The database wrapper** (`user_wrapper.dfy`, module `UserWrapper`).
  - `GetRoomData` rebuilds a dense grid from sparse tile records. It uses the
    bounding box, a grass default, and last write wins.
  - Two straight-line checks: `GetUserData` (the credential check) and
    `GetOrCreatePlayerPosition` (the default placement). The database's answer
    is a parameter of each.

`wire.dfy` (module `Wire`) holds the JSON frame shared by both sides. Go
encodes five of its fields with `omitempty`. An empty one is therefore
`undefined` in the browser, and it is strictly equal to no string there
(`Wire.OmitEmptyEquals`).

`delivery.dfy` (module `Delivery`) follows one chat line end to end. It brings
out two consequences of the code as written.

- The chat window's frame has no `username`. The server therefore writes its
  direct copies with an empty `Sender`, and no chat window keeps them. The
  recipient sees the line only through the broadcast of the original frame.
  That broadcast reaches every connected client, and any window bound to the
  sender shows it.
- Every frame overwrites the position of its `username`. A chat frame
  therefore records the empty username at (0, 0). See `Hub.Hub.Receive` and
  `Delivery.ReceiveWindowChat`.

Go visits the other players in the unspecified order of map iteration. The
model picks that order nondeterministically, and `Receive` reports the order it
used as a ghost result. No order across players is asserted. Instead,
`ProximityFramesOrderIndependent` shows that any two visiting orders emit the
same multiset of frames.

## Model

| member | source | states |
|---|---|---|
| `Proximity.Abs` | backend/server/client.go:168-173 | the result is non-negative and is `x` or `-x` |
| `Proximity.ArePlayersAdjacent` | backend/server/client.go:162-166 | distance exactly 1 holds iff the second cell is one of the four orthogonal neighbours of the first |
| `Proximity.AdjacencySymmetric` | backend/server/client.go:162-166 | adjacency does not depend on the order of the two cells |
| `Proximity.AdjacencyIrreflexive` | backend/server/client.go:162-166 | no cell is adjacent to itself |
| `Proximity.LexLessIrreflexive` | backend/server/client.go:176 | Go's string `<` is irreflexive |
| `Proximity.LexLessAsymmetric` | backend/server/client.go:176 | Go's string `<` is asymmetric |
| `Proximity.LexLessTotal` | backend/server/client.go:176 | of two different strings, one is smaller |
| `Proximity.GeneratePairKey` | backend/server/client.go:175-180 | the key is the two names joined by a bar, the smaller name first |
| `Proximity.GeneratePairKeySymmetric` | backend/server/client.go:175-180 | the key is the same for `(a, b)` and `(b, a)` |
| `Proximity.GeneratePairKeyCollides` | backend/server/client.go:175-180 | a sender named a-bar-b-bar-a gets one key for the two different players b-bar-a and a-bar-b |
| `Proximity.GeneratePairKeyInjectiveWithoutSeparator` | backend/server/client.go:175-180 | when no name contains the bar, two keys are equal iff they join the same unordered pair |
| `Proximity.PairKeyOf` | backend/server/client.go:175-180 | the corrected key holds the two names, the smaller first |
| `Proximity.PairKeyOfInjective` | backend/server/client.go:175-180 | two corrected keys are equal iff they are for the same unordered pair, for all names |
| `Proximity.SenderKeysDistinct` | backend/server/client.go:97 | for one sender, different players get different keys |
| `Proximity.TransitionOnEdges` | backend/server/client.go:97-138 | false→true emits the two approach frames, sender→other then other→sender; true→false emits the two leave frames; no change emits nothing |
| `Proximity.ProximityFramesMirrored` | backend/server/client.go:101-137 | a frame's proximity output has even length, and each pair is a broadcast `(s→o, action)` followed by `(o→s, action)` for a visited player `o` |
| `Proximity.ProximityFramesOrderIndependent` | backend/server/client.go:81 | any two visiting orders of the same players emit the same multiset of frames |
| `Hub.Hub.constructor` | backend/server/client.go:20-21 | no clients, no positions, no adjacent pairs, nothing emitted |
| `Hub.Hub.Connect` | backend/server/client.go:42-58 | an empty username is refused; otherwise it is added to the clients, and nothing else changes |
| `Hub.Hub.Visit` | backend/server/client.go:82-138 | one pass of the inner loop. The sender's own entry changes nothing. Chat: one direct copy to a connected recipient, pairs unchanged. Otherwise: the pair of the sender and `other` is set to "adjacent now", and the transition's frames are appended. The loop invariant moves on by one player |
| `Hub.Hub.VisitPlayers` | backend/server/client.go:81-139 | after the inner loop, every other player has been visited exactly once, in the ghost order returned. Chat frames leave the pairs alone and emit one copy per other player; other frames bring each sender pair up to date and emit exactly the proximity frames of that order |
| `Hub.Hub.Receive` | backend/server/client.go:79-141 | the sender's position becomes the frame's row/col for every frame type. `order` lists each other player exactly once. Chat: pairs unchanged, `n` copies to a connected recipient, then the broadcast. Otherwise: each sender pair is adjacent iff the cells are neighbours, no other pair changes, the proximity frames are emitted, then the broadcast. Pairs stay between two distinct players with positions |
| `Hub.Hub.Disconnect` | backend/server/client.go:64-76 | the user leaves the clients and the positions; exactly the pairs joining it to a player still present are removed, afterwards no pair mentions it, and nothing is emitted |
| `Dashboard.InHouse` | frontend/src/components/dashboard.jsx:172-178 | the `.some` scan holds iff some house footprint covers the cell |
| `Dashboard.CheckMove` | frontend/src/components/dashboard.jsx:157-184 | a move is accepted iff the target is in bounds, on G or R, and outside every house footprint; an accepted move goes to `from + (dr, dc)`; out-of-bounds is reported exactly when a bound fails; the tile is read only once the bounds hold |
| `Dashboard.KeyCommand` | frontend/src/components/dashboard.jsx:216-250 | ArrowUp/w/W move by (-1, 0), ArrowDown/s/S by (1, 0), ArrowLeft/a/A by (0, -1) and ArrowRight/d/D by (0, 1); no other key moves; C/c and Escape are the chat keys |
| `Dashboard.NormalizeRow` | frontend/src/components/dashboard.jsx:106-115 | the inner loop clears H and P before column `cols`, pushes the H cells left to right, and keeps the last P |
| `Dashboard.NormalizeMap` | frontend/src/components/dashboard.jsx:98-116 | the new map is the input with every visited H/P cleared and the rest unchanged; `houses` are the H anchors in push order; the spawn is the last P |
| `Dashboard.NormalizedHasNoMarkers` | frontend/src/components/dashboard.jsx:105-116 | on a rectangular grid no H or P survives loading |
| `Dashboard.AnchorsExact` | frontend/src/components/dashboard.jsx:107-110 | a cell is a house anchor iff it is a visited H cell |
| `Dashboard.AnchorsSorted` | frontend/src/components/dashboard.jsx:105-108 | the anchors are in strictly increasing row-major order |
| `Dashboard.SpawnLast` | frontend/src/components/dashboard.jsx:111-114 | the spawn is a P cell with no P after it in row-major order; without a P the position is kept |
| `Dashboard.Client.constructor` | frontend/src/components/dashboard.jsx:28-39 | the initial state: loading, no map, player at (0, 0), no peers, chat closed |
| `Dashboard.Client.Load` | frontend/src/components/dashboard.jsx:93-128 | a non-empty array installs the normalised map, the anchors, its dimensions and the spawn cell, if there is one; anything else changes nothing; loading ends either way |
| `Dashboard.Client.MovePlayer` | frontend/src/components/dashboard.jsx:156-200 | a refused move only raises the collision flag; an accepted move goes to the target, sends exactly one position frame when the socket is open and a username exists, and raises the jump flag |
| `Dashboard.Client.OnMessage` | frontend/src/components/dashboard.jsx:65-87 | a position frame of another player sets only its entry, and a self-echo changes nothing; a proximity frame aimed at this player sets the peer on approach; on leave from the current peer it clears the peer and closes the chat; anything else leaves the chat state alone |
| `Dashboard.Client.OpenChat` | frontend/src/components/dashboard.jsx:202-207 | with a peer, the chat opens bound to it; without one nothing changes |
| `Dashboard.Client.CloseChat` | frontend/src/components/dashboard.jsx:209-212 | always closed with recipient "" |
| `Dashboard.Client.HandleKey` | frontend/src/components/dashboard.jsx:215-251 | a move key has exactly the effect of `movePlayer` with that key's step; any other key leaves the position, the sent frames and the collision and jump flags alone; C opens the chat only if there is a peer and the chat is closed; Escape closes only an open chat; an open chat always has a recipient |
| `RetroChat.TrimStart` | frontend/src/components/RetroChat.jsx:38 | the result is a suffix without leading white space, and everything removed is white space |
| `RetroChat.TrimEnd` | frontend/src/components/RetroChat.jsx:38 | the result is a prefix without trailing white space, and everything removed is white space |
| `RetroChat.TrimEmptyIffBlank` | frontend/src/components/RetroChat.jsx:38 | `trim()` is empty iff the input is only white space |
| `RetroChat.TrimsToEmpty` | frontend/src/components/RetroChat.jsx:38 | the send guard's input test holds iff the input is blank |
| `RetroChat.ToUpper` | frontend/src/components/RetroChat.jsx:43 | the length is kept and each character is upper-cased |
| `RetroChat.ToUpperHasNoLowerCase` | frontend/src/components/RetroChat.jsx:43 | no lower-case ASCII letter remains |
| `RetroChat.Session.constructor` | frontend/src/components/RetroChat.jsx:4-7 | the log is exactly the SYSTEM entry "Connected to <recipient>", and the input is empty |
| `RetroChat.Session.SetInput` | frontend/src/components/RetroChat.jsx:112-115 | the input takes the typed value of at most 50 characters |
| `RetroChat.Session.HandleMessage` | frontend/src/components/RetroChat.jsx:11-34 | with a socket, a frame is appended iff it is a chat from the recipient; any other frame leaves the log unchanged; the old log is a prefix of the new one |
| `RetroChat.Session.HandleSend` | frontend/src/components/RetroChat.jsx:36-64 | blank input, no socket or no recipient: nothing changes. Otherwise one entry `(currentUser, upper-cased text)` is appended and one chat frame with the raw text, the recipient and the sender is sent, and the input becomes "". The log always starts with the greeting and only grows |
| `UserWrapper.GetUserData` | backend/wrapper/user_wrapper.go:54-91 | succeeds iff the query succeeded, returned at least one row, and the first row's password is the supplied string; each check that fails has its own named error |
| `UserWrapper.GetOrCreatePlayerPosition` | backend/wrapper/user_wrapper.go:93-121 | a single-row result is read back with zero defaults; any other result inserts the character `(username, room1, 0, 7, username)` and returns `(0, 7, room1)`, or `(0, 0, "", err)` when the insert fails |
| `UserWrapper.PlacementAlwaysInserts` | backend/wrapper/user_wrapper.go:96-107 | for the row-list or error results the database layer produces, the lookup never applies and the default character is always inserted |
| `UserWrapper.BoxTight` | backend/wrapper/user_wrapper.go:143-165 | every record with coordinates lies within the computed bounds |
| `UserWrapper.BoxAttained` | backend/wrapper/user_wrapper.go:143-165 | with 32-bit coordinates, each bound is the coordinate of some record |
| `UserWrapper.NoCoordsEmptyBox` | backend/wrapper/user_wrapper.go:143-144 | without records with coordinates the bounds keep their starting values |
| `UserWrapper.CellDefaultsToGrass` | backend/wrapper/user_wrapper.go:172-178 | a cell that no record with a tile names is "G" |
| `UserWrapper.LastWriteWins` | backend/wrapper/user_wrapper.go:181-196 | a cell holds the tile of the last record that names it and has a tile |
| `UserWrapper.GuardAlwaysPasses` | backend/wrapper/user_wrapper.go:190-195 | the in-range guard holds for every record with coordinates |
| `UserWrapper.GetRoomData` | backend/wrapper/user_wrapper.go:123-200 | a query error and an unexpected result type are errors; no rows give `[["G"]]`; otherwise the grid has at least one row and one column, is `(maxRow-minRow+1) x (maxCol-minCol+1)`, and each cell is the last tile placed there or "G" |
| `Delivery.DirectCopyNeverShown` | backend/server/client.go:85-96 | the direct copy of the chat window's frame has an empty sender, and no chat window keeps it |
| `Delivery.BroadcastShownIffBoundToSender` | frontend/src/components/RetroChat.jsx:17 | a window keeps the broadcast chat frame iff it is bound to the (non-empty) sender |
| `Delivery.ChatEmitsShownOnce` | backend/server/client.go:85-141 | of all frames the server emits for one chat line, a window bound to the sender keeps only the final broadcast |
| `Delivery.ReceiveWindowChat` | backend/server/client.go:79 | when the hub receives the chat window's frame, the empty username is recorded at (0, 0), every other player keeps its position, and no pair changes |

## Left out

- WebSocket and HTTP plumbing is left out: the `upgrader`, `ReadJSON`/`WriteJSON`, and the
  `handleMessages` goroutine and channel. A write to `broadcast` or to a socket is an
  `Emit` appended to `Hub.Hub.out`, and delivery to clients is not modelled. The broadcaster
  drops clients whose write fails; that is not modelled either.
- Concurrency is left out: `clientsMu`, and the connection goroutines that share the maps
  (without a lock for the positions and pairs). Each `Receive` and `Disconnect` is one
  atomic step.
- Hub.Hub.Receive: the pairs are keyed by `Proximity.PairKey`, not by the joined string of
  `generatePairKey`. It therefore differs from the source when names contain `|` (see
  Findings).
- Hub.Hub.Receive: the order of map iteration is a nondeterministic choice. Frame order
  across players is only stated up to a permutation.
- The source's integers are Go's 64-bit `int`; here they are unbounded. The room
  coordinates come from 32-bit CQL `int` columns, so the source's arithmetic cannot
  overflow there.
- Proximity.Abs and Proximity.ArePlayersAdjacent: the positions in client frames are
  decoded into Go's 64-bit `int` (backend/server/client.go:64, 79). There, `abs` of the
  least `int` is negative, and a difference that wraps can make two far-apart cells
  look adjacent. The model does not capture that wrap-around: it states both functions
  on unbounded integers. The `make` of a huge grid running out of memory is not modelled.
- UserWrapper.GetRoomData requires one record with integer coordinates when the list is
  not empty. Without one, the source computes negative dimensions and `make` panics.
- The database session and queries are left out: the query text and `ctx`, and the
  ScyllaDB layer (backend/db/scylla.go). The result of `GetData`, and the outcome of the
  insert in `GetOrCreatePlayerPosition`, are parameters. `SetUserData`, the HTTP handlers
  in main.go and server.go, and the sign-in, login and routing components are not part of
  this model.
- The 300 ms and 200 ms timers that reset the collision and jump flags are left out. The
  flags are raised but never reset.
- Left out as rendering: tile-size computation (floating point), images, the player
  sprite, scrolling, and the display time of chat entries.
- Dashboard.Client.MovePlayer: the socket's `readyState` is the parameter `socketOpen`.
  Reopening the socket when `adjacentTo` changes is not modelled, and neither is the
  redirect to the login page when no username is stored. The stored username is a
  constant of `Client` and `Session`.
- Dashboard.Client.Load receives the parsed response as a grid of strings, or `None`
  when the fetch, the parse or the array test fails. Rows that are not arrays are not
  modelled.
- The copy of the map that the loader rewrites in place, and the Go grid slices, are
  sequence values reassigned cell by cell. Both are fresh and unaliased, so no update of
  shared storage is lost.
- RetroChat.ToUpper raises only ASCII letters. JavaScript's full Unicode case mapping is
  not modelled; it can change the length, e.g. "ß" becomes "SS".
- RetroChat.Session.HandleMessage stores an omitted `message` field as "",
  where the browser would hold `undefined`.
- RetroChat.Session.SetInput requires at most 50 characters. That is the
  input's `maxLength`, which the browser enforces.

## Findings

| source | as written | input that shows it | evidently intended | confidence | as-written member | corrected member |
|---|---|---|---|---|---|---|
| backend/server/client.go:175-180 | the pair key is the two names joined by a bar, the smaller first, and names may themselves contain the bar | sender a-bar-b-bar-a with players b-bar-a and a-bar-b: both keys are a-bar-b-bar-a-bar-b-bar-a, so the two pairs share one adjacency flag | one key per unordered pair of names | not executed | `Proximity.GeneratePairKeyCollides` | `Proximity.PairKeyOfInjective` |
