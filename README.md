# Presence client and role-gated dashboard: a verified model

This project models, in Dafny, the state-handling core of a role-based
healthcare dashboard written in TypeScript/React:

- **The presence hook** (`src/hooks/useWebSocketReturn.tsx`). Six pieces of
  client state (connection state, current user, online users, rooms, current
  room, system-event feed) are the fields of the class
  `Presence.PresenceClient`. Its methods are the hook's handlers:
  - `AddSystemEvent`: the newest-first feed, capped at 50 entries;
  - `HandleMessage`: the dispatcher for decoded server messages;
  - the mock-mode transitions that actually run, because mock mode is forced on.

  The `forEach` that groups online users into rooms is the loop method
  `GroupUsersByRoom`. It is proved equal to an independent reference grouping,
  and the reference grouping is proved to have one room per distinct room id, in
  order of first appearance, with counts that add up to the number of roomed
  users.
- **Role gating** (`src/contexts/AuthContext.tsx`, `src/components/AppSidebar.tsx`).
  Sign-in is a one-field state machine (`Auth.AuthSession`). The sidebar shows
  exactly the navigation items that list the signed-in role, in table order.
- **List derivations in pages**:
  - the messages page's contact list follows JavaScript `Map` semantics: a key
    keeps its first position and takes its last value;
  - the conversation filter;
  - the patients page's case-insensitive search, patient lookup and record list;
  - the appointments page's status filter with its `all` sentinel.

The model keeps the client's quirks:
- a mock join looks the room up in the fixed fixture rooms, not in the current
  room list. So joining an unknown room twice appends two entries, and joining a
  fixture room that is no longer in the list adds nothing;
- a join never takes the user out of a previous room;
- the online-user list is never de-duplicated;
- in the ONLINE_USERS grouping, a user whose room id is `""` is in no room, as JavaScript truthiness makes it; a join (JOIN message or mock join) treats `""` as an ordinary room id.

No presence server is part of this model. The repository contains only the
client hook and its mock simulation, so the model describes what the client
does.

Ids and clock readings (`Date.now`, `Math.random`, ISO timestamps) are
parameters of the operations that use them. The clock readings taken when the
fixtures are created are the `Presence.LoadTimes` value the client is
constructed with. That value has one field per distinct time offset the
fixtures use.

## Model

| member | source | states |
|---|---|---|
| `Presence.PrependEvent` | src/hooks/useWebSocketReturn.tsx:82-88 | the new event is at index 0, the previous feed follows in order, the length is min(old length + 1, 50): the oldest entries are the ones dropped |
| `Presence.FeedKeepsMostRecent` | src/hooks/useWebSocketReturn.tsx:87 | logging a series of events into a feed of at most 50 entries leaves the 50 most recent entries, newest first, followed by the earlier feed |
| `Presence.AddToRoomMap` | src/hooks/useWebSocketReturn.tsx:146-159 | a user without a (truthy) room changes nothing. Existing entries keep their ids and order, and entries for other rooms are unchanged; the list grows by one exactly when no entry has the room id. The user is appended to the first entry with their room id, whose count becomes its length and whose name is kept; every other entry is unchanged. Without such an entry, a room of one (name = id = the room id) is added at the end |
| `Presence.GroupUsersByRoom` | src/hooks/useWebSocketReturn.tsx:144-161 | the room-map loop over the online users computes exactly the reference grouping (one room per distinct room id, holding the users with that id) |
| `Presence.GroupingShape` | src/hooks/useWebSocketReturn.tsx:144-161 | room ids are distinct and are exactly the room ids of users in a room. Each room has name == id and userCount == number of its users. Its users are, in input order, exactly the users carrying its id |
| `Presence.GroupingOrder` | src/hooks/useWebSocketReturn.tsx:144-161 | rooms are listed in the order in which their ids first occur among the users |
| `Presence.GroupingCountsRoomedUsers` | src/hooks/useWebSocketReturn.tsx:144-160 | the room counts add up to the number of users with a (truthy) room id |
| `Presence.GroupingHoldsOnlyRoomedUsers` | src/hooks/useWebSocketReturn.tsx:145-158 | users without a (truthy) room id are in no room |
| `Presence.FindRoom` | src/hooks/useWebSocketReturn.tsx:251 | the result is the first room with the requested id, and is absent iff no room has that id |
| `Presence.ReplaceRoom` | src/hooks/useWebSocketReturn.tsx:259 | every entry with the id is replaced by the updated room and every other entry is unchanged, in place |
| `Presence.RemoveUser` | src/hooks/useWebSocketReturn.tsx:289 | the remaining users are exactly those whose id differs from the leaving user's. They keep their order, and each keeps every occurrence (online users are never de-duplicated) |
| `Presence.Departed` | src/hooks/useWebSocketReturn.tsx:292-296 | the left room keeps its id and name, counts one fewer, and holds its former users without the leaving one, in order, each remaining entry as often as before |
| `Presence.DepartRoom` | src/hooks/useWebSocketReturn.tsx:290-298 | the list keeps its length. Every entry with the left room's id is replaced by its departed version, and every other room is unchanged at its index |
| `Presence.LeaveRooms` | src/hooks/useWebSocketReturn.tsx:290-299 | every remaining room has a positive count. Rooms with another id and a positive count survive unchanged. The left room survives, departed, whenever its old count exceeds 1. Every survivor with the left id is a departed old room without the user |
| `Presence.LeaveRoomsInOrder` | src/hooks/useWebSocketReturn.tsx:290-299 | the surviving rooms keep the order of the mapped list, and each keeps every occurrence; exactly the rooms whose count is not positive are dropped |
| `Presence.MockRooms` | src/hooks/useWebSocketReturn.tsx:56-60 | the fixture has three rooms, with ids general, dev-team and design |
| `Presence.JoinedRoom` | src/hooks/useWebSocketReturn.tsx:250-269 | the joined room has the requested id and ends with the new user. It is the fixture room plus the user with userCount + 1, or a new room of one when the fixture has no such id |
| `Presence.RoomsAfterJoin` | src/hooks/useWebSocketReturn.tsx:251-269 | a fixture room id replaces every entry with that id in place; any other id appends a room of one |
| `Presence.JoinKeepsOtherRooms` | src/hooks/useWebSocketReturn.tsx:259-268 | a join grows the room list by at most one and leaves every room with another id where it was, so the user stays listed in any earlier room |
| `Presence.JoinUnknownRoomTwiceDuplicates` | src/hooks/useWebSocketReturn.tsx:260-268 | joining a non-fixture room twice leaves two entries with that id |
| `Presence.JoinFixtureRoomForgetsEarlierJoin` | src/hooks/useWebSocketReturn.tsx:251-259 | after two joins of a fixture room, its entries hold the fixture users plus only the latest user, with the fixture count + 1 |
| `Presence.PresenceClient.constructor` | src/hooks/useWebSocketReturn.tsx:70-75 | initial state: disconnected, no user, no online users, no rooms, no current room, empty feed |
| `Presence.PresenceClient.IsConnected` | src/hooks/useWebSocketReturn.tsx:482 | true iff the connection state is connected |
| `Presence.PresenceClient.AddSystemEvent` | src/hooks/useWebSocketReturn.tsx:82-88 | only the feed changes; it becomes the capped prepend of the event |
| `Presence.PresenceClient.HandleMessage` | src/hooks/useWebSocketReturn.tsx:123-201 | SYSTEM logs the event. ONLINE_USERS sets the online users to the payload and the rooms to their grouping. ROOM_PRESENCE sets the current room (id = name = roomId, count = number of users). JOIN sets an online current user. LEAVE clears user and room. PING, an unknown type or an unparseable frame change nothing. Only a SYSTEM message touches the event log, only JOIN and LEAVE touch the current user, only ONLINE_USERS touches the rooms, and no message changes the connection state |
| `Presence.PresenceClient.MockConnect` | src/hooks/useWebSocketReturn.tsx:204-205 | only the connection state changes, to connecting |
| `Presence.PresenceClient.MockConnectSettled` | src/hooks/useWebSocketReturn.tsx:208-219 | connected, with the fixture users and rooms, and the fixture feed with a connect notice on top; user and current room unchanged |
| `Presence.PresenceClient.MockDisconnect` | src/hooks/useWebSocketReturn.tsx:223-235 | disconnected with no user, room, online users or rooms; the existing feed is kept with one disconnect notice prepended |
| `Presence.PresenceClient.MockJoinRoom` | src/hooks/useWebSocketReturn.tsx:238-277 | exactly one new online user is appended and becomes the current user. The current room and the room list follow the fixture lookup. A join event scoped to the room is logged. The connection state is unchanged |
| `Presence.PresenceClient.MockLeaveRoom` | src/hooks/useWebSocketReturn.tsx:280-304 | with a current user and room: a leave event is logged, the user is removed by id from the online users and from the room, and rooms whose count is no longer positive are dropped. In every case user and room end cleared |
| `Presence.PresenceClient.MockRequestRoomPresence` | src/hooks/useWebSocketReturn.tsx:307-312 | the current room becomes the first room with the id; with none, nothing changes |
| `Auth.AccountFor` | src/contexts/AuthContext.tsx:17-25 | the account signed in for a role has that role |
| `Auth.AccountsDistinct` | src/contexts/AuthContext.tsx:18-23 | different roles sign in different accounts (different ids) |
| `Auth.AuthSession.constructor` | src/contexts/AuthContext.tsx:15 | nobody is signed in initially |
| `Auth.AuthSession.Login` | src/contexts/AuthContext.tsx:17-25 | the signed-in account is the fixed account of the role, whatever the email and password |
| `Auth.AuthSession.Logout` | src/contexts/AuthContext.tsx:27 | nobody is signed in afterwards |
| `Auth.AuthSession.IsAuthenticated` | src/contexts/AuthContext.tsx:30 | true iff an account is signed in |
| `Auth.UseAuth` | src/contexts/AuthContext.tsx:36-39 | fails with the "must be used within AuthProvider" error iff there is no provider, and otherwise returns the provider's session |
| `Sidebar.FilteredItems` | src/components/AppSidebar.tsx:38 | nothing is shown with nobody signed in; an item is shown iff it is in the table and lists the account's role |
| `Sidebar.FilteredItemsInTableOrder` | src/components/AppSidebar.tsx:25-38 | shown items keep the order of the navigation table |
| `Sidebar.TitledItem` | src/components/AppSidebar.tsx:25-32 | each of Dashboard, Appointments, Records and Audit Logs names one table entry |
| `Sidebar.SharedItemsForEveryRole` | src/components/AppSidebar.tsx:26-28 | Dashboard and Appointments are shown to every role |
| `Sidebar.RecordsOnlyForDoctorsAndPatients` | src/components/AppSidebar.tsx:30 | Records is shown iff the role is doctor or patient |
| `Sidebar.AuditLogsOnlyForAdmins` | src/components/AppSidebar.tsx:31 | Audit Logs is shown iff the role is admin |
| `Sidebar.SignInShowsRoleItems` | src/components/AppSidebar.tsx:38 | after signing in as a role, the sidebar is exactly the table filtered by that role |
| `MessagesPage.MapFromEntries` | src/pages/MessagesPage.tsx:14-24 | a Map built from entries has one entry per distinct key, in order of the key's first appearance, holding the value of the key's last entry |
| `MessagesPage.Contacts` | src/pages/MessagesPage.tsx:14-24 | one contact per distinct counterpart id, in order of the counterpart's first appearance |
| `MessagesPage.LastIndexInvolving` | src/pages/MessagesPage.tsx:16-21 | the index found is that of the last message whose counterpart is the contact |
| `MessagesPage.ContactsFromLastMessage` | src/pages/MessagesPage.tsx:14-24 | one contact per distinct counterpart id, in order of first appearance; each contact equals the contact derived from the last message with that counterpart |
| `MessagesPage.UnreadOnlyForReceivedUnread` | src/pages/MessagesPage.tsx:17-20 | a contact is unread iff its message was not sent by the user and is not read; the name is the other party's |
| `MessagesPage.Conversation` | src/pages/MessagesPage.tsx:26-30 | empty when no contact is selected; otherwise exactly the messages between the user and the selected contact, either way |
| `MessagesPage.ConversationInOrder` | src/pages/MessagesPage.tsx:26-30 | the conversation keeps the original order and every occurrence of each such message |
| `PatientsPage.Includes` | src/pages/PatientsPage.tsx:14-15 | `includes` holds iff the needle occurs at some position of the text |
| `PatientsPage.MatchesSearch` | src/pages/PatientsPage.tsx:13-15 | a patient matches iff the lower-cased query occurs at some position of the lower-cased name or of some lower-cased condition; an empty query matches everyone |
| `PatientsPage.FilteredPatients` | src/pages/PatientsPage.tsx:12-16 | a patient is kept iff the lower-cased search text occurs in the lower-cased name or in some lower-cased condition |
| `PatientsPage.FilteredPatientsInOrder` | src/pages/PatientsPage.tsx:12-16 | the result is an order-preserving subsequence that keeps every occurrence of every matching patient |
| `PatientsPage.EmptySearchKeepsAll` | src/pages/PatientsPage.tsx:12-16 | an empty search keeps the whole list |
| `PatientsPage.SelectedPatient` | src/pages/PatientsPage.tsx:18 | absent when nobody is selected or no patient has the id; otherwise the first patient with the selected id |
| `PatientsPage.PatientRecords` | src/pages/PatientsPage.tsx:19 | empty when nobody is selected. Otherwise it is exactly the records of the selected patient, in list order, each occurrence kept |
| `PatientsPage.NoRecordsMessage` | src/pages/PatientsPage.tsx:75-113 | "No records" shows iff a listed patient is selected and no record belongs to that patient |
| `AppointmentsPage.FiltersAreEverySelection` | src/pages/AppointmentsPage.tsx:8-14 | the five filter buttons are all, pending, approved, completed, cancelled: every filter, each once |
| `AppointmentsPage.FilteredAppointments` | src/pages/AppointmentsPage.tsx:13 | `all` returns the list unchanged; a status keeps exactly the appointments with that status |
| `AppointmentsPage.StatusFilterInOrder` | src/pages/AppointmentsPage.tsx:13 | a status filter keeps the list order and every occurrence of each matching appointment |
| `AppointmentsPage.NoAppointmentsMessage` | src/pages/AppointmentsPage.tsx:88-90 | "No appointments found" shows iff no appointment passes the filter |

## Left out

- Real WebSocket transport is not modelled. That covers `connect`, the
  `onopen`/`onclose`/`onerror` callbacks, `disconnect`, `sendMessage`, and JSON
  encoding and decoding. This code is I/O and does not run while mock mode is
  forced on. Inbound frames are the decoded `Frame` datatype: unparseable text,
  an unknown `type`, or a well-formed message.
- Payloads whose shape does not match their `type` are not modelled: a decoded
  message always carries the payload its type announces. In the source the cast
  is unchecked; for example, an ONLINE_USERS message without a `users` array
  throws inside the handler.
- Timers are not modelled: the heartbeat interval, the 3-second reconnect and the
  5-second polling. `mockConnect`'s 500 ms delay is modelled as two transitions,
  `MockConnect` and `MockConnectSettled`.
- The public actions (`joinRoom`, `leaveRoom`, `requestOnlineUsers`,
  `requestRoomPresence`, `connect`, `disconnect`) are not modelled as separate
  members. In mock mode they only forward to the mock handlers, and
  `requestOnlineUsers` does nothing. The 600 ms delayed join that `joinRoom`
  schedules when not yet connected is a timer.
- Presence.PresenceClient.MockJoinRoom: one `now` stands for both clock readings
  of the handler (the user's `lastSeen` and the event timestamp), which the
  source takes separately.
- Presence.PresenceClient.MockLeaveRoom: it reads the current fields, not the
  values captured when the callback was created (React stale closures).
  `MockRequestRoomPresence` does the same for `rooms`.
- React machinery is not modelled: `useCallback` dependencies, effects and
  cleanup. `console.log` and `console.error` output is not modelled either.
- The room objects that the grouping loop mutates are modelled as values. They
  are created inside the loop and are not aliased elsewhere.
- PatientsPage.Lower: `toLowerCase` is modelled for ASCII letters only;
  Unicode case mapping is not modelled.
- `Auth.UseAuth`: React's context lookup is modelled as a possibly-null provider
  session.
- Icons, styling, collapsed-sidebar state and every other presentation detail
  are not modelled. Pages that only display constant data are not modelled
  either.
- Presence.MockUsers: Alice, Bob, Diana and Eve each read the clock
  separately for `lastSeen`. The model gives all four the one reading
  `LoadTimes.now`. They are taken back to back while the module loads, and no
  operation compares them.
- The fixture data of `src/data/mockData.ts` is not modelled, except the doctor
  account (`Auth.DoctorAccount`). The page functions take their lists as
  parameters instead.
