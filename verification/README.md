# EcoChat core, modelled in Dafny

EcoChat is a group chat system. A Node server keeps group and message
documents in MongoDB, serves them over REST controllers and relays live
events over Socket.IO. A React web client shows a group's messages, composes
new ones and keeps the signed-in session.

This project models the decision logic and state changes of that core:

- the message document and its four instance methods: the reaction ledger,
  the poll ballot and the per-recipient delivery status;
- the group document's pre-save hook and the REST group and message
  controllers, with their checks in the order the code makes them;
- the socket server's in-memory registries (user to socket, socket to user,
  typing sets per group) and one handler per socket event. Every emission is
  appended to a log together with its audience;
- the client's chat window (message and typing lists, history paging), the
  composer (send guards and payload, poll form, upload type), the message
  bubble (reaction chips, poll totals, offered actions, edit decision) and
  the session (error texts, login, refresh, logout);
- the upload configuration: storage folder and resource type by mime type,
  and the file filter.

Code that updates state in place is modelled as classes whose methods name
what they modify:

- `MessageModel.MessageDoc`
- `GroupModel.Group`
- `SocketServer.ChatServer`
- `ChatWindow.ChatWindowState`
- `MessageInput.Composer`
- `AuthContext.Session`

Each of these methods is tied by its postcondition to a pure function of the
old state, for example `StatusAfter`, `CastVote`, `WithReaction`, `Without`,
`StartTyping` or `Payload`. Lemmas then prove what the system promises about
those functions.

Ids are strings compared by value, as the code compares them through
`toString()`. The database is a parameter in the controllers. A handler
receives the document the query found, or `null`. The socket server holds
the store as maps of documents.

## Model

| member | source | states |
|---|---|---|
| Common.Filter | frontend/src/components/ChatWindow.js:47 | `filter(keep)`: the result is no longer than the list and every kept element passes |
| Common.FilterMembership | frontend/src/components/ChatWindow.js:47 | an element is kept exactly when it is in the list and passes |
| Common.FilterMembershipAll | frontend/src/components/ChatWindow.js:47 | the same, for every element at once |
| Common.FilterAppend | frontend/src/components/ChatWindow.js:47 | filtering a concatenation filters each part, so the kept elements stay in their order |
| Common.FilterCount | frontend/src/components/ChatWindow.js:47 | a passing element is kept as often as it occurs; any other is dropped entirely |
| Common.FilterCountAll | frontend/src/components/ChatWindow.js:47 | the same, for every passing element at once |
| Common.FilterAllKept | frontend/src/components/ChatWindow.js:47 | a list whose elements all pass is its own filter |
| Common.Without | backend/controllers/groupController.js:141-146 | `filter(x => x !== id)`, the generic filter with the test `NotEqualTo(id)`: the id is gone and nothing is added |
| Common.WithoutMembership | backend/controllers/groupController.js:141-146 | an element survives the filter exactly when it was there and is not the filtered id |
| Common.WithoutAbsent | backend/controllers/groupController.js:228-233 | filtering out an id that is not there leaves the list unchanged |
| Common.WithoutAppend | backend/socket/socketHandler.js:104-108 | the filter distributes over concatenation |
| Common.WithoutCount | backend/models/Message.js:128-132 | every other element is kept exactly as often as before |
| Common.WithoutLength | backend/models/Message.js:128-132 | the filter drops exactly the occurrences of the id |
| Common.NoDuplicatesCount | backend/models/Group.js:40-45 | a list without repeats holds each element once |
| Common.WithoutNoDuplicates | backend/models/Message.js:128-132 | filtering keeps a list free of repeats |
| Common.AppendIfAbsent | backend/models/Group.js:40-45 | `if (!list.includes(x)) list.push(x)`: afterwards `x` is in the list; an existing `x` changes nothing; otherwise `x` is appended after the unchanged old list |
| Common.AppendIfAbsentElements | backend/models/Group.js:40-45 | the list keeps every element, gains only `x`, and stays free of repeats |
| Strings.TrimStart | frontend/src/components/MessageInput.js:23-24 | the result is a suffix, starts with a non-whitespace character, and only whitespace was removed |
| Strings.TrimEnd | frontend/src/components/MessageInput.js:23-24 | the result is a prefix, ends with a non-whitespace character, and only whitespace was removed |
| Strings.BlankIffAllWhitespace | frontend/src/components/MessageInput.js:23-24 | `!s.trim()` holds exactly when every character is whitespace |
| Strings.TrimEnds | frontend/src/components/MessageInput.js:35 | a trimmed string has no whitespace at either end |
| Strings.TrimFixed | frontend/src/components/MessageInput.js:35 | a string with no whitespace at its ends is its own trim |
| Strings.TrimIdempotent | frontend/src/components/MessageInput.js:35 | trimming twice is trimming once |
| Strings.ToLower | backend/config/cloudinary.js:49 | `toLowerCase` maps each character by itself and keeps the length |
| Strings.ContainsIffOccurs | backend/config/cloudinary.js:48-50 | the unanchored left-to-right search succeeds exactly when the pattern occurs at some offset |
| Strings.Join | frontend/src/contexts/AuthContext.js:75 | `join` of no items is empty and of one item is that item, with no separator |
| Strings.JoinFront | frontend/src/contexts/AuthContext.js:75 | read from the front, `join` is the first item, the separator, then the join of the rest |
| MessageModel.ParseMessageType | backend/models/Message.js:15-20 | exactly the six enum names are accepted, each as its own type |
| MessageModel.RequestedType | backend/socket/socketHandler.js:88-101 | a missing type defaults to text; any other name goes to enum validation |
| MessageModel.StoredPoll | backend/socket/socketHandler.js:94 | a message sent with a poll keeps it; one sent without reads the nested path's empty poll, with no question and no options |
| MessageModel.MessageTypeRoundTrip | backend/models/Message.js:15-20 | every type's name parses back to that type |
| MessageModel.ReactionsOfOthers | backend/models/Message.js:105-107 | the generic filter with the test `ByOtherThan(u)`: never longer than the ledger, and no reaction of `u` survives |
| MessageModel.ReactionsOfOthersMembership | backend/models/Message.js:105-107 | a reaction survives exactly when it belongs to another user |
| MessageModel.ReactionsOfOthersAbsent | backend/models/Message.js:105-107 | a user without reactions leaves the ledger as it was |
| MessageModel.ReactionsOfOthersOnePerUser | backend/models/Message.js:105-107 | filtering keeps at most one reaction per user |
| MessageModel.AddReactionLedger | backend/models/Message.js:103-111 | after adding, the user has exactly one reaction, the new one, and it is last; before it stand the other users' reactions, each as often as before and in their original order (`Common.FilterAppend`); a first reaction is simply appended |
| MessageModel.AddReactionOnePerUser | backend/models/Message.js:103-111 | adding a reaction keeps at most one reaction per user |
| MessageModel.RemoveReactionExact | backend/models/Message.js:114-119 | removal drops exactly the matching (emoji, user) pairs; a mismatched emoji changes nothing; every other entry keeps its count; one reaction per user is preserved |
| MessageModel.RemovedKeepsOnePerUser | backend/models/Message.js:114-119 | filtering keeps at most one reaction per user |
| MessageModel.ClearVote | backend/models/Message.js:128-132 | clearing a voter keeps the number of options |
| MessageModel.CastVoteKeepsOthers | backend/models/Message.js:122-140 | voting keeps the option count and texts, and every other voter's votes |
| MessageModel.CastVoteExclusive | backend/models/Message.js:122-140 | a vote for an existing option leaves the voter in that option, exactly once, and in no other |
| MessageModel.CastVoteOutOfRange | backend/models/Message.js:134-137 | a vote for a missing option clears the voter everywhere and is not an error |
| MessageModel.CastVoteSingleChoice | backend/models/Message.js:122-140 | voting keeps every voter in at most one option, at most once |
| MessageModel.ParseStatusType | backend/models/Message.js:144-146 | only `sent`, `delivered` and `seen` are accepted |
| MessageModel.StatusMonotonic | backend/models/Message.js:143-163 | a status update only appends; nothing is removed or reordered |
| MessageModel.StatusIdempotent | backend/models/Message.js:148-159 | repeating an update changes nothing |
| MessageModel.StatusCascade | backend/models/Message.js:152-159 | the user ends in the requested list; seen adds to delivered but not to sent, and delivered adds to sent but not to seen; a user already listed changes nothing; other users are untouched |
| MessageModel.StatusChainPreserved | backend/models/Message.js:143-163 | every update keeps seen ⊆ delivered ⊆ sent ∪ seen |
| MessageModel.RecipientChain | backend/models/Message.js:143-163 | for a recipient recorded as sent, seen ⇒ delivered ⇒ sent holds after any update |
| MessageModel.MessageDoc.constructor | backend/socket/socketHandler.js:88-101 | a new message has the given fields, no reactions, is not deleted, and is created and updated now |
| MessageModel.MessageDoc.IsPoll | backend/models/Message.js:97-100 | `isPoll` holds only for poll-typed messages, and never for one saved without a poll |
| MessageModel.MessageDoc.AddReaction | backend/models/Message.js:103-111 | the ledger becomes `WithReaction` of the old one |
| MessageModel.MessageDoc.RemoveReaction | backend/models/Message.js:114-119 | the ledger becomes `WithoutReaction` of the old one |
| MessageModel.MessageDoc.VotePoll | backend/models/Message.js:122-140 | throws "Message is not a poll", changing nothing, unless the type is poll (a poll always reads as an object, so `!this.poll` never holds); otherwise its option-by-option loop yields `CastVote` of the old options |
| MessageModel.MessageDoc.UpdateStatus | backend/models/Message.js:143-163 | throws "Invalid status type", changing nothing, for any other name; otherwise the status becomes `StatusAfter` of the old one |
| GroupModel.Group.constructor | backend/controllers/groupController.js:11-15 | a new group has the given fields, empty lists, and is new |
| GroupModel.Group.PreSave | backend/models/Group.js:38-48 | on a new document the creator is appended to members and to admins when absent; an existing document is untouched |
| GroupModel.Group.Save | backend/models/Group.js:38-48 | after the first save the creator is a member and an admin; every admin stays a member; the document is no longer new |
| GroupController.DescriptionOrEmpty | backend/controllers/groupController.js:13 | `description \|\| ''` |
| GroupController.CreateGroup | backend/controllers/groupController.js:6-37 | an empty name fails the save with 500; otherwise 201, and a group owned by the caller with the caller as its only member and admin |
| GroupController.GetGroup | backend/controllers/groupController.js:58-82 | 404 exactly for a missing group, 403 exactly for a non-member, success exactly for a member |
| GroupController.JoinGroup | backend/controllers/groupController.js:85-122 | 404, then 400 for a member; otherwise the caller is appended to members only; admins stay members |
| GroupController.LeaveGroup | backend/controllers/groupController.js:125-159 | 404, then 400 for a non-member; otherwise the caller is filtered out of members and admins; admins stay members |
| GroupController.AddMember | backend/controllers/groupController.js:162-204 | 404, then 403 for a non-admin, then 400 for an existing member; otherwise the id is appended to members only |
| GroupController.RemoveMember | backend/controllers/groupController.js:207-246 | 404, then 403 for a non-admin, then 400 for removing oneself; otherwise the id is filtered out of both lists |
| GroupController.RemoveNonMemberIsNoOp | backend/controllers/groupController.js:228-233 | removing an id that is in neither list succeeds and changes nothing |
| GroupController.FilteredOutOfBoth | backend/controllers/groupController.js:228-233 | the removed id is in neither list afterwards, and everyone else keeps their place in each |
| GroupController.WithoutKeepsAdminsAmongMembers | backend/controllers/groupController.js:141-146 | filtering one id out of both lists keeps every remaining admin a member |
| GroupController.UpdateGroup | backend/controllers/groupController.js:249-283 | 404, then 403 for a non-admin; the name changes only to a non-empty value; the description changes to any value sent, the empty string included |
| MessageController.OrDefault | backend/controllers/messageController.js:10-11 | `parseInt(x) \|\| d`: NaN and 0 give the default, any other number is kept |
| MessageController.CeilDiv | backend/controllers/messageController.js:49 | `Math.ceil(total / limit)`: the least integer at or above the quotient, for either sign of the limit |
| MessageController.CeilDivUnique | backend/controllers/messageController.js:49 | that integer is the only one with those bounds |
| MessageController.Reverse | backend/controllers/messageController.js:38 | `reverse()` maps position i to position n-1-i |
| MessageController.ReverseReverse | backend/controllers/messageController.js:38 | reversing twice restores the list |
| MessageController.Visible | backend/controllers/messageController.js:25-35 | the query returns exactly the group's non-deleted messages |
| MessageController.VisibleAppend | backend/controllers/messageController.js:25-35 | filtering a concatenation filters each part, so the history's order is kept |
| MessageController.VisibleCount | backend/controllers/messageController.js:25-35 | each non-deleted message of the group is kept as often as it occurs |
| MessageController.VisibleOccurrences | backend/controllers/messageController.js:25-35 | the same count, by recursion on the history |
| MessageController.VisibleDrops | backend/controllers/messageController.js:25-35 | a message of another group, or a deleted one, is never returned |
| MessageController.VisibleChronological | backend/controllers/messageController.js:25-35 | the non-deleted messages of a history in `createdAt` order are in `createdAt` order |
| MessageController.Window | backend/controllers/messageController.js:25-35 | `skip`/`limit` return at most the limit's magnitude, and something when the skip is inside the list |
| MessageController.Magnitude | backend/controllers/messageController.js:25-35 | a limit returns as many documents as its magnitude |
| MessageController.PageEnd | backend/controllers/messageController.js:12 | the newest-first window ends `skip` entries before the newest |
| MessageController.PageStart | backend/controllers/messageController.js:12 | the window begins `skip + limit` entries before the newest, or at the oldest |
| MessageController.NewestFirstPage | backend/controllers/messageController.js:25-38 | sort newest first, skip, limit, then reverse: the result is the contiguous oldest-first stretch that ends `skip` entries before the newest |
| MessageController.AdjacentWindows | backend/controllers/messageController.js:12 | the window after `skip + lim` followed by the window after `skip` is the window of `2 * lim` after `skip`: consecutive pages tile the history without gap or overlap |
| MessageController.SliceConcat | backend/controllers/messageController.js:25-38 | adjacent slices concatenate |
| MessageController.HistoryPage | backend/controllers/messageController.js:10-54 | a negative skip is a 500; otherwise the messages are the window above in chronological order, with the page, the limit, the total and `ceil(total / limit)` pages for either sign of the limit |
| MessageController.GetMessages | backend/controllers/messageController.js:6-56 | 404, then 403 for a non-member, then the page of the group's non-deleted messages; every returned message belongs to the group and is not deleted; the page of a history sorted by `createdAt` is in `createdAt` order |
| MessageController.PageChronological | backend/controllers/messageController.js:32-49 | a page of a list in `createdAt` order is in `createdAt` order |
| MessageController.PageNonEmptyIffWithinPages | backend/controllers/messageController.js:49 | with a positive limit, page p holds messages exactly when p is at most the page count |
| MessageController.HistoryPageOf | backend/controllers/messageController.js:10-12 | page p with a positive limit is the window that skips the p-1 pages before it |
| MessageController.GetMessage | backend/controllers/messageController.js:59-84 | 404, then 500 when the group is gone, then 403 for a non-member; success exactly for a member of an existing group, deleted or not |
| MessageController.EditMessage | backend/controllers/messageController.js:87-125 | 404, then 403 for anyone but the sender, then 400 for polls and media; otherwise only content and edit time change |
| MessageController.DeleteMessage | backend/controllers/messageController.js:128-156 | 404, then 500 when the group is gone, then 403 unless sender or admin; otherwise the message is only flagged deleted and stamped |
| MessageController.AddReaction | backend/controllers/messageController.js:159-184 | 404, otherwise the ledger becomes `WithReaction` |
| MessageController.RemoveReaction | backend/controllers/messageController.js:187-212 | 404, otherwise the ledger becomes `WithoutReaction` |
| MessageController.VotePoll | backend/controllers/messageController.js:215-244 | 404, then 400 for a non-poll; otherwise 200 and the options become `CastVote` |
| SocketServer.InitialSent | backend/socket/socketHandler.js:104-108 | the `forEach` loop fills `sent` with every member but the sender, in member order |
| SocketServer.OnlineMembers | backend/socket/socketHandler.js:385-387 | the online filter never grows the member list |
| SocketServer.OnlineMembersExact | backend/socket/socketHandler.js:385-387 | a user is listed exactly when a member and connected, as often as in the member list |
| SocketServer.OnlineMembersAppend | backend/socket/socketHandler.js:385-387 | the online list keeps member order |
| SocketServer.StartTyping | backend/socket/socketHandler.js:136-147 | the group's set is created if missing and gains the user; other groups are unchanged |
| SocketServer.StopTyping | backend/socket/socketHandler.js:432-440 | the user leaves an existing set; a group without a set stays without one |
| SocketServer.StopTypingNotice | backend/socket/socketHandler.js:432-440 | the room is told exactly when the group has a set, whether or not the user was in it |
| SocketServer.StartTypingIdempotent | backend/socket/socketHandler.js:136-147 | repeating `typing-start` changes nothing more |
| SocketServer.StopUndoesStart | backend/socket/socketHandler.js:136-151 | stopping after starting restores the set |
| SocketServer.DisconnectNotices | backend/socket/socketHandler.js:419-427 | at most one notice per group |
| SocketServer.DisconnectNoticesExact | backend/socket/socketHandler.js:419-427 | a group is announced exactly when its set held the user, and only stop-typing notices for that user are sent |
| SocketServer.ClearTyping | backend/socket/socketHandler.js:419-427 | the loop takes the user out of every set and logs the notices in the map's order |
| SocketServer.StatusNotice | backend/socket/socketHandler.js:154-175 | the sender is told exactly when the message exists and the sender is connected |
| SocketServer.DocsOf | backend/socket/socketHandler.js:209-214 | the query returns the document of each selected id, in order |
| SocketServer.SeenNotice | backend/socket/socketHandler.js:221-228 | the sender is told exactly when connected |
| SocketServer.MarkOneSeen | backend/socket/socketHandler.js:217-229 | one round marks the message seen and returns the notice for its sender |
| SocketServer.MarkEachSeen | backend/socket/socketHandler.js:217-229 | the loop marks every returned document seen and collects the notices in order |
| SocketServer.ChatServer.constructor | backend/socket/socketHandler.js:6-9 | the registries start empty over the given store |
| SocketServer.ChatServer.Connect | backend/socket/socketHandler.js:22-23 | both directions of the connection are registered; a second connection overwrites the user's entry |
| SocketServer.ChatServer.JoinGroup | backend/socket/socketHandler.js:45-68 | a member is acknowledged and announced to the rest of the room; anyone else gets the error |
| SocketServer.ChatServer.LeaveGroup | backend/socket/socketHandler.js:71-74 | acknowledged without any check |
| SocketServer.ChatServer.StopTypingFor | backend/socket/socketHandler.js:432-440 | the typing map becomes `StopTyping` and the notice is logged |
| SocketServer.ChatServer.TypingStart | backend/socket/socketHandler.js:136-147 | the typing map becomes `StartTyping`; a new group is recorded in iteration order; the room is told |
| SocketServer.ChatServer.TypingStop | backend/socket/socketHandler.js:149-151 | as `stopTyping` |
| SocketServer.ChatServer.StoreMessage | backend/socket/socketHandler.js:88-113 | a new document with every other member in `sent` is stored and appended to the group |
| SocketServer.ChatServer.SendMessage | backend/socket/socketHandler.js:77-133 | a non-member gets an error and nothing is stored; a type outside the enum fails the save; otherwise the message is stored (without a poll it reads the empty poll), announced to the room, and the caller's typing stopped |
| SocketServer.ChatServer.MessageDelivered | backend/socket/socketHandler.js:154-175 | an unknown id is ignored; otherwise the status becomes `StatusAfter(delivered)` and the sender is told |
| SocketServer.ChatServer.MessageSeen | backend/socket/socketHandler.js:177-198 | as above with `seen` |
| SocketServer.ChatServer.SeenTargets | backend/socket/socketHandler.js:209-214 | the query selects only ids from the store |
| SocketServer.ChatServer.SeenTargetsExact | backend/socket/socketHandler.js:209-214 | the query selects exactly the group's undeleted messages from others not yet seen by the caller |
| SocketServer.ChatServer.SeenTargetsNoDuplicates | backend/socket/socketHandler.js:209-214 | each message is selected at most once |
| SocketServer.ChatServer.MarkGroupSeen | backend/socket/socketHandler.js:201-233 | a missing group or non-member changes nothing; otherwise exactly the selected messages are marked seen and each connected sender is told, in store order |
| SocketServer.ChatServer.MarkTargetsSeen | backend/socket/socketHandler.js:217-229 | exactly the selected messages change, each to `StatusAfter(seen)` |
| SocketServer.ChatServer.AddReaction | backend/socket/socketHandler.js:236-257 | an unknown id is ignored; otherwise the ledger becomes `WithReaction` and the room is told |
| SocketServer.ChatServer.RemoveReaction | backend/socket/socketHandler.js:260-281 | an unknown id is ignored; otherwise the ledger becomes `WithoutReaction` and the room is told |
| SocketServer.ChatServer.VotePoll | backend/socket/socketHandler.js:284-307 | refused for an unknown id or a non-poll; otherwise the options become `CastVote` and the room is told |
| SocketServer.ChatServer.EditMessage | backend/socket/socketHandler.js:310-344 | not found, then not the sender, then polls and media are refused; otherwise content and edit time change and the room is told |
| SocketServer.ChatServer.DeleteMessage | backend/socket/socketHandler.js:347-375 | not found, a missing group is a generic error, then sender or admin only; otherwise the message is flagged deleted and the room is told |
| SocketServer.ChatServer.GetOnlineUsers | backend/socket/socketHandler.js:378-402 | a non-member gets an error; a member gets the connected members in member order |
| SocketServer.ChatServer.Disconnect | backend/socket/socketHandler.js:405-428 | both registry entries are deleted; the user is left in no typing set, and each affected room is told, in the map's order |
| ChatWindow.ReplaceById | frontend/src/components/ChatWindow.js:40-44 | the map replaces exactly the entries with the id and keeps the length |
| ChatWindow.RemoveById | frontend/src/components/ChatWindow.js:46-48 | the filter keeps exactly the entries with another id, each as often as before |
| ChatWindow.RemoveByIdAppend | frontend/src/components/ChatWindow.js:46-48 | a delete keeps the rest in order: removing from a concatenation removes from each part |
| ChatWindow.RemoveByIdIdempotent | frontend/src/components/ChatWindow.js:46-48 | a delete heard twice has the effect of one |
| ChatWindow.ReplaceByIdIdempotent | frontend/src/components/ChatWindow.js:40-44 | an update heard twice has the effect of one |
| ChatWindow.ReplaceByIdKeepsIds | frontend/src/components/ChatWindow.js:67-89 | updates keep every entry's id and the order |
| ChatWindow.RemoveAfterReplace | frontend/src/components/ChatWindow.js:40-48 | deleting after an edit leaves what deleting alone leaves |
| ChatWindow.ChatWindowState.constructor | frontend/src/components/ChatWindow.js:9-15 | empty lists, page 1, more to load, loading, and the listeners of the first group |
| ChatWindow.ChatWindowState.OpenGroup | frontend/src/components/ChatWindow.js:21-107 | a change of group registers one more set of listeners and keeps the earlier ones; the typing and message lists are not reset |
| ChatWindow.ChatWindowState.Registrations | frontend/src/components/ChatWindow.js:91-98 | a group has listeners exactly when one was registered for it |
| ChatWindow.ChatWindowState.OnNewMessage | frontend/src/components/ChatWindow.js:31-38 | each listener set up for the message's group appends it and acknowledges it, so a message of the open group is appended at least once and once more per earlier visit; other messages change nothing |
| ChatWindow.ChatWindowState.OnMessageEdited | frontend/src/components/ChatWindow.js:40-44 | replaced by id, with no group check |
| ChatWindow.ChatWindowState.OnMessageDeleted | frontend/src/components/ChatWindow.js:46-48 | removed by id |
| ChatWindow.ChatWindowState.OnMessageUpdated | frontend/src/components/ChatWindow.js:67-89 | reaction and poll updates replace by id when a listener was set up for the message's group |
| ChatWindow.ChatWindowState.OnUserTyping | frontend/src/components/ChatWindow.js:50-59 | another user typing in a group with listeners is added once; the list stays free of repeats and of oneself |
| ChatWindow.ChatWindowState.OnUserStoppedTyping | frontend/src/components/ChatWindow.js:61-65 | the user is filtered out for a group with listeners |
| ChatWindow.ChatWindowState.LoadMessages | frontend/src/components/ChatWindow.js:109-131 | page 1 replaces the list and later pages go before it; `hasMore` is pages > page; loading ends either way |
| ChatWindow.ChatWindowState.LoadMore | frontend/src/components/ChatWindow.js:133-137 | asks for the next page only while more remain and nothing is loading; afterwards loading has ended, and a failed load keeps the list, page and hasMore |
| ChatWindow.HasMoreIffOlderMessagesRemain | frontend/src/components/ChatWindow.js:118-121 | with 50 per page, `hasMore` after page n says exactly that messages remain beyond n pages |
| MessageInput.NonBlankOptions | frontend/src/components/MessageInput.js:24 | keeps exactly the non-blank options, each as often as typed |
| MessageInput.NonBlankOptionsAppend | frontend/src/components/MessageInput.js:24 | the options keep the order in which they were typed |
| MessageInput.PollPayload | frontend/src/components/MessageInput.js:33-36 | the question as typed; the non-blank options in typed order, trimmed, with no votes |
| MessageInput.PollOptionsTrimmed | frontend/src/components/MessageInput.js:35 | every sent option is trimmed and not blank |
| MessageInput.Payload | frontend/src/components/MessageInput.js:22-38 | something is sent exactly when the guards pass; a poll form sends a poll with empty content; the media URL follows the composer's type |
| MessageInput.PayloadNotEmpty | frontend/src/components/MessageInput.js:23-26 | a sent text is not blank, and a sent poll has a question and at least two non-blank options |
| MessageInput.PayloadTypeAccepted | frontend/src/components/MessageInput.js:30 | every type the composer sends passes the server's enum |
| MessageInput.DropIndexExact | frontend/src/components/MessageInput.js:92 | filtering out an index removes exactly that entry, or nothing when it is out of range |
| MessageInput.TypeForMime | frontend/src/components/MessageInput.js:62-68 | the image, video and audio prefixes set the type; anything else keeps it |
| MessageInput.Composer.CurrentDraft | frontend/src/components/MessageInput.js:6-11 | the draft holds the form's fields |
| MessageInput.Composer.constructor | frontend/src/components/MessageInput.js:6-11 | the initial form, with two empty option fields |
| MessageInput.Composer.HandleSend | frontend/src/components/MessageInput.js:22-50 | sends `Payload` of the old draft and then resets the form; otherwise nothing changes |
| MessageInput.Composer.Reset | frontend/src/components/MessageInput.js:44-48 | the initial form again |
| MessageInput.Composer.HandleFileUpload | frontend/src/components/MessageInput.js:52-78 | no file changes nothing; a successful upload sets type, URL and content; a failed one changes them not; uploading ends |
| MessageInput.Composer.ClearMedia | frontend/src/components/MessageInput.js:188-192 | back to a plain text message with no media |
| MessageInput.Composer.AddPollOption | frontend/src/components/MessageInput.js:80-82 | an empty option is appended |
| MessageInput.Composer.UpdatePollOption | frontend/src/components/MessageInput.js:84-88 | only the edited option changes |
| MessageInput.Composer.RemovePollOption | frontend/src/components/MessageInput.js:90-94 | drops the option only while more than two remain, so at least two fields stay |
| MessageBubble.BumpCount | frontend/src/components/MessageBubble.js:150 | one more reaction raises its emoji's count, and the total, by one |
| MessageBubble.BumpHas | frontend/src/components/MessageBubble.js:150 | a chip exists afterwards exactly for the new emoji and the old ones |
| MessageBubble.BumpDistinct | frontend/src/components/MessageBubble.js:150 | a known key is never added twice |
| MessageBubble.BumpPositive | frontend/src/components/MessageBubble.js:150 | every count stays at least one |
| MessageBubble.TallyExact | frontend/src/components/MessageBubble.js:148-153 | each emoji's count is its number of reactions; chips exist exactly for occurring emojis, once each; counts add up to the number of reactions |
| MessageBubble.HasEmojiAt | frontend/src/components/MessageBubble.js:148-153 | every chip's emoji is found |
| MessageBubble.DistinctAt | frontend/src/components/MessageBubble.js:148-153 | distinct chips differ pairwise |
| MessageBubble.ChipCountAt | frontend/src/components/MessageBubble.js:148-153 | a chip's count is its emoji's count |
| MessageBubble.ChipCountAbsent | frontend/src/components/MessageBubble.js:148-153 | an emoji without a chip counts zero |
| MessageBubble.ReactionChips | frontend/src/components/MessageBubble.js:146-162 | the chips shown: one per occurring emoji, no emoji twice, each with its number of reactions, all adding up to the number of reactions |
| MessageBubble.EmojiCountPositive | frontend/src/components/MessageBubble.js:148-153 | an emoji that occurs counts at least one |
| MessageBubble.ClearVoteTotal | frontend/src/components/MessageBubble.js:96 | clearing a voter lowers the total by that voter's votes |
| MessageBubble.VotesBySingleChoice | frontend/src/components/MessageBubble.js:96 | under single choice a user holds one vote if they voted and none otherwise |
| MessageBubble.TotalVotesAddOne | frontend/src/components/MessageBubble.js:96 | recording a vote raises the total by one |
| MessageBubble.CastVoteTotal | frontend/src/components/MessageBubble.js:96 | a vote changes the total by the vote it records less the one it replaces |
| MessageBubble.VoteLabel | frontend/src/components/MessageBubble.js:103 | "vote" for exactly one, "votes" otherwise, zero included |
| MessageBubble.ShowsEdited | frontend/src/components/MessageBubble.js:168 | "(edited)" shows exactly when an update time exists and differs from the creation time |
| MessageBubble.ActionsFor | frontend/src/components/MessageBubble.js:175-210 | react and delete for one's own messages, edit for one's own text messages, reply for others' |
| MessageBubble.EditOfferedIsAccepted | frontend/src/components/MessageBubble.js:184-192 | every offered edit passes the server's sender and type checks |
| MessageBubble.DecideEdit | frontend/src/components/MessageBubble.js:11-17 | saves exactly a non-blank text that differs from the original, otherwise cancels |
| Uploads.ParamsFor | backend/config/cloudinary.js:15-39 | folder and resource type by mime prefix, audio stored as video, anything else as auto in the top folder; only images get the 1000×1000 limit |
| Uploads.FolderAgreesWithMessageType | backend/config/cloudinary.js:19-29 | the storage folder agrees with the type the composer gives the message |
| Uploads.MatchesAny | backend/config/cloudinary.js:48-50 | the alternation matches exactly when some alternative occurs |
| Uploads.MatchesAnyIffOccurs | backend/config/cloudinary.js:48-50 | a match is an occurrence of one alternative at some offset |
| Uploads.FileFilter | backend/config/cloudinary.js:47-57 | accepted exactly when the lower-cased name and the mime type both match; otherwise refused with the fixed message |
| Uploads.ToLowerIdempotent | backend/config/cloudinary.js:49 | lower-casing twice is lower-casing once |
| Uploads.FileFilterIgnoresNameCase | backend/config/cloudinary.js:49 | the name's case never changes the verdict |
| Uploads.FileFilterUnanchored | backend/config/cloudinary.js:48-50 | "clip.mp4.exe" with "video/mp4" is accepted: the test is unanchored |
| Uploads.FileFilterMimeCaseSensitive | backend/config/cloudinary.js:50 | an upper-case mime type is refused |
| AuthContext.ErrorText | frontend/src/contexts/AuthContext.js:75 | `err.msg \|\| err.message` |
| AuthContext.ErrorTexts | frontend/src/contexts/AuthContext.js:75 | one text per error, in order |
| AuthContext.TextFromData | frontend/src/contexts/AuthContext.js:71-79 | message, else the joined validation errors, else error, else the fallback |
| AuthContext.FallbackOnlyWithoutServerText | frontend/src/contexts/AuthContext.js:69-79 | the default shows only when the reply body offers nothing |
| AuthContext.SingleValidationError | frontend/src/contexts/AuthContext.js:75 | one validation error shows as its own text |
| AuthContext.LoginError | frontend/src/contexts/AuthContext.js:68-79 | from the reply body when there is one, otherwise "Login failed" |
| AuthContext.RegisterError | frontend/src/contexts/AuthContext.js:104-121 | from the reply body, else the error's own message, else "Registration failed" |
| AuthContext.LoginAndRegisterAgreeOnServerText | frontend/src/contexts/AuthContext.js:68-121 | both show a reply body's text the same way; only registration falls back to the error's own message |
| AuthContext.Session.constructor | frontend/src/contexts/AuthContext.js:16-18 | no user, loading, signed out |
| AuthContext.Session.Logout | frontend/src/contexts/AuthContext.js:130-142 | storage cleared, signed out, socket disconnected, whatever the server answers |
| AuthContext.Session.FetchUser | frontend/src/contexts/AuthContext.js:38-50 | the refreshed user is stored and loading ends; a failure logs out |
| AuthContext.Session.Mount | frontend/src/contexts/AuthContext.js:21-36 | a stored token and user restore the session, connect and refresh: a refreshed user is stored and ends loading, a failed refresh logs out and leaves loading as it was; otherwise loading just ends |
| AuthContext.Session.SignIn | frontend/src/contexts/AuthContext.js:52-128 | success stores the token and user, signs in and connects; failure changes nothing and reports the error text |
| AuthContext.Session.Login | frontend/src/contexts/AuthContext.js:52-86 | success stores the token and user, signs in and connects; failure changes nothing and gives the login error text |
| AuthContext.Session.Register | frontend/src/contexts/AuthContext.js:88-128 | success stores the token and user, signs in and connects; failure changes nothing and gives the registration error text |

## Left out

- Persistence and transport: MongoDB queries, `populate`, `lean`, the Socket.IO rooms and HTTP routing are not modelled. Documents are objects or maps, and emissions are a log.
- The `join-groups` handler (backend/socket/socketHandler.js:32-42) and `getUserGroups` are database queries with no decision logic.
- The presence writes to the user document (status and last seen) on connect and disconnect go to a collection that is not part of this model.
- Mongoose validation other than the type enum is left out: `trim`, the length limits (kept only as constants), and the `required` rules except an empty group name.
- Automatic timestamps: the document library also refreshes `updatedAt` when a reaction, a vote or a status change is saved. The model changes it only on an edit. `MessageBubble.ShowsEdited` is stated over the dates the client receives, so it does not capture that such saves also make "(edited)" appear.
- The 50 MiB upload size limit is enforced by the upload library; it is kept only as a constant.
- Concurrency: handlers interleave at every `await` in the source. Each handler here runs to completion.
- Poll percentages (MessageBubble.js:97) are floating point and are left out.
- `toLowerCase` is modelled on ASCII letters only.
- MessageBubble.TallyExact: chips are kept in first-occurrence order with exact counts. The emoji is free text from a prompt and is stored as given, and the tally is a plain object. An emoji that reads as an array index (such as "1") would put its chip first. One naming an inherited property (such as "constructor" or "toString") turns `(acc[e] || 0) + 1` into a string. "__proto__" gives no chip at all. These keys are not modelled.
- MessageBubble.ReactionChips: the same keys are not modelled, so "one chip per emoji with its count" holds here for every other emoji only.
- ChatWindow.ChatWindowState.OnNewMessage: the listeners accumulate, because they are registered with `socket.on` and never removed. The model keeps one entry per registration. A message of a group opened before is appended once per visit. The handlers for edits, deletes, updates and typing apply their update once, which equals applying it once per listener by the idempotence lemmas.
- The reaction prompt, the reply and edit-id state and the delete confirmation are UI wiring. The join, leave and mark-seen emissions of the chat window's effect are not modelled on the client side.
- frontend/src/services/socket.js is not part of this model. Each of its listener helpers is taken to register its handler with `socket.on`.
- The typing timeout (ChatWindow.js:181-191) is clock-driven and left out.
- The composer's `onCancelReply` callback and the poll-form show/hide setters are left out.
- MessageModel.MessageDoc.VotePoll: a non-integer `optionIndex` is not modelled, because indices are integers here.
- MessageInput.Composer.UpdatePollOption requires an index inside the list, because the form only edits fields it shows.
- MessageController.GetMessages: the database's `createdAt` sort is not modelled. `history` is taken in the order the sort returns, oldest first. The page is proved chronological whenever `history` is.
- MessageController.HistoryPage: a negative skip is reported as the database's refusal (500). A negative limit returns as many documents as its magnitude.
- AuthContext.ErrorData: an `errors` field that is not an array is modelled as absent.
- AuthContext.Session.FetchUser: `response.data.user` is always present. A failed refresh leaves `loading` true, as the code does.
- The API client's request and response interceptors are not part of this model.
- An out-of-range poll option clears the voter's earlier vote and records nothing, with no error (`MessageModel.CastVoteOutOfRange`).
- A `seen` status adds the user to delivered only, never to sent (`MessageModel.StatusCascade`).
