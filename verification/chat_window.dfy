/** The chat window of the web client: the list of shown messages and of users
    typing in the open group, updated by the socket listeners through pure
    list transforms, and the paging of the message history. */
module ChatWindow {
  import opened Common
  import MessageController

  /** A message as the client holds it; only its id and group matter to the
      list updates, the rest of the document travels as `body`. */
  datatype ClientMessage = ClientMessage(id: MessageId, groupId: GroupId, body: string)

  /** `prev.map(msg => msg._id === id ? message : msg)` */
  function ReplaceById(list: seq<ClientMessage>, id: MessageId, m: ClientMessage): (r: seq<ClientMessage>)
    ensures |r| == |list|
    ensures forall i :: 0 <= i < |list| ==> r[i] == if list[i].id == id then m else list[i]
  {
    seq(|list|, i requires 0 <= i < |list| => if list[i].id == id then m else list[i])
  }

  /** The test `msg => msg._id !== id`. */
  function OtherThan(id: MessageId): ClientMessage -> bool {
    (m: ClientMessage) => m.id != id
  }

  /** `prev.filter(msg => msg._id !== id)`: the other messages, each as often
      as before. */
  function RemoveById(list: seq<ClientMessage>, id: MessageId): (r: seq<ClientMessage>)
    ensures |r| <= |list|
    ensures forall x :: x in r <==> x in list && x.id != id
    ensures forall x: ClientMessage :: x.id != id ==> multiset(r)[x] == multiset(list)[x]
  {
    var r := Filter(list, OtherThan(id));
    assert forall x :: x in r <==> x in list && x.id != id by {
      forall x { FilterMembership(list, OtherThan(id), x); }
    }
    assert forall x: ClientMessage :: x.id != id ==> multiset(r)[x] == multiset(list)[x] by {
      forall x { FilterCount(list, OtherThan(id), x); }
    }
    r
  }

  /** A delete keeps the rest in order: removing from a concatenation removes
      from each part. */
  lemma RemoveByIdAppend(a: seq<ClientMessage>, b: seq<ClientMessage>, id: MessageId)
    ensures RemoveById(a + b, id) == RemoveById(a, id) + RemoveById(b, id)
  {
    FilterAppend(a, b, OtherThan(id));
  }

  /** Replacing by id twice is the same as once, so the same update heard by
      several listeners has the effect of one. */
  lemma ReplaceByIdIdempotent(list: seq<ClientMessage>, id: MessageId, m: ClientMessage)
    ensures ReplaceById(ReplaceById(list, id, m), id, m) == ReplaceById(list, id, m)
  {
  }

  /** Deleting by id twice is the same as once. */
  lemma RemoveByIdIdempotent(list: seq<ClientMessage>, id: MessageId)
    ensures RemoveById(RemoveById(list, id), id) == RemoveById(list, id)
  {
    var r := RemoveById(list, id);
    FilterAllKept(r, OtherThan(id));
  }

  /** `n` copies of `x`. */
  function Repeat<T>(x: T, n: nat): (r: seq<T>)
    ensures |r| == n && forall i :: 0 <= i < n ==> r[i] == x
  {
    if n == 0 then [] else Repeat(x, n - 1) + [x]
  }

  /** A replacement keeps the id of every entry, so the list shows the same
      messages in the same order. */
  lemma ReplaceByIdKeepsIds(list: seq<ClientMessage>, id: MessageId, m: ClientMessage)
    requires m.id == id
    ensures var r := ReplaceById(list, id, m);
      forall i :: 0 <= i < |list| ==> r[i].id == list[i].id
  {
  }

  /** Deleting after an edit of the same message leaves what deleting alone
      leaves. */
  lemma {:induction false} RemoveAfterReplace(list: seq<ClientMessage>, id: MessageId, m: ClientMessage)
    requires m.id == id
    ensures RemoveById(ReplaceById(list, id, m), id) == RemoveById(list, id)
  {
    if list != [] {
      var init := list[..|list| - 1];
      RemoveAfterReplace(init, id, m);
      assert ReplaceById(list, id, m)[..|list| - 1] == ReplaceById(init, id, m);
    }
  }

  /** The reply of the history request, when it succeeds. */
  datatype HistoryResponse = HistoryResponse(messages: seq<ClientMessage>, pages: int)

  class ChatWindowState {
    /** The id of the open group. */
    var group: GroupId
    /** The group each registered set of socket listeners was set up for, in
        registration order: the effect registers a new set whenever the open
        group changes and its cleanup never removes one. */
    var listeners: seq<GroupId>
    /** The signed-in user (`user._id || user.id`). */
    const self: UserId
    var messages: seq<ClientMessage>
    var typingUsers: seq<UserId>
    var page: int
    var hasMore: bool
    var loading: bool

    /** The open group has listeners; the typing list never repeats a user
        and never shows the user themself; pages are counted from 1. */
    ghost predicate Valid()
      reads this
    {
      group in listeners && NoDuplicates(typingUsers) && self !in typingUsers && page >= 1
    }

    /** The first render with a group: the initial state, and the effect's
        listeners for that group. */
    constructor (group: GroupId, self: UserId)
      ensures this.group == group && this.self == self && listeners == [group]
      ensures messages == [] && typingUsers == [] && page == 1 && hasMore && loading
      ensures Valid()
    {
      this.group, this.self := group, self;
      listeners := [group];
      messages, typingUsers := [], [];
      page, hasMore, loading := 1, true, true;
    }

    /** The same component shown for another group: the effect runs again and
        registers one more set of listeners, while the cleanup only leaves the
        old group's room. Nothing else is reset: the typing list of the old
        group stays, and the message list stays until the first page of the
        new group is loaded. */
    method OpenGroup(g: GroupId)
      requires Valid()
      modifies this`group, this`listeners
      ensures Valid()
      ensures g != old(group) ==> group == g && listeners == old(listeners) + [g]
      ensures g == old(group) ==> group == old(group) && listeners == old(listeners)
    {
      if g != group {
        group := g;
        listeners := listeners + [g];
      }
    }

    /** How many registered listeners react to a message of group `g`. */
    function Registrations(g: GroupId): (n: nat)
      reads this
      ensures n > 0 <==> g in listeners
    {
      multiset(listeners)[g]
    }

    /** `new-message`: every listener set up for the message's group appends
        it and acknowledges it with `message-delivered`, in registration
        order. A message of the open group is appended at least once, and
        once more for every earlier visit to that group. */
    method OnNewMessage(m: ClientMessage) returns (delivered: seq<MessageId>)
      requires Valid()
      modifies this`messages
      ensures messages == old(messages) + Repeat(m, Registrations(m.groupId))
      ensures delivered == Repeat(m.id, Registrations(m.groupId))
      ensures m.groupId == group ==> |messages| > |old(messages)| && messages[|old(messages)|] == m
      ensures m.groupId !in listeners ==> messages == old(messages) && delivered == []
    {
      delivered := [];
      ghost var before := messages;
      var i := 0;
      while i < |listeners|
        invariant 0 <= i <= |listeners|
        invariant messages == before + Repeat(m, multiset(listeners[..i])[m.groupId])
        invariant delivered == Repeat(m.id, multiset(listeners[..i])[m.groupId])
      {
        assert listeners[..i + 1] == listeners[..i] + [listeners[i]];
        if listeners[i] == m.groupId {
          messages := messages + [m];
          delivered := delivered + [m.id];
        }
        i := i + 1;
      }
      assert listeners[..i] == listeners;
    }

    /** An edit replaces by id with no group check; every listener applies
        it, which by `ReplaceByIdIdempotent` is the same as applying it once. */
    method OnMessageEdited(id: MessageId, m: ClientMessage)
      modifies this`messages
      ensures messages == ReplaceById(old(messages), id, m)
    {
      messages := ReplaceById(messages, id, m);
    }

    /** A delete heard by every listener; by `RemoveByIdIdempotent` one
        application stands for all of them. */
    method OnMessageDeleted(id: MessageId)
      modifies this`messages
      ensures messages == RemoveById(old(messages), id)
    {
      messages := RemoveById(messages, id);
    }

    /** Reaction and poll updates replace by id when some listener was set up
        for the updated message's group (for the open group there always is
        one); repeated listeners repeat an idempotent update. */
    method OnMessageUpdated(id: MessageId, m: ClientMessage)
      modifies this`messages
      ensures m.groupId in listeners ==> messages == ReplaceById(old(messages), id, m)
      ensures m.groupId !in listeners ==> messages == old(messages)
    {
      if m.groupId in listeners {
        messages := ReplaceById(messages, id, m);
      }
    }

    /** Another user typing in a group some listener was set up for is added
        once. */
    method OnUserTyping(g: GroupId, u: UserId)
      requires Valid()
      modifies this`typingUsers
      ensures Valid()
      ensures g in listeners && u != self ==> typingUsers == AppendIfAbsent(old(typingUsers), u)
      ensures !(g in listeners && u != self) ==> typingUsers == old(typingUsers)
    {
      if g in listeners && u != self {
        AppendIfAbsentElements(typingUsers, u);
        typingUsers := AppendIfAbsent(typingUsers, u);
      }
    }

    method OnUserStoppedTyping(g: GroupId, u: UserId)
      requires Valid()
      modifies this`typingUsers
      ensures Valid()
      ensures g in listeners ==> typingUsers == Without(old(typingUsers), u)
      ensures g !in listeners ==> typingUsers == old(typingUsers)
    {
      if g in listeners {
        WithoutNoDuplicates(typingUsers, u);
        WithoutMembership(typingUsers, u, self);
        typingUsers := Without(typingUsers, u);
      }
    }

    /** `loadMessages(pageNum)`: on success page 1 replaces the list and later
        pages are put before it; `hasMore` says whether pages remain past the
        one loaded. Success or failure, loading ends. The component asks only
        for page 1 or the page after the current one. */
    method LoadMessages(pageNum: int, response: Option<HistoryResponse>)
      requires Valid() && pageNum >= 1
      modifies this`messages, this`hasMore, this`page, this`loading
      ensures Valid()
      ensures !loading
      ensures response.None? ==> messages == old(messages) && hasMore == old(hasMore) && page == old(page)
      ensures response.Some? ==>
        && messages == (if pageNum == 1 then response.value.messages else response.value.messages + old(messages))
        && hasMore == (response.value.pages > pageNum)
        && page == pageNum
    {
      if response.Some? {
        if pageNum == 1 {
          messages := response.value.messages;
        } else {
          messages := response.value.messages + messages;
        }
        hasMore := response.value.pages > pageNum;
        page := pageNum;
      }
      loading := false;
    }

    /** `loadMoreMessages`: asks for the next page only while more remain and
        no load is pending, and returns the page it asked for. */
    method LoadMore(response: Option<HistoryResponse>) returns (requested: Option<int>)
      requires Valid()
      modifies this`messages, this`hasMore, this`page, this`loading
      ensures Valid()
      ensures !(old(hasMore) && !old(loading)) ==>
        requested == None && unchanged(this`messages, this`hasMore, this`page, this`loading)
      ensures old(hasMore) && !old(loading) ==>
        && requested == Some(old(page) + 1) && !loading
        && (response.Some? ==> page == old(page) + 1 && messages == response.value.messages + old(messages)
                               && hasMore == (response.value.pages > old(page) + 1))
        && (response.None? ==> page == old(page) && messages == old(messages) && hasMore == old(hasMore))
    {
      if hasMore && !loading {
        requested := Some(page + 1);
        LoadMessages(page + 1, response);
      } else {
        requested := None;
      }
    }
  }

  /** With the client's page size of 50, `hasMore` after loading page `n`
      says exactly that the server holds messages beyond the first `n` pages. */
  lemma HasMoreIffOlderMessagesRemain(total: nat, n: int)
    requires n >= 1
    ensures MessageController.CeilDiv(total, 50) > n <==> n * 50 < total
  {
    MessageController.PageNonEmptyIffWithinPages(total, n + 1, 50);
  }
}
