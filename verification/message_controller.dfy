/** The REST message controller: the paging arithmetic of the history query,
    and the ordered checks of the single-message handlers. Each handler
    receives the documents the database returned for the requested ids (`null`
    when there is none) and changes the message in place. */
module MessageController {
  import opened Common
  import opened GroupModel
  import opened MessageModel

  /** The result of `parseInt` on a query parameter. */
  datatype ParsedInt = NaN | Num(n: int)

  const DefaultPage := 1
  const DefaultLimit := 50

  /** `parseInt(x) || d`: both NaN and 0 are falsy and give the default. */
  function OrDefault(p: ParsedInt, d: int): (r: int)
    ensures p.NaN? || p.n == 0 ==> r == d
    ensures p.Num? && p.n != 0 ==> r == p.n
    ensures d != 0 ==> r != 0
  {
    if p.Num? && p.n != 0 then p.n else d
  }

  /** `Math.ceil(total / limit)` for a non-zero integer limit: the least
      integer at or above the real quotient. */
  function CeilDiv(total: nat, limit: int): (r: int)
    requires limit != 0
    ensures limit > 0 ==> (r - 1) * limit < total <= r * limit
    ensures limit < 0 ==> r * limit <= total < (r - 1) * limit
  {
    if limit > 0 then (total + limit - 1) / limit
    else -(total / -limit)
  }

  /** The quotient of `CeilDiv` is the only integer with its defining bounds. */
  lemma CeilDivUnique(total: nat, limit: int, q: int)
    requires limit > 0 && (q - 1) * limit < total <= q * limit
    ensures q == CeilDiv(total, limit)
  {
  }

  function Reverse<T>(s: seq<T>): (r: seq<T>)
    ensures |r| == |s| && forall i :: 0 <= i < |s| ==> r[i] == s[|s| - 1 - i]
  {
    if s == [] then [] else Reverse(s[1..]) + [s[0]]
  }

  lemma ReverseReverse<T>(s: seq<T>)
    ensures Reverse(Reverse(s)) == s
  {
  }

  /** The non-deleted messages of a group, in the order of `history`. */
  function Visible(history: seq<MessageDoc>, g: GroupId): (r: seq<MessageDoc>)
    reads history
    ensures |r| <= |history|
    ensures forall i :: 0 <= i < |r| ==> r[i] in history && r[i].groupId == g && !r[i].deleted
    ensures forall i :: 0 <= i < |history| && history[i].groupId == g && !history[i].deleted ==> history[i] in r
  {
    if history == [] then []
    else
      var m := history[|history| - 1];
      Visible(history[..|history| - 1], g) + (if m.groupId == g && !m.deleted then [m] else [])
  }

  /** The filter keeps `history`'s order: filtering a concatenation filters
      each part. */
  lemma {:induction false} VisibleAppend(a: seq<MessageDoc>, b: seq<MessageDoc>, g: GroupId)
    ensures Visible(a + b, g) == Visible(a, g) + Visible(b, g)
  {
    if b != [] {
      var b' := b[..|b| - 1];
      assert (a + b)[..|a + b| - 1] == a + b';
      assert (a + b)[|a + b| - 1] == b[|b| - 1];
      VisibleAppend(a, b', g);
    } else {
      assert a + b == a;
    }
  }

  /** Each visible message is kept as often as it occurs. */
  lemma {:induction false} VisibleCount(history: seq<MessageDoc>, g: GroupId, m: MessageDoc)
    requires m.groupId == g && !m.deleted
    ensures multiset(Visible(history, g))[m] == multiset(history)[m]
  {
    VisibleOccurrences(history, g, m);
    OccurrencesCount(history, m);
    OccurrencesCount(Visible(history, g), m);
  }

  /** The number of times `x` occurs in `s`. */
  function Occurrences<T(==)>(s: seq<T>, x: T): nat {
    if s == [] then 0 else Occurrences(s[..|s| - 1], x) + (if s[|s| - 1] == x then 1 else 0)
  }

  /** Counting by recursion agrees with the multiset's count. */
  lemma {:induction false} OccurrencesCount<T>(s: seq<T>, x: T)
    ensures Occurrences(s, x) == multiset(s)[x]
  {
    if s != [] {
      OccurrencesCount(s[..|s| - 1], x);
      assert s == s[..|s| - 1] + [s[|s| - 1]];
    }
  }

  /** The count of `VisibleCount`, by recursion on the history. */
  lemma {:induction false} VisibleOccurrences(history: seq<MessageDoc>, g: GroupId, m: MessageDoc)
    requires m.groupId == g && !m.deleted
    ensures Occurrences(Visible(history, g), m) == Occurrences(history, m)
  {
    if history != [] {
      var init := history[..|history| - 1];
      var last := history[|history| - 1];
      VisibleOccurrences(init, g, m);
      var hit := if last == m then 1 else 0;
      assert Occurrences(history, m) == Occurrences(init, m) + hit;
      if last.groupId == g && !last.deleted {
        var v := Visible(init, g) + [last];
        assert Visible(history, g) == v;
        assert v[..|v| - 1] == Visible(init, g);
        assert Occurrences(v, m) == Occurrences(Visible(init, g), m) + hit;
      } else {
        assert Visible(history, g) == Visible(init, g);
        assert hit == 0;
      }
    }
  }

  /** A message of another group, or a deleted one, is never returned. */
  lemma VisibleDrops(history: seq<MessageDoc>, g: GroupId, m: MessageDoc)
    requires !(m.groupId == g && !m.deleted)
    ensures multiset(Visible(history, g))[m] == 0
  {
  }

  /** Messages in ascending `createdAt` order. */
  ghost predicate Chronological(ms: seq<MessageDoc>)
    reads ms
  {
    forall i, j :: 0 <= i < j < |ms| ==> ms[i].createdAt <= ms[j].createdAt
  }

  /** Filtering a chronological history leaves it chronological. */
  lemma {:induction false} VisibleChronological(history: seq<MessageDoc>, g: GroupId)
    ensures Chronological(history) ==> Chronological(Visible(history, g))
  {
    if history != [] && Chronological(history) {
      var init := history[..|history| - 1];
      var last := history[|history| - 1];
      assert Chronological(init);
      VisibleChronological(init, g);
      var v0 := Visible(init, g);
      forall k | 0 <= k < |v0| ensures v0[k].createdAt <= last.createdAt {
        var m :| 0 <= m < |init| && init[m] == v0[k];
        assert history[m] == v0[k];
      }
    }
  }

  /** The query's `skip(skip)` and `limit(limit)` on an ordered result: a
      negative limit returns as many documents as its magnitude. */
  function Window<T>(s: seq<T>, skip: nat, limit: int): (r: seq<T>)
    ensures |r| <= if limit < 0 then -limit else limit
    ensures skip < |s| && limit != 0 ==> r != []
  {
    var lim := if limit < 0 then -limit else limit;
    var lo := if skip < |s| then skip else |s|;
    var hi := if skip + lim < |s| then skip + lim else |s|;
    s[lo..hi]
  }

  /** `|limit|`: the number of documents a limit returns at most. */
  function Magnitude(limit: int): (m: nat)
    ensures m == limit || m == -limit
  {
    if limit < 0 then -limit else limit
  }

  /** Where a newest-first window that skips `skip` of `n` entries ends, counted
      from the oldest entry. */
  function PageEnd(n: nat, skip: nat): (e: nat)
    ensures e <= n
    ensures skip < n ==> e + skip == n
  {
    if skip < n then n - skip else 0
  }

  /** Where a newest-first window of `lim` entries after `skip` begins. */
  function PageStart(n: nat, skip: nat, lim: nat): (b: nat)
    ensures b <= PageEnd(n, skip)
    ensures skip + lim < n ==> b + skip + lim == n
  {
    if skip + lim < n then n - skip - lim else 0
  }

  /** Reversing a window of the reversed list gives a contiguous stretch of the
      original, ending `skip` entries before its end. */
  function NewestFirstPage<T>(s: seq<T>, skip: nat, limit: int): (r: seq<T>)
    ensures r == s[PageStart(|s|, skip, Magnitude(limit))..PageEnd(|s|, skip)]
  {
    var n := |s|;
    var hi := PageEnd(n, skip);
    var lo := PageStart(n, skip, Magnitude(limit));
    var w := Window(Reverse(s), skip, limit);
    var r := Reverse(w);
    assert |r| == hi - lo;
    assert forall i :: 0 <= i < |r| ==> r[i] == s[lo..hi][i] by {
      forall i | 0 <= i < |r| ensures r[i] == s[lo..hi][i] {
        var a := if skip < n then skip else n;
        assert w[|w| - 1 - i] == Reverse(s)[a + |w| - 1 - i];
      }
    }
    r
  }

  /** Two windows of `lim` entries, the second starting where the first
      ends, together form the window of `2 * lim` entries. */
  lemma AdjacentWindows<T>(s: seq<T>, skip: nat, lim: nat)
    ensures NewestFirstPage(s, skip + lim, lim) + NewestFirstPage(s, skip, lim) == NewestFirstPage(s, skip, 2 * lim)
  {
    var n := |s|;
    assert PageEnd(n, skip + lim) == PageStart(n, skip, lim);
    assert PageStart(n, skip + lim, lim) == PageStart(n, skip, 2 * lim);
    SliceConcat(s, PageStart(n, skip, 2 * lim), PageStart(n, skip, lim), PageEnd(n, skip));
  }

  lemma SliceConcat<T>(s: seq<T>, a: nat, b: nat, c: nat)
    requires a <= b <= c <= |s|
    ensures s[a..b] + s[b..c] == s[a..c]
  {
  }

  datatype Pagination = Pagination(page: int, limit: int, total: nat, pages: int)

  datatype PageReply =
    | PageError(reply: HttpReply)
    | PageOk(messages: seq<MessageDoc>, pagination: Pagination)

  /** The paging half of `getMessages` over the group's non-deleted messages
      `v`, oldest first: the database refuses a negative skip, which is
      reported as a server error; otherwise the newest-first window is put back
      into chronological order and returned with the paging figures. */
  function HistoryPage(v: seq<MessageDoc>, pageParam: ParsedInt, limitParam: ParsedInt): (r: PageReply)
    ensures var page := OrDefault(pageParam, DefaultPage);
      var limit := OrDefault(limitParam, DefaultLimit);
      var skip := (page - 1) * limit;
      && (skip < 0 ==> r == PageError(HttpReply(500, "Server error fetching messages")))
      && (skip >= 0 ==> r.PageOk? && r.messages == v[PageStart(|v|, skip, Magnitude(limit))..PageEnd(|v|, skip)]
                        && r.pagination.page == page && r.pagination.limit == limit
                        && r.pagination.total == |v|
                        && r.pagination.pages == CeilDiv(|v|, limit)
                        && (limit > 0 ==> (r.pagination.pages - 1) * limit < |v| <= r.pagination.pages * limit))
  {
    var page := OrDefault(pageParam, DefaultPage);
    var limit := OrDefault(limitParam, DefaultLimit);
    var skip := (page - 1) * limit;
    if skip < 0 then PageError(HttpReply(500, "Server error fetching messages"))
    else PageOk(NewestFirstPage(v, skip, limit), Pagination(page, limit, |v|, CeilDiv(|v|, limit)))
  }

  /** `getMessages`: 404 for a missing group, then 403 for a non-member, then
      the page of the group's non-deleted messages. `history` stands for the
      store's messages in the order of the query's `createdAt` sort, oldest
      first; a page of a chronological history is chronological. */
  function GetMessages(group: Group?, userId: UserId, pageParam: ParsedInt, limitParam: ParsedInt,
                       history: seq<MessageDoc>): (r: PageReply)
    reads group, history
    ensures group == null ==> r == PageError(HttpReply(404, "Group not found"))
    ensures group != null && userId !in group.members ==>
      r == PageError(HttpReply(403, "You are not a member of this group"))
    ensures group != null && userId in group.members ==>
      r == HistoryPage(Visible(history, group.id), pageParam, limitParam)
    ensures r.PageOk? ==> group != null && forall i :: 0 <= i < |r.messages| ==>
      r.messages[i] in history && r.messages[i].groupId == group.id && !r.messages[i].deleted
    ensures r.PageOk? && Chronological(history) ==> Chronological(r.messages)
  {
    if group == null then PageError(HttpReply(404, "Group not found"))
    else if userId !in group.members then PageError(HttpReply(403, "You are not a member of this group"))
    else
      VisibleChronological(history, group.id);
      PageChronological(Visible(history, group.id), pageParam, limitParam);
      HistoryPage(Visible(history, group.id), pageParam, limitParam)
  }

  /** A page of a chronological list is chronological. */
  lemma PageChronological(v: seq<MessageDoc>, pageParam: ParsedInt, limitParam: ParsedInt)
    ensures var r := HistoryPage(v, pageParam, limitParam);
      r.PageOk? && Chronological(v) ==> Chronological(r.messages)
  {
    var r := HistoryPage(v, pageParam, limitParam);
    if r.PageOk? && Chronological(v) {
      var page := OrDefault(pageParam, DefaultPage);
      var limit := OrDefault(limitParam, DefaultLimit);
      var skip := (page - 1) * limit;
      assert r.messages == v[PageStart(|v|, skip, Magnitude(limit))..PageEnd(|v|, skip)];
    }
  }

  /** With a positive limit, a page from 1 on holds messages exactly when it
      is not past the last page. */
  lemma PageNonEmptyIffWithinPages(total: nat, page: int, limit: int)
    requires page >= 1 && limit > 0
    ensures (page - 1) * limit < total <==> page <= CeilDiv(total, limit)
  {
  }

  /** With a positive limit, page `page` of the history is the newest-first
      window that skips the `page - 1` pages before it; by `AdjacentWindows`,
      page `page + 1` then holds exactly the messages just older than page
      `page`. */
  lemma HistoryPageOf(v: seq<MessageDoc>, page: int, limit: int, skip: nat)
    requires page >= 1 && limit > 0 && skip == (page - 1) * limit
    ensures HistoryPage(v, Num(page), Num(limit)).PageOk?
    ensures HistoryPage(v, Num(page), Num(limit)).messages == NewestFirstPage(v, skip, limit)
  {
  }

  /** `getMessage`: 404 for a missing message; a message whose group is gone
      makes the membership lookup throw; then 403 for a non-member. A deleted
      message is returned like any other. */
  function GetMessage(message: MessageDoc?, group: Group?, userId: UserId): (r: HttpReply)
    requires group != null ==> message != null && group.id == message.groupId
    reads group
    ensures message == null ==> r == HttpReply(404, "Message not found")
    ensures message != null && group == null ==> r == HttpReply(500, "Server error fetching message")
    ensures message != null && group != null && userId !in group.members ==>
      r == HttpReply(403, "You are not a member of this group")
    ensures r.code == 200 <==> message != null && group != null && userId in group.members
  {
    if message == null then HttpReply(404, "Message not found")
    else if group == null then HttpReply(500, "Server error fetching message")
    else if userId !in group.members then HttpReply(403, "You are not a member of this group")
    else HttpReply(200, "")
  }

  /** `editMessage`: 404, then 403 for anyone but the sender, then 400 for a
      poll or media message; otherwise only `content` and `updatedAt` change. */
  method EditMessage(message: MessageDoc?, userId: UserId, content: string, now: Timestamp)
    returns (reply: HttpReply)
    modifies message
    ensures message != null ==>
      unchanged(message`poll, message`reactions, message`status, message`deleted, message`deletedAt)
    ensures message == null ==> reply == HttpReply(404, "Message not found")
    ensures message != null && message.senderId != userId ==>
      reply == HttpReply(403, "You can only edit your own messages") && unchanged(message)
    ensures message != null && message.senderId == userId && !Editable(message.kind) ==>
      reply == HttpReply(400, "Cannot edit this type of message") && unchanged(message)
    ensures message != null && message.senderId == userId && Editable(message.kind) ==>
      reply == HttpReply(200, "Message updated successfully")
      && message.content == content && message.updatedAt == now
  {
    if message == null {
      return HttpReply(404, "Message not found");
    }
    if message.senderId != userId {
      return HttpReply(403, "You can only edit your own messages");
    }
    if !Editable(message.kind) {
      return HttpReply(400, "Cannot edit this type of message");
    }
    message.content := content;
    message.updatedAt := now;
    reply := HttpReply(200, "Message updated successfully");
  }

  /** `deleteMessage`: 404; a message whose group is gone makes the admin
      lookup throw; then 403 unless the caller is the sender or an admin;
      otherwise the message is only flagged deleted and stamped. */
  method DeleteMessage(message: MessageDoc?, group: Group?, userId: UserId, now: Timestamp)
    returns (reply: HttpReply)
    requires group != null ==> message != null && group.id == message.groupId
    modifies message
    ensures message != null ==>
      unchanged(message`content, message`poll, message`reactions, message`status, message`updatedAt)
    ensures message == null ==> reply == HttpReply(404, "Message not found")
    ensures message != null && group == null ==>
      reply == HttpReply(500, "Server error deleting message") && unchanged(message)
    ensures message != null && group != null ==>
      var allowed := message.senderId == userId || userId in group.admins;
      && (!allowed ==> reply == HttpReply(403, "You can only delete your own messages or be an admin") && unchanged(message))
      && (allowed ==> reply == HttpReply(200, "Message deleted successfully")
                      && message.deleted && message.deletedAt == Some(now))
  {
    if message == null {
      return HttpReply(404, "Message not found");
    }
    if group == null {
      return HttpReply(500, "Server error deleting message");
    }
    var isSender := message.senderId == userId;
    var isAdmin := userId in group.admins;
    if !isSender && !isAdmin {
      return HttpReply(403, "You can only delete your own messages or be an admin");
    }
    message.deleted := true;
    message.deletedAt := Some(now);
    reply := HttpReply(200, "Message deleted successfully");
  }

  /** `addReaction`: 404, otherwise the model's ledger update. */
  method AddReaction(message: MessageDoc?, userId: UserId, emoji: string) returns (reply: HttpReply)
    modifies message
    ensures message != null ==> unchanged(message`content, message`poll, message`status, message`deleted)
    ensures message == null ==> reply == HttpReply(404, "Message not found")
    ensures message != null ==>
      reply == HttpReply(200, "Reaction added successfully")
      && message.reactions == WithReaction(old(message.reactions), emoji, userId)
  {
    if message == null {
      return HttpReply(404, "Message not found");
    }
    message.AddReaction(emoji, userId);
    reply := HttpReply(200, "Reaction added successfully");
  }

  /** `removeReaction`: 404, otherwise the model's exact-match removal. */
  method RemoveReaction(message: MessageDoc?, userId: UserId, emoji: string) returns (reply: HttpReply)
    modifies message
    ensures message != null ==> unchanged(message`content, message`poll, message`status, message`deleted)
    ensures message == null ==> reply == HttpReply(404, "Message not found")
    ensures message != null ==>
      reply == HttpReply(200, "Reaction removed successfully")
      && message.reactions == WithoutReaction(old(message.reactions), emoji, userId)
  {
    if message == null {
      return HttpReply(404, "Message not found");
    }
    message.RemoveReaction(emoji, userId);
    reply := HttpReply(200, "Reaction removed successfully");
  }

  /** `votePoll`: 404, then 400 for a message whose type is not poll;
      otherwise the model records the vote. A poll-typed message always has a
      poll object, so the model's own check never throws here. */
  method VotePoll(message: MessageDoc?, userId: UserId, optionIndex: int) returns (reply: HttpReply)
    modifies message
    ensures message != null ==> unchanged(message`content, message`reactions, message`status, message`deleted)
    ensures message == null ==> reply == HttpReply(404, "Message not found")
    ensures message != null && message.kind != Poll ==>
      reply == HttpReply(400, "Message is not a poll") && message.poll == old(message.poll)
    ensures message != null && message.kind == Poll ==>
      reply == HttpReply(200, "Vote recorded successfully")
      && message.poll == old(message.poll).(options := CastVote(old(message.poll).options, optionIndex, userId))
  {
    if message == null {
      return HttpReply(404, "Message not found");
    }
    if message.kind != Poll {
      return HttpReply(400, "Message is not a poll");
    }
    var _ := message.VotePoll(optionIndex, userId);
    reply := HttpReply(200, "Vote recorded successfully");
  }
}
