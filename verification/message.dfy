/** The message document: its schema, the reaction ledger, the poll ballot
    and the per-recipient delivery status, with the four instance methods that
    change them in place. */
module MessageModel {
  import opened Common

  /** The schema's length limits (content, poll question, poll option text),
      which the document library enforces on save. */
  const MaxContentLength := 5000
  const MaxQuestionLength := 500
  const MaxOptionTextLength := 200

  /** The schema's `type` enum. */
  datatype MessageType = Text | Image | Video | Audio | Poll | Emoji

  /** Editing is refused for polls and media messages, so only text and emoji
      messages can be edited. */
  predicate Editable(t: MessageType) {
    !(t == Poll || t == Image || t == Video || t == Audio)
  }

  /** The enum's spelling of each type. */
  function MessageTypeName(t: MessageType): string {
    match t
    case Text => "text"
    case Image => "image"
    case Video => "video"
    case Audio => "audio"
    case Poll => "poll"
    case Emoji => "emoji"
  }

  /** Enum validation: exactly the names of the enum are accepted. */
  function ParseMessageType(s: string): (r: Option<MessageType>)
    ensures r.Some? ==> MessageTypeName(r.value) == s
    ensures r.None? ==> forall t: MessageType :: MessageTypeName(t) != s
  {
    if s == "text" then Some(Text)
    else if s == "image" then Some(Image)
    else if s == "video" then Some(Video)
    else if s == "audio" then Some(Audio)
    else if s == "poll" then Some(Poll)
    else if s == "emoji" then Some(Emoji)
    else None
  }

  /** A missing type (`type || 'text'`) defaults to text before validation. */
  function RequestedType(typeName: string): (r: Option<MessageType>)
    ensures typeName == "" ==> r == Some(Text)
    ensures typeName != "" ==> r == ParseMessageType(typeName)
  {
    ParseMessageType(if typeName == "" then "text" else typeName)
  }

  /** Every type's name parses back to that type. */
  lemma MessageTypeRoundTrip(t: MessageType)
    ensures ParseMessageType(MessageTypeName(t)) == Some(t)
  {
  }

  datatype Reaction = Reaction(emoji: string, userId: UserId)
  datatype PollOption = PollOption(text: string, votes: seq<UserId>)
  datatype PollData = PollData(question: string, options: seq<PollOption>)

  /** `poll` is a nested path of the schema, not a subdocument: a message
      saved without one still reads a poll object, with no question and the
      option list's default, the empty list. */
  const AbsentPoll := PollData("", [])

  /** The poll a message is saved with (`poll: poll || undefined`). */
  function StoredPoll(p: Option<PollData>): (q: PollData)
    ensures p.Some? ==> q == p.value
    ensures p.None? ==> q.question == "" && q.options == []
  {
    if p.Some? then p.value else AbsentPoll
  }

  /** The three status lists a recipient can be recorded in. */
  datatype StatusType = Sent | Delivered | Seen
  datatype DeliveryStatus = DeliveryStatus(sent: seq<UserId>, delivered: seq<UserId>, seen: seq<UserId>)

  /** What an instance method reports: done, or the message of the error it throws. */
  datatype Outcome = Done | Failed(message: string)

  // ---------------------------------------------------------------------------
  // Reaction ledger

  /** The test `r => r.userId.toString() !== userId.toString()`. */
  function ByOtherThan(u: UserId): Reaction -> bool {
    (x: Reaction) => x.userId != u
  }

  /** `reactions.filter(r => r.userId !== userId)` */
  function ReactionsOfOthers(rs: seq<Reaction>, u: UserId): (r: seq<Reaction>)
    ensures |r| <= |rs|
    ensures forall i :: 0 <= i < |r| ==> r[i].userId != u
  {
    Filter(rs, ByOtherThan(u))
  }

  /** The ledger after `addReaction(emoji, userId)`. */
  function WithReaction(rs: seq<Reaction>, emoji: string, u: UserId): seq<Reaction> {
    ReactionsOfOthers(rs, u) + [Reaction(emoji, u)]
  }

  /** The ledger after `removeReaction(emoji, userId)`: only entries matching both. */
  function WithoutReaction(rs: seq<Reaction>, emoji: string, u: UserId): seq<Reaction> {
    Without(rs, Reaction(emoji, u))
  }

  /** At most one reaction per user. */
  ghost predicate OnePerUser(rs: seq<Reaction>) {
    forall i, j :: 0 <= i < j < |rs| ==> rs[i].userId != rs[j].userId
  }

  lemma ReactionsOfOthersMembership(rs: seq<Reaction>, u: UserId, x: Reaction)
    ensures x in ReactionsOfOthers(rs, u) <==> x in rs && x.userId != u
  {
    FilterMembership(rs, ByOtherThan(u), x);
  }

  /** A user with no reaction on the message leaves every other entry in place. */
  lemma ReactionsOfOthersAbsent(rs: seq<Reaction>, u: UserId)
    requires forall i :: 0 <= i < |rs| ==> rs[i].userId != u
    ensures ReactionsOfOthers(rs, u) == rs
  {
    FilterAllKept(rs, ByOtherThan(u));
  }

  lemma {:induction false} ReactionsOfOthersOnePerUser(rs: seq<Reaction>, u: UserId)
    requires OnePerUser(rs)
    ensures OnePerUser(ReactionsOfOthers(rs, u))
  {
    if rs != [] {
      var init := rs[..|rs| - 1];
      ReactionsOfOthersOnePerUser(init, u);
      var r0 := ReactionsOfOthers(init, u);
      forall k | 0 <= k < |r0| ensures r0[k].userId != rs[|rs| - 1].userId {
        ReactionsOfOthersMembership(init, u, r0[k]);
        assert r0[k] in r0;
        var m :| 0 <= m < |init| && init[m] == r0[k];
        assert rs[m] == r0[k];
      }
    }
  }

  /** After `addReaction(e, u)` exactly one reaction of `u` exists, it carries
      `e` and is last; before it stand the other users' reactions, each as
      often as before and, by `FilterAppend`, in their original order. */
  lemma AddReactionLedger(rs: seq<Reaction>, e: string, u: UserId)
    ensures var r := WithReaction(rs, e, u);
      && r[|r| - 1] == Reaction(e, u)
      && r[..|r| - 1] == ReactionsOfOthers(rs, u)
      && (forall i :: 0 <= i < |r| ==> (r[i].userId == u <==> i == |r| - 1))
      && (forall x: Reaction :: x.userId != u ==> multiset(r)[x] == multiset(rs)[x])
      && ((forall i :: 0 <= i < |rs| ==> rs[i].userId != u) ==> r == rs + [Reaction(e, u)])
  {
    var others := ReactionsOfOthers(rs, u);
    var r := WithReaction(rs, e, u);
    assert r == others + [Reaction(e, u)];
    assert r[..|r| - 1] == others;
    assert multiset(r) == multiset(others) + multiset{Reaction(e, u)};
    FilterCountAll(rs, ByOtherThan(u));
    if forall i :: 0 <= i < |rs| ==> rs[i].userId != u {
      ReactionsOfOthersAbsent(rs, u);
    }
  }

  /** Adding a reaction keeps at most one reaction per user. */
  lemma AddReactionOnePerUser(rs: seq<Reaction>, e: string, u: UserId)
    requires OnePerUser(rs)
    ensures OnePerUser(WithReaction(rs, e, u))
  {
    var others := ReactionsOfOthers(rs, u);
    var r := WithReaction(rs, e, u);
    ReactionsOfOthersOnePerUser(rs, u);
    forall i, j | 0 <= i < j < |r| ensures r[i].userId != r[j].userId {
      if j < |others| {
        assert r[i] == others[i] && r[j] == others[j];
      } else {
        assert r[i] == others[i];
      }
    }
  }

  /** `removeReaction(e, u)` drops exactly the entries equal to (e, u); when
      no such entry exists (a mismatched emoji) the ledger is unchanged. */
  lemma RemoveReactionExact(rs: seq<Reaction>, e: string, u: UserId)
    ensures var r := WithoutReaction(rs, e, u);
      && (forall x :: x in r <==> x in rs && x != Reaction(e, u))
      && (Reaction(e, u) !in rs ==> r == rs)
      && (forall x :: x != Reaction(e, u) ==> multiset(r)[x] == multiset(rs)[x])
      && (OnePerUser(rs) ==> OnePerUser(r))
  {
    var r := WithoutReaction(rs, e, u);
    forall x ensures x in r <==> x in rs && x != Reaction(e, u) {
      WithoutMembership(rs, Reaction(e, u), x);
    }
    forall x | x != Reaction(e, u) ensures multiset(r)[x] == multiset(rs)[x] {
      WithoutCount(rs, Reaction(e, u), x);
    }
    if Reaction(e, u) !in rs {
      WithoutAbsent(rs, Reaction(e, u));
    }
    if OnePerUser(rs) {
      RemovedKeepsOnePerUser(rs, Reaction(e, u));
    }
  }

  lemma {:induction false} RemovedKeepsOnePerUser(rs: seq<Reaction>, x: Reaction)
    requires OnePerUser(rs)
    ensures OnePerUser(Without(rs, x))
  {
    if rs != [] {
      var init := rs[..|rs| - 1];
      RemovedKeepsOnePerUser(init, x);
      var r0 := Without(init, x);
      forall k | 0 <= k < |r0| ensures r0[k].userId != rs[|rs| - 1].userId {
        WithoutMembership(init, x, r0[k]);
        assert r0[k] in r0;
        var m :| 0 <= m < |init| && init[m] == r0[k];
        assert rs[m] == r0[k];
      }
    }
  }

  // ---------------------------------------------------------------------------
  // Poll ballot

  /** Every option with `userId` filtered out of its votes (the `forEach` of `votePoll`). */
  function ClearVote(options: seq<PollOption>, u: UserId): (r: seq<PollOption>)
    ensures |r| == |options|
  {
    seq(|options|, i requires 0 <= i < |options| => options[i].(votes := Without(options[i].votes, u)))
  }

  /** The options after `votePoll(index, userId)`: the user's vote is cleared
      everywhere, then recorded on the option at `index` if there is one. */
  function CastVote(options: seq<PollOption>, index: int, u: UserId): seq<PollOption> {
    var cleared := ClearVote(options, u);
    if 0 <= index < |cleared| then cleared[index := cleared[index].(votes := cleared[index].votes + [u])]
    else cleared
  }

  /** No voter in two options, and no voter twice in one option. */
  ghost predicate SingleChoice(options: seq<PollOption>) {
    && (forall i :: 0 <= i < |options| ==> NoDuplicates(options[i].votes))
    && (forall i, j, v :: 0 <= i < j < |options| && v in options[i].votes ==> v !in options[j].votes)
  }

  /** Voting never touches option texts, the option count or other voters. */
  lemma CastVoteKeepsOthers(options: seq<PollOption>, index: int, u: UserId)
    ensures var r := CastVote(options, index, u);
      && |r| == |options|
      && (forall j :: 0 <= j < |r| ==> r[j].text == options[j].text)
      && (forall j, v :: 0 <= j < |r| && v != u ==> multiset(r[j].votes)[v] == multiset(options[j].votes)[v])
  {
    var r := CastVote(options, index, u);
    forall j, v | 0 <= j < |r| && v != u
      ensures multiset(r[j].votes)[v] == multiset(options[j].votes)[v]
    {
      WithoutCount(options[j].votes, u, v);
    }
  }

  /** A vote for an existing option leaves the voter in that option, once,
      and in no other. */
  lemma CastVoteExclusive(options: seq<PollOption>, index: int, u: UserId)
    requires 0 <= index < |options|
    ensures var r := CastVote(options, index, u);
      && (forall j :: 0 <= j < |r| ==> (u in r[j].votes <==> j == index))
      && multiset(r[index].votes)[u] == 1
  {
    var r := CastVote(options, index, u);
    var cleared := ClearVote(options, u);
    assert u !in cleared[index].votes;
    assert multiset(cleared[index].votes)[u] == 0;
  }

  /** A vote for an index outside the options records nothing and clears the
      voter's earlier vote; it is not an error. */
  lemma CastVoteOutOfRange(options: seq<PollOption>, index: int, u: UserId)
    requires !(0 <= index < |options|)
    ensures var r := CastVote(options, index, u);
      forall j :: 0 <= j < |r| ==> u !in r[j].votes
  {
  }

  lemma {:induction false} CastVoteSingleChoice(options: seq<PollOption>, index: int, u: UserId)
    requires SingleChoice(options)
    ensures SingleChoice(CastVote(options, index, u))
  {
    var cleared := ClearVote(options, u);
    forall j | 0 <= j < |cleared| ensures NoDuplicates(cleared[j].votes) {
      WithoutNoDuplicates(options[j].votes, u);
    }
    forall i, j, v | 0 <= i < j < |cleared| && v in cleared[i].votes
      ensures v !in cleared[j].votes
    {
      WithoutMembership(options[i].votes, u, v);
      WithoutMembership(options[j].votes, u, v);
    }
    var r := CastVote(options, index, u);
    if 0 <= index < |cleared| {
      forall i, j, v | 0 <= i < j < |r| && v in r[i].votes ensures v !in r[j].votes {
        if v != u {
          assert v in cleared[i].votes;
        }
      }
    }
  }

  // ---------------------------------------------------------------------------
  // Delivery status

  function StatusList(st: DeliveryStatus, t: StatusType): seq<UserId> {
    match t
    case Sent => st.sent
    case Delivered => st.delivered
    case Seen => st.seen
  }

  /** Only the three names of the status lists are accepted. */
  function ParseStatusType(s: string): (r: Option<StatusType>)
    ensures r.None? <==> s != "sent" && s != "delivered" && s != "seen"
  {
    if s == "sent" then Some(Sent)
    else if s == "delivered" then Some(Delivered)
    else if s == "seen" then Some(Seen)
    else None
  }

  /** The status after `updateStatus(t, userId)`: a user already in list `t`
      changes nothing; otherwise the user is appended to `t`, `seen` also
      appends to `delivered` and `delivered` also to `sent`. */
  function StatusAfter(st: DeliveryStatus, t: StatusType, u: UserId): DeliveryStatus {
    if u in StatusList(st, t) then st
    else
      match t
      case Sent => st.(sent := st.sent + [u])
      case Delivered => st.(delivered := st.delivered + [u], sent := AppendIfAbsent(st.sent, u))
      case Seen => st.(seen := st.seen + [u], delivered := AppendIfAbsent(st.delivered, u))
  }

  predicate IsPrefixOf<T(==)>(a: seq<T>, b: seq<T>) {
    |a| <= |b| && b[..|a|] == a
  }

  /** Status updates only ever append: no id is removed or reordered. */
  lemma StatusMonotonic(st: DeliveryStatus, t: StatusType, u: UserId)
    ensures var r := StatusAfter(st, t, u);
      IsPrefixOf(st.sent, r.sent) && IsPrefixOf(st.delivered, r.delivered) && IsPrefixOf(st.seen, r.seen)
  {
  }

  /** Re-applying a status the user already holds changes nothing. */
  lemma StatusIdempotent(st: DeliveryStatus, t: StatusType, u: UserId)
    ensures StatusAfter(StatusAfter(st, t, u), t, u) == StatusAfter(st, t, u)
  {
  }

  /** The cascade: the user ends up in list `t`; a new `seen` adds to
      `delivered` but never to `sent`; a new `delivered` adds to `sent` but
      never to `seen`; nothing fires when the user already held `t`; other
      users are untouched. */
  lemma StatusCascade(st: DeliveryStatus, t: StatusType, u: UserId)
    ensures var r := StatusAfter(st, t, u);
      && u in StatusList(r, t)
      && (u in StatusList(st, t) ==> r == st)
      && (t == Seen ==> r.sent == st.sent && (u !in st.seen ==> u in r.delivered))
      && (t == Delivered ==> r.seen == st.seen && (u !in st.delivered ==> u in r.sent))
      && (t == Sent ==> r.delivered == st.delivered && r.seen == st.seen)
      && (forall v, k :: v != u ==> (v in StatusList(r, k) <==> v in StatusList(st, k)))
  {
  }

  /** The status chain the code keeps: whoever has seen a message has it
      delivered, and whoever has it delivered was sent it or has seen it.
      (`seen` does not cascade to `sent`.) */
  ghost predicate StatusChain(st: DeliveryStatus) {
    && (forall x :: x in st.seen ==> x in st.delivered)
    && (forall x :: x in st.delivered ==> x in st.sent || x in st.seen)
  }

  lemma StatusChainPreserved(st: DeliveryStatus, t: StatusType, u: UserId)
    requires StatusChain(st)
    ensures StatusChain(StatusAfter(st, t, u))
  {
  }

  /** For a recipient recorded as sent, the full chain seen => delivered => sent
      holds after any further update, because nothing is ever removed. */
  lemma RecipientChain(st: DeliveryStatus, t: StatusType, u: UserId, v: UserId)
    requires StatusChain(st) && v in st.sent
    ensures var r := StatusAfter(st, t, u);
      v in r.sent && (v in r.seen ==> v in r.delivered)
  {
  }

  // ---------------------------------------------------------------------------
  // The message document

  class MessageDoc {
    const id: MessageId
    const groupId: GroupId
    const senderId: UserId
    const kind: MessageType
    var content: string
    const mediaUrl: string
    var poll: PollData
    var reactions: seq<Reaction>
    const repliedTo: Option<MessageId>
    var status: DeliveryStatus
    var deleted: bool
    var deletedAt: Option<Timestamp>
    const createdAt: Timestamp
    var updatedAt: Timestamp

    constructor (id: MessageId, groupId: GroupId, senderId: UserId, kind: MessageType,
                 content: string, mediaUrl: string, poll: PollData,
                 repliedTo: Option<MessageId>, status: DeliveryStatus, now: Timestamp)
      ensures this.id == id && this.groupId == groupId && this.senderId == senderId
      ensures this.kind == kind && this.content == content && this.mediaUrl == mediaUrl
      ensures this.poll == poll && this.repliedTo == repliedTo && this.status == status
      ensures reactions == [] && !deleted && deletedAt == None
      ensures createdAt == now && updatedAt == now
    {
      this.id, this.groupId, this.senderId, this.kind := id, groupId, senderId, kind;
      this.content, this.mediaUrl, this.poll, this.repliedTo := content, mediaUrl, poll, repliedTo;
      this.status := status;
      reactions, deleted, deletedAt := [], false, None;
      createdAt, updatedAt := now, now;
    }

    /** The `isPoll` virtual: a poll-typed message whose question is not
        empty. A poll-typed message saved without a poll is not one. */
    predicate IsPoll(): (b: bool)
      reads this
      ensures b ==> kind == Poll
      ensures poll == AbsentPoll ==> !b
    {
      kind == Poll && poll.question != ""
    }

    method AddReaction(emoji: string, userId: UserId)
      modifies this`reactions
      ensures reactions == WithReaction(old(reactions), emoji, userId)
    {
      reactions := ReactionsOfOthers(reactions, userId);
      reactions := reactions + [Reaction(emoji, userId)];
    }

    method RemoveReaction(emoji: string, userId: UserId)
      modifies this`reactions
      ensures reactions == WithoutReaction(old(reactions), emoji, userId)
    {
      reactions := Without(reactions, Reaction(emoji, userId));
    }

    /** Throws, changing nothing, unless the message is of type poll (its
        poll always reads as an object, so `!this.poll` never holds);
        otherwise clears the user's vote in every option (in place, option by
        option) and records it on option `optionIndex` when that option exists. */
    method VotePoll(optionIndex: int, userId: UserId) returns (outcome: Outcome)
      modifies this`poll
      ensures kind != Poll ==> outcome == Failed("Message is not a poll") && poll == old(poll)
      ensures kind == Poll ==>
        outcome == Done && poll == old(poll).(options := CastVote(old(poll).options, optionIndex, userId))
    {
      if kind != Poll {
        return Failed("Message is not a poll");
      }
      var options := poll.options;
      ghost var original := options;
      var i := 0;
      while i < |options|
        invariant 0 <= i <= |options| == |original|
        invariant forall k :: 0 <= k < i ==> options[k] == original[k].(votes := Without(original[k].votes, userId))
        invariant forall k :: i <= k < |options| ==> options[k] == original[k]
      {
        options := options[i := options[i].(votes := Without(options[i].votes, userId))];
        i := i + 1;
      }
      assert options == ClearVote(original, userId);
      if 0 <= optionIndex < |options| {
        options := options[optionIndex := options[optionIndex].(votes := options[optionIndex].votes + [userId])];
      }
      poll := poll.(options := options);
      outcome := Done;
    }

    /** Throws "Invalid status type" for any name but sent/delivered/seen;
        otherwise applies `StatusAfter`. */
    method UpdateStatus(statusType: string, userId: UserId) returns (outcome: Outcome)
      modifies this`status
      ensures ParseStatusType(statusType).None? ==> outcome == Failed("Invalid status type") && status == old(status)
      ensures ParseStatusType(statusType).Some? ==>
        outcome == Done && status == StatusAfter(old(status), ParseStatusType(statusType).value, userId)
    {
      var t := ParseStatusType(statusType);
      if t.None? {
        return Failed("Invalid status type");
      }
      var list := StatusList(status, t.value);
      if userId !in list {
        match t.value {
          case Sent =>
            status := status.(sent := status.sent + [userId]);
          case Delivered =>
            status := status.(delivered := status.delivered + [userId]);
            if userId !in status.sent {
              status := status.(sent := status.sent + [userId]);
            }
          case Seen =>
            status := status.(seen := status.seen + [userId]);
            if userId !in status.delivered {
              status := status.(delivered := status.delivered + [userId]);
            }
        }
      }
      outcome := Done;
    }
  }
}
