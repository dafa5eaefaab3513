/** One message as the web client draws it: the reaction chips, the poll's
    vote totals and labels, the "(edited)" mark, which actions are offered,
    and the decision taken when an edit is saved. */
module MessageBubble {
  import opened Common
  import opened Strings
  import opened MessageModel

  // ---------------------------------------------------------------------------
  // Reaction chips

  /** How many reactions carry emoji `e`. */
  function EmojiCount(rs: seq<Reaction>, e: string): nat {
    if rs == [] then 0
    else EmojiCount(rs[..|rs| - 1], e) + (if rs[|rs| - 1].emoji == e then 1 else 0)
  }

  /** One entry of the object the reactions are reduced into. */
  datatype Chip = Chip(emoji: string, count: nat)

  /** `acc[emoji] = (acc[emoji] || 0) + 1`: a known key counts one more, a new
      key is added at the end with count 1. */
  function Bump(chips: seq<Chip>, e: string): seq<Chip> {
    if chips == [] then [Chip(e, 1)]
    else if chips[0].emoji == e then [chips[0].(count := chips[0].count + 1)] + chips[1..]
    else [chips[0]] + Bump(chips[1..], e)
  }

  /** `reactions.reduce(..., {})`, keys in insertion order. */
  function Tally(rs: seq<Reaction>): seq<Chip> {
    if rs == [] then [] else Bump(Tally(rs[..|rs| - 1]), rs[|rs| - 1].emoji)
  }

  /** The count the chips record for emoji `x`. */
  function ChipCount(chips: seq<Chip>, x: string): nat {
    if chips == [] then 0
    else (if chips[0].emoji == x then chips[0].count else 0) + ChipCount(chips[1..], x)
  }

  function SumCounts(chips: seq<Chip>): nat {
    if chips == [] then 0 else chips[0].count + SumCounts(chips[1..])
  }

  /** Some chip has emoji `x`. */
  predicate HasEmoji(chips: seq<Chip>, x: string) {
    chips != [] && (chips[0].emoji == x || HasEmoji(chips[1..], x))
  }

  /** No two chips share an emoji. */
  predicate Distinct(chips: seq<Chip>) {
    chips == [] || (!HasEmoji(chips[1..], chips[0].emoji) && Distinct(chips[1..]))
  }

  ghost predicate PositiveCounts(chips: seq<Chip>) {
    forall i :: 0 <= i < |chips| ==> chips[i].count >= 1
  }

  lemma {:induction false} BumpCount(chips: seq<Chip>, e: string, x: string)
    ensures ChipCount(Bump(chips, e), x) == ChipCount(chips, x) + (if x == e then 1 else 0)
    ensures SumCounts(Bump(chips, e)) == SumCounts(chips) + 1
  {
    if chips != [] {
      var b := Bump(chips, e);
      if chips[0].emoji == e {
        assert b[1..] == chips[1..];
      } else {
        BumpCount(chips[1..], e, x);
        assert b[1..] == Bump(chips[1..], e);
      }
    }
  }

  lemma {:induction false} BumpHas(chips: seq<Chip>, e: string, x: string)
    ensures HasEmoji(Bump(chips, e), x) <==> x == e || HasEmoji(chips, x)
  {
    if chips != [] {
      var b := Bump(chips, e);
      if chips[0].emoji == e {
        assert b[1..] == chips[1..];
      } else {
        BumpHas(chips[1..], e, x);
        assert b[1..] == Bump(chips[1..], e);
      }
    }
  }

  lemma {:induction false} BumpDistinct(chips: seq<Chip>, e: string)
    requires Distinct(chips)
    ensures Distinct(Bump(chips, e))
  {
    if chips != [] {
      var b := Bump(chips, e);
      if chips[0].emoji == e {
        assert b[1..] == chips[1..];
      } else {
        BumpDistinct(chips[1..], e);
        BumpHas(chips[1..], e, chips[0].emoji);
        assert b[1..] == Bump(chips[1..], e);
      }
    }
  }

  lemma {:induction false} BumpPositive(chips: seq<Chip>, e: string)
    requires PositiveCounts(chips)
    ensures PositiveCounts(Bump(chips, e))
  {
    if chips != [] && chips[0].emoji != e {
      BumpPositive(chips[1..], e);
      assert Bump(chips, e)[1..] == Bump(chips[1..], e);
    }
  }

  /** Each emoji's chip count is the number of reactions with that emoji; a
      chip exists exactly for the emojis that occur; no emoji gets two chips;
      and the counts add up to the number of reactions. */
  lemma {:induction false} TallyExact(rs: seq<Reaction>)
    ensures var c := Tally(rs);
      && (forall x :: ChipCount(c, x) == EmojiCount(rs, x))
      && (forall x :: HasEmoji(c, x) <==> EmojiCount(rs, x) > 0)
      && Distinct(c)
      && PositiveCounts(c)
      && SumCounts(c) == |rs|
  {
    if rs != [] {
      var prev := Tally(rs[..|rs| - 1]);
      var e := rs[|rs| - 1].emoji;
      TallyExact(rs[..|rs| - 1]);
      forall x ensures ChipCount(Tally(rs), x) == EmojiCount(rs, x) && (HasEmoji(Tally(rs), x) <==> EmojiCount(rs, x) > 0) {
        BumpCount(prev, e, x);
        BumpHas(prev, e, x);
      }
      BumpCount(prev, e, e);
      BumpDistinct(prev, e);
      BumpPositive(prev, e);
    }
  }

  lemma {:induction false} HasEmojiAt(chips: seq<Chip>, i: int)
    requires 0 <= i < |chips|
    ensures HasEmoji(chips, chips[i].emoji)
  {
    if i > 0 {
      HasEmojiAt(chips[1..], i - 1);
    }
  }

  lemma {:induction false} DistinctAt(chips: seq<Chip>, i: int, j: int)
    requires Distinct(chips) && 0 <= i < j < |chips|
    ensures chips[i].emoji != chips[j].emoji
  {
    if i > 0 {
      DistinctAt(chips[1..], i - 1, j - 1);
    } else {
      HasEmojiAt(chips[1..], j - 1);
    }
  }

  /** With distinct emojis, a chip's own count is the count for its emoji. */
  lemma {:induction false} ChipCountAt(chips: seq<Chip>, i: int)
    requires Distinct(chips) && 0 <= i < |chips|
    ensures ChipCount(chips, chips[i].emoji) == chips[i].count
  {
    if i > 0 {
      DistinctAt(chips, 0, i);
      ChipCountAt(chips[1..], i - 1);
    } else {
      ChipCountAbsent(chips[1..], chips[0].emoji);
    }
  }

  lemma {:induction false} ChipCountAbsent(chips: seq<Chip>, x: string)
    requires !HasEmoji(chips, x)
    ensures ChipCount(chips, x) == 0
  {
    if chips != [] {
      ChipCountAbsent(chips[1..], x);
    }
  }

  /** The chips shown under a message: one per emoji that occurs, showing how
      often it occurs. */
  lemma ReactionChips(rs: seq<Reaction>)
    ensures var c := Tally(rs);
      && (forall i, j :: 0 <= i < j < |c| ==> c[i].emoji != c[j].emoji)
      && (forall i :: 0 <= i < |c| ==> c[i].count == EmojiCount(rs, c[i].emoji) >= 1)
      && (forall k :: 0 <= k < |rs| ==> HasEmoji(c, rs[k].emoji))
      && SumCounts(c) == |rs|
  {
    var c := Tally(rs);
    TallyExact(rs);
    forall i | 0 <= i < |c| ensures c[i].count == EmojiCount(rs, c[i].emoji) {
      ChipCountAt(c, i);
    }
    forall i, j | 0 <= i < j < |c| ensures c[i].emoji != c[j].emoji {
      DistinctAt(c, i, j);
    }
    forall k | 0 <= k < |rs| ensures HasEmoji(c, rs[k].emoji) {
      EmojiCountPositive(rs, k);
    }
  }

  lemma {:induction false} EmojiCountPositive(rs: seq<Reaction>, k: int)
    requires 0 <= k < |rs|
    ensures EmojiCount(rs, rs[k].emoji) > 0
  {
    if k < |rs| - 1 {
      EmojiCountPositive(rs[..|rs| - 1], k);
    }
  }

  // ---------------------------------------------------------------------------
  // Poll totals

  /** `options.reduce((sum, opt) => sum + opt.votes.length, 0)` */
  function TotalVotes(options: seq<PollOption>): nat {
    if options == [] then 0 else TotalVotes(options[..|options| - 1]) + |options[|options| - 1].votes|
  }

  /** How many votes `u` holds across all options. */
  function VotesBy(options: seq<PollOption>, u: UserId): nat {
    if options == [] then 0 else VotesBy(options[..|options| - 1], u) + multiset(options[|options| - 1].votes)[u]
  }

  predicate HasVoted(options: seq<PollOption>, u: UserId) {
    exists j :: 0 <= j < |options| && u in options[j].votes
  }

  lemma {:induction false} ClearVoteTotal(options: seq<PollOption>, u: UserId)
    ensures TotalVotes(ClearVote(options, u)) + VotesBy(options, u) == TotalVotes(options)
  {
    if options != [] {
      var n := |options|;
      ClearVoteTotal(options[..n - 1], u);
      assert ClearVote(options, u)[..n - 1] == ClearVote(options[..n - 1], u);
      WithoutLength(options[n - 1].votes, u);
    }
  }

  /** Under single choice a user holds one vote if they voted and none otherwise. */
  lemma {:induction false} VotesBySingleChoice(options: seq<PollOption>, u: UserId)
    requires SingleChoice(options)
    ensures VotesBy(options, u) == if HasVoted(options, u) then 1 else 0
  {
    if options != [] {
      var n := |options|;
      var init := options[..n - 1];
      assert SingleChoice(init);
      VotesBySingleChoice(init, u);
      NoDuplicatesCount(options[n - 1].votes, u);
      if u in options[n - 1].votes {
        assert !HasVoted(init, u);
      }
      if HasVoted(options, u) && u !in options[n - 1].votes {
        var j :| 0 <= j < n && u in options[j].votes;
        assert u in init[j].votes;
      }
    }
  }

  lemma {:induction false} TotalVotesAddOne(options: seq<PollOption>, i: int, u: UserId)
    requires 0 <= i < |options|
    ensures TotalVotes(options[i := options[i].(votes := options[i].votes + [u])]) == TotalVotes(options) + 1
  {
    var n := |options|;
    var r := options[i := options[i].(votes := options[i].votes + [u])];
    if i < n - 1 {
      TotalVotesAddOne(options[..n - 1], i, u);
      assert r[..n - 1] == options[..n - 1][i := options[i].(votes := options[i].votes + [u])];
    } else {
      assert r[..n - 1] == options[..n - 1];
    }
  }

  /** A vote moves the total by the vote it records, less the one it
      replaces: the total changes by at most one. */
  lemma CastVoteTotal(options: seq<PollOption>, index: int, u: UserId)
    requires SingleChoice(options)
    ensures TotalVotes(CastVote(options, index, u))
      == TotalVotes(options) - (if HasVoted(options, u) then 1 else 0) + (if 0 <= index < |options| then 1 else 0)
  {
    ClearVoteTotal(options, u);
    VotesBySingleChoice(options, u);
    if 0 <= index < |options| {
      TotalVotesAddOne(ClearVote(options, u), index, u);
    }
  }

  /** `{n} vote{n !== 1 ? 's' : ''}` */
  function VoteLabel(n: nat): (word: string)
    ensures n == 1 ==> word == "vote"
    ensures n != 1 ==> word == "votes"
  {
    if n != 1 then "votes" else "vote"
  }

  // ---------------------------------------------------------------------------
  // Marks and actions

  /** `message.updatedAt && message.createdAt !== message.updatedAt`, on the
      dates as the client receives them. */
  function ShowsEdited(createdAt: string, updatedAt: Option<string>): (shown: bool)
    ensures shown <==> updatedAt.Some? && updatedAt.value != "" && updatedAt.value != createdAt
  {
    updatedAt.Some? && updatedAt.value != "" && createdAt != updatedAt.value
  }

  datatype Actions = Actions(react: bool, edit: bool, delete: bool, reply: bool)

  /** React and delete for one's own messages, edit only for one's own text
      messages, reply only for others' messages. */
  function ActionsFor(senderId: UserId, self: UserId, kind: MessageType): (a: Actions)
    ensures a.react == a.delete == (senderId == self)
    ensures a.reply == (senderId != self)
    ensures a.edit <==> senderId == self && kind == Text
  {
    var isOwn := senderId == self;
    Actions(isOwn, isOwn && kind == Text, isOwn, !isOwn)
  }

  /** Every edit the bubble offers is one the server accepts: the caller is
      the sender and the type is editable. */
  lemma EditOfferedIsAccepted(senderId: UserId, self: UserId, kind: MessageType)
    requires ActionsFor(senderId, self, kind).edit
    ensures senderId == self && Editable(kind)
  {
  }

  datatype EditAction = SaveEdit(content: string) | CancelEdit

  /** `handleSaveEdit`: save only a non-blank text that differs from the
      original, otherwise cancel. */
  function DecideEdit(editContent: string, original: string): (a: EditAction)
    ensures a.SaveEdit? <==> !IsBlank(editContent) && editContent != original
    ensures a.SaveEdit? ==> a.content == editContent
  {
    if !IsBlank(editContent) && editContent != original then SaveEdit(editContent) else CancelEdit
  }
}
