/** The message composer of the web client: the send guards, the payload it
    sends to the socket server, the poll form's option list and the type chosen
    from an uploaded file's mime type. */
module MessageInput {
  import opened Common
  import opened Strings
  import opened MessageModel

  /** The test `o => o.trim()`: the option is not blank. */
  function NotBlank(o: string): bool {
    !IsBlank(o)
  }

  /** `options.filter(o => o.trim())`: the options that are not blank, each
      as often as before. */
  function NonBlankOptions(options: seq<string>): (r: seq<string>)
    ensures |r| <= |options|
    ensures forall i :: 0 <= i < |r| ==> NotBlank(r[i]) && r[i] in options
    ensures forall o :: o in options && NotBlank(o) ==> o in r
    ensures forall o :: NotBlank(o) ==> multiset(r)[o] == multiset(options)[o]
  {
    var r := Filter(options, NotBlank);
    FilterMembershipAll(options, NotBlank);
    FilterCountAll(options, NotBlank);
    r
  }

  /** The options keep the order in which they were typed: filtering a
      concatenation filters each part. */
  lemma NonBlankOptionsAppend(a: seq<string>, b: seq<string>)
    ensures NonBlankOptions(a + b) == NonBlankOptions(a) + NonBlankOptions(b)
  {
    FilterAppend(a, b, NotBlank);
  }

  /** The poll the composer sends: the question as typed and the non-blank
      options, trimmed, each with no votes. */
  function PollPayload(question: string, options: seq<string>): (p: PollData)
    ensures p.question == question
    ensures |p.options| == |NonBlankOptions(options)|
    ensures forall i :: 0 <= i < |p.options| ==>
      && p.options[i].votes == []
      && p.options[i].text == Trim(NonBlankOptions(options)[i])
  {
    var kept := NonBlankOptions(options);
    PollData(question, seq(|kept|, i requires 0 <= i < |kept| => PollOption(Trim(kept[i]), [])))
  }

  /** Every option of the sent poll is already trimmed and not blank. */
  lemma PollOptionsTrimmed(question: string, options: seq<string>)
    ensures var p := PollPayload(question, options);
      forall i :: 0 <= i < |p.options| ==> Trim(p.options[i].text) == p.options[i].text && !IsBlank(p.options[i].text)
  {
    var p := PollPayload(question, options);
    var kept := NonBlankOptions(options);
    forall i | 0 <= i < |p.options|
      ensures Trim(p.options[i].text) == p.options[i].text && !IsBlank(p.options[i].text)
    {
      TrimIdempotent(kept[i]);
    }
  }

  /** What `handleSend` emits as `send-message`. */
  datatype Outgoing = Outgoing(groupId: GroupId, kind: MessageType, content: string, mediaUrl: string,
                               poll: Option<PollData>, repliedTo: Option<MessageId>)

  /** The composer's state at the moment of sending. */
  datatype Draft = Draft(content: string, kind: MessageType, mediaUrl: string,
                         question: string, options: seq<string>, showPollForm: bool)

  /** `handleSend`'s two guards: an empty text message with the poll form
      closed is not sent; with the poll form open, a blank question or fewer
      than two non-blank options is not sent. */
  predicate MaySend(d: Draft) {
    && !(IsBlank(d.content) && d.kind == Text && !d.showPollForm)
    && !(d.showPollForm && (IsBlank(d.question) || |NonBlankOptions(d.options)| < 2))
  }

  /** `handleSend`'s payload, when the guards let it through. The media URL
      follows the composer's type even when a poll is sent. */
  function Payload(groupId: GroupId, d: Draft, replyTo: Option<MessageId>): (r: Option<Outgoing>)
    ensures r.Some? <==> MaySend(d)
    ensures r.Some? ==> r.value.groupId == groupId && r.value.repliedTo == replyTo
    ensures r.Some? ==> r.value.mediaUrl == if d.kind != Text then d.mediaUrl else ""
    ensures r.Some? && d.showPollForm ==>
      r.value.kind == Poll && r.value.content == "" && r.value.poll == Some(PollPayload(d.question, d.options))
    ensures r.Some? && !d.showPollForm ==>
      r.value.kind == d.kind && r.value.content == d.content && r.value.poll == None
  {
    if !MaySend(d) then None
    else
      Some(Outgoing(groupId,
                    if d.showPollForm then Poll else d.kind,
                    if d.showPollForm then "" else d.content,
                    if d.kind != Text then d.mediaUrl else "",
                    if d.showPollForm then Some(PollPayload(d.question, d.options)) else None,
                    replyTo))
  }

  /** What is sent is never empty: a text message has non-blank content, and a
      poll has a non-blank question and at least two non-blank, trimmed
      options. */
  lemma PayloadNotEmpty(groupId: GroupId, d: Draft, replyTo: Option<MessageId>)
    requires Payload(groupId, d, replyTo).Some?
    ensures var p := Payload(groupId, d, replyTo).value;
      && (p.kind == Text ==> !IsBlank(p.content))
      && (p.kind == Poll && d.showPollForm ==>
            && p.poll.Some? && !IsBlank(p.poll.value.question) && |p.poll.value.options| >= 2
            && forall i :: 0 <= i < |p.poll.value.options| ==> !IsBlank(p.poll.value.options[i].text))
  {
    PollOptionsTrimmed(d.question, d.options);
  }

  /** Every type the composer can send is one the server's enum accepts. */
  lemma PayloadTypeAccepted(groupId: GroupId, d: Draft, replyTo: Option<MessageId>)
    requires Payload(groupId, d, replyTo).Some?
    ensures var p := Payload(groupId, d, replyTo).value;
      RequestedType(MessageTypeName(p.kind)) == Some(p.kind)
  {
    var p := Payload(groupId, d, replyTo).value;
    MessageTypeRoundTrip(p.kind);
  }

  /** `options.filter((_, i) => i !== index)`, taken over the first `n` entries. */
  function DropIndex(options: seq<string>, index: int, n: nat): (r: seq<string>)
    requires n <= |options|
  {
    if n == 0 then []
    else DropIndex(options, index, n - 1) + (if n - 1 == index then [] else [options[n - 1]])
  }

  /** Filtering out one position removes exactly that entry, and nothing when
      there is no such position. */
  lemma {:induction false} DropIndexExact(options: seq<string>, index: int, n: nat)
    requires n <= |options|
    ensures 0 <= index < n ==> DropIndex(options, index, n) == options[..index] + options[index + 1..n]
    ensures !(0 <= index < n) ==> DropIndex(options, index, n) == options[..n]
  {
    if n > 0 {
      DropIndexExact(options, index, n - 1);
      if 0 <= index < n - 1 {
        assert options[..index] + options[index + 1..n] == options[..index] + options[index + 1..n - 1] + [options[n - 1]];
      } else if index == n - 1 {
        assert options[..index] + options[index + 1..n] == options[..n - 1];
      } else {
        assert options[..n] == options[..n - 1] + [options[n - 1]];
      }
    }
  }

  /** The upload's type from the mime prefix; any other prefix leaves the
      current type. */
  function TypeForMime(mime: string, current: MessageType): (t: MessageType)
    ensures StartsWith(mime, "image/") ==> t == Image
    ensures !StartsWith(mime, "image/") && StartsWith(mime, "video/") ==> t == Video
    ensures !StartsWith(mime, "image/") && !StartsWith(mime, "video/") && StartsWith(mime, "audio/") ==> t == Audio
    ensures !StartsWith(mime, "image/") && !StartsWith(mime, "video/") && !StartsWith(mime, "audio/") ==> t == current
  {
    if StartsWith(mime, "image/") then Image
    else if StartsWith(mime, "video/") then Video
    else if StartsWith(mime, "audio/") then Audio
    else current
  }

  /** The file picked for upload. */
  datatype PickedFile = PickedFile(name: string, mimeType: string)

  class Composer {
    var content: string
    var kind: MessageType
    var mediaUrl: string
    var uploading: bool
    var question: string
    var options: seq<string>
    var showPollForm: bool

    /** The poll form always shows at least two option fields. */
    ghost predicate Valid()
      reads this
    {
      |options| >= 2
    }

    function CurrentDraft(): (d: Draft)
      reads this
      ensures d.content == content && d.kind == kind && d.mediaUrl == mediaUrl
      ensures d.question == question && d.options == options && d.showPollForm == showPollForm
    {
      Draft(content, kind, mediaUrl, question, options, showPollForm)
    }

    /** The form's initial state, which is also the state after a send. */
    predicate IsReset()
      reads this
    {
      content == "" && kind == Text && mediaUrl == "" && question == "" && options == ["", ""] && !showPollForm
    }

    constructor ()
      ensures IsReset() && !uploading && Valid()
    {
      content, kind, mediaUrl, uploading := "", Text, "", false;
      question, options, showPollForm := "", ["", ""], false;
    }

    /** `handleSend`: emits the payload when the guards let it through and
        then resets the form; otherwise changes nothing. */
    method HandleSend(groupId: GroupId, replyTo: Option<MessageId>) returns (sent: Option<Outgoing>)
      requires Valid()
      modifies this`content, this`kind, this`mediaUrl, this`question, this`options, this`showPollForm
      ensures Valid()
      ensures sent == Payload(groupId, old(CurrentDraft()), replyTo)
      ensures sent.Some? ==> IsReset()
      ensures sent.None? ==> CurrentDraft() == old(CurrentDraft())
    {
      sent := Payload(groupId, CurrentDraft(), replyTo);
      if sent.Some? {
        Reset();
      }
    }

    /** The form reset after a send. */
    method Reset()
      modifies this`content, this`kind, this`mediaUrl, this`question, this`options, this`showPollForm
      ensures IsReset() && Valid()
    {
      content, kind, mediaUrl := "", Text, "";
      question, options, showPollForm := "", ["", ""], false;
    }

    /** `handleFileUpload`: nothing without a file; after a successful upload
        the type follows the mime prefix, the URL is kept and the file name
        becomes the content; a failed upload changes nothing. Either way the
        upload is no longer in progress. */
    method HandleFileUpload(file: Option<PickedFile>, uploadedUrl: Option<string>)
      modifies this`content, this`kind, this`mediaUrl, this`uploading
      ensures file.None? ==> unchanged(this`content, this`kind, this`mediaUrl, this`uploading)
      ensures file.Some? ==> !uploading
      ensures file.Some? && uploadedUrl.None? ==> unchanged(this`content, this`kind, this`mediaUrl)
      ensures file.Some? && uploadedUrl.Some? ==>
        && kind == TypeForMime(file.value.mimeType, old(kind))
        && mediaUrl == uploadedUrl.value && content == file.value.name
    {
      if file.None? {
        return;
      }
      uploading := true;
      if uploadedUrl.Some? {
        kind := TypeForMime(file.value.mimeType, kind);
        mediaUrl := uploadedUrl.value;
        content := file.value.name;
      }
      uploading := false;
    }

    /** The button that discards an attached file. */
    method ClearMedia()
      modifies this`content, this`kind, this`mediaUrl
      ensures kind == Text && mediaUrl == "" && content == ""
    {
      kind, mediaUrl, content := Text, "", "";
    }

    method AddPollOption()
      requires Valid()
      modifies this`options
      ensures Valid()
      ensures options == old(options) + [""]
    {
      options := options + [""];
    }

    /** Changes only the field being edited; the form only edits fields it shows. */
    method UpdatePollOption(index: int, value: string)
      requires Valid() && 0 <= index < |options|
      modifies this`options
      ensures Valid()
      ensures |options| == |old(options)| && options[index] == value
      ensures forall i :: 0 <= i < |options| && i != index ==> options[i] == old(options)[i]
    {
      options := options[index := value];
    }

    /** Drops the field at `index`, but only while more than two remain. */
    method RemovePollOption(index: int)
      requires Valid()
      modifies this`options
      ensures Valid()
      ensures |old(options)| > 2 ==> options == DropIndex(old(options), index, |old(options)|)
      ensures |old(options)| <= 2 ==> options == old(options)
    {
      if |options| > 2 {
        DropIndexExact(options, index, |options|);
        options := DropIndex(options, index, |options|);
      }
    }
  }
}
