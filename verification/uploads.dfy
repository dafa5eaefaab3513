/** The upload configuration of the server: where an uploaded file is stored
    (folder and resource type, chosen from the mime prefix), the image
    transformation, and the filter that accepts or refuses a file by its
    name and mime type. */
module Uploads {
  import opened Common
  import opened Strings
  import MessageModel
  import MessageInput

  /** The storage's resource types; audio is stored as `video`. */
  datatype ResourceType = ImageResource | VideoResource | AutoResource

  function ResourceTypeName(t: ResourceType): string {
    match t
    case ImageResource => "image"
    case VideoResource => "video"
    case AutoResource => "auto"
  }

  /** The image transformation: fit within 1000 by 1000, quality chosen by the
      storage. */
  datatype Transformation = Transformation(width: nat, height: nat, crop: string, quality: string)

  const ImageLimit := Transformation(1000, 1000, "limit", "auto")

  /** The formats the storage is told to allow. */
  const AllowedFormats: seq<string> := ["jpg", "jpeg", "png", "gif", "mp4", "webm", "mp3", "wav", "ogg"]

  /** The storage parameters chosen for one file. */
  datatype StorageParams = StorageParams(folder: string, resourceType: ResourceType,
                                         allowedFormats: seq<string>, transformation: Option<Transformation>)

  /** The folder and resource type for a mime type: images, videos and audio
      each get their own folder, audio with the `video` resource type, and
      anything else goes to the top folder as `auto`. Only images are
      transformed. */
  function ParamsFor(mime: string): (p: StorageParams)
    ensures p.allowedFormats == AllowedFormats
    ensures StartsWith(mime, "image/") ==> p.folder == "ecochat/images" && p.resourceType == ImageResource
    ensures !StartsWith(mime, "image/") && StartsWith(mime, "video/") ==>
      p.folder == "ecochat/videos" && p.resourceType == VideoResource
    ensures !StartsWith(mime, "image/") && !StartsWith(mime, "video/") && StartsWith(mime, "audio/") ==>
      p.folder == "ecochat/audio" && p.resourceType == VideoResource
    ensures !StartsWith(mime, "image/") && !StartsWith(mime, "video/") && !StartsWith(mime, "audio/") ==>
      p.folder == "ecochat" && p.resourceType == AutoResource
    ensures p.transformation.Some? <==> p.resourceType == ImageResource
    ensures p.transformation.Some? ==> p.transformation.value == ImageLimit
  {
    var (folder, resourceType) :=
      if StartsWith(mime, "image/") then ("ecochat/images", ImageResource)
      else if StartsWith(mime, "video/") then ("ecochat/videos", VideoResource)
      else if StartsWith(mime, "audio/") then ("ecochat/audio", VideoResource)
      else ("ecochat", AutoResource);
    StorageParams(folder, resourceType, AllowedFormats,
                  if resourceType == ImageResource then Some(ImageLimit) else None)
  }

  /** The server stores a file in the folder of the type the composer gives
      the message: with a recognised prefix, the image folder holds exactly
      the image messages, the video folder the video messages and the audio
      folder the audio messages; an unrecognised prefix goes to the top
      folder, and the composer keeps its type. */
  lemma FolderAgreesWithMessageType(mime: string, current: MessageModel.MessageType)
    ensures var p := ParamsFor(mime);
      var t := MessageInput.TypeForMime(mime, current);
      && (p.folder == "ecochat/images" <==> p.resourceType == ImageResource)
      && (p.resourceType == ImageResource ==> t == MessageModel.Image)
      && (p.folder == "ecochat/videos" ==> t == MessageModel.Video)
      && (p.folder == "ecochat/audio" ==> t == MessageModel.Audio)
      && (p.folder == "ecochat" ==> t == current)
  {
  }

  /** The pattern alternatives of the file filter. */
  const AllowedTypes: seq<string> := ["jpeg", "jpg", "png", "gif", "mp4", "webm", "mp3", "wav", "ogg"]

  /** An unanchored test of the alternation of `patterns`: some alternative
      occurs somewhere in `s`. */
  function MatchesAny(s: string, patterns: seq<string>): (b: bool)
    ensures b <==> exists k :: 0 <= k < |patterns| && Contains(s, patterns[k])
  {
    if patterns == [] then false
    else Contains(s, patterns[0]) || MatchesAny(s, patterns[1..])
  }

  /** A match is an occurrence of one alternative at some offset. */
  lemma MatchesAnyIffOccurs(s: string, patterns: seq<string>)
    ensures MatchesAny(s, patterns) <==> exists k, i :: 0 <= k < |patterns| && OccursAt(s, patterns[k], i)
  {
    forall k | 0 <= k < |patterns| {
      ContainsIffOccurs(s, patterns[k]);
    }
  }

  datatype FilterVerdict = Accept | Refuse(message: string)

  const InvalidFileType := "Invalid file type. Only images, videos, and audio files are allowed."

  /** The upload filter: the lower-cased original name and the mime type as
      given must each contain one of the allowed type names somewhere. */
  function FileFilter(originalName: string, mimeType: string): (v: FilterVerdict)
    ensures v == Accept <==> MatchesAny(ToLower(originalName), AllowedTypes) && MatchesAny(mimeType, AllowedTypes)
    ensures v != Accept ==> v == Refuse(InvalidFileType)
  {
    if MatchesAny(ToLower(originalName), AllowedTypes) && MatchesAny(mimeType, AllowedTypes) then Accept
    else Refuse(InvalidFileType)
  }

  lemma {:induction false} ToLowerIdempotent(s: string)
    ensures ToLower(ToLower(s)) == ToLower(s)
  {
    var once := ToLower(s);
    forall i | 0 <= i < |s| ensures ToLower(once)[i] == once[i] {
      assert ToLowerChar(ToLowerChar(s[i])) == ToLowerChar(s[i]);
    }
  }

  /** The file name is compared without regard to case: lower-casing it first
      changes no verdict. */
  lemma FileFilterIgnoresNameCase(originalName: string, mimeType: string)
    ensures FileFilter(ToLower(originalName), mimeType) == FileFilter(originalName, mimeType)
  {
    ToLowerIdempotent(originalName);
  }

  /** The test is unanchored: an allowed type name anywhere in the file name
      suffices, so a name whose last extension is not a media type passes
      when the mime type does. */
  lemma FileFilterUnanchored()
    ensures FileFilter("clip.mp4.exe", "video/mp4") == Accept
  {
    var name := ToLower("clip.mp4.exe");
    assert name == "clip.mp4.exe";
    assert OccursAt(name, "mp4", 5);
    assert OccursAt("video/mp4", "mp4", 6);
    MatchesAnyIffOccurs(name, AllowedTypes);
    MatchesAnyIffOccurs("video/mp4", AllowedTypes);
    assert AllowedTypes[4] == "mp4";
  }

  /** The mime type is not lower-cased: an upper-case mime type is refused
      whatever the name. */
  lemma FileFilterMimeCaseSensitive(originalName: string)
    ensures FileFilter(originalName, "IMAGE/PNG") == Refuse(InvalidFileType)
  {
    MatchesAnyIffOccurs("IMAGE/PNG", AllowedTypes);
    var mime := "IMAGE/PNG";
    forall k, i | 0 <= k < |AllowedTypes| && 0 <= i <= |mime| - |AllowedTypes[k]|
      ensures !OccursAt(mime, AllowedTypes[k], i)
    {
      assert AllowedTypes[k][0] != mime[i];
    }
  }

  /** The size limit of an upload, 50 MiB; enforced by the upload library. */
  const MaxFileSize: nat := 50 * 1024 * 1024
}
