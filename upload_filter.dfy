/**
 * The multer configuration of liveroom-backend/src/middleware/upload.js:
 * memory storage, a type filter over the file's name and declared MIME type,
 * and a 100 MiB size ceiling.
 */
module UploadFilter {
  import opened Wrappers
  import opened JsText
  import opened CourseSchema

  /** The alternatives of the regular expression `/jpeg|jpg|png|gif|mp4|mov|mp3|wav/`. */
  const AllowedTypes: seq<string> := ["jpeg", "jpg", "png", "gif", "mp4", "mov", "mp3", "wav"]

  /** `limits.fileSize`. */
  const FileSizeLimit: nat := 100 * 1024 * 1024

  const FileTypeMessage: string := "Only image, video, and audio files are allowed"

  /** A file as multer hands it to the route (memory storage keeps the whole buffer). */
  datatype UploadedFile = UploadedFile(originalname: string, mimetype: string, buffer: seq<byte>)
  {
    /** `file.size`: with memory storage, the buffer's length. */
    function Size(): nat { |buffer| }
  }

  /** `s` contains one of `tokens` somewhere. */
  function AnyIncluded(s: string, tokens: seq<string>): (r: bool)
    ensures r <==> exists k :: 0 <= k < |tokens| && Includes(s, tokens[k])
  {
    if tokens == [] then false
    else Includes(s, tokens[0]) || AnyIncluded(s, tokens[1..])
  }

  /** `allowedTypes.test(s)`: the pattern has no anchors and no flags, so it matches
      exactly when one alternative occurs anywhere in `s`. */
  predicate AllowedTest(s: string)
  {
    AnyIncluded(s, AllowedTypes)
  }

  /** `fileFilter`: the lower-cased name and the (not lower-cased) MIME type must both
      pass the test. The request is not consulted. */
  function FileFilter(originalname: string, mimetype: string): (accept: bool)
    ensures accept <==>
      (exists k :: 0 <= k < |AllowedTypes| && Includes(Lower(originalname), AllowedTypes[k])) &&
      (exists k :: 0 <= k < |AllowedTypes| && Includes(mimetype, AllowedTypes[k]))
  {
    AllowedTest(Lower(originalname)) && AllowedTest(mimetype)
  }

  /** What multer passes on to the error handler instead of calling the route. */
  datatype MulterError =
    | FileTypeRejected(message: string)   // the filter's `cb(new Error(...))`
    | LimitFileSize                       // more than `limits.fileSize` bytes arrived

  /** `upload.single('file')`: `None` when the request goes on to the route handler
      (with or without a file), otherwise the error multer raises. The filter runs
      before the body is counted against the ceiling. */
  function Receive(file: Option<UploadedFile>): (r: Option<MulterError>)
    ensures file.None? ==> r.None?
    ensures r == Some(FileTypeRejected(FileTypeMessage)) <==>
            file.Some? && !FileFilter(file.value.originalname, file.value.mimetype)
    ensures r == Some(LimitFileSize) <==>
            file.Some? && FileFilter(file.value.originalname, file.value.mimetype) &&
            file.value.Size() > FileSizeLimit
    ensures r.None? ==> file.None? || file.value.Size() <= FileSizeLimit
  {
    match file
    case None => None
    case Some(f) =>
      if !FileFilter(f.originalname, f.mimetype) then Some(FileTypeRejected(FileTypeMessage))
      else if f.Size() > FileSizeLimit then Some(LimitFileSize)
      else None
  }

  /** A witness occurrence in each string is enough for the filter to accept. */
  lemma AcceptedBy(name: string, mime: string, k1: nat, i1: int, k2: nat, i2: int)
    requires k1 < |AllowedTypes| && OccursAt(Lower(name), AllowedTypes[k1], i1)
    requires k2 < |AllowedTypes| && OccursAt(mime, AllowedTypes[k2], i2)
    ensures FileFilter(name, mime)
  {
    assert Includes(Lower(name), AllowedTypes[k1]);
    assert Includes(mime, AllowedTypes[k2]);
  }

  /** A three-letter token occurs where its letters are. */
  lemma OccursLetters(s: string, t: string, i: nat)
    requires |t| == 3 && i + 3 <= |s|
    requires s[i] == t[0] && s[i + 1] == t[1] && s[i + 2] == t[2]
    ensures OccursAt(s, t, i)
  {
    assert s[i..i + 3] == t;
  }

  /** The token may sit anywhere in the name: `mp4.txt` declared as `video/mp4`
      passes although its extension is `.txt`. */
  lemma UnanchoredMatch()
    ensures FileFilter("mp4.txt", "video/mp4")
  {
    var name, mime, t := "mp4.txt", "video/mp4", AllowedTypes[4];
    var l := Lower(name);
    assert t[0] == 'm' && t[1] == 'p' && t[2] == '4';
    assert l[0] == LowerChar('m') && l[1] == LowerChar('p') && l[2] == LowerChar('4');
    OccursLetters(l, t, 0);
    assert mime[6] == 'm' && mime[7] == 'p' && mime[8] == '4';
    OccursLetters(mime, t, 6);
    AcceptedBy(name, mime, 4, 0, 4, 6);
  }

  /** The name is lower-cased before the test ... */
  lemma NameCaseInsensitive()
    ensures FileFilter("CLIP.MP4", "video/mp4")
  {
    var name, mime, t := "CLIP.MP4", "video/mp4", AllowedTypes[4];
    var l := Lower(name);
    assert t[0] == 'm' && t[1] == 'p' && t[2] == '4';
    assert l[5] == LowerChar('M') && l[6] == LowerChar('P') && l[7] == LowerChar('4');
    OccursLetters(l, t, 5);
    assert mime[6] == 'm' && mime[7] == 'p' && mime[8] == '4';
    OccursLetters(mime, t, 6);
    AcceptedBy(name, mime, 4, 5, 4, 6);
  }

  /** ... the MIME type is not. */
  lemma MimeTypeCaseSensitive(name: string)
    ensures !FileFilter(name, "VIDEO/MP4")
  {
    forall k | 0 <= k < |AllowedTypes| ensures !Includes("VIDEO/MP4", AllowedTypes[k]) {
      NoLowerCaseToken("VIDEO/MP4", AllowedTypes[k]);
    }
  }

  /** A token starting with a lower-case letter does not occur in a string that has none. */
  lemma NoLowerCaseToken(s: string, t: string)
    requires forall i :: 0 <= i < |s| ==> !('a' <= s[i] <= 'z')
    requires |t| > 0 && 'a' <= t[0] <= 'z'
    ensures !Includes(s, t)
  {
    forall i ensures !OccursAt(s, t, i) {
      if 0 <= i && i + |t| <= |s| {
        assert s[i..i + |t|][0] == s[i];
      }
    }
  }
}
