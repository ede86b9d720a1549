/**
 * The Course record (liveroom-backend/src/models/courses.js) as a value.
 * Every field the schema leaves optional is an `Option`; only `title` is required.
 */
module CourseSchema {
  import opened Wrappers

  /** One byte of a Buffer. */
  newtype byte = x: int | 0 <= x < 256

  /** Document identifiers (ObjectIds) abstracted to naturals. */
  type CourseId = nat
  type UserId = nat

  /** The embedded media sub-document; the schema makes each field optional on its own. */
  datatype Media = Media(data: Option<seq<byte>>, contentType: Option<string>, fileName: Option<string>)

  /** One entry of the `quiz` array. */
  datatype QuizItem = QuizItem(question: Option<string>, options: seq<string>, correctAnswer: Option<string>)

  datatype Course = Course(
    title: string,
    description: Option<string>,
    createdBy: Option<UserId>,
    media: Option<Media>,
    transcript: Option<string>,
    summary: Option<string>,
    quiz: seq<QuizItem>)

  /** The `required: true` validator on a String path rejects the empty string. */
  predicate Conforms(c: Course)
  {
    c.title != ""
  }

  /** The invariant the upload handlers keep (the schema does not): media is either
      absent or has all three fields. */
  predicate MediaWhole(m: Option<Media>)
  {
    m.None? || (m.value.data.Some? && m.value.contentType.Some? && m.value.fileName.Some?)
  }

  /** The record `Course.create` builds from a title, a description and an owner:
      no media, no transcript, no summary, an empty quiz. */
  function NewCourse(title: string, description: string, owner: UserId): (c: Course)
  {
    Course(title, Some(description), Some(owner), None, None, None, [])
  }

  /** `course.media = { data, contentType, fileName }`: the whole triple is replaced. */
  function WithMedia(c: Course, data: seq<byte>, contentType: string, fileName: string): (r: Course)
    ensures r.media == Some(Media(Some(data), Some(contentType), Some(fileName)))
    ensures MediaWhole(r.media)
    ensures r.(media := c.media) == c
  {
    c.(media := Some(Media(Some(data), Some(contentType), Some(fileName))))
  }

  /** The projection `select('-media.data')`: the payload is dropped, nothing else. */
  function WithoutData(c: Course): (r: Course)
    ensures r.media.Some? <==> c.media.Some?
    ensures r.media.Some? ==> r.media.value.data.None? &&
                              r.media.value.contentType == c.media.value.contentType &&
                              r.media.value.fileName == c.media.value.fileName
    ensures r.(media := c.media) == c
  {
    match c.media
    case None => c
    case Some(m) => c.(media := Some(m.(data := None)))
  }
}
