/**
 * The two dashboard handlers (liveroom-backend/src/controllers/dashboardController.js):
 * the caller's enrolled courses and the caller's aggregate statistics. Both are
 * folds over the enrollments `Enrollment.find({ user: req.user._id })` returns.
 */
module Dashboard {
  import opened Wrappers
  import opened CourseSchema
  import opened EnrollmentSchema

  /** `Enrollment.find({ user: caller })`: the caller's enrollments in stored order. */
  function OwnEnrollments(all: seq<Enrollment>, caller: UserId): (r: seq<Enrollment>)
    ensures |r| <= |all|
    ensures forall e :: e in r <==> e in all && e.user == caller
  {
    if all == [] then []
    else (if all[0].user == caller then [all[0]] else []) + OwnEnrollments(all[1..], caller)
  }

  /** Each of the caller's enrollments is selected as often as it is stored (two
      enrollments with equal fields are equal values), and no other is. */
  lemma {:induction false} OwnCounts(all: seq<Enrollment>, caller: UserId)
    ensures forall e :: multiset(OwnEnrollments(all, caller))[e] == (if e.user == caller then multiset(all)[e] else 0)
  {
    if all != [] {
      assert all == [all[0]] + all[1..];
      OwnCounts(all[1..], caller);
    }
  }

  /** `filter(e => e.completed).length`. */
  function CountCompleted(es: seq<Enrollment>): nat
  {
    if es == [] then 0 else (if es[0].completed then 1 else 0) + CountCompleted(es[1..])
  }

  /** `filter(e => !e.completed).length`. */
  function CountInProgress(es: seq<Enrollment>): nat
  {
    if es == [] then 0 else (if es[0].completed then 0 else 1) + CountInProgress(es[1..])
  }

  /** `filter(e => e.certificate).length`. */
  function CountCertificates(es: seq<Enrollment>): nat
  {
    if es == [] then 0 else (if es[0].certificate then 1 else 0) + CountCertificates(es[1..])
  }

  /** `e.totalHours || 0`: null and 0 both count as 0 (NaN is not modelled). */
  function HoursOrZero(e: Enrollment): (h: real)
  {
    match e.totalHours
    case None => 0.0
    case Some(x) => if x == 0.0 then 0.0 else x
  }

  /** `reduce((sum, e) => sum + (e.totalHours || 0), 0)`: a left fold. */
  function SumHours(es: seq<Enrollment>): real
  {
    if es == [] then 0.0 else SumHours(es[..|es| - 1]) + HoursOrZero(es[|es| - 1])
  }

  /** Adding an enrollment adds its hours, a null counting as nothing. */
  lemma SumHoursLast(es: seq<Enrollment>, e: Enrollment)
    ensures SumHours(es + [e]) == SumHours(es) + (if e.totalHours.Some? then e.totalHours.value else 0.0)
  {
    assert (es + [e])[..|es|] == es;
  }

  datatype Stats = Stats(coursesCompleted: nat, coursesInProgress: nat, totalHours: real, certificates: nat)

  /** `GET /api/user/dashboard/stats`. */
  function UserStats(all: seq<Enrollment>, caller: UserId): Stats
  {
    var own := OwnEnrollments(all, caller);
    Stats(CountCompleted(own), CountInProgress(own), SumHours(own), CountCertificates(own))
  }

  /** Every enrollment is either completed or in progress. */
  lemma {:induction false} CompletedPlusInProgress(es: seq<Enrollment>)
    ensures CountCompleted(es) + CountInProgress(es) == |es|
  {
    if es != [] { CompletedPlusInProgress(es[1..]); }
  }

  lemma {:induction false} CertificatesBounded(es: seq<Enrollment>)
    ensures CountCertificates(es) <= |es|
  {
    if es != [] { CertificatesBounded(es[1..]); }
  }

  /** The fold over a concatenation is the sum of the folds. */
  lemma {:induction false} SumHoursAppend(a: seq<Enrollment>, b: seq<Enrollment>)
    ensures SumHours(a + b) == SumHours(a) + SumHours(b)
    decreases |b|
  {
    if b == [] {
      assert a + b == a;
    } else {
      var b' := b[..|b| - 1];
      assert (a + b)[..|a + b| - 1] == a + b';
      assert (a + b)[|a + b| - 1] == b[|b| - 1];
      SumHoursAppend(a, b');
    }
  }

  /** No negative hours stored, no negative total; and the total is at least every
      single contribution. */
  lemma {:induction false} SumHoursBounds(es: seq<Enrollment>)
    requires forall i :: 0 <= i < |es| ==> HoursOrZero(es[i]) >= 0.0
    ensures SumHours(es) >= 0.0
    ensures forall i :: 0 <= i < |es| ==> HoursOrZero(es[i]) <= SumHours(es)
  {
    if es != [] {
      var init := es[..|es| - 1];
      SumHoursBounds(init);
      forall i | 0 <= i < |es| ensures HoursOrZero(es[i]) <= SumHours(es) {
        if i < |es| - 1 { assert es[i] == init[i]; }
      }
    }
  }

  /** The statistics: completed and in-progress partition the caller's enrollments,
      certificates are at most that many. */
  lemma StatsCounts(all: seq<Enrollment>, caller: UserId)
    ensures var s := UserStats(all, caller);
      && s.coursesCompleted + s.coursesInProgress == |OwnEnrollments(all, caller)|
      && s.certificates <= |OwnEnrollments(all, caller)|
  {
    CompletedPlusInProgress(OwnEnrollments(all, caller));
    CertificatesBounded(OwnEnrollments(all, caller));
  }

  /** Enrollments of other users do not change the caller's statistics. */
  lemma {:induction false} OthersIgnored(all: seq<Enrollment>, e: Enrollment, caller: UserId)
    requires e.user != caller
    ensures OwnEnrollments(all + [e], caller) == OwnEnrollments(all, caller)
    ensures UserStats(all + [e], caller) == UserStats(all, caller)
  {
    OwnAppend(all, [e], caller);
  }

  lemma {:induction false} OwnAppend(a: seq<Enrollment>, b: seq<Enrollment>, caller: UserId)
    ensures OwnEnrollments(a + b, caller) == OwnEnrollments(a, caller) + OwnEnrollments(b, caller)
  {
    if a != [] {
      assert (a + b)[1..] == a[1..] + b;
      OwnAppend(a[1..], b, caller);
    } else {
      assert a + b == b;
    }
  }

  /** A just-created enrollment counts as one course in progress, with no hours and
      no certificate. */
  lemma FreshEnrollmentStats(user: UserId, course: CourseId)
    ensures UserStats([NewEnrollment(user, course)], user) == Stats(0, 1, 0.0, 0)
  {
    var e := NewEnrollment(user, course);
    assert [e][1..] == [] && [e][..0] == [];
    assert OwnEnrollments([e], user) == [e];
    assert SumHours([e]) == 0.0;
    assert CountCompleted([e]) == 0 && CountInProgress([e]) == 1 && CountCertificates([e]) == 0;
  }

  /** One entry of `GET /api/user/dashboard/enrolled-courses`. */
  datatype EnrolledCourse = EnrolledCourse(id: CourseId, title: string, progress: real, nextLesson: string)

  /** `enrollments.map(...)` after `populate('course', 'title')`. An enrollment whose
      course no longer exists is populated with `null` and `en.course._id` throws:
      then there is no list (`None`). Otherwise the list has one entry per enrollment,
      in order, with id and title from the course and progress and next lesson from
      the enrollment. */
  function EntriesOf(es: seq<Enrollment>, courses: map<CourseId, Course>): (r: Option<seq<EnrolledCourse>>)
    ensures r.Some? <==> forall i :: 0 <= i < |es| ==> es[i].course in courses
    ensures r.Some? ==> |r.value| == |es|
    ensures r.Some? ==> forall i :: 0 <= i < |es| ==>
      r.value[i] == EnrolledCourse(es[i].course, courses[es[i].course].title, es[i].progress, es[i].nextLesson)
  {
    if es == [] then Some([])
    else if es[0].course !in courses then None
    else
      match EntriesOf(es[1..], courses)
      case None => None
      case Some(rest) =>
        var e := es[0];
        Some([EnrolledCourse(e.course, courses[e.course].title, e.progress, e.nextLesson)] + rest)
  }

  /** `GET /api/user/dashboard/enrolled-courses`. */
  function EnrolledCourses(all: seq<Enrollment>, caller: UserId, courses: map<CourseId, Course>): Option<seq<EnrolledCourse>>
  {
    EntriesOf(OwnEnrollments(all, caller), courses)
  }

  /** A just-created enrollment is listed with progress 0 and the first lesson next. */
  lemma FreshEnrollmentListed(user: UserId, course: CourseId, courses: map<CourseId, Course>)
    requires course in courses
    ensures EnrolledCourses([NewEnrollment(user, course)], user, courses) ==
      Some([EnrolledCourse(course, courses[course].title, 0.0, "Start Lesson 1")])
  {
    var e := NewEnrollment(user, course);
    assert [e][1..] == [];
    assert OwnEnrollments([e], user) == [e];
    var r := EntriesOf([e], courses);
    assert r.Some? && |r.value| == 1;
    assert r.value[0] == EnrolledCourse(course, courses[course].title, 0.0, DefaultNextLesson);
    assert r.value == [r.value[0]];
  }

  /** The stats and the list count the same enrollments. */
  lemma ListMatchesStats(all: seq<Enrollment>, caller: UserId, courses: map<CourseId, Course>)
    requires EnrolledCourses(all, caller, courses).Some?
    ensures var s := UserStats(all, caller);
      |EnrolledCourses(all, caller, courses).value| == s.coursesCompleted + s.coursesInProgress
  {
    CompletedPlusInProgress(OwnEnrollments(all, caller));
  }
}
