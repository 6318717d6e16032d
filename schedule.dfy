/**
 * One section's course page: the search and weekday filter, the three summary figures, the
 * weekly grid, and the editor's submit / edit / delete / day-toggle handlers.
 */
module Schedule {
  import opened Wrappers
  import opened Lists
  import opened Text
  import opened Records

  datatype Course = Course(
    id: string,
    name: string,
    instructor: string,
    room: string,
    time: string,
    days: seq<string>,
    credits: int)

  /** The editor form: every course field except the id. */
  datatype CourseDraft = CourseDraft(
    name: string,
    instructor: string,
    room: string,
    time: string,
    days: seq<string>,
    credits: int)

  /** The day-filter value that shows every day. */
  const AllDays: string := "all"

  /** The columns of the weekly grid, in order. */
  const Weekdays: seq<string> := ["Monday", "Tuesday", "Wednesday", "Thursday", "Friday"]

  /** The form after a reset: all text empty, no days, three credits. */
  const EmptyDraft: CourseDraft := CourseDraft("", "", "", "", [], 3)

  function CourseId(c: Course): string {
    c.id
  }

  // ---------------------------------------------------------------------------------------
  // Search and weekday filter

  /** An empty term matches everything; otherwise it must occur, case-insensitively, in the name or the instructor. */
  predicate MatchesSearch(c: Course, term: string) {
    term == "" || Includes(Lower(c.name), Lower(term)) || Includes(Lower(c.instructor), Lower(term))
  }

  /** "all" matches every course; any other value must be one of the course's days. */
  predicate MatchesDay(c: Course, day: string) {
    day == AllDays || day in c.days
  }

  function Passes(term: string, day: string): Course -> bool {
    (c: Course) => MatchesSearch(c, term) && MatchesDay(c, day)
  }

  /** The list the page shows: the courses passing both tests, in their stored order. */
  function FilteredCourses(courses: seq<Course>, term: string, day: string): (r: seq<Course>)
    ensures forall c :: c in r <==> c in courses && MatchesSearch(c, term) && MatchesDay(c, day)
    ensures forall c :: MatchesSearch(c, term) && MatchesDay(c, day) ==> multiset(r)[c] == multiset(courses)[c]
    ensures SubseqOf(r, courses)
  {
    Filter(courses, Passes(term, day))
  }

  /** With no search term and the day filter on "all", the page shows the whole list. */
  lemma UnfilteredShowsAll(courses: seq<Course>)
    ensures FilteredCourses(courses, "", AllDays) == courses
  {
    FilterAllPass(courses, Passes("", AllDays));
  }

  // ---------------------------------------------------------------------------------------
  // Summary figures

  datatype Stats = Stats(totalCourses: nat, totalCredits: int, weeklyHours: int)

  /** Sum of the credits, starting from 0. */
  function TotalCredits(cs: seq<Course>): int {
    if cs == [] then 0 else cs[0].credits + TotalCredits(cs[1..])
  }

  /** Sum over the courses of credits times the number of meeting days, starting from 0. */
  function WeeklyHours(cs: seq<Course>): int {
    if cs == [] then 0 else |cs[0].days| * cs[0].credits + WeeklyHours(cs[1..])
  }

  /** The three cards above the list, computed over the filtered courses. */
  function CourseStats(filtered: seq<Course>): (r: Stats)
    ensures r.totalCourses == |filtered|
    ensures filtered == [] ==> r == Stats(0, 0, 0)
  {
    Stats(|filtered|, TotalCredits(filtered), WeeklyHours(filtered))
  }

  lemma {:induction false} TotalCreditsAppend(a: seq<Course>, b: seq<Course>)
    ensures TotalCredits(a + b) == TotalCredits(a) + TotalCredits(b)
  {
    if a == [] {
      assert a + b == b;
    } else {
      assert (a + b)[1..] == a[1..] + b;
      TotalCreditsAppend(a[1..], b);
    }
  }

  lemma TotalCreditsRemoveAt(b: seq<Course>, k: nat)
    requires k < |b|
    ensures TotalCredits(b) == b[k].credits + TotalCredits(b[..k] + b[k + 1..])
  {
    var front, x, back := b[..k], b[k], b[k + 1..];
    assert b == front + [x] + back;
    assert [x][1..] == [];
    assert TotalCredits([x]) == x.credits;
    TotalCreditsAppend(front + [x], back);
    TotalCreditsAppend(front, [x]);
    TotalCreditsAppend(front, back);
  }

  /** The credit total does not depend on the order of the courses. */
  lemma {:induction false} TotalCreditsPermutation(a: seq<Course>, b: seq<Course>)
    requires multiset(a) == multiset(b)
    ensures TotalCredits(a) == TotalCredits(b)
    decreases |a|
  {
    if a != [] {
      assert a[0] in multiset(a);
      assert a[0] in b;
      var k :| 0 <= k < |b| && b[k] == a[0];
      var b' := b[..k] + b[k + 1..];
      MultisetRemoveAt(b, k);
      assert a == [a[0]] + a[1..];
      assert multiset(a[1..]) == multiset(b');
      TotalCreditsPermutation(a[1..], b');
      TotalCreditsRemoveAt(b, k);
    }
  }

  /** Credits between 1 and 6 on every course bound the credit total by the course count. */
  lemma {:induction false} TotalCreditsBounds(cs: seq<Course>)
    requires forall c :: c in cs ==> 1 <= c.credits <= 6
    ensures |cs| <= TotalCredits(cs) <= 6 * |cs|
  {
    if cs != [] {
      TotalCreditsBounds(cs[1..]);
    }
  }

  // ---------------------------------------------------------------------------------------
  // Weekly grid

  function HasDay(day: string): Course -> bool {
    (c: Course) => day in c.days
  }

  /** `a.time.localeCompare(b.time) <= 0`, with the comparison taken as code-point order. */
  function ByTime(): (Course, Course) -> bool {
    (a: Course, b: Course) => LexLe(a.time, b.time)
  }

  lemma ByTimeIsTotalPreorder()
    ensures TotalPreorder(ByTime())
  {
    forall a: Course, b: Course ensures LexLe(a.time, b.time) || LexLe(b.time, a.time) {
      LexLeTotal(a.time, b.time);
    }
    forall a: Course, b: Course, c: Course | LexLe(a.time, b.time) && LexLe(b.time, c.time)
      ensures LexLe(a.time, c.time)
    {
      LexLeTransitive(a.time, b.time, c.time);
    }
  }

  /**
   * The column for `day`: exactly the filtered courses meeting on `day`, each as often as it
   * appears, ordered by their time text.
   */
  function DayBucket(filtered: seq<Course>, day: string): (r: seq<Course>)
    ensures multiset(r) == multiset(Filter(filtered, HasDay(day)))
    ensures forall c :: c in r <==> c in filtered && day in c.days
    ensures forall i, j :: 0 <= i < j < |r| ==> LexLe(r[i].time, r[j].time)
  {
    ByTimeIsTotalPreorder();
    var onDay := Filter(filtered, HasDay(day));
    var r := Sort(onDay, ByTime());
    SameElements(r, onDay);
    r
  }

  // ---------------------------------------------------------------------------------------
  /** A column holding two courses lists them by start time, the earlier listed one first on a tie. */
  lemma BucketOfTwo(a: Course, b: Course, day: string)
    requires day in a.days && day in b.days
    ensures DayBucket([a, b], day) == if LexLe(a.time, b.time) then [a, b] else [b, a]
  {
    FilterAllPass([a, b], HasDay(day));
    ByTimeIsTotalPreorder();
    SortTwo(a, b, ByTime());
  }

  // Weekly hours seen through the grid

  /** A course's day list as the editor builds it: weekdays only, none twice. */
  predicate ValidDays(days: seq<string>) {
    Distinct(days) && forall d :: d in days ==> d in Weekdays
  }

  /** How many entries of `ds` are among `days`. */
  function CountIn(ds: seq<string>, days: seq<string>): nat {
    if ds == [] then 0 else (if ds[0] in days then 1 else 0) + CountIn(ds[1..], days)
  }

  /** How many entries of `ds` equal `e`. */
  function Occurrences(ds: seq<string>, e: string): nat {
    if ds == [] then 0 else (if ds[0] == e then 1 else 0) + Occurrences(ds[1..], e)
  }

  lemma {:induction false} CountInSnoc(ds: seq<string>, days: seq<string>, e: string)
    requires e !in days
    ensures CountIn(ds, days + [e]) == CountIn(ds, days) + Occurrences(ds, e)
  {
    if ds != [] {
      CountInSnoc(ds[1..], days, e);
    }
  }

  lemma {:induction false} CountInNothing(ds: seq<string>)
    ensures CountIn(ds, []) == 0
  {
    if ds != [] {
      CountInNothing(ds[1..]);
    }
  }

  lemma {:induction false} OccurrencesDistinct(ds: seq<string>, e: string)
    requires Distinct(ds)
    ensures Occurrences(ds, e) == if e in ds then 1 else 0
  {
    if ds != [] {
      assert Distinct(ds[1..]) by {
        forall i, j | 0 <= i < j < |ds[1..]| ensures ds[1..][i] != ds[1..][j] {
          assert ds[1..][i] == ds[i + 1] && ds[1..][j] == ds[j + 1];
        }
      }
      OccurrencesDistinct(ds[1..], e);
      assert ds == [ds[0]] + ds[1..];
      if ds[0] == e {
        assert e !in ds[1..] by {
          forall k | 0 <= k < |ds[1..]| ensures ds[1..][k] != e {
            assert ds[1..][k] == ds[k + 1];
          }
        }
      }
    }
  }

  /** A valid day list meets on exactly as many grid columns as it has entries. */
  lemma {:induction false} CountInWeekdays(days: seq<string>)
    requires ValidDays(days)
    ensures CountIn(Weekdays, days) == |days|
  {
    if days == [] {
      CountInNothing(Weekdays);
    } else {
      var init, e := days[..|days| - 1], days[|days| - 1];
      assert days == init + [e];
      assert ValidDays(init) by {
        forall i, j | 0 <= i < j < |init| ensures init[i] != init[j] {
          assert init[i] == days[i] && init[j] == days[j];
        }
        forall d | d in init ensures d in Weekdays {
          assert d in days;
        }
      }
      assert e !in init by {
        forall k | 0 <= k < |init| ensures init[k] != e {
          assert init[k] == days[k];
        }
      }
      CountInWeekdays(init);
      CountInSnoc(Weekdays, init, e);
      assert Distinct(Weekdays);
      OccurrencesDistinct(Weekdays, e);
    }
  }

  /** Credits shown in the columns `ds`, column by column. */
  function CreditsByDay(cs: seq<Course>, ds: seq<string>): int {
    if ds == [] then 0 else TotalCredits(DayBucket(cs, ds[0])) + CreditsByDay(cs, ds[1..])
  }

  /** Credits of each course times how many of the columns `ds` it meets on. */
  function CreditsTimesColumns(cs: seq<Course>, ds: seq<string>): int {
    if cs == [] then 0 else cs[0].credits * CountIn(ds, cs[0].days) + CreditsTimesColumns(cs[1..], ds)
  }

  lemma {:induction false} CreditsByDaySplit(cs: seq<Course>, ds: seq<string>)
    ensures CreditsByDay(cs, ds) == CreditsTimesColumns(cs, ds)
  {
    if ds != [] {
      assert ds == [ds[0]] + ds[1..];
      CreditsByDaySplit(cs, ds[1..]);
      TotalCreditsPermutation(DayBucket(cs, ds[0]), Filter(cs, HasDay(ds[0])));
      OnDayCredits(cs, ds[0], ds[1..]);
    } else {
      NoColumns(cs);
    }
  }

  lemma {:induction false} NoColumns(cs: seq<Course>)
    ensures CreditsTimesColumns(cs, []) == 0
  {
    if cs != [] {
      NoColumns(cs[1..]);
    }
  }

  lemma {:induction false} OnDayCredits(cs: seq<Course>, d: string, ds: seq<string>)
    ensures CreditsTimesColumns(cs, [d] + ds)
         == TotalCredits(Filter(cs, HasDay(d))) + CreditsTimesColumns(cs, ds)
  {
    if cs != [] {
      var c, rest := cs[0], cs[1..];
      OnDayCredits(rest, d, ds);
      var k := if d in c.days then 1 else 0;
      assert ([d] + ds)[1..] == ds;
      assert CountIn([d] + ds, c.days) == k + CountIn(ds, c.days);
      var tail := Filter(rest, HasDay(d));
      if d in c.days {
        assert Filter(cs, HasDay(d)) == [c] + tail;
        assert ([c] + tail)[1..] == tail;
        assert TotalCredits(Filter(cs, HasDay(d))) == c.credits + TotalCredits(tail);
      } else {
        assert Filter(cs, HasDay(d)) == tail;
      }
      assert c.credits * (k + CountIn(ds, c.days)) == c.credits * k + c.credits * CountIn(ds, c.days);
    }
  }

  lemma {:induction false} ColumnsAreDays(cs: seq<Course>)
    requires forall c :: c in cs ==> ValidDays(c.days)
    ensures CreditsTimesColumns(cs, Weekdays) == WeeklyHours(cs)
  {
    if cs != [] {
      CountInWeekdays(cs[0].days);
      ColumnsAreDays(cs[1..]);
    }
  }

  /**
   * When every course's days are distinct weekdays, the "Weekly Hours" figure is the sum, over
   * the five grid columns, of the credits of the courses shown in that column.
   */
  lemma WeeklyHoursByDay(cs: seq<Course>)
    requires forall c :: c in cs ==> ValidDays(c.days)
    ensures WeeklyHours(cs) == CreditsByDay(cs, Weekdays)
  {
    CreditsByDaySplit(cs, Weekdays);
    ColumnsAreDays(cs);
  }

  // ---------------------------------------------------------------------------------------
  // Editor

  /** The record the form describes, under `id`. */
  function FromDraft(id: string, d: CourseDraft): (c: Course)
    ensures c.id == id
  {
    Course(id, d.name, d.instructor, d.room, d.time, d.days, d.credits)
  }

  /** The form filled from an existing course; submitting it unchanged gives the course back. */
  function DraftOf(c: Course): (d: CourseDraft)
    ensures FromDraft(c.id, d) == c
  {
    CourseDraft(c.name, c.instructor, c.room, c.time, c.days, c.credits)
  }

  /** Every required field is filled in: name, instructor, room, time, and at least one day. */
  predicate IsComplete(d: CourseDraft): (ok: bool)
    ensures ok ==> d != EmptyDraft
  {
    d.name != "" && d.instructor != "" && d.room != "" && d.time != "" && |d.days| != 0
  }

  function DayIsNot(day: string): string -> bool {
    (d: string) => d != day
  }

  /**
   * A day button: a day not yet chosen is appended at the end; a chosen day is removed,
   * every occurrence of it; no other day is added, removed or counted differently.
   */
  function Toggle(days: seq<string>, day: string): (r: seq<string>)
    ensures day in r <==> day !in days
    ensures day !in days ==> r == days + [day]
    ensures day in days ==> SubseqOf(r, days)
    ensures forall d :: d != day ==> multiset(r)[d] == multiset(days)[d]
  {
    if day in days then Filter(days, DayIsNot(day)) else days + [day]
  }

  /** The other chosen days keep their relative order. */
  lemma ToggleKeepsOtherDays(days: seq<string>, day: string)
    ensures Filter(Toggle(days, day), DayIsNot(day)) == Filter(days, DayIsNot(day))
  {
    if day in days {
      FilterIdempotent(days, DayIsNot(day));
    } else {
      FilterAppend(days, [day], DayIsNot(day));
      assert Filter([day], DayIsNot(day)) == [];
    }
  }

  /** Clicking a day that was not chosen, then clicking it again, restores the list. */
  lemma ToggleTwice(days: seq<string>, day: string)
    requires day !in days
    ensures Toggle(Toggle(days, day), day) == days
  {
    FilterAppend(days, [day], DayIsNot(day));
    assert Filter([day], DayIsNot(day)) == [];
    FilterAllPass(days, DayIsNot(day));
  }

  /** Toggling a weekday keeps a day list valid. */
  lemma ToggleKeepsValidDays(days: seq<string>, day: string)
    requires ValidDays(days) && day in Weekdays
    ensures ValidDays(Toggle(days, day))
  {
    var r := Toggle(days, day);
    DistinctIffCountsAtMostOne(days);
    DistinctIffCountsAtMostOne(r);
    assert forall x :: multiset(r)[x] <= 1 by {
      forall x ensures multiset(r)[x] <= 1 {
        if x == day {
          assert day in r ==> day !in days;
        }
      }
    }
  }

  /**
   * The state of one section page: the stored course list and the editor. The search term and
   * the day filter are passed to the derived-view functions above.
   */
  class SchedulePage {
    var courses: seq<Course>
    var draft: CourseDraft
    var editing: Option<Course>
    var dialogOpen: bool

    /** A page opened on `data`, its section's stored list (or seed list when nothing is stored). */
    constructor (data: seq<Course>)
      ensures courses == data && draft == EmptyDraft && editing == None && !dialogOpen
    {
      courses := data;
      draft := EmptyDraft;
      editing := None;
      dialogOpen := false;
    }

    /**
     * The form's submit. An incomplete form changes nothing. Otherwise the course being edited
     * is replaced by the form's fields (under its own id), or a new course with id `newId` is
     * appended, and the editor closes and resets.
     */
    method Submit(newId: string) returns (outcome: Outcome)
      modifies this
      ensures !IsComplete(old(draft)) ==>
        && outcome == Rejected
        && courses == old(courses) && draft == old(draft)
        && editing == old(editing) && dialogOpen == old(dialogOpen)
      ensures IsComplete(old(draft)) && old(editing).Some? ==>
        && outcome == Updated
        && courses == ReplaceKey(old(courses), CourseId, old(editing).value.id,
                                 FromDraft(old(editing).value.id, old(draft)))
      ensures IsComplete(old(draft)) && old(editing).None? ==>
        && outcome == Added
        && courses == old(courses) + [FromDraft(newId, old(draft))]
      ensures IsComplete(old(draft)) ==> draft == EmptyDraft && editing == None && !dialogOpen
    {
      if !IsComplete(draft) {
        return Rejected;
      }
      if editing.Some? {
        var id := editing.value.id;
        courses := ReplaceKey(courses, CourseId, id, FromDraft(id, draft));
        outcome := Updated;
      } else {
        courses := courses + [FromDraft(newId, draft)];
        outcome := Added;
      }
      dialogOpen := false;
      editing := None;
      draft := EmptyDraft;
    }

    /** Opens the editor on `c`, its fields copied into the form. */
    method Edit(c: Course)
      modifies this`draft, this`editing, this`dialogOpen
      ensures editing == Some(c) && draft == DraftOf(c) && dialogOpen
    {
      editing := Some(c);
      draft := DraftOf(c);
      dialogOpen := true;
    }

    /** Removes every course with `id`. */
    method Delete(id: string)
      modifies this`courses
      ensures courses == RemoveKey(old(courses), CourseId, id)
    {
      courses := RemoveKey(courses, CourseId, id);
    }

    /** A day button in the form. */
    method ToggleDay(day: string)
      modifies this`draft
      ensures draft == old(draft).(days := Toggle(old(draft).days, day))
    {
      draft := draft.(days := Toggle(draft.days, day));
    }

    /** The Cancel button: closes the editor and resets it without touching the list. */
    method Cancel()
      modifies this`draft, this`editing, this`dialogOpen
      ensures draft == EmptyDraft && editing == None && !dialogOpen
    {
      dialogOpen := false;
      editing := None;
      draft := EmptyDraft;
    }
  }

  /**
   * Editing a course of a list with unique ids and submitting the form unchanged leaves the
   * list as it was.
   */
  lemma EditUnchangedIsNoop(courses: seq<Course>, i: nat)
    requires i < |courses| && UniqueKeys(courses, CourseId)
    ensures ReplaceKey(courses, CourseId, courses[i].id, FromDraft(courses[i].id, DraftOf(courses[i]))) == courses
  {
    var c := courses[i];
    var r := ReplaceKey(courses, CourseId, c.id, FromDraft(c.id, DraftOf(c)));
    forall k | 0 <= k < |courses| ensures r[k] == courses[k] {
      if courses[k].id == c.id {
        assert k == i;
      }
    }
  }
}
