/** The Section A seed list and what the page shows for it. */
module ScheduleData {
  import opened Lists
  import opened Text
  import opened Schedule

  const SectionA: seq<Course> := [
    Course("1", "Data Structures and Algorithms", "Dr. Sarah Johnson", "CS-101",
           "9:00 AM - 10:30 AM", ["Monday", "Wednesday", "Friday"], 4),
    Course("2", "Calculus III", "Prof. Michael Chen", "MATH-205",
           "11:00 AM - 12:30 PM", ["Tuesday", "Thursday"], 4),
    Course("3", "Database Management Systems", "Dr. Emily Rodriguez", "CS-203",
           "2:00 PM - 3:30 PM", ["Monday", "Wednesday"], 3),
    Course("4", "Computer Graphics", "Prof. David Kim", "CS-301",
           "10:00 AM - 11:30 AM", ["Tuesday", "Thursday"], 3),
    Course("5", "Linear Algebra", "Dr. Jessica Miller", "MATH-108",
           "1:00 PM - 2:30 PM", ["Monday", "Wednesday", "Friday"], 3)
  ]

  /** Filtering Section A by Tuesday keeps Calculus III and Computer Graphics, in list order. */
  lemma TuesdayFilter()
    ensures FilteredCourses(SectionA, "", "Tuesday") == [SectionA[1], SectionA[3]]
  {
    var p := Passes("", "Tuesday");
    var s := SectionA;
    assert !p(s[4]) && p(s[3]) && !p(s[2]) && p(s[1]) && !p(s[0]);
    assert Filter(s[4..], p) == [] by {
      assert s[4..][1..] == [];
    }
    assert Filter(s[3..], p) == [s[3]] by {
      assert s[3..][1..] == s[4..];
    }
    assert Filter(s[2..], p) == [s[3]] by {
      assert s[2..][1..] == s[3..];
    }
    assert Filter(s[1..], p) == [s[1], s[3]] by {
      assert s[1..][1..] == s[2..];
    }
  }

  /** In code-point order "10:00 AM - 11:30 AM" sorts before "11:00 AM - 12:30 PM". */
  lemma TenBeforeEleven()
    ensures !LexLe(SectionA[1].time, SectionA[3].time)
  {
    var t1, t3 := SectionA[1].time, SectionA[3].time;
    assert t1[1..][0] > t3[1..][0];
  }

  /** In the Tuesday column, Computer Graphics (10:00 AM) comes before Calculus III (11:00 AM). */
  lemma TuesdayColumn()
    ensures DayBucket(FilteredCourses(SectionA, "", "Tuesday"), "Tuesday") == [SectionA[3], SectionA[1]]
  {
    TuesdayFilter();
    TenBeforeEleven();
    BucketOfTwo(SectionA[1], SectionA[3], "Tuesday");
  }

  /** Section A has 5 courses, 17 credits and 41 weekly class hours. */
  lemma SectionAStats()
    ensures CourseStats(SectionA) == Stats(5, 17, 41)
  {
  }
}
