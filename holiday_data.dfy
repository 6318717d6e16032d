/** The seed holiday list and the counts the statistics cards show for it. */
module HolidayData {
  import opened Wrappers
  import opened Lists
  import opened Holidays

  const Seed: seq<Holiday> := [
    Holiday("1", "Labor Day", "2024-09-02", National,
            Some("Federal holiday celebrating the achievements of workers")),
    Holiday("2", "Fall Break", "2024-10-14", Academic,
            Some("Mid-semester break for students and faculty")),
    Holiday("3", "Thanksgiving Break", "2024-11-28", Academic,
            Some("Extended holiday break including Thanksgiving Day")),
    Holiday("4", "Christmas Break", "2024-12-23", Academic,
            Some("Winter break period - classes resume in January")),
    Holiday("5", "Martin Luther King Jr. Day", "2025-01-20", National,
            Some("Federal holiday honoring civil rights leader")),
    Holiday("6", "Spring Break", "2025-03-10", Academic,
            Some("Week-long break in the middle of spring semester")),
    Holiday("7", "Memorial Day", "2025-05-26", National,
            Some("Federal holiday honoring military personnel who died in service")),
    Holiday("8", "Finals Week", "2025-05-05", Academic,
            Some("Final examinations period - no regular classes")),
    Holiday("9", "Independence Day", "2025-07-04", National,
            Some("Celebration of American independence")),
    Holiday("10", "Summer Session Begins", "2025-06-02", Academic,
            Some("Start of summer semester classes"))
  ]

  /** Holidays 1 to 5: three academic breaks. */
  lemma AcademicFirstHalf()
    ensures |Filter(Seed[..5], OfType(Academic))| == 3
  {
    var s := Seed[..5];
    var p := OfType(Academic);
    assert !p(s[0]) && p(s[1]) && p(s[2]) && p(s[3]) && !p(s[4]);
    assert |Filter(s[4..], p)| == 0 by {
      assert s[4..][1..] == [];
    }
    assert |Filter(s[3..], p)| == 1 by {
      assert s[3..][1..] == s[4..];
    }
    assert |Filter(s[2..], p)| == 2 by {
      assert s[2..][1..] == s[3..];
    }
    assert |Filter(s[1..], p)| == 3 by {
      assert s[1..][1..] == s[2..];
    }
    assert |Filter(s[0..], p)| == 3 by {
      assert s[0..][1..] == s[1..];
    }
    assert s[0..] == s;
  }

  /** Holidays 6 to 10: three academic dates. */
  lemma AcademicSecondHalf()
    ensures |Filter(Seed[5..], OfType(Academic))| == 3
  {
    var s := Seed[5..];
    var p := OfType(Academic);
    assert p(s[0]) && !p(s[1]) && p(s[2]) && !p(s[3]) && p(s[4]);
    assert |Filter(s[4..], p)| == 1 by {
      assert s[4..][1..] == [];
    }
    assert |Filter(s[3..], p)| == 1 by {
      assert s[3..][1..] == s[4..];
    }
    assert |Filter(s[2..], p)| == 2 by {
      assert s[2..][1..] == s[3..];
    }
    assert |Filter(s[1..], p)| == 2 by {
      assert s[1..][1..] == s[2..];
    }
    assert |Filter(s[0..], p)| == 3 by {
      assert s[0..][1..] == s[1..];
    }
    assert s[0..] == s;
  }

  /** The cards of a list follow from the academic counts of its two parts. */
  lemma CountsFromHalves(hs: seq<Holiday>, k: nat, academic: nat)
    requires k <= |hs|
    requires |Filter(hs[..k], OfType(Academic))| + |Filter(hs[k..], OfType(Academic))| == academic
    ensures HolidayCounts(hs) == HolidayStats(|hs|, academic, |hs| - academic)
  {
    assert hs == hs[..k] + hs[k..];
    FilterAppend(hs[..k], hs[k..], OfType(Academic));
  }

  /** The cards show 10 holidays in all: 6 academic and 4 national. */
  lemma SeedCounts()
    ensures HolidayCounts(Seed) == HolidayStats(10, 6, 4)
  {
    AcademicFirstHalf();
    AcademicSecondHalf();
    CountsFromHalves(Seed, 5, 6);
  }
}
