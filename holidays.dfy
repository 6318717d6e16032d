/**
 * The holiday calendar page: the type and name filter sorted by date, the "upcoming" panel,
 * the three count cards, the editor's submit / edit / delete handlers, and the relative-date
 * label shown on each card.
 *
 * Dates are kept as the text the form produces. Turning that text into a moment
 * (`new Date(text).getTime()`) is the parameter `timeOf`, and the current moment is the
 * parameter `now`.
 */
module Holidays {
  import opened Wrappers
  import opened Lists
  import opened Text
  import opened Records

  datatype HolidayType = Academic | National

  datatype Holiday = Holiday(
    id: string,
    name: string,
    date: string,
    kind: HolidayType,
    description: Option<string>)

  /** The editor form: every holiday field except the id, the description as plain text. */
  datatype HolidayDraft = HolidayDraft(
    name: string,
    date: string,
    kind: HolidayType,
    description: string)

  /** The type selector: every holiday, or one type only. */
  datatype TypeFilter = All | Only(kind: HolidayType)

  /** The form after a reset. */
  const EmptyDraft: HolidayDraft := HolidayDraft("", "", Academic, "")

  function HolidayId(h: Holiday): string {
    h.id
  }

  // ---------------------------------------------------------------------------------------
  // Filter and date order

  predicate MatchesType(h: Holiday, filter: TypeFilter) {
    filter.All? || h.kind == filter.kind
  }

  /** An empty term matches everything; otherwise it must occur, case-insensitively, in the name. */
  predicate MatchesName(h: Holiday, term: string) {
    term == "" || Includes(Lower(h.name), Lower(term))
  }

  function Passes(filter: TypeFilter, term: string): Holiday -> bool {
    (h: Holiday) => MatchesType(h, filter) && MatchesName(h, term)
  }

  /** The comparator `new Date(a.date).getTime() - new Date(b.date).getTime()` read as "not after". */
  function ByDate(timeOf: string -> int): (Holiday, Holiday) -> bool {
    (a: Holiday, b: Holiday) => timeOf(a.date) <= timeOf(b.date)
  }

  lemma ByDateIsTotalPreorder(timeOf: string -> int)
    ensures TotalPreorder(ByDate(timeOf))
  {
  }

  /**
   * The "All Holidays" list: a permutation of the holidays passing both tests, in non-decreasing
   * date order.
   */
  function FilteredHolidays(hs: seq<Holiday>, filter: TypeFilter, term: string, timeOf: string -> int)
    : (r: seq<Holiday>)
    ensures forall h :: multiset(r)[h] == if MatchesType(h, filter) && MatchesName(h, term) then multiset(hs)[h] else 0
    ensures forall h :: h in r <==> h in hs && MatchesType(h, filter) && MatchesName(h, term)
    ensures forall i, j :: 0 <= i < j < |r| ==> timeOf(r[i].date) <= timeOf(r[j].date)
  {
    ByDateIsTotalPreorder(timeOf);
    var kept := Filter(hs, Passes(filter, term));
    var r := Sort(kept, ByDate(timeOf));
    SameElements(r, kept);
    r
  }

  // ---------------------------------------------------------------------------------------
  // Upcoming panel

  function IsUpcoming(now: int, timeOf: string -> int): Holiday -> bool {
    (h: Holiday) => timeOf(h.date) >= now
  }

  /**
   * The "Upcoming Holidays" panel, computed from the whole list (the search and type filter do
   * not apply): at most three holidays dated at or after `now`, in date order, and no upcoming
   * holiday left out is dated before one that is shown.
   */
  function UpcomingHolidays(hs: seq<Holiday>, now: int, timeOf: string -> int): (r: seq<Holiday>)
    ensures |r| == if |Filter(hs, IsUpcoming(now, timeOf))| < 3 then |Filter(hs, IsUpcoming(now, timeOf))| else 3
    ensures multiset(r) <= multiset(hs)
    ensures forall h :: h in r ==> timeOf(h.date) >= now
    ensures forall i, j :: 0 <= i < j < |r| ==> timeOf(r[i].date) <= timeOf(r[j].date)
    ensures forall h: Holiday, x :: timeOf(h.date) >= now && multiset(r)[h] < multiset(hs)[h] && x in r
                       ==> timeOf(x.date) <= timeOf(h.date)
  {
    ByDateIsTotalPreorder(timeOf);
    var upcoming := Filter(hs, IsUpcoming(now, timeOf));
    var sorted := Sort(upcoming, ByDate(timeOf));
    var r := Take(sorted, 3);
    UpcomingFacts(hs, upcoming, sorted, r, now, timeOf);
    r
  }

  /** What the panel's three steps (keep upcoming, sort by date, take three) add up to. */
  lemma UpcomingFacts(hs: seq<Holiday>, upcoming: seq<Holiday>, sorted: seq<Holiday>, r: seq<Holiday>,
                      now: int, timeOf: string -> int)
    requires forall h :: multiset(upcoming)[h] == if timeOf(h.date) >= now then multiset(hs)[h] else 0
    requires multiset(sorted) == multiset(upcoming)
    requires SortedBy(sorted, ByDate(timeOf))
    requires |r| <= |sorted| && forall i :: 0 <= i < |r| ==> r[i] == sorted[i]
    ensures multiset(r) <= multiset(hs)
    ensures forall h :: h in r ==> timeOf(h.date) >= now
    ensures forall i, j :: 0 <= i < j < |r| ==> timeOf(r[i].date) <= timeOf(r[j].date)
    ensures forall h: Holiday, x :: timeOf(h.date) >= now && multiset(r)[h] < multiset(hs)[h] && x in r
                       ==> timeOf(x.date) <= timeOf(h.date)
  {
    UpcomingAreEarliest(sorted, r, timeOf);
    PrefixIsSubMultiset(sorted, r);
    assert multiset(upcoming) <= multiset(hs);
    forall h | h in r ensures timeOf(h.date) >= now {
      assert h in multiset(r);
    }
    TakeKeepsOrder(sorted, r, timeOf);
  }

  lemma TakeKeepsOrder(sorted: seq<Holiday>, r: seq<Holiday>, timeOf: string -> int)
    requires SortedBy(sorted, ByDate(timeOf))
    requires |r| <= |sorted| && forall i :: 0 <= i < |r| ==> r[i] == sorted[i]
    ensures forall i, j :: 0 <= i < j < |r| ==> timeOf(r[i].date) <= timeOf(r[j].date)
  {
    forall i, j | 0 <= i < j < |r| ensures timeOf(r[i].date) <= timeOf(r[j].date) {
      assert ByDate(timeOf)(sorted[i], sorted[j]);
    }
  }

  lemma PrefixIsSubMultiset<T>(s: seq<T>, r: seq<T>)
    requires |r| <= |s| && forall i :: 0 <= i < |r| ==> r[i] == s[i]
    ensures multiset(r) <= multiset(s)
  {
    assert s == r + s[|r|..];
  }

  /** The front of a date-sorted list holds its earliest entries. */
  lemma UpcomingAreEarliest(sorted: seq<Holiday>, r: seq<Holiday>, timeOf: string -> int)
    requires SortedBy(sorted, ByDate(timeOf))
    requires |r| <= |sorted| && forall i :: 0 <= i < |r| ==> r[i] == sorted[i]
    ensures forall h: Holiday, x :: multiset(r)[h] < multiset(sorted)[h] && x in r ==> timeOf(x.date) <= timeOf(h.date)
  {
    var rest := sorted[|r|..];
    assert r == sorted[..|r|];
    assert sorted == r + rest;
    forall h, x | multiset(r)[h] < multiset(sorted)[h] && x in r
      ensures timeOf(x.date) <= timeOf(h.date)
    {
      assert multiset(sorted)[h] == multiset(r)[h] + multiset(rest)[h];
      assert h in multiset(rest);
      var j :| 0 <= j < |rest| && rest[j] == h;
      var i :| 0 <= i < |r| && r[i] == x;
      assert sorted[i] == x && sorted[|r| + j] == h;
      assert ByDate(timeOf)(sorted[i], sorted[|r| + j]);
    }
  }

  // ---------------------------------------------------------------------------------------
  // Count cards

  datatype HolidayStats = HolidayStats(total: nat, academic: nat, national: nat)

  function OfType(kind: HolidayType): Holiday -> bool {
    (h: Holiday) => h.kind == kind
  }

  /** The three cards, computed from the whole list: every holiday is academic or national. */
  function HolidayCounts(hs: seq<Holiday>): (r: HolidayStats)
    ensures r.total == |hs|
    ensures r.academic + r.national == r.total
  {
    TypeCountsAddUp(hs);
    HolidayStats(|hs|, |Filter(hs, OfType(Academic))|, |Filter(hs, OfType(National))|)
  }

  lemma {:induction false} TypeCountsAddUp(hs: seq<Holiday>)
    ensures |Filter(hs, OfType(Academic))| + |Filter(hs, OfType(National))| == |hs|
  {
    if hs != [] {
      TypeCountsAddUp(hs[1..]);
    }
  }

  // ---------------------------------------------------------------------------------------
  // Editor

  /** The record the form describes, under `id`; the description is always present afterwards. */
  function FromDraft(id: string, d: HolidayDraft): (h: Holiday)
    ensures h.id == id && h.description.Some?
  {
    Holiday(id, d.name, d.date, d.kind, Some(d.description))
  }

  /** The holiday with a missing description replaced by the empty text. */
  function WithDescription(h: Holiday): Holiday {
    h.(description := Some(h.description.GetOr("")))
  }

  /**
   * The form filled from an existing holiday, a missing description shown as empty text.
   * Submitting it unchanged gives the holiday back, except that a missing description becomes
   * the empty text.
   */
  function DraftOf(h: Holiday): (d: HolidayDraft)
    ensures FromDraft(h.id, d) == WithDescription(h)
    ensures h.description.Some? ==> FromDraft(h.id, d) == h
  {
    HolidayDraft(h.name, h.date, h.kind, h.description.GetOr(""))
  }

  /** The name and the date are filled in. */
  predicate IsComplete(d: HolidayDraft): (ok: bool)
    ensures ok ==> d != EmptyDraft
  {
    d.name != "" && d.date != ""
  }

  /**
   * Editing a holiday and submitting the form unchanged rewrites every holiday with its id as
   * that holiday with its description filled in, and touches nothing else; with unique ids and
   * a description present the list is unchanged.
   */
  lemma EditUnchanged(hs: seq<Holiday>, i: nat)
    requires i < |hs|
    ensures var r := ReplaceKey(hs, HolidayId, hs[i].id, FromDraft(hs[i].id, DraftOf(hs[i])));
      && r[i] == WithDescription(hs[i])
      && (forall k :: 0 <= k < |hs| && hs[k].id != hs[i].id ==> r[k] == hs[k])
      && (UniqueKeys(hs, HolidayId) && hs[i].description.Some? ==> r == hs)
  {
    var h := hs[i];
    var r := ReplaceKey(hs, HolidayId, h.id, FromDraft(h.id, DraftOf(h)));
    if UniqueKeys(hs, HolidayId) && h.description.Some? {
      forall k | 0 <= k < |hs| ensures r[k] == hs[k] {
        if hs[k].id == h.id {
          assert k == i;
        }
      }
    }
  }

  /** The state of the holiday page: the stored list and the editor. */
  class HolidayPage {
    var holidays: seq<Holiday>
    var draft: HolidayDraft
    var editing: Option<Holiday>
    var dialogOpen: bool

    /** A page opened on `data`, the stored list (or the seed list when nothing is stored). */
    constructor (data: seq<Holiday>)
      ensures holidays == data && draft == EmptyDraft && editing == None && !dialogOpen
    {
      holidays := data;
      draft := EmptyDraft;
      editing := None;
      dialogOpen := false;
    }

    /**
     * The form's submit. A form without a name or a date changes nothing. Otherwise the holiday
     * being edited is replaced by the form's fields (under its own id), or a new holiday with id
     * `newId` is appended, and the editor closes and resets.
     */
    method Submit(newId: string) returns (outcome: Outcome)
      modifies this
      ensures !IsComplete(old(draft)) ==>
        && outcome == Rejected
        && holidays == old(holidays) && draft == old(draft)
        && editing == old(editing) && dialogOpen == old(dialogOpen)
      ensures IsComplete(old(draft)) && old(editing).Some? ==>
        && outcome == Updated
        && holidays == ReplaceKey(old(holidays), HolidayId, old(editing).value.id,
                                  FromDraft(old(editing).value.id, old(draft)))
      ensures IsComplete(old(draft)) && old(editing).None? ==>
        && outcome == Added
        && holidays == old(holidays) + [FromDraft(newId, old(draft))]
      ensures IsComplete(old(draft)) ==> draft == EmptyDraft && editing == None && !dialogOpen
    {
      if !IsComplete(draft) {
        return Rejected;
      }
      if editing.Some? {
        var id := editing.value.id;
        holidays := ReplaceKey(holidays, HolidayId, id, FromDraft(id, draft));
        outcome := Updated;
      } else {
        holidays := holidays + [FromDraft(newId, draft)];
        outcome := Added;
      }
      dialogOpen := false;
      editing := None;
      draft := EmptyDraft;
    }

    /** Opens the editor on `h`, its fields copied into the form. */
    method Edit(h: Holiday)
      modifies this`draft, this`editing, this`dialogOpen
      ensures editing == Some(h) && draft == DraftOf(h) && dialogOpen
    {
      editing := Some(h);
      draft := DraftOf(h);
      dialogOpen := true;
    }

    /** Removes every holiday with `id`. */
    method Delete(id: string)
      modifies this`holidays
      ensures holidays == RemoveKey(old(holidays), HolidayId, id)
    {
      holidays := RemoveKey(holidays, HolidayId, id);
    }

    /** The Cancel button: closes the editor and resets it without touching the list. */
    method Cancel()
      modifies this`draft, this`editing, this`dialogOpen
      ensures draft == EmptyDraft && editing == None && !dialogOpen
    {
      dialogOpen := false;
      editing := None;
      draft := EmptyDraft;
    }
  }

  // ---------------------------------------------------------------------------------------
  // Relative-date label

  /** The buckets of the label, with the number the label shows. */
  datatype Relative = Past | Today | Tomorrow | InDays(n: nat) | InWeeks(n: nat) | InMonths(n: nat)

  /**
   * The bucket for a holiday `diffDays` whole days away (rounded up): each bucket's range and,
   * for weeks and months, the rounded-up count the label shows.
   */
  function Classify(diffDays: int): (r: Relative)
    ensures r == Past <==> diffDays < 0
    ensures r == Today <==> diffDays == 0
    ensures r == Tomorrow <==> diffDays == 1
    ensures r.InDays? <==> 2 <= diffDays <= 7
    ensures r.InWeeks? <==> 8 <= diffDays <= 30
    ensures r.InMonths? <==> diffDays > 30
    ensures r.InDays? ==> r.n == diffDays
    ensures r.InWeeks? ==> 2 <= r.n <= 5 && 7 * (r.n - 1) < diffDays <= 7 * r.n
    ensures r.InMonths? ==> r.n >= 2 && 30 * (r.n - 1) < diffDays <= 30 * r.n
  {
    if diffDays < 0 then Past
    else if diffDays == 0 then Today
    else if diffDays == 1 then Tomorrow
    else if diffDays <= 7 then InDays(diffDays)
    else if diffDays <= 30 then InWeeks((diffDays + 6) / 7)
    else InMonths((diffDays + 29) / 30)
  }

  /**
   * The text of a bucket: a fixed word, or "In " followed by the number and the unit. The
   * parser `ParseLabel` reads each text back (`ParseLabelText`).
   */
  function LabelText(l: Relative): (r: string)
    ensures l.InDays? || l.InWeeks? || l.InMonths? ==> StartsWith(r, "In ")
    ensures l.InDays? ==> EndsWith(r, " days")
    ensures l.InWeeks? ==> EndsWith(r, " weeks")
    ensures l.InMonths? ==> EndsWith(r, " months")
  {
    match l
    case Past => "Past"
    case Today => "Today"
    case Tomorrow => "Tomorrow"
    case InDays(n) => (InLabelShape(NatToString(n), " days");
      "In " + (NatToString(n) + " days"))
    case InWeeks(n) => (InLabelShape(NatToString(n), " weeks");
      "In " + (NatToString(n) + " weeks"))
    case InMonths(n) => (InLabelShape(NatToString(n), " months");
      "In " + (NatToString(n) + " months"))
  }

  /** A numbered label starts with "In " and ends with its unit. */
  lemma InLabelShape(digits: string, unit: string)
    ensures StartsWith("In " + (digits + unit), "In ")
    ensures EndsWith("In " + (digits + unit), unit)
  {
    var r := "In " + (digits + unit);
    assert r[..3] == "In ";
    assert r[|r| - |unit|..] == unit;
  }

  /** `getRelativeDate` once the whole-day difference is known. */
  function RelativeDate(diffDays: int): (r: string)
    ensures diffDays < 0 ==> r == "Past"
    ensures diffDays == 0 ==> r == "Today"
    ensures diffDays == 1 ==> r == "Tomorrow"
    ensures diffDays >= 2 ==> StartsWith(r, "In ")
    ensures 2 <= diffDays <= 7 ==> EndsWith(r, " days")
    ensures 8 <= diffDays <= 30 ==> EndsWith(r, " weeks")
    ensures diffDays > 30 ==> EndsWith(r, " months")
  {
    LabelText(Classify(diffDays))
  }

  /** The number in front of `suffix` in `body`, when `body` is digits followed by `suffix`. */
  function CountBefore(body: string, suffix: string): Option<nat> {
    if EndsWith(body, suffix) && |body| > |suffix| && AllDigits(body[..|body| - |suffix|])
    then Some(ParseNat(body[..|body| - |suffix|]))
    else None
  }

  /** Reads a label back into its bucket. */
  function ParseLabel(s: string): Option<Relative> {
    if s == "Past" then Some(Past)
    else if s == "Today" then Some(Today)
    else if s == "Tomorrow" then Some(Tomorrow)
    else if !StartsWith(s, "In ") then None
    else
      var body := s[3..];
      match CountBefore(body, " days")
      case Some(n) => Some(InDays(n))
      case None =>
        match CountBefore(body, " weeks")
        case Some(n) => Some(InWeeks(n))
        case None =>
          match CountBefore(body, " months")
          case Some(n) => Some(InMonths(n))
          case None => None
  }

  lemma CountBeforeRendered(n: nat, suffix: string)
    ensures CountBefore(NatToString(n) + suffix, suffix) == Some(n)
  {
    var body := NatToString(n) + suffix;
    assert body[..|body| - |suffix|] == NatToString(n);
    assert body[|body| - |suffix|..] == suffix;
    ParseNatToString(n);
  }

  /** A digit string followed by `suffix` does not end in `other` when the two endings differ at a non-digit. */
  lemma CountBeforeOther(n: nat, suffix: string, other: string, k: nat)
    requires k < |suffix| && k < |other| && suffix[|suffix| - 1 - k] != other[|other| - 1 - k]
    ensures CountBefore(NatToString(n) + suffix, other) == None
  {
    var body := NatToString(n) + suffix;
    if |other| <= |body| {
      assert body[|body| - |other|..][|other| - 1 - k] == body[|body| - 1 - k] == suffix[|suffix| - 1 - k];
    }
  }

  /** A label that starts with "In " is not one of the three fixed words. */
  lemma InLabelIsNotAWord(body: string)
    ensures var s := "In " + body;
      s != "Past" && s != "Today" && s != "Tomorrow" && StartsWith(s, "In ") && s[3..] == body
  {
    var s := "In " + body;
    assert s[0] == 'I' && s[..3] == "In ";
  }

  lemma ParseInDays(body: string, n: nat)
    requires CountBefore(body, " days") == Some(n)
    ensures ParseLabel("In " + body) == Some(InDays(n))
  {
    InLabelIsNotAWord(body);
  }

  lemma ParseInWeeks(body: string, n: nat)
    requires CountBefore(body, " days") == None
    requires CountBefore(body, " weeks") == Some(n)
    ensures ParseLabel("In " + body) == Some(InWeeks(n))
  {
    InLabelIsNotAWord(body);
  }

  lemma ParseInMonths(body: string, n: nat)
    requires CountBefore(body, " days") == None
    requires CountBefore(body, " weeks") == None
    requires CountBefore(body, " months") == Some(n)
    ensures ParseLabel("In " + body) == Some(InMonths(n))
  {
    InLabelIsNotAWord(body);
  }

  lemma ParseDaysLabel(n: nat)
    ensures ParseLabel(LabelText(InDays(n))) == Some(InDays(n))
  {
    CountBeforeRendered(n, " days");
    ParseInDays(NatToString(n) + " days", n);
    assert LabelText(InDays(n)) == "In " + (NatToString(n) + " days");
  }

  lemma ParseWeeksLabel(n: nat)
    ensures ParseLabel(LabelText(InWeeks(n))) == Some(InWeeks(n))
  {
    var body := NatToString(n) + " weeks";
    CountBeforeOther(n, " weeks", " days", 4);
    CountBeforeRendered(n, " weeks");
    ParseInWeeks(body, n);
    assert LabelText(InWeeks(n)) == "In " + body;
  }

  lemma ParseMonthsLabel(n: nat)
    ensures ParseLabel(LabelText(InMonths(n))) == Some(InMonths(n))
  {
    var body := NatToString(n) + " months";
    CountBeforeOther(n, " months", " days", 4);
    CountBeforeOther(n, " months", " weeks", 4);
    CountBeforeRendered(n, " months");
    ParseInMonths(body, n);
    assert LabelText(InMonths(n)) == "In " + body;
  }

  /** Every label reads back as the bucket it was made from. */
  lemma ParseLabelText(r: Relative)
    ensures ParseLabel(LabelText(r)) == Some(r)
  {
    match r
    case Past =>
    case Today =>
    case Tomorrow =>
    case InDays(n) => ParseDaysLabel(n);
    case InWeeks(n) => ParseWeeksLabel(n);
    case InMonths(n) => ParseMonthsLabel(n);
  }

  /** Two differences get the same label exactly when they fall in the same bucket with the same count. */
  lemma RelativeDateDistinguishesBuckets(d1: int, d2: int)
    ensures RelativeDate(d1) == RelativeDate(d2) <==> Classify(d1) == Classify(d2)
  {
    ParseLabelText(Classify(d1));
    ParseLabelText(Classify(d2));
  }

  /** The labels without a number: anything before today is "Past". */
  lemma RelativeDateWords()
    ensures RelativeDate(-1) == "Past"
    ensures RelativeDate(0) == "Today"
    ensures RelativeDate(1) == "Tomorrow"
  {
  }

  /** Counted in days from 2 up to and including 7. */
  lemma RelativeDateDays()
    ensures RelativeDate(2) == "In 2 days"
    ensures RelativeDate(7) == "In 7 days"
  {
    assert RelativeDate(2) == "In 2 days" by {
      assert Classify(2) == InDays(2) && NatToString(2) == "2";
    }
    assert RelativeDate(7) == "In 7 days" by {
      assert Classify(7) == InDays(7) && NatToString(7) == "7";
    }
  }

  /** Counted in weeks from 8 up to and including 30, rounded up. */
  lemma RelativeDateWeeks()
    ensures RelativeDate(8) == "In 2 weeks"
    ensures RelativeDate(30) == "In 5 weeks"
  {
    assert RelativeDate(8) == "In 2 weeks" by {
      assert Classify(8) == InWeeks(2) && NatToString(2) == "2";
    }
    assert RelativeDate(30) == "In 5 weeks" by {
      assert Classify(30) == InWeeks(5) && NatToString(5) == "5";
    }
  }

  /** From 31 on, counted in months, rounded up. */
  lemma RelativeDateMonths()
    ensures RelativeDate(31) == "In 2 months"
  {
    assert Classify(31) == InMonths(2);
    assert NatToString(2) == "2";
  }
}
