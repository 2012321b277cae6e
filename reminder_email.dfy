/** The content choices of the reminder email: which venue sections it
    shows for an attendance type, whether the church reminders box and the
    divider between the sections appear, and the "days away" label of its
    heading and preview. The markup itself is not modelled. */
module ReminderEmail {
  import opened Text
  import opened Records

  /** The optional parts of the email body. */
  datatype Sections = Sections(church: bool, churchReminders: bool, divider: bool, reception: bool)

  /** The church section for `church` and `both`, the reception section for
      `reception` and `both`; the reminders box inside the church section
      for guests who are not INC members; the divider only between two
      shown sections. */
  function EmailSections(attendanceType: string, isInc: bool): (s: Sections)
    ensures s.church <==> ShowsChurch(attendanceType)
    ensures s.reception <==> ShowsReception(attendanceType)
    ensures s.churchReminders ==> s.church
    ensures s.divider ==> s.church && s.reception
  {
    var showChurch := attendanceType == "church" || attendanceType == "both";
    var showReception := attendanceType == "reception" || attendanceType == "both";
    Sections(showChurch, showChurch && !isInc, showChurch && showReception, showReception)
  }

  /** Every attendance type the form offers shows at least one venue. */
  lemma EveryTypeShowsAVenue(t: AttendanceType, isInc: bool)
    ensures EmailSections(t.Name(), isInc).church || EmailSections(t.Name(), isInc).reception
  {
  }

  /** Each type shows exactly its own venues; the reminders box follows the
      church section unless the guest is an INC member, and only `both`
      puts a divider between two sections. */
  lemma SectionsPerType(isInc: bool)
    ensures EmailSections("church", isInc) == Sections(true, !isInc, false, false)
    ensures EmailSections("reception", isInc) == Sections(false, false, false, true)
    ensures EmailSections("both", isInc) == Sections(true, !isInc, true, true)
  {
  }

  /** A value outside the three types (a row written without a type, say)
      shows neither venue. */
  lemma UnknownTypeShowsNothing(t: string, isInc: bool)
    requires !IsAttendanceType(t)
    ensures EmailSections(t, isInc) == Sections(false, false, false, false)
  {
  }

  /** How far away the wedding is, in words. */
  function DaysLabel(daysAway: int): (words: string)
    ensures |words| >= 5
  {
    if daysAway == 1 then "just 1 day away"
    else if daysAway == 0 then "today"
    else IntToString(daysAway) + " days away"
  }

  /** Any other count is spelt out as its sign and digits followed by
      ` days away`. */
  lemma DaysLabelShape(daysAway: int)
    requires daysAway != 0 && daysAway != 1
    ensures DaysLabel(daysAway)[..|IntToString(daysAway)|] == IntToString(daysAway)
    ensures DaysLabel(daysAway)[0] == '-' || IsDigit(DaysLabel(daysAway)[0])
    ensures |DaysLabel(daysAway)| == |IntToString(daysAway)| + 10
    ensures DaysLabel(daysAway)[|IntToString(daysAway)|..] == " days away"
  {
    var digits := IntToString(daysAway);
    assert DaysLabel(daysAway)[0] == digits[0];
  }

  /** Different counts give different labels, so the label tells the guest
      the exact count. */
  lemma DaysLabelInjective(a: int, b: int)
    requires DaysLabel(a) == DaysLabel(b)
    ensures a == b
  {
    if a != 0 && a != 1 {
      DaysLabelShape(a);
    }
    if b != 0 && b != 1 {
      DaysLabelShape(b);
    }
    if a != 0 && a != 1 && b != 0 && b != 1 {
      IntToStringInjective(a, b);
    }
  }
}
