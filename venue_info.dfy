/** The venue panel of the confirmation page: which venues it shows for an
    attendance type and whether the church reminders appear. */
module VenueInfo {
  import opened Records
  import opened ReminderEmail

  datatype VenueSections = VenueSections(church: bool, reception: bool, churchReminders: bool)

  /** `isInc` may be omitted and then counts as false. */
  function VenueInfoSections(attendanceType: string, isInc: Option<bool>): (v: VenueSections)
    ensures v.church <==> ShowsChurch(attendanceType)
    ensures v.reception <==> ShowsReception(attendanceType)
    ensures v.churchReminders <==> v.church && !isInc.GetOr(false)
  {
    var inc := isInc.GetOr(false);
    var showChurch := attendanceType == "church" || attendanceType == "both";
    var showReception := attendanceType == "reception" || attendanceType == "both";
    VenueSections(showChurch, showReception, showChurch && !inc)
  }

  /** Without `isInc` the reminders appear wherever the church venue does. */
  lemma OmittedIsIncShowsReminders(attendanceType: string)
    ensures VenueInfoSections(attendanceType, None).churchReminders <==> ShowsChurch(attendanceType)
  {
  }

  /** `church` shows no reception, `reception` no church, `both` both. */
  lemma VenuesPerType(isInc: Option<bool>)
    ensures var v := VenueInfoSections("church", isInc); v.church && !v.reception
    ensures var v := VenueInfoSections("reception", isInc); !v.church && v.reception && !v.churchReminders
    ensures var v := VenueInfoSections("both", isInc); v.church && v.reception
  {
  }

  /** The page and the reminder email choose the same venues and the same
      reminders for every type and every `isInc`. */
  lemma AgreesWithReminderEmail(attendanceType: string, isInc: bool)
    ensures var v := VenueInfoSections(attendanceType, Some(isInc));
            var e := EmailSections(attendanceType, isInc);
            v.church == e.church && v.reception == e.reception && v.churchReminders == e.churchReminders
  {
  }
}
