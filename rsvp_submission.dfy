/** The public RSVP submission (`submitRSVP`): a presence check on the raw
    strings, then the email pattern, then normalisation and exactly one insert.
    It checks neither the guest list nor earlier RSVPs. */
module RsvpSubmission {
  import opened Text
  import opened Records

  /** `[^\s@]`: a character the email pattern allows inside its parts. */
  predicate IsAtomChar(c: char) {
    !IsSpace(c) && c != '@'
  }

  /** `[^\s@]+` */
  predicate IsAtom(s: string) {
    |s| > 0 && forall k :: 0 <= k < |s| ==> IsAtomChar(s[k])
  }

  /** `^[^\s@]+@[^\s@]+\.[^\s@]+$`: the text splits at an `@` (position `i`)
      and a later `.` (position `j`) into three non-empty parts without white
      space or `@`. */
  ghost predicate MatchesEmailPattern(s: string) {
    exists i, j :: 0 < i < j < |s| && s[i] == '@' && s[j] == '.'
      && IsAtom(s[..i]) && IsAtom(s[i + 1..j]) && IsAtom(s[j + 1..])
  }

  /** The position of the first `c` in `s`. */
  function IndexOf(s: string, c: char): (r: Option<nat>)
    ensures r.Some? ==> r.value < |s| && s[r.value] == c && c !in s[..r.value]
    ensures r.None? <==> c !in s
  {
    if s == [] then None
    else if s[0] == c then Some(0)
    else
      match IndexOf(s[1..], c)
      case None => None
      case Some(k) => assert s[..k + 1] == [s[0]] + s[1..][..k]; Some(k + 1)
  }

  /** A `.` in the domain part that is neither its first nor its last character. */
  predicate HasInnerDot(d: string) {
    exists j :: 0 < j < |d| - 1 && d[j] == '.'
  }

  /** The email check as the code runs it: no white space anywhere, exactly
      one `@`, a non-empty local part, and a `.` inside the domain part. It
      accepts exactly the strings the regular expression matches. */
  function IsValidEmail(s: string): (ok: bool)
    ensures ok <==> MatchesEmailPattern(s)
  {
    var at := IndexOf(s, '@');
    var ok := NoSpace(s) && at.Some? && at.value > 0 && '@' !in s[at.value + 1..] && HasInnerDot(s[at.value + 1..]);
    ValidEmailMatches(s);
    ok
  }

  /** Every character but the one at `i` may appear inside an address part. */
  predicate AtomsBesides(s: string, i: int) {
    forall k :: 0 <= k < |s| && k != i ==> IsAtomChar(s[k])
  }

  lemma AtomSlice(s: string, lo: nat, hi: nat)
    requires lo < hi <= |s|
    requires forall k :: lo <= k < hi ==> IsAtomChar(s[k])
    ensures IsAtom(s[lo..hi])
  {
    var t := s[lo..hi];
    forall k | 0 <= k < |t| ensures IsAtomChar(t[k]) {
      assert t[k] == s[lo + k];
    }
  }

  lemma SliceAtoms(s: string, lo: nat, hi: nat)
    requires lo <= hi <= |s| && IsAtom(s[lo..hi])
    ensures forall k :: lo <= k < hi ==> IsAtomChar(s[k])
  {
    var t := s[lo..hi];
    forall k | lo <= k < hi ensures IsAtomChar(s[k]) {
      assert s[k] == t[k - lo];
    }
  }

  lemma ValidEmailMatches(s: string)
    ensures (var at := IndexOf(s, '@');
             NoSpace(s) && at.Some? && at.value > 0 && '@' !in s[at.value + 1..] && HasInnerDot(s[at.value + 1..]))
            <==> MatchesEmailPattern(s)
  {
    var at := IndexOf(s, '@');
    if NoSpace(s) && at.Some? && at.value > 0 && '@' !in s[at.value + 1..] && HasInnerDot(s[at.value + 1..]) {
      CheckedImpliesPattern(s, at.value);
    }
    if MatchesEmailPattern(s) {
      PatternImpliesChecked(s);
    }
  }

  lemma CheckedImpliesPattern(s: string, i: nat)
    requires NoSpace(s) && IndexOf(s, '@') == Some(i) && i > 0
    requires '@' !in s[i + 1..] && HasInnerDot(s[i + 1..])
    ensures MatchesEmailPattern(s)
  {
    var d := s[i + 1..];
    forall k | 0 <= k < |s| && k != i ensures IsAtomChar(s[k]) {
      if k < i {
        assert s[k] == s[..i][k];
      } else {
        assert s[k] == d[k - (i + 1)];
      }
    }
    var j' :| 0 < j' < |d| - 1 && d[j'] == '.';
    var j := i + 1 + j';
    assert s[j] == '.';
    AtomSlice(s, 0, i);
    AtomSlice(s, i + 1, j);
    AtomSlice(s, j + 1, |s|);
  }

  /** The first `c` is at `i` when `s[i]` is `c` and no earlier character is. */
  lemma IndexOfAt(s: string, c: char, i: nat)
    requires i < |s| && s[i] == c
    requires forall k :: 0 <= k < i ==> s[k] != c
    ensures IndexOf(s, c) == Some(i)
  {
    assert s[i] in s;
  }

  /** The split points of a matching address: the characters outside `i`
      and `j` are atom characters, and so is the `.` at `j`. */
  lemma PatternAtoms(s: string, i: nat, j: nat)
    requires 0 < i < j < |s| && s[i] == '@' && s[j] == '.'
    requires IsAtom(s[..i]) && IsAtom(s[i + 1..j]) && IsAtom(s[j + 1..])
    ensures AtomsBesides(s, i)
  {
    SliceAtoms(s, 0, i);
    SliceAtoms(s, i + 1, j);
    SliceAtoms(s, j + 1, |s|);
    assert IsAtomChar(s[j]);
  }

  /** With atom characters everywhere but an `@`, there is no white space,
      and no second `@` after it. */
  lemma AtomsAroundAt(s: string, i: nat)
    requires i < |s| && s[i] == '@' && AtomsBesides(s, i)
    ensures NoSpace(s) && '@' !in s[i + 1..]
  {
    var d := s[i + 1..];
    forall k | 0 <= k < |d| ensures d[k] != '@' {
      assert d[k] == s[i + 1 + k];
    }
  }

  lemma PatternImpliesChecked(s: string)
    requires MatchesEmailPattern(s)
    ensures (var at := IndexOf(s, '@');
             NoSpace(s) && at.Some? && at.value > 0 && '@' !in s[at.value + 1..] && HasInnerDot(s[at.value + 1..]))
  {
    var i, j :| 0 < i < j < |s| && s[i] == '@' && s[j] == '.'
      && IsAtom(s[..i]) && IsAtom(s[i + 1..j]) && IsAtom(s[j + 1..]);
    assert |s[i + 1..j]| > 0 && |s[j + 1..]| > 0;
    PatternAtoms(s, i, j);
    IndexOfAt(s, '@', i);
    AtomsAroundAt(s, i);
    var d := s[i + 1..];
    assert d[j - (i + 1)] == '.';
  }

  /** An `@` at `i` and a `.` at `j` that leave three non-empty parts of
      atom characters make a match. */
  lemma AtomsMatch(t: string, i: nat, j: nat)
    requires 0 < i && i + 1 < j && j + 1 < |t| && t[i] == '@' && t[j] == '.'
    requires AtomsBesides(t, i)
    ensures MatchesEmailPattern(t)
  {
    AtomSlice(t, 0, i);
    AtomSlice(t, i + 1, j);
    AtomSlice(t, j + 1, |t|);
  }

  /** Lower-casing turns atom characters into atom characters. */
  lemma LowerAtoms(s: string, i: int)
    requires AtomsBesides(s, i)
    ensures AtomsBesides(ToLower(s), i)
  {
    var t := ToLower(s);
    forall k | 0 <= k < |t| && k != i ensures IsAtomChar(t[k]) {
      assert t[k] == LowerChar(s[k]);
    }
  }

  /** Lower-casing keeps an address a match: it changes letters only. */
  lemma LowerKeepsPattern(s: string)
    requires MatchesEmailPattern(s)
    ensures MatchesEmailPattern(ToLower(s))
  {
    var i, j :| 0 < i < j < |s| && s[i] == '@' && s[j] == '.'
      && IsAtom(s[..i]) && IsAtom(s[i + 1..j]) && IsAtom(s[j + 1..]);
    assert |s[i + 1..j]| > 0 && |s[j + 1..]| > 0;
    PatternAtoms(s, i, j);
    LowerAtoms(s, i);
    var t := ToLower(s);
    assert t[i] == '@' && t[j] == '.' by {
      assert t[i] == LowerChar(s[i]) && t[j] == LowerChar(s[j]);
    }
    AtomsMatch(t, i, j);
  }

  /** An address that matches has no white space, so trimming leaves it alone. */
  lemma PatternHasNoSpace(s: string)
    requires MatchesEmailPattern(s)
    ensures NoSpace(s) && Trim(s) == s
  {
    PatternImpliesChecked(s);
    TrimNoSpace(s);
  }

  /** The submitted form; a field the client left out is `None`. */
  datatype SubmissionForm = SubmissionForm(name: Option<string>, email: Option<string>, attending: Option<bool>)

  const MissingFields := "Name and email are required"
  const InvalidEmail := "Invalid email format"
  const SaveFailed := "Failed to save RSVP. Please try again."
  const Unexpected := "An unexpected error occurred. Please try again."

  /** The record the submission inserts. */
  datatype NewRsvp = NewRsvp(name: string, email: string, attending: bool)

  datatype Checked = Accepted(record: NewRsvp) | Rejected(error: string)

  /** The guard chain, first failure winning: presence of both raw strings,
      then the email pattern; an accepted form yields the trimmed name, the
      lower-cased address (which trimming cannot change, since a matching
      address has no white space) and `attending`, defaulting to false. */
  function CheckSubmission(form: SubmissionForm): (r: Checked)
    ensures r == Rejected(MissingFields) <==> !Present(form.name) || !Present(form.email)
    ensures r == Rejected(InvalidEmail)
            <==> Present(form.name) && Present(form.email) && !MatchesEmailPattern(form.email.value)
    ensures r.Rejected? ==> r.error == MissingFields || r.error == InvalidEmail
    ensures r.Accepted? ==> r.record == NewRsvp(Trim(form.name.value), ToLower(form.email.value), form.attending.GetOr(false))
    ensures r.Accepted? ==> MatchesEmailPattern(r.record.email)
  {
    if !Present(form.name) || !Present(form.email) then Rejected(MissingFields)
    else if !IsValidEmail(form.email.value) then Rejected(InvalidEmail)
    else
      var email := form.email.value;
      PatternHasNoSpace(email);
      LowerKeepsPattern(email);
      Accepted(NewRsvp(Trim(form.name.value), ToLower(Trim(email)), form.attending.GetOr(false)))
  }

  /** A name of white space only passes the presence check and is stored empty. */
  lemma BlankNameStoredEmpty(name: string, email: string, attending: Option<bool>)
    requires name != "" && forall k :: 0 <= k < |name| ==> IsSpace(name[k])
    requires MatchesEmailPattern(email)
    ensures CheckSubmission(SubmissionForm(Some(name), Some(email), attending)).Accepted?
    ensures CheckSubmission(SubmissionForm(Some(name), Some(email), attending)).record.name == ""
  {
    TrimEmptyIffAllSpace(name);
  }

  /** The row the store holds after the insert: the row it fills in (its id,
      timestamps and column defaults) with the three inserted columns. */
  function Inserted(filled: Rsvp, record: NewRsvp): Rsvp {
    filled.(name := record.name, email := record.email, attending := record.attending)
  }

  datatype SubmitResult = Submitted(data: Rsvp) | SubmitFailed(error: string)

  /** `submitRSVP`. `insert` is how the store answers the insert and `filled`
      the row it would create. A rejected form, a failed insert and a thrown
      exception leave the table as it was; success appends exactly one row. */
  method SubmitRsvp(db: Database, form: SubmissionForm, insert: Reply, filled: Rsvp) returns (result: SubmitResult)
    modifies db
    ensures db.guests == old(db.guests)
    ensures CheckSubmission(form).Rejected? ==>
              result == SubmitFailed(CheckSubmission(form).error) && db.rsvps == old(db.rsvps)
    ensures CheckSubmission(form).Accepted? && insert == Ok ==>
              var row := Inserted(filled, CheckSubmission(form).record);
              result == Submitted(row) && db.rsvps == old(db.rsvps) + [row]
    ensures CheckSubmission(form).Accepted? && insert == Failed ==>
              result == SubmitFailed(SaveFailed) && db.rsvps == old(db.rsvps)
    ensures CheckSubmission(form).Accepted? && insert == Threw ==>
              result == SubmitFailed(Unexpected) && db.rsvps == old(db.rsvps)
  {
    var checked := CheckSubmission(form);
    if checked.Rejected? {
      return SubmitFailed(checked.error);
    }
    match insert {
      case Threw =>
        result := SubmitFailed(Unexpected);
      case Failed =>
        result := SubmitFailed(SaveFailed);
      case Ok =>
        var row := Inserted(filled, checked.record);
        db.rsvps := db.rsvps + [row];
        result := Submitted(row);
    }
  }
}
