/** `POST /api/rsvp`: the submission guard chain behind an HTTP interface,
    each outcome mapped to a status code. */
module RsvpRoute {
  import opened Records
  import opened Text
  import opened RsvpSubmission

  const InternalError := "Internal server error"
  const SubmittedMessage := "RSVP submitted successfully"

  /** The parsed request body. Its fields are whatever JSON values arrived;
      a field that is absent, or a body that is a number, string or array,
      reads as `undefined`. `attending` is passed on as it is. */
  datatype RouteBody = RouteBody(name: JsValue, email: JsValue, attending: Option<bool>)

  /** What the guards make of a body: a record to insert, a 400 message,
      or a throw from calling `trim` on a value that is not a string. */
  datatype BodyCheck = Valid(record: NewRsvp) | Invalid(error: string) | Throws

  /** The handler's guards, first failure winning: truthiness of both
      fields, then the email pattern on the text of the email, then the
      inserted record, whose `trim` calls throw on a value that is not a
      string. */
  function CheckBody(b: RouteBody): (r: BodyCheck)
    ensures r == Invalid(MissingFields) <==> !Truthy(b.name) || !Truthy(b.email)
    ensures r == Invalid(InvalidEmail)
            <==> Truthy(b.name) && Truthy(b.email) && !MatchesEmailPattern(AsText(b.email))
    ensures r.Throws?
            <==> Truthy(b.name) && Truthy(b.email) && MatchesEmailPattern(AsText(b.email))
                 && (!b.name.Str? || !b.email.Str?)
    ensures r.Invalid? ==> r.error == MissingFields || r.error == InvalidEmail
    ensures r.Valid? ==> (b.name.Str? && b.email.Str?
                          && r.record == NewRsvp(Trim(b.name.s), ToLower(b.email.s), b.attending.GetOr(false)))
  {
    if !Truthy(b.name) || !Truthy(b.email) then Invalid(MissingFields)
    else if !IsValidEmail(AsText(b.email)) then Invalid(InvalidEmail)
    else if !b.name.Str? || !b.email.Str? then Throws
    else
      PatternHasNoSpace(b.email.s);
      Valid(NewRsvp(Trim(b.name.s), ToLower(Trim(b.email.s)), b.attending.GetOr(false)))
  }

  /** A body whose name and email are strings is checked exactly as the
      `submitRSVP` action checks its form, and never throws. */
  lemma StringBodyAgrees(b: RouteBody)
    requires b.name.Str? && b.email.Str?
    ensures var c := CheckSubmission(SubmissionForm(Some(b.name.s), Some(b.email.s), b.attending));
            && !CheckBody(b).Throws?
            && (CheckBody(b).Valid? <==> c.Accepted?)
            && (CheckBody(b).Valid? ==> CheckBody(b).record == c.record)
            && (CheckBody(b).Invalid? ==> c == Rejected(CheckBody(b).error))
  {
    var f := SubmissionForm(Some(b.name.s), Some(b.email.s), b.attending);
    assert Truthy(b.name) == Present(f.name) && Truthy(b.email) == Present(f.email);
    assert AsText(b.email) == b.email.s;
  }

  /** `a@b.co` is an address the pattern accepts. */
  lemma SampleAddressMatches()
    ensures MatchesEmailPattern("a@b.co")
  {
    var t := "a@b.co";
    forall k | 0 <= k < |t| && k != 1 ensures IsAtomChar(t[k]) {
      assert t[k] in "ab.co";
    }
    AtomsMatch(t, 1, 3);
  }

  /** `123` holds no `@`, so the pattern rejects it. */
  lemma DigitsDoNotMatch()
    ensures !MatchesEmailPattern("123")
  {
    assert '@' !in "123";
  }

  /** A number for the name passes both guards, its text being truthy, and
      then the `trim` call on it throws. */
  lemma NumberNameThrows()
    ensures CheckBody(RouteBody(OtherValue(true, "5"), Str("a@b.co"), None)) == Throws
  {
    SampleAddressMatches();
  }

  /** A number for the email is matched as its text and rejected. */
  lemma NumberEmailRejected()
    ensures CheckBody(RouteBody(Str("A"), OtherValue(true, "123"), None)) == Invalid(InvalidEmail)
  {
    DigitsDoNotMatch();
  }

  /** An array holding an address passes the pattern, since its text is the
      address, and then the `trim` call on it throws. */
  lemma ArrayEmailThrows()
    ensures CheckBody(RouteBody(Str("A"), OtherValue(true, "a@b.co"), None)) == Throws
  {
    SampleAddressMatches();
  }

  datatype ResponseBody = ErrorBody(error: string) | CreatedBody(data: Rsvp, message: string)

  datatype Response = Response(status: int, body: ResponseBody)

  /** The handler. `body` is the parsed JSON body, `None` when parsing threw
      or the body is `null`; `insert` is how the store answers the insert
      and `filled` the row it would create. Validation failures answer 400
      and insert nothing; a stored row answers 201; a failed insert 500;
      anything thrown 500. */
  method Post(db: Database, body: Option<RouteBody>, insert: Reply, filled: Rsvp) returns (resp: Response)
    modifies db
    ensures db.guests == old(db.guests)
    ensures body.None? ==> resp == Response(500, ErrorBody(InternalError)) && db.rsvps == old(db.rsvps)
    ensures body.Some? && CheckBody(body.value).Invalid? ==>
              resp == Response(400, ErrorBody(CheckBody(body.value).error)) && db.rsvps == old(db.rsvps)
    ensures body.Some? && CheckBody(body.value).Throws? ==>
              resp == Response(500, ErrorBody(InternalError)) && db.rsvps == old(db.rsvps)
    ensures body.Some? && CheckBody(body.value).Valid? && insert == Ok ==>
              var row := Inserted(filled, CheckBody(body.value).record);
              resp == Response(201, CreatedBody(row, SubmittedMessage)) && db.rsvps == old(db.rsvps) + [row]
    ensures body.Some? && CheckBody(body.value).Valid? && insert == Failed ==>
              resp == Response(500, ErrorBody(SaveFailed)) && db.rsvps == old(db.rsvps)
    ensures body.Some? && CheckBody(body.value).Valid? && insert == Threw ==>
              resp == Response(500, ErrorBody(InternalError)) && db.rsvps == old(db.rsvps)
  {
    if body.None? {
      return Response(500, ErrorBody(InternalError));
    }
    var checked := CheckBody(body.value);
    match checked {
      case Invalid(e) =>
        resp := Response(400, ErrorBody(e));
      case Throws =>
        resp := Response(500, ErrorBody(InternalError));
      case Valid(record) =>
        match insert {
          case Threw =>
            resp := Response(500, ErrorBody(InternalError));
          case Failed =>
            resp := Response(500, ErrorBody(SaveFailed));
          case Ok =>
            var row := Inserted(filled, record);
            db.rsvps := db.rsvps + [row];
            resp := Response(201, CreatedBody(row, SubmittedMessage));
        }
    }
  }
}
