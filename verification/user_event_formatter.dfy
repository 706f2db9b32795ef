/** The positional parser `formatUserEvent`. A raw message such as
      {"userEvent":"LOGIN", "customerId":"[0700376380]", "salesOrg:"BCAR"}
    is split on the double-quote character and three fixed segments are read:
    segment 3 is the event-type token, segment 7 the bracketed customer-id
    list and segment 10 the sales organisation. The message is not parsed as
    JSON. Reading a segment past the end of the array yields `undefined`
    (`None` here); calling `.substring` on an `undefined` segment 7 throws
    (`Failure` here).
 */
module UserEventFormatter {
  import opened Wrappers
  import opened JsString

  /** The two members of the external `UserEventType` enumeration. */
  datatype EventType = Login | PlaceOrder

  /** The output record. `None` stands for `undefined`. */
  datatype UserEvent = UserEvent(
    userEvent: Option<EventType>,
    customerIds: seq<string>,
    salesOrg: Option<string>)

  /** The TypeError raised by `undefined.substring(...)` when the message
      has no segment 7. */
  datatype FormatError = CustomerIdSegmentMissing

  const Quote: char := '"'
  const IdSeparator: char := ','
  const EventTypeSegment: nat := 3
  const CustomerIdSegment: nat := 7
  const SalesOrgSegment: nat := 10

  /** Characters cut from the end of the id list: `length - 2`. */
  const TrailingStrip: nat := 2

  /** JavaScript array indexing: `undefined` past the end. */
  function At(parts: seq<string>, i: nat): (r: Option<string>)
    ensures r.None? <==> i >= |parts|
    ensures r.Some? ==> r.value == parts[i]
  {
    if i < |parts| then Some(parts[i]) else None
  }

  /** The spelling of each event type in a raw message. */
  function Token(e: EventType): (t: string)
  {
    match e
    case Login => "LOGIN"
    case PlaceOrder => "PLACE_ORDER"
  }

  /** The `switch` on segment 3: an exact match against the two tokens;
      any other string, and a missing segment, give `undefined`. */
  function EventTypeOf(token: Option<string>): (r: Option<EventType>)
    ensures r == Some(Login) <==> token == Some("LOGIN")
    ensures r == Some(PlaceOrder) <==> token == Some("PLACE_ORDER")
    ensures r.None? <==> token != Some("LOGIN") && token != Some("PLACE_ORDER")
  {
    if token == Some("LOGIN") then Some(Login)
    else if token == Some("PLACE_ORDER") then Some(PlaceOrder)
    else None
  }

  /** Reading a token back gives the event type it spells. */
  lemma EventTypeOfToken(e: EventType)
    ensures EventTypeOf(Some(Token(e))) == Some(e)
  {
  }

  /** `segment.substring(1, segment.length - trailing)`: the first character
      and `trailing` final characters are cut off when the segment is long
      enough; otherwise `substring`'s clamping and swapping leave the empty
      string (empty segment) or the first character alone. */
  function StripIdList(segment: string, trailing: nat): (r: string)
    ensures |segment| >= trailing + 1 ==> r == segment[1..|segment| - trailing]
    ensures |segment| == 0 ==> r == ""
    ensures 1 <= |segment| <= trailing ==> r == segment[..1]
    ensures forall x :: x in r ==> x in segment
  {
    JsSubstring(segment, 1, |segment| - trailing)
  }

  /** `.split(',')` of the stripped id list: the pieces join back to the
      stripped text, there is always at least one, and none holds a comma
      or a character the segment does not hold. */
  function ParseCustomerIds(segment: string, trailing: nat): (ids: seq<string>)
    ensures |ids| >= 1
    ensures Join(ids, IdSeparator) == StripIdList(segment, trailing)
    ensures forall i :: 0 <= i < |ids| ==> IdSeparator !in ids[i]
    ensures forall i, x :: 0 <= i < |ids| && x in ids[i] ==> x in segment
  {
    var stripped := StripIdList(segment, trailing);
    JoinSplit(stripped, IdSeparator);
    SplitPiecesComeFromSource(stripped, IdSeparator);
    Split(stripped, IdSeparator)
  }

  /** `formatUserEvent` as written. It fails exactly when the message has
      no segment 7; segment 3 picks the event type and segment 10, when
      present, is the sales organisation. */
  function Format(message: string): (r: Result<UserEvent, FormatError>)
    ensures r.Failure? <==> Count(message, Quote) < 7
    ensures r.Success? ==>
      var parts := Split(message, Quote);
      && (r.value.userEvent == Some(Login) <==> parts[EventTypeSegment] == "LOGIN")
      && (r.value.userEvent == Some(PlaceOrder) <==> parts[EventTypeSegment] == "PLACE_ORDER")
      && (r.value.salesOrg.Some? <==> |parts| > SalesOrgSegment)
      && (|parts| > SalesOrgSegment ==> r.value.salesOrg == Some(parts[SalesOrgSegment]))
  {
    var parts := Split(message, Quote);
    if |parts| <= CustomerIdSegment then
      Failure(CustomerIdSegmentMissing)
    else
      Success(UserEvent(
        EventTypeOf(At(parts, EventTypeSegment)),
        ParseCustomerIds(parts[CustomerIdSegment], TrailingStrip),
        At(parts, SalesOrgSegment)))
  }

  /** The customer ids `Format` reads from segment 7: at least one, none
      holding a comma or a quote, and together they spell the segment
      without its first and last two characters; short segments follow
      `substring`'s clamping and swapping. */
  lemma FormatCustomerIds(message: string)
    requires Format(message).Success?
    ensures
      var ids := Format(message).value.customerIds;
      var idList := Split(message, Quote)[CustomerIdSegment];
      && |ids| >= 1
      && (forall i :: 0 <= i < |ids| ==> IdSeparator !in ids[i] && Quote !in ids[i])
      && (|idList| >= 3 ==> Join(ids, IdSeparator) == idList[1..|idList| - 2])
      && (|idList| == 0 ==> ids == [""])
      && (1 <= |idList| <= 2 ==> Join(ids, IdSeparator) == idList[..1])
  {
  }

  /** Replacing one segment of a message by text without quotes leaves the
      outcome (success or failure) alone, and changes at most the field read
      from that segment. */
  lemma ReplaceSegmentKeepsOtherFields(message: string, i: nat, text: string)
    requires i < |Split(message, Quote)|
    requires Quote !in text
    ensures
      var parts := Split(message, Quote);
      var r := Format(message);
      var r' := Format(Join(parts[i := text], Quote));
      && Split(Join(parts[i := text], Quote), Quote) == parts[i := text]
      && (r'.Success? <==> r.Success?)
      && (r.Success? && i != EventTypeSegment ==> r'.value.userEvent == r.value.userEvent)
      && (r.Success? && i != CustomerIdSegment ==> r'.value.customerIds == r.value.customerIds)
      && (r.Success? && i != SalesOrgSegment ==> r'.value.salesOrg == r.value.salesOrg)
  {
    var parts := Split(message, Quote);
    SplitJoin(parts[i := text], Quote);
  }

  /** `formatUserEvent` with `length - 1` in place of `length - 2`: only the
      closing bracket is cut from the end of the id list. */
  function FormatCorrected(message: string): (r: Result<UserEvent, FormatError>)
    ensures r.Failure? <==> Count(message, Quote) < 7
    ensures r.Success? ==>
      var parts := Split(message, Quote);
      var ids := r.value.customerIds;
      var idList := parts[CustomerIdSegment];
      && r.value.userEvent == Format(message).value.userEvent
      && r.value.salesOrg == Format(message).value.salesOrg
      && |ids| >= 1
      && (forall i :: 0 <= i < |ids| ==> IdSeparator !in ids[i] && Quote !in ids[i])
      && (|idList| >= 2 ==> Join(ids, IdSeparator) == idList[1..|idList| - 1])
  {
    match Format(message)
    case Failure(e) => Failure(e)
    case Success(event) =>
      var ids := ParseCustomerIds(Split(message, Quote)[CustomerIdSegment], 1);
      Success(event.(customerIds := ids))
  }
}
