/**
 * The hosted `track-event` function: validates a reaction event, makes sure a row for the user
 * exists (looking it up, inserting it when absent), then appends the event row. Every answer
 * carries the CORS headers. The hosted tables are a class with a set of user ids and the
 * sequence of event rows; each store call's failure is an input.
 */
module TrackEvent {
  import opened Wrappers

  const ValidEventTypes: seq<string> := ["heart", "like", "dislike", "bookmark", "copy"]

  /** `items.join(', ')`. */
  function JoinComma(items: seq<string>): string {
    if items == [] then ""
    else if |items| == 1 then items[0]
    else items[0] + ", " + JoinComma(items[1..])
  }

  const MissingFields: string := "Missing required fields: user_id, paragraph_id, event_type"

  function InvalidType(): string {
    "Invalid event_type. Must be one of: " + JoinComma(ValidEventTypes)
  }

  /** The three fields read from the request body; `None` when absent. */
  datatype TrackBody = TrackBody(userId: Option<string>, paragraphId: Option<string>, eventType: Option<string>)

  /** A preflight request, or a call whose body decoded (or failed to, with the parser's message). */
  datatype Request = Preflight | Call(body: Result<TrackBody, string>)

  /**
   * An error a store call reported. The handler answers with its `message` when it is an `Error`
   * instance and with "Unknown error" otherwise.
   */
  datatype StoreError = StoreError(isErrorInstance: bool, message: string)

  function ErrorMessage(e: StoreError): string {
    if e.isErrorInstance then e.message else "Unknown error"
  }

  datatype EventRow = EventRow(userIdentifierId: string, paragraphId: string, eventType: string)

  datatype FnBody = NullBody | ErrorBody(error: string) | Success(event: EventRow)

  /** Every answer, including the preflight one, carries the CORS headers. */
  datatype FnResponse = FnResponse(status: int, body: FnBody, cors: bool)

  predicate Truthy(v: Option<string>) { v.Some? && v.value != "" }

  /**
   * The two checks before any store call: each field present and non-empty, then the event
   * type one of the five known ones. `Ok` carries the event row the call would insert.
   */
  function Validate(b: TrackBody): (r: Result<EventRow, FnResponse>)
    ensures r.Ok? <==> Truthy(b.userId) && Truthy(b.paragraphId) && Truthy(b.eventType) && b.eventType.value in ValidEventTypes
    ensures !(Truthy(b.userId) && Truthy(b.paragraphId) && Truthy(b.eventType)) ==> r == Err(FnResponse(400, ErrorBody(MissingFields), true))
    ensures Truthy(b.userId) && Truthy(b.paragraphId) && Truthy(b.eventType) && b.eventType.value !in ValidEventTypes ==>
              r == Err(FnResponse(400, ErrorBody(InvalidType()), true))
    ensures r.Ok? ==> r.value == EventRow(b.userId.value, b.paragraphId.value, b.eventType.value)
  {
    if !(Truthy(b.userId) && Truthy(b.paragraphId) && Truthy(b.eventType)) then
      Err(FnResponse(400, ErrorBody(MissingFields), true))
    else if b.eventType.value !in ValidEventTypes then
      Err(FnResponse(400, ErrorBody(InvalidType()), true))
    else Ok(EventRow(b.userId.value, b.paragraphId.value, b.eventType.value))
  }

  /** A copy event passes validation; a share event does not, and neither does an empty user id. */
  lemma ValidationExamples(u: string, p: string)
    requires u != "" && p != ""
    ensures Validate(TrackBody(Some(u), Some(p), Some("copy"))).Ok?
    ensures Validate(TrackBody(Some(u), Some(p), Some("share"))) == Err(FnResponse(400, ErrorBody(InvalidType()), true))
    ensures Validate(TrackBody(Some(""), Some(p), Some("like"))) == Err(FnResponse(400, ErrorBody(MissingFields), true))
  {
    assert ValidEventTypes[4] == "copy";
    assert "share" !in ValidEventTypes by {
      assert forall k | 0 <= k < |ValidEventTypes| :: ValidEventTypes[k][0] != 's';
    }
  }

  class HostedStore {
    /** The ids of the rows of `user_identifiers`. */
    var userIds: set<string>
    /** The rows of `events`, in insertion order. */
    var eventRows: seq<EventRow>

    constructor (userIds: set<string>, eventRows: seq<EventRow>)
      ensures this.userIds == userIds && this.eventRows == eventRows
    {
      this.userIds := userIds;
      this.eventRows := eventRows;
    }

    /**
     * One request. `lookupFails` says the user lookup returned no row because it failed;
     * `userInsert` and `eventInsert` are the errors the two inserts report, if any. A failure
     * after the user row was inserted does not remove it.
     */
    method Handle(req: Request, lookupFails: bool, userInsert: Option<StoreError>, eventInsert: Option<StoreError>)
      returns (resp: FnResponse)
      modifies this
      ensures resp.cors
      ensures req.Preflight? ==> resp == FnResponse(200, NullBody, true)
      ensures req.Call? && req.body.Err? ==> resp == FnResponse(500, ErrorBody(req.body.error), true)
      ensures req.Call? && req.body.Ok? && Validate(req.body.value).Err? ==> resp == Validate(req.body.value).error
      ensures !(req.Call? && req.body.Ok? && Validate(req.body.value).Ok?) ==>
                userIds == old(userIds) && eventRows == old(eventRows)
      ensures req.Call? && req.body.Ok? && Validate(req.body.value).Ok? ==>
                var row := Validate(req.body.value).value;
                var inserting := lookupFails || row.userIdentifierId !in old(userIds);
                && (!inserting ==> userIds == old(userIds))
                && (inserting && userInsert.Some? ==>
                      resp == FnResponse(500, ErrorBody(ErrorMessage(userInsert.value)), true)
                      && userIds == old(userIds) && eventRows == old(eventRows))
                && (!(inserting && userInsert.Some?) ==>
                      && userIds == old(userIds) + {row.userIdentifierId}
                      && (eventInsert.Some? ==>
                            resp == FnResponse(500, ErrorBody(ErrorMessage(eventInsert.value)), true) && eventRows == old(eventRows))
                      && (eventInsert.None? ==>
                            resp == FnResponse(200, Success(row), true) && eventRows == old(eventRows) + [row]))
      ensures resp.status == 200 && req.Call? ==>
                req.body.Ok? && req.body.value.userId.Some? && req.body.value.userId.value in userIds
                && |eventRows| == |old(eventRows)| + 1
    {
      if req.Preflight? {
        return FnResponse(200, NullBody, true);
      }
      if req.body.Err? {
        return FnResponse(500, ErrorBody(req.body.error), true);
      }
      var checked := Validate(req.body.value);
      if checked.Err? {
        return checked.error;
      }
      var row := checked.value;
      var existing := !lookupFails && row.userIdentifierId in userIds;
      if !existing {
        if userInsert.Some? {
          return FnResponse(500, ErrorBody(ErrorMessage(userInsert.value)), true);
        }
        userIds := userIds + {row.userIdentifierId};
      }
      if eventInsert.Some? {
        return FnResponse(500, ErrorBody(ErrorMessage(eventInsert.value)), true);
      }
      eventRows := eventRows + [row];
      resp := FnResponse(200, Success(row), true);
    }
  }
}
