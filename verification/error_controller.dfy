/** The application's error action (`Webino_ErrorController::errorAction`):
    announce the error, and classify routing failures as "page not found". */
module ErrorController {
  import opened Wrappers
  import opened Types

  const NotFound := 404

  /** Why the dispatcher forwarded to the error action. */
  datatype ErrorType = NoRoute | NoController | NoAction | OtherError

  /** The `error_handler` request parameter. */
  datatype Errors = Errors(exception: Option<Exception>, errorType: ErrorType)

  /** The events the action fires, each with the errors object. */
  datatype ControllerEvent = ActionError(errors: Errors) | PageNotFound(errors: Errors)

  /** The errors object used when the request carries none. */
  const DefaultErrors := Errors(None, NoAction)

  /** What `errorAction` leaves behind: the response code and the events
      fired, in order. */
  datatype Outcome = Outcome(responseCode: int, events: seq<ControllerEvent>)

  /** `errorAction`, given the `error_handler` parameter (if any) and the
      response code so far. */
  function ErrorAction(param: Option<Errors>, responseCode: int): (r: Outcome)
    ensures var errors := if param.Some? then param.value else DefaultErrors;
            && |r.events| >= 1 && r.events[0] == ActionError(errors)
            && (errors.errorType.OtherError? ==> r == Outcome(responseCode, [ActionError(errors)]))
            && (!errors.errorType.OtherError? ==> r == Outcome(NotFound, [ActionError(errors), PageNotFound(errors)]))
  {
    var errors := param.GetOr(DefaultErrors);
    var announced := [ActionError(errors)];
    match errors.errorType
    case NoRoute => Outcome(NotFound, announced + [PageNotFound(errors)])
    case NoController => Outcome(NotFound, announced + [PageNotFound(errors)])
    case NoAction => Outcome(NotFound, announced + [PageNotFound(errors)])
    case OtherError => Outcome(responseCode, announced)
  }

  /** The response becomes 404 exactly when `pageNotFound` is fired. */
  lemma NotFoundIffAnnounced(param: Option<Errors>, responseCode: int)
    requires responseCode != NotFound
    ensures var r := ErrorAction(param, responseCode);
            r.responseCode == NotFound <==> exists i :: 0 <= i < |r.events| && r.events[i].PageNotFound?
  {
    var r := ErrorAction(param, responseCode);
    if r.responseCode == NotFound {
      assert r.events[1].PageNotFound?;
    }
  }

  /** Reaching the action without an errors object counts as a missing
      action: the response becomes 404. */
  lemma MissingParameterIsNotFound(responseCode: int)
    ensures ErrorAction(None, responseCode).responseCode == NotFound
    ensures ErrorAction(None, responseCode).events == [ActionError(DefaultErrors), PageNotFound(DefaultErrors)]
  {
  }
}
