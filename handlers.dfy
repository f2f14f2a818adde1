/**
 * The two HTTP entry points that update the leaderboard: the development
 * server's request handler (server.ts) and the deployed API function
 * (src/api/updateLeaderboard.ts). Both run the same pipeline; they differ
 * in routing and in the status codes they answer with.
 *
 * Transport, CORS headers, body accumulation, JSON.parse and the file
 * system are outside the model: the decoded body, the stored file (None
 * when it is missing or unreadable) and the outcome of the write are
 * inputs; the response and the text handed to writeFile are outputs.
 */
module Handlers {
  import opened Wrappers
  import opened Leaderboard

  /** The only URL the development server serves. */
  const UpdatePath: string := "/api/updateLeaderboard"

  const InvalidJsonMessage: string := "Invalid JSON format"
  const InvalidDataMessage: string := "Invalid data format. Expected { name: string, score: number }"
  const SuccessMessage: string := "Leaderboard updated successfully"
  const FailureMessage: string := "Failed to update leaderboard"

  /** A JavaScript value read from a decoded JSON body; a property that is
      absent reads as Undefined. Numbers are integral (see README). */
  datatype JsValue =
    | Undefined
    | Null
    | Bool(b: bool)
    | Num(n: int)
    | NaN
    | Str(s: string)
    | ObjectOrArray

  /** What JSON.parse made of the request body. */
  datatype Body =
    | NotJson                               // JSON.parse threw
    | JsonNull                              // the text `null`: destructuring it throws a TypeError
    | Json(name: JsValue, score: JsValue)   // any other value, with its `name` and `score` properties

  /** JavaScript truthiness (`!v` is its negation). */
  predicate Truthy(v: JsValue) {
    match v
    case Undefined | Null | NaN => false
    case Bool(b) => b
    case Num(n) => n != 0
    case Str(s) => s != []
    case ObjectOrArray => true
  }

  /** The `typeof` operator. */
  function TypeOf(v: JsValue): (t: string)
    ensures t == "string" <==> v.Str?
    ensures t == "number" <==> v.Num? || v.NaN?
  {
    match v
    case Undefined => "undefined"
    case Null | ObjectOrArray => "object"
    case Bool(_) => "boolean"
    case Num(_) | NaN => "number"
    case Str(_) => "string"
  }

  /** Why a body is refused before the leaderboard is touched. */
  datatype Refusal = InvalidJson | InvalidData | NullBody

  /** `const { name, score } = parsedBody` followed by the check
      `!name || typeof name !== "string" || !score || typeof score !== "number"`,
      the same in both handlers. */
  function Submission(body: Body): (r: Result<Entry, Refusal>)
    ensures r.Ok? <==> body.Json? && body.name.Str? && body.name.s != [] && body.score.Num? && body.score.n != 0
    ensures r.Ok? ==> r.value == Entry(body.name.s, body.score.n)
    ensures r == Err(InvalidJson) <==> body.NotJson?
    ensures r == Err(NullBody) <==> body.JsonNull?
  {
    match body
    case NotJson => Err(InvalidJson)
    case JsonNull => Err(NullBody)
    case Json(name, score) =>
      if !Truthy(name) || TypeOf(name) != "string" || !Truthy(score) || TypeOf(score) != "number"
      then Err(InvalidData)
      else Ok(Entry(name.s, score.n))
  }

  /** A score of 0 is refused like a missing one, and a negative score is accepted. */
  lemma ScoreCheckEdges(name: string, n: int)
    requires name != []
    ensures Submission(Json(Str(name), Num(0))) == Err(InvalidData)
    ensures n != 0 ==> Submission(Json(Str(name), Num(n))) == Ok(Entry(name, n))
  {
  }

  /** Read the stored file (missing or unreadable reads as empty text),
      push the new entry, sort, keep ten. */
  function Updated(stored: Option<string>, e: Entry): (board: seq<Entry>)
    ensures |board| <= Capacity && SortedDesc(board)
    ensures stored.None? ==> board == [e]
  {
    ParseEmpty();
    Merge(Parse(stored.GetOr([])), e)
  }

  datatype Payload =
    | NoPayload
    | Message(message: string)
    | Scores(message: string, updatedScores: seq<Entry>)
    | Failed(message: string, error: string)

  datatype Response = Reply(status: int, payload: Payload) | NoReply

  /** The response, and the text handed to writeFile if it was called. */
  datatype Outcome = Outcome(response: Response, written: Option<string>)

  // ------------------------------------------------------------- server.ts

  /** The status the development server answers with; None when it never
      answers: a `null` body or a failed write throws inside the request's
      `end` callback, where the outer try/catch cannot catch it. */
  function ServerStatus(httpMethod: string, url: string, sub: Result<Entry, Refusal>, writeOk: bool): (s: Option<int>)
    ensures httpMethod == "OPTIONS" ==> s == Some(200)
    ensures s == Some(404) <==> httpMethod != "OPTIONS" && !(url == UpdatePath && httpMethod == "POST")
    ensures s == Some(400) <==> url == UpdatePath && httpMethod == "POST" && sub.Err? && sub.error != NullBody
    ensures s.None? <==> url == UpdatePath && httpMethod == "POST" && (sub == Err(NullBody) || (sub.Ok? && !writeOk))
    ensures s == Some(200) <==> httpMethod == "OPTIONS" || (url == UpdatePath && httpMethod == "POST" && sub.Ok? && writeOk)
  {
    if httpMethod == "OPTIONS" then Some(200)
    else if !(url == UpdatePath && httpMethod == "POST") then Some(404)
    else match sub
      case Err(NullBody) => None
      case Err(_) => Some(400)
      case Ok(_) => if writeOk then Some(200) else None
  }

  /** The development server's request handler. */
  function ServerHandle(httpMethod: string, url: string, body: Body, stored: Option<string>, writeOk: bool): (o: Outcome)
    ensures var s := ServerStatus(httpMethod, url, Submission(body), writeOk);
            && (s.None? <==> o.response.NoReply?)
            && (s.Some? ==> o.response.status == s.value)
    ensures httpMethod == "OPTIONS" ==> o == Outcome(Reply(200, NoPayload), None)
    ensures o.written.Some? <==> url == UpdatePath && httpMethod == "POST" && Submission(body).Ok?
    ensures o.written.Some? ==> o.written.value == Format(Updated(stored, Submission(body).value))
    ensures o.response.Reply? && o.response.status == 200 && httpMethod != "OPTIONS" ==>
              && o.response.payload.Scores?
              && o.written == Some(Format(o.response.payload.updatedScores))
              && o.response.payload.updatedScores == Updated(stored, Submission(body).value)
  {
    var sub := Submission(body);
    if httpMethod == "OPTIONS" then Outcome(Reply(200, NoPayload), None)
    else if !(url == UpdatePath && httpMethod == "POST") then Outcome(Reply(404, Message("Not Found")), None)
    else match sub
      case Err(InvalidJson) => Outcome(Reply(400, Message(InvalidJsonMessage)), None)
      case Err(InvalidData) => Outcome(Reply(400, Message(InvalidDataMessage)), None)
      case Err(NullBody) => Outcome(NoReply, None)
      case Ok(e) =>
        var board := Updated(stored, e);
        var text := Format(board);
        if writeOk then Outcome(Reply(200, Scores(SuccessMessage, board)), Some(text))
        else Outcome(NoReply, Some(text))
  }

  // ---------------------------------------------- src/api/updateLeaderboard.ts

  /** The message of the error each refusal throws. The TypeError text for
      a `null` body is the one V8 gives. */
  function RefusalText(r: Refusal): string {
    match r
    case InvalidJson => "Invalid JSON format in request"
    case InvalidData => InvalidDataMessage
    case NullBody => "Cannot destructure property 'name' of 'parsedBody' as it is null."
  }

  /** The status the API function answers with: it always answers, and every
      failure after the httpMethod check is a 500. */
  function ApiStatus(httpMethod: string, sub: Result<Entry, Refusal>, writeOk: bool): (s: int)
    ensures s == 405 <==> httpMethod != "POST"
    ensures s == 200 <==> httpMethod == "POST" && sub.Ok? && writeOk
    ensures s == 500 <==> httpMethod == "POST" && (sub.Err? || !writeOk)
  {
    if httpMethod != "POST" then 405
    else if sub.Err? || !writeOk then 500
    else 200
  }

  /** The API function. `writeError` is None when writeFile succeeds and
      holds the error's message when it fails. */
  function ApiHandle(httpMethod: string, body: Body, stored: Option<string>, writeError: Option<string>): (o: Outcome)
    ensures o.response.Reply?
    ensures o.response.status == ApiStatus(httpMethod, Submission(body), writeError.None?)
    ensures o.response.status != 400
    ensures httpMethod != "POST" ==> o == Outcome(Reply(405, Message("Method not allowed")), None)
    ensures httpMethod == "POST" && Submission(body).Err? ==>
              o == Outcome(Reply(500, Failed(FailureMessage, RefusalText(Submission(body).error))), None)
    ensures o.written.Some? <==> httpMethod == "POST" && Submission(body).Ok?
    ensures o.written.Some? ==> o.written.value == Format(Updated(stored, Submission(body).value))
    ensures o.response.status == 200 ==>
              && o.response.payload.Scores?
              && o.written == Some(Format(o.response.payload.updatedScores))
              && o.response.payload.updatedScores == Updated(stored, Submission(body).value)
  {
    if httpMethod != "POST" then Outcome(Reply(405, Message("Method not allowed")), None)
    else match Submission(body)
      case Err(r) => Outcome(Reply(500, Failed(FailureMessage, RefusalText(r))), None)
      case Ok(e) =>
        var board := Updated(stored, e);
        var text := Format(board);
        match writeError
        case None => Outcome(Reply(200, Scores(SuccessMessage, board)), Some(text))
        case Some(message) => Outcome(Reply(500, Failed(FailureMessage, message)), Some(text))
  }

  /** Both entry points write the same text for the same accepted request. */
  lemma SamePipeline(url: string, body: Body, stored: Option<string>)
    requires url == UpdatePath
    ensures ServerHandle("POST", url, body, stored, true).written == ApiHandle("POST", body, stored, None).written
  {
  }
}
