/**
 The HTTP boundary between the views and the service: query parameters as
 the client sends them (axios renders `true`/`false` as text), how the
 controller's `getAll` binds them to `findAll`'s arguments, and the
 mutation requests the list view issues, routed to the service
 operations.
 */
module CourseApi {
  import opened Common
  import opened CourseModel
  import CourseService

  /** A query string: parameter name to value. */
  type Params = map<string, string>

  function BoolText(b: bool): string {
    if b then "true" else "false"
  }

  /**
   Reading a boolean parameter back (the spellings the clients send): it
   inverts `BoolText` and accepts nothing else.
   */
  function ParseBool(s: string): (r: Option<bool>)
    ensures r.Some? ==> BoolText(r.value) == s
    ensures forall b :: s == BoolText(b) ==> r == Some(b)
  {
    if s == "true" then Some(true) else if s == "false" then Some(false) else None
  }

  datatype BindError = BadRequest

  /**
   `getAll`'s parameter binding: `title` and `priorityLevel` are passed
   through when present. `includeArchived` takes its default `false` when
   absent or sent empty. `targetDate` is parsed as an ISO date (the
   `parseDate` argument), and a missing or blank one (no non-white-space
   character) binds to `null`. `subject` is not read. The paging
   parameters `page`, `size` and `sort` are taken to be absent, as no view
   sends them. A value that does not convert is a bad request.
   */
  function BindQuery(p: Params, parseDate: string -> Option<Date>)
    : (r: Result<CourseService.Query, BindError>)
    ensures r.Success? <==>
      && ("includeArchived" in p && p["includeArchived"] != "" ==> ParseBool(p["includeArchived"]).Some?)
      && (DateGiven(p) ==> parseDate(p["targetDate"]).Some?)
    ensures r.Success? ==> (r.value.includeArchived <==> "includeArchived" in p && p["includeArchived"] == "true")
    ensures r.Success? ==> r.value.title == (if "title" in p then Some(p["title"]) else None)
    ensures r.Success? ==>
      r.value.priorityLevel == (if "priorityLevel" in p then Some(p["priorityLevel"]) else None)
    ensures r.Success? && DateGiven(p) ==> r.value.targetDate == parseDate(p["targetDate"])
    ensures r.Success? && !DateGiven(p) ==> r.value.targetDate == None
  {
    var archived := if "includeArchived" in p && p["includeArchived"] != "" then ParseBool(p["includeArchived"])
                    else Some(false);
    var date := if DateGiven(p) then
                  (var d := parseDate(p["targetDate"]); if d.Some? then Some(d) else None)
                else Some(None);
    if archived.None? || date.None? then Failure(BadRequest)
    else
      Success(CourseService.Query(
        if "title" in p then Some(p["title"]) else None,
        if "priorityLevel" in p then Some(p["priorityLevel"]) else None,
        date.value,
        archived.value))
  }

  /** A `targetDate` parameter with some non-white-space text: only then is it converted. */
  predicate DateGiven(p: Params) {
    "targetDate" in p && !IsBlankJava(p["targetDate"])
  }

  /**
   Parameters sent with empty values bind like absent ones: the archived
   flag takes its default and the target date is `null`, whatever the
   date parser would make of an empty string.
   */
  lemma EmptyValuesBindToDefaults(parseDate: string -> Option<Date>)
    ensures BindQuery(map["includeArchived" := "", "targetDate" := ""], parseDate) ==
            Success(CourseService.Query(None, None, None, false))
  {
    assert IsBlankJava("");
  }

  /** The binding does not read `subject`: adding or dropping it changes nothing. */
  lemma SubjectIsNotRead(p: Params, v: string, parseDate: string -> Option<Date>)
    ensures BindQuery(p["subject" := v], parseDate) == BindQuery(p - {"subject"}, parseDate)
  {
    var p1 := p["subject" := v];
    var p2 := p - {"subject"};
    assert forall k :: k != "subject" ==> (k in p1 <==> k in p2);
    assert forall k :: k != "subject" && k in p1 ==> p1[k] == p2[k];
    assert "includeArchived" in p1 <==> "includeArchived" in p2;
    assert "targetDate" in p1 <==> "targetDate" in p2;
    assert "title" in p1 <==> "title" in p2;
    assert "priorityLevel" in p1 <==> "priorityLevel" in p2;
  }

  /** The mutation requests the list view issues. */
  datatype Request =
    | PatchComplete(id: CourseId, completed: bool)
    | PatchArchive(id: CourseId)
    | DeleteRequest(id: CourseId)

  /**
   A request's effect on the repository, through the controller route
   that serves it; `today` is the server's date. A declined action sends
   nothing and changes nothing.
   */
  function Serve(repo: CourseService.Repo, request: Option<Request>, today: Date)
    : (r: Result<CourseService.Repo, CourseService.Error>)
    ensures request.None? ==> r == Success(repo)
    ensures request.Some? && request.value.DeleteRequest? ==>
      r == Success(CourseService.Delete(repo, request.value.id))
    ensures request.Some? && !request.value.DeleteRequest? ==>
      (r.Failure? <==> request.value.id !in repo)
    ensures request.Some? && request.value.PatchArchive? && r.Success? ==>
      r.value == CourseService.Archive(repo, request.value.id).value.0
    ensures request.Some? && request.value.PatchComplete? && r.Success? ==>
      r.value == CourseService.MarkCompleted(repo, request.value.id, request.value.completed, today).value.0
  {
    match request
    case None => Success(repo)
    case Some(PatchComplete(id, completed)) =>
      var res := CourseService.MarkCompleted(repo, id, completed, today);
      if res.Success? then Success(res.value.0) else Failure(res.error)
    case Some(PatchArchive(id)) =>
      var res := CourseService.Archive(repo, id);
      if res.Success? then Success(res.value.0) else Failure(res.error)
    case Some(DeleteRequest(id)) => Success(CourseService.Delete(repo, id))
  }
}
