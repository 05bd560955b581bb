/**
 The read-only plan gallery (`CourseGallery.js`): the query parameters
 built from its two filters, clearing them, and the summary excerpt shown
 on each card.
 */
module CourseGallery {
  import opened Common
  import opened CourseModel
  import CourseService
  import opened CourseApi

  datatype Filters = Filters(title: string, priorityLevel: string)

  /** `clearFilters`' new state. */
  function ClearedFilters(): (f: Filters)
    ensures f.title == "" && f.priorityLevel == ""
  {
    Filters("", "")
  }

  /**
   `fetchPlans`' query parameters: each filter only when non-empty, and
   never `includeArchived`.
   */
  function FetchParams(filters: Filters): (p: Params)
    ensures "includeArchived" !in p
    ensures "title" in p <==> filters.title != ""
    ensures "priorityLevel" in p <==> filters.priorityLevel != ""
    ensures "title" in p ==> p["title"] == filters.title
    ensures "priorityLevel" in p ==> p["priorityLevel"] == filters.priorityLevel
    ensures p.Keys <= {"title", "priorityLevel"}
  {
    var p: Params := map[];
    var p := if filters.title != "" then p["title" := filters.title] else p;
    if filters.priorityLevel != "" then p["priorityLevel" := filters.priorityLevel] else p
  }

  /** With the filters cleared the gallery sends no parameters at all. */
  lemma ClearedFiltersSendNothing()
    ensures FetchParams(ClearedFilters()) == map[]
  {
  }

  /**
   Because the gallery never sends `includeArchived`, the server's default
   applies: the query binds, and no archived record is ever listed.
   */
  lemma GalleryHidesArchived(filters: Filters, repo: CourseService.Repo,
                             parseDate: string -> Option<Date>,
                             titleMatches: (string, string) -> bool)
    ensures var q := BindQuery(FetchParams(filters), parseDate);
      && q.Success? && !q.value.includeArchived
      && forall id :: id in CourseService.FindAll(repo, q.value, titleMatches) ==> !repo[id].archived
  {
  }

  /** The longest summary shown in full. */
  const EXCERPT_LENGTH: nat := 100

  /** The horizontal ellipsis appended to a cut summary. */
  const ELLIPSIS: char := '\U{2026}'

  function Min(a: nat, b: nat): nat {
    if a <= b then a else b
  }

  /**
   `plan.summary?.length > 100 ? plan.summary.slice(0, 100) + '…' : plan.summary`.
   A missing summary stays missing, one of at most 100 characters is shown
   unchanged, a longer one is cut to its first 100 characters followed by
   the ellipsis; either way the shown text starts with the first
   `min(100, length)` characters of the summary.
   */
  function Excerpt(summary: Option<string>): (shown: Option<string>)
    ensures shown.Some? <==> summary.Some?
    ensures summary.Some? && |summary.value| <= EXCERPT_LENGTH ==> shown == summary
    ensures summary.Some? && |summary.value| > EXCERPT_LENGTH ==>
      |shown.value| == EXCERPT_LENGTH + 1 && shown.value[EXCERPT_LENGTH] == ELLIPSIS
    ensures summary.Some? ==>
      var n := Min(EXCERPT_LENGTH, |summary.value|);
      |shown.value| >= n && shown.value[..n] == summary.value[..n]
  {
    if summary.Some? && |summary.value| > EXCERPT_LENGTH then
      Some(summary.value[..EXCERPT_LENGTH] + [ELLIPSIS])
    else summary
  }
}
