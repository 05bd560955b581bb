/**
 The plan list view (`CourseList.js`): the progress summary over the
 loaded plans, the query parameters built from the filters, clearing the
 filters, and the three row actions (toggle completion, and the
 confirm-guarded archive and delete).
 */
module CourseList {
  import opened Common
  import opened CourseModel
  import CourseService
  import opened CourseApi

  // ---------------------------------------------------------------------
  // Progress
  // ---------------------------------------------------------------------

  /** `plans.filter(p => p.completed).length`. */
  function CompletedCount(plans: seq<Course>): (n: nat)
    ensures n <= |plans|
    ensures n == 0 <==> forall i :: 0 <= i < |plans| ==> !plans[i].completed
    ensures n == |plans| <==> forall i :: 0 <= i < |plans| ==> plans[i].completed
  {
    if plans == [] then 0
    else
      var rest := CompletedCount(plans[1..]);
      assert forall i :: 1 <= i < |plans| ==> plans[i] == plans[1..][i - 1];
      (if plans[0].completed then 1 else 0) + rest
  }

  /** The positions of the completed plans: an independent reading of the count. */
  function CompletedPositions(plans: seq<Course>): set<nat> {
    set i: nat | i < |plans| && plans[i].completed
  }

  /** Counting the completed plans of a concatenation adds the two counts. */
  lemma {:induction false} CompletedCountAppend(a: seq<Course>, b: seq<Course>)
    ensures CompletedCount(a + b) == CompletedCount(a) + CompletedCount(b)
    decreases |a|
  {
    if a == [] {
      assert a + b == b;
    } else {
      assert (a + b)[1..] == a[1..] + b;
      CompletedCountAppend(a[1..], b);
    }
  }

  /** The count is the number of positions holding a completed plan. */
  lemma {:induction false} CompletedCountIsPositions(plans: seq<Course>)
    ensures CompletedCount(plans) == |CompletedPositions(plans)|
    decreases |plans|
  {
    if plans != [] {
      var n := |plans| - 1;
      var init := plans[..n];
      assert plans == init + [plans[n]];
      CompletedCountAppend(init, [plans[n]]);
      CompletedCountIsPositions(init);
      var last: set<nat> := if plans[n].completed then {n} else {};
      assert CompletedPositions(plans) == CompletedPositions(init) + last;
      assert n !in CompletedPositions(init);
      assert CompletedCount([plans[n]]) == |last|;
    }
  }

  /**
   `total ? Math.round(part / total * 100) : 0`, on exact rationals:
   the whole percentage nearest to `100 * part / total`, halves rounded
   up, stated as `|200 * part - 2 * r * total| <= total` with the upper
   end excluded.
   */
  function Percent(part: nat, total: nat): (r: nat)
    ensures total == 0 ==> r == 0
    ensures total > 0 ==> 2 * r * total - total <= 200 * part < 2 * r * total + total
    ensures part <= total ==> r <= 100
    ensures total > 0 && part == 0 ==> r == 0
    ensures total > 0 && part == total ==> r == 100
  {
    if total == 0 then 0
    else
      RoundHalfUp(part, total);
      (200 * part + total) / (2 * total)
  }

  lemma RoundHalfUp(part: nat, total: nat)
    requires total > 0
    ensures var r := (200 * part + total) / (2 * total);
      && 2 * r * total - total <= 200 * part < 2 * r * total + total
      && (part <= total ==> r <= 100)
      && (part == 0 ==> r == 0)
      && (part == total ==> r == 100)
  {
    var n := 200 * part + total;
    var d := 2 * total;
    var r := n / d;
    assert r * d <= n < r * d + d;
    assert 2 * r * total == r * d;
    if part <= total {
      assert n < 101 * d;
      CancelFactor(r, 101, d);
    }
    if part == 0 {
      assert n < 1 * d;
      CancelFactor(r, 1, d);
    }
    if part == total {
      assert n < 101 * d;
      CancelFactor(r, 101, d);
      assert 100 * d <= n < (r + 1) * d;
      CancelFactor(100, r + 1, d);
    }
  }

  /** Dividing both sides of `a * d < b * d` by a positive `d`. */
  lemma CancelFactor(a: int, b: int, d: int)
    requires d > 0 && a * d < b * d
    ensures a < b
  {
  }

  /** The progress line: how many plans, how many are done, and the rounded share. */
  datatype Progress = Progress(total: nat, completedCount: nat, percent: nat)

  function ProgressOf(plans: seq<Course>): (p: Progress)
    ensures p.total == |plans| && p.completedCount <= p.total
    ensures p.completedCount == |CompletedPositions(plans)|
    ensures p.percent == Percent(p.completedCount, p.total)
    ensures p.percent <= 100
    ensures plans == [] ==> p.percent == 0
    ensures (forall i :: 0 <= i < |plans| ==> !plans[i].completed) ==> p.percent == 0
    ensures plans != [] && (forall i :: 0 <= i < |plans| ==> plans[i].completed) ==> p.percent == 100
  {
    var done := CompletedCount(plans);
    CompletedCountIsPositions(plans);
    Progress(|plans|, done, Percent(done, |plans|))
  }

  // ---------------------------------------------------------------------
  // Filters and query parameters
  // ---------------------------------------------------------------------

  datatype Filters = Filters(subject: string, priorityLevel: string, targetDate: string)

  /** `clearFilters`' new state: every filter empty. */
  function ClearedFilters(): (f: Filters)
    ensures f.subject == "" && f.priorityLevel == "" && f.targetDate == ""
  {
    Filters("", "", "")
  }

  /** A JavaScript `cond && { key: value }` spread: present only for a non-empty value. */
  function AddIfSet(p: Params, key: string, value: string): Params {
    if value != "" then p[key := value] else p
  }

  /**
   `fetchPlans`' query parameters: `includeArchived` always, each filter
   only when it is non-empty, and then with its value.
   */
  function FetchParams(filters: Filters, includeArchived: bool): (p: Params)
    ensures "includeArchived" in p && p["includeArchived"] == BoolText(includeArchived)
    ensures "subject" in p <==> filters.subject != ""
    ensures "priorityLevel" in p <==> filters.priorityLevel != ""
    ensures "targetDate" in p <==> filters.targetDate != ""
    ensures "subject" in p ==> p["subject"] == filters.subject
    ensures "priorityLevel" in p ==> p["priorityLevel"] == filters.priorityLevel
    ensures "targetDate" in p ==> p["targetDate"] == filters.targetDate
    ensures p.Keys <= {"includeArchived", "subject", "priorityLevel", "targetDate"}
  {
    var p := map["includeArchived" := BoolText(includeArchived)];
    var p := AddIfSet(p, "subject", filters.subject);
    var p := AddIfSet(p, "priorityLevel", filters.priorityLevel);
    AddIfSet(p, "targetDate", filters.targetDate)
  }

  /** With the filters cleared, the only parameter sent is the archived flag. */
  lemma ClearedFiltersSendOnlyArchivedFlag(includeArchived: bool)
    ensures FetchParams(ClearedFilters(), includeArchived) ==
      map["includeArchived" := BoolText(includeArchived)]
  {
  }

  /**
   The server never filters by subject: the list's query binds to the same
   `findAll` arguments whatever the subject filter holds, and the archived
   flag reaches the server unchanged.
   */
  lemma SubjectFilterHasNoEffect(filters: Filters, includeArchived: bool,
                                 parseDate: string -> Option<Date>)
    ensures BindQuery(FetchParams(filters, includeArchived), parseDate) ==
            BindQuery(FetchParams(filters.(subject := ""), includeArchived), parseDate)
    ensures var q := BindQuery(FetchParams(filters, includeArchived), parseDate);
      q.Success? ==> q.value.includeArchived == includeArchived
  {
    var p := FetchParams(filters, includeArchived);
    var p' := FetchParams(filters.(subject := ""), includeArchived);
    if filters.subject != "" {
      assert p' == p - {"subject"};
      SubjectIsNotRead(p', filters.subject, parseDate);
      assert p'["subject" := filters.subject] == p;
      assert p' - {"subject"} == p';
    } else {
      assert p == p';
    }
  }

  // ---------------------------------------------------------------------
  // Row actions
  // ---------------------------------------------------------------------

  /** `toggleComplete(id, current)`: asks for the opposite of the current state. */
  function ToggleComplete(id: CourseId, current: bool): (r: Option<Request>)
    ensures r.Some? && r.value.PatchComplete? && r.value.id == id
    ensures r.value.completed != current
  {
    Some(PatchComplete(id, !current))
  }

  /** `archivePlan(id)`: a request only when the user confirms. */
  function ArchivePlan(id: CourseId, confirmed: bool): (r: Option<Request>)
    ensures r.Some? <==> confirmed
    ensures r.Some? ==> r.value.PatchArchive? && r.value.id == id
  {
    if confirmed then Some(PatchArchive(id)) else None
  }

  /** `deletePlan(id)`: a request only when the user confirms. */
  function DeletePlan(id: CourseId, confirmed: bool): (r: Option<Request>)
    ensures r.Some? <==> confirmed
    ensures r.Some? ==> r.value.DeleteRequest? && r.value.id == id
  {
    if confirmed then Some(DeleteRequest(id)) else None
  }

  /** Declining the confirmation sends nothing, and the repository is unchanged. */
  lemma DeclinedActionsChangeNothing(repo: CourseService.Repo, id: CourseId, today: Date)
    ensures ArchivePlan(id, false).None? && DeletePlan(id, false).None?
    ensures Serve(repo, ArchivePlan(id, false), today) == Success(repo)
    ensures Serve(repo, DeletePlan(id, false), today) == Success(repo)
  {
  }

  /**
   Confirmed, delete removes the record and keeps every other one; archive
   hides the record from a default listing and keeps every other one.
   */
  lemma ConfirmedActionsApply(repo: CourseService.Repo, id: CourseId, today: Date,
                              titleMatches: (string, string) -> bool)
    requires id in repo
    ensures var r := Serve(repo, DeletePlan(id, true), today);
      r.Success? && r.value == repo - {id}
    ensures var r := Serve(repo, ArchivePlan(id, true), today);
      && r.Success? && id in r.value && r.value[id].archived
      && (forall k :: k != id ==> (k in r.value <==> k in repo))
      && id !in CourseService.FindAll(r.value, CourseService.Query(None, None, None, false), titleMatches)
  {
  }

  /**
   Toggling flips the stored flag and leaves the record consistent;
   toggling again with the refreshed value restores the flag, and a record
   that was open and consistent is restored exactly.
   */
  lemma ToggleTwice(repo: CourseService.Repo, id: CourseId, today: Date, later: Date)
    requires id in repo
    ensures var r1 := Serve(repo, ToggleComplete(id, repo[id].completed), today);
      && r1.Success? && id in r1.value
      && r1.value[id].completed == !repo[id].completed
      && CourseService.CompletionConsistent(r1.value[id])
    ensures var r1 := Serve(repo, ToggleComplete(id, repo[id].completed), today).value;
      var r2 := Serve(r1, ToggleComplete(id, r1[id].completed), later);
      && r2.Success? && id in r2.value
      && r2.value[id].completed == repo[id].completed
      && (!repo[id].completed && CourseService.CompletionConsistent(repo[id]) ==> r2.value == repo)
  {
    var r1 := Serve(repo, ToggleComplete(id, repo[id].completed), today).value;
    var r2 := Serve(r1, ToggleComplete(id, r1[id].completed), later).value;
    if !repo[id].completed && CourseService.CompletionConsistent(repo[id]) {
      assert r2[id] == repo[id];
      assert r2 == repo;
    }
  }
}
