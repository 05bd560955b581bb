/**
 The server-side operations of `CourseService.java` over an in-memory
 repository: a map from record id to record. A lookup that misses is the
 source's `RuntimeException("Course not found")`, here a `Failure`.

 Every operation returns the new repository together with the record the
 source returns (the one `repo.save` wrote).
 */
module CourseService {
  import opened Common
  import opened CourseModel

  type Repo = map<CourseId, Course>

  datatype Error = NotFound

  /** The filter arguments of `findAll` (pagination and sorting are left out). */
  datatype Query = Query(
    title: Option<string>,
    priorityLevel: Option<string>,
    targetDate: Option<Date>,
    includeArchived: bool)

  /** A text filter that constrains: present and not blank in Java's sense. */
  predicate Active(filter: Option<string>) {
    filter.Some? && !IsBlankJava(filter.value)
  }

  /** One `Criteria.and(...)` clause of the Mongo query `findAll` builds. */
  datatype Criterion =
    | ArchivedIs(flag: bool)
    | TitleRegex(pattern: string)
    | PriorityIs(level: string)
    | TargetDateIs(date: Date)

  /**
   The clauses `findAll` chains, in its order: `archived` is false unless
   archived records are requested, the title pattern and the priority when
   they are non-blank, the target date when it is given.
   */
  function Criteria(q: Query): (cs: seq<Criterion>)
    ensures |cs| <= 4
    ensures ArchivedIs(false) in cs <==> !q.includeArchived
    ensures ArchivedIs(true) !in cs
    ensures forall pat :: TitleRegex(pat) in cs <==> Active(q.title) && q.title.value == pat
    ensures forall l :: PriorityIs(l) in cs <==> Active(q.priorityLevel) && q.priorityLevel.value == l
    ensures forall d :: TargetDateIs(d) in cs <==> q.targetDate == Some(d)
  {
    var cs := if q.includeArchived then [] else [ArchivedIs(false)];
    var cs := if Active(q.title) then cs + [TitleRegex(q.title.value)] else cs;
    var cs := if Active(q.priorityLevel) then cs + [PriorityIs(q.priorityLevel.value)] else cs;
    if q.targetDate.Some? then cs + [TargetDateIs(q.targetDate.value)] else cs
  }

  /**
   Whether one stored record satisfies one clause. The case-insensitive
   regular-expression match is the uninterpreted `titleMatches(pattern,
   title)`; a `null` field satisfies no clause that names it.
   */
  predicate Holds(c: Course, cr: Criterion, titleMatches: (string, string) -> bool) {
    match cr
    case ArchivedIs(b) => c.archived == b
    case TitleRegex(pat) => c.title.Some? && titleMatches(pat, c.title.value)
    case PriorityIs(l) => c.priorityLevel == Some(l)
    case TargetDateIs(d) => c.targetDate == Some(d)
  }

  /**
   A record matches the query when it satisfies every clause the query
   builds (no clause at all matches everything). Equivalently, filter by
   filter: archived records only when requested, an active title filter
   matches a present title, an active priority filter equals the stored
   priority, and a given target date equals the stored one.
   */
  function Matches(c: Course, q: Query, titleMatches: (string, string) -> bool): (r: bool)
    ensures r <==>
      && (q.includeArchived || !c.archived)
      && (Active(q.title) ==> c.title.Some? && titleMatches(q.title.value, c.title.value))
      && (Active(q.priorityLevel) ==> c.priorityLevel == q.priorityLevel)
      && (q.targetDate.Some? ==> c.targetDate == q.targetDate)
  {
    CriteriaConjunction(c, q, titleMatches);
    forall k | 0 <= k < |Criteria(q)| :: Holds(c, Criteria(q)[k], titleMatches)
  }

  /** The conjunction of the built clauses, read filter by filter. */
  lemma CriteriaConjunction(c: Course, q: Query, titleMatches: (string, string) -> bool)
    ensures (forall k | 0 <= k < |Criteria(q)| :: Holds(c, Criteria(q)[k], titleMatches)) <==>
      && (q.includeArchived || !c.archived)
      && (Active(q.title) ==> c.title.Some? && titleMatches(q.title.value, c.title.value))
      && (Active(q.priorityLevel) ==> c.priorityLevel == q.priorityLevel)
      && (q.targetDate.Some? ==> c.targetDate == q.targetDate)
  {
    var cs := Criteria(q);
    if !q.includeArchived {
      assert ArchivedIs(false) in cs;
    }
    if Active(q.title) {
      assert TitleRegex(q.title.value) in cs;
    }
    if Active(q.priorityLevel) {
      assert PriorityIs(q.priorityLevel.value) in cs;
    }
    if q.targetDate.Some? {
      assert TargetDateIs(q.targetDate.value) in cs;
    }
  }

  /** The ids of the records `findAll` selects (before paging). */
  function FindAll(repo: Repo, q: Query, titleMatches: (string, string) -> bool): (ids: set<CourseId>)
    ensures ids <= repo.Keys
    ensures !q.includeArchived ==> forall id :: id in ids ==> !repo[id].archived
    ensures q == Query(None, None, None, true) ==> ids == repo.Keys
  {
    set id | id in repo && Matches(repo[id], q, titleMatches)
  }

  /**
   How each filter narrows the selection. With no filter and archived
   records included, every record is selected. Excluding archived records
   keeps exactly the unarchived ones. A blank or absent title or priority
   filter selects the same records as no filter; an active one keeps
   exactly the records whose title matches the pattern, or whose priority
   equals it. A given target date keeps exactly the records with that date.
   */
  lemma FilterSemantics(repo: Repo, q: Query, titleMatches: (string, string) -> bool)
    ensures FindAll(repo, Query(None, None, None, true), titleMatches) == repo.Keys
    ensures FindAll(repo, q.(includeArchived := false), titleMatches) ==
      set id | id in FindAll(repo, q.(includeArchived := true), titleMatches) && !repo[id].archived
    ensures !Active(q.title) ==>
      FindAll(repo, q, titleMatches) == FindAll(repo, q.(title := None), titleMatches)
    ensures Active(q.title) ==>
      FindAll(repo, q, titleMatches) ==
        set id | id in FindAll(repo, q.(title := None), titleMatches)
                 && repo[id].title.Some? && titleMatches(q.title.value, repo[id].title.value)
    ensures !Active(q.priorityLevel) ==>
      FindAll(repo, q, titleMatches) == FindAll(repo, q.(priorityLevel := None), titleMatches)
    ensures Active(q.priorityLevel) ==>
      FindAll(repo, q, titleMatches) ==
        set id | id in FindAll(repo, q.(priorityLevel := None), titleMatches)
                 && repo[id].priorityLevel == q.priorityLevel
    ensures q.targetDate.Some? ==>
      FindAll(repo, q, titleMatches) ==
        set id | id in FindAll(repo, q.(targetDate := None), titleMatches)
                 && repo[id].targetDate == q.targetDate
  {
  }

  /** A stored record is filed under its own id (Mongo's `_id` is the key). */
  predicate WellKeyed(repo: Repo) {
    forall id :: id in repo ==> repo[id].id == Some(id)
  }

  /** The relationship the weekly chart depends on. */
  predicate CompletionConsistent(c: Course) {
    c.completed <==> c.completedDate.Some?
  }

  predicate AllConsistent(repo: Repo) {
    forall id :: id in repo ==> CompletionConsistent(repo[id])
  }

  /**
   `create`: `repo.save` of the request body. A body without an id gets
   the fresh id the store generates (`freshId`, not yet in use); a body
   that carries an id replaces the record with that id (an upsert). The
   saved record is the body with its id filled in; every other record is
   untouched.
   */
  function Create(repo: Repo, body: Course, freshId: CourseId): (res: (Repo, Course))
    requires freshId !in repo
    ensures var (repo', saved) := res;
      && saved.id.Some?
      && (body.id.Some? ==> saved.id == body.id)
      && (body.id.None? ==> saved.id.value !in repo && |repo'| == |repo| + 1)
      && (forall f :: f != Id ==> Get(saved, f) == Get(body, f))
      && saved.id.value in repo' && repo'[saved.id.value] == saved
      && (forall k :: k != saved.id.value ==> (k in repo' <==> k in repo))
      && (forall k :: k in repo && k != saved.id.value ==> repo'[k] == repo[k])
  {
    var key := if body.id.Some? then body.id.value else freshId;
    var saved := body.(id := Some(key));
    assert repo[key := saved].Keys == repo.Keys + {key};
    (repo[key := saved], saved)
  }

  /**
   `update`: copies exactly the ten editable fields from the body onto the
   stored record; the id, both flags and the completion date keep their
   stored values. A missing id fails and changes nothing.
   */
  function Update(repo: Repo, id: CourseId, body: Course): (res: Result<(Repo, Course), Error>)
    ensures res.Failure? <==> id !in repo
    ensures res.Success? ==>
      var (repo', saved) := res.value;
      && (forall f :: Editable(f) ==> Get(saved, f) == Get(body, f))
      && (forall f :: !Editable(f) ==> Get(saved, f) == Get(repo[id], f))
      && repo' == repo[id := saved]
  {
    if id !in repo then Failure(NotFound)
    else
      var existing := repo[id];
      var saved := existing.(
        title := body.title, summary := body.summary, category := body.category,
        level := body.level, duration := body.duration, content := body.content,
        subject := body.subject, targetDate := body.targetDate,
        priorityLevel := body.priorityLevel, materials := body.materials);
      Success((repo[id := saved], saved))
  }

  /** `delete`: the id is gone and every other record is untouched (a missing id is a no-op). */
  function Delete(repo: Repo, id: CourseId): (repo': Repo)
    ensures id !in repo'
    ensures forall k :: k != id ==> (k in repo' <==> k in repo)
    ensures forall k :: k in repo' ==> repo'[k] == repo[k]
    ensures id !in repo ==> repo' == repo
  {
    repo - {id}
  }

  /** `archive`: sets `archived` and nothing else. A missing id fails. */
  function Archive(repo: Repo, id: CourseId): (res: Result<(Repo, Course), Error>)
    ensures res.Failure? <==> id !in repo
    ensures res.Success? ==>
      var (repo', saved) := res.value;
      && saved.archived
      && (forall f :: f != Archived ==> Get(saved, f) == Get(repo[id], f))
      && repo' == repo[id := saved]
  {
    if id !in repo then Failure(NotFound)
    else
      var saved := repo[id].(archived := true);
      Success((repo[id := saved], saved))
  }

  /**
   `markCompleted`: sets `completed` to the request's value and the
   completion date to `today` when completing, to `null` otherwise.
   Nothing else changes. A missing id fails.
   */
  function MarkCompleted(repo: Repo, id: CourseId, completed: bool, today: Date)
    : (res: Result<(Repo, Course), Error>)
    ensures res.Failure? <==> id !in repo
    ensures res.Success? ==>
      var (repo', saved) := res.value;
      && saved.completed == completed
      && (completed ==> saved.completedDate == Some(today))
      && CompletionConsistent(saved)
      && (forall f :: f != Completed && f != CompletedDate ==> Get(saved, f) == Get(repo[id], f))
      && repo' == repo[id := saved]
  {
    if id !in repo then Failure(NotFound)
    else
      var saved := repo[id].(completed := completed,
                             completedDate := if completed then Some(today) else None);
      Success((repo[id := saved], saved))
  }

  /** Archiving twice leaves the repository as archiving once. */
  lemma ArchiveIdempotent(repo: Repo, id: CourseId)
    requires id in repo
    ensures Archive(Archive(repo, id).value.0, id).value.0 == Archive(repo, id).value.0
  {
  }

  /**
   Every mutating operation keeps the repository well keyed and keeps the
   completed/completion-date relationship; `create` does so when the body
   it stores satisfies it.
   */
  lemma OperationsPreserveInvariants(repo: Repo, id: CourseId, body: Course,
                                     freshId: CourseId, completed: bool, today: Date)
    requires WellKeyed(repo) && AllConsistent(repo)
    requires freshId !in repo
    ensures CompletionConsistent(body) ==>
      var repo' := Create(repo, body, freshId).0; WellKeyed(repo') && AllConsistent(repo')
    ensures Update(repo, id, body).Success? ==>
      var repo' := Update(repo, id, body).value.0; WellKeyed(repo') && AllConsistent(repo')
    ensures Archive(repo, id).Success? ==>
      var repo' := Archive(repo, id).value.0; WellKeyed(repo') && AllConsistent(repo')
    ensures MarkCompleted(repo, id, completed, today).Success? ==>
      var repo' := MarkCompleted(repo, id, completed, today).value.0;
      WellKeyed(repo') && AllConsistent(repo')
    ensures WellKeyed(Delete(repo, id)) && AllConsistent(Delete(repo, id))
  {
  }
}
