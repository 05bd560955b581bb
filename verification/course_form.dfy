/**
 The plan form (`CourseForm.js`): the form state, its client-side
 validation, the edits of the two list fields (content sections and
 material links), the defaulting applied when a record is loaded for
 editing, and the decision which request a submit issues.
 */
module CourseForm {
  import opened Common

  /** The form state: every scalar is a string (the empty string when unset). */
  datatype Form = Form(
    title: string,
    summary: string,
    subject: string,
    targetDate: string,
    priorityLevel: string,
    category: string,
    level: string,
    duration: string,
    content: seq<string>,
    materials: seq<string>,
    completed: bool)

  /** The keys of the error map, one per validated field. */
  datatype ErrorKey =
    | Title | Summary | Subject | TargetDate | PriorityLevel | Category | Level
    | Duration | Content | Materials

  type Errors = map<ErrorKey, string>

  /** The message shown under each field. */
  function Message(k: ErrorKey): string {
    match k
    case Title => "Title is required."
    case Summary => "Description is required."
    case Subject => "Subject is required."
    case TargetDate => "Target date is required."
    case PriorityLevel => "Select priority."
    case Category => "Select a category."
    case Level => "Select a level."
    case Duration => "Duration is required."
    case Content => "All content sections must be filled."
    case Materials => "All material links must be filled."
  }

  /**
   The state the form starts in when creating a plan: every text field
   empty, one empty entry in each list, not completed.
   */
  function EmptyForm(): (f: Form)
    ensures f.title == f.summary == f.subject == f.targetDate == ""
    ensures f.priorityLevel == f.category == f.level == f.duration == ""
    ensures f.content == [""] && f.materials == [""]
    ensures !f.completed
  {
    Form("", "", "", "", "", "", "", "", [""], [""], false)
  }

  /** Some element of `items` is blank. */
  predicate HasBlank(items: seq<string>) {
    exists i :: 0 <= i < |items| && IsBlankJs(items[i])
  }

  /**
   A record ready to submit, in the data model's terms: the free-text
   fields contain a non-white-space character, the selected fields are
   chosen, and no content section or material link is blank.
   */
  predicate Complete(f: Form) {
    && !IsBlankJs(f.title) && !IsBlankJs(f.summary) && !IsBlankJs(f.subject)
    && !IsBlankJs(f.duration)
    && f.targetDate != "" && f.priorityLevel != "" && f.category != "" && f.level != ""
    && !HasBlank(f.content) && !HasBlank(f.materials)
  }

  /** `items.some(c => !c.trim())`, evaluated left to right. */
  function SomeBlank(items: seq<string>): (r: bool)
    ensures r <==> HasBlank(items)
  {
    if items == [] then false
    else if Trim(items[0]) == "" then true
    else
      var r := SomeBlank(items[1..]);
      assert HasBlank(items[1..]) <==> HasBlank(items) by {
        if HasBlank(items) {
          var i :| 0 <= i < |items| && IsBlankJs(items[i]);
          assert i != 0;
          assert IsBlankJs(items[1..][i - 1]);
        }
      }
      r
  }

  /** Every error key. */
  function AllKeys(): set<ErrorKey> {
    {Title, Summary, Subject, TargetDate, PriorityLevel, Category, Level, Duration,
     Content, Materials}
  }

  /** The test `validate` applies for key `k`, as the source writes it. */
  predicate Check(f: Form, k: ErrorKey) {
    match k
    case Title => Trim(f.title) == ""
    case Summary => Trim(f.summary) == ""
    case Subject => Trim(f.subject) == ""
    case TargetDate => f.targetDate == ""
    case PriorityLevel => f.priorityLevel == ""
    case Category => f.category == ""
    case Level => f.level == ""
    case Duration => Trim(f.duration) == ""
    case Content => SomeBlank(f.content)
    case Materials => SomeBlank(f.materials)
  }

  /** Field `k` is in error, in the data model's terms (the partner of `Check`). */
  predicate Fails(f: Form, k: ErrorKey) {
    match k
    case Title => IsBlankJs(f.title)
    case Summary => IsBlankJs(f.summary)
    case Subject => IsBlankJs(f.subject)
    case TargetDate => f.targetDate == ""
    case PriorityLevel => f.priorityLevel == ""
    case Category => f.category == ""
    case Level => f.level == ""
    case Duration => IsBlankJs(f.duration)
    case Content => HasBlank(f.content)
    case Materials => HasBlank(f.materials)
  }

  /** The source's test for one key is the data-model condition for it. */
  lemma CheckMeaning(f: Form, k: ErrorKey)
    ensures Check(f, k) <==> Fails(f, k)
    ensures k in AllKeys()
  {
    match k
    case Title => assert Trim(f.title) == "" <==> IsBlankJs(f.title);
    case Summary => assert Trim(f.summary) == "" <==> IsBlankJs(f.summary);
    case Subject => assert Trim(f.subject) == "" <==> IsBlankJs(f.subject);
    case Duration => assert Trim(f.duration) == "" <==> IsBlankJs(f.duration);
    case Content => assert SomeBlank(f.content) <==> HasBlank(f.content);
    case Materials => assert SomeBlank(f.materials) <==> HasBlank(f.materials);
    case _ =>
  }

  lemma ChecksMeaning(f: Form)
    ensures forall k :: k in AllKeys() && (Check(f, k) <==> Fails(f, k))
  {
    forall k ensures k in AllKeys() && (Check(f, k) <==> Fails(f, k)) {
      CheckMeaning(f, k);
    }
  }

  /**
   `validate`'s error map. A free-text field is in error exactly when it
   is blank; a selected field (date, priority, category, level) exactly
   when it is the empty string, without trimming; a list field exactly
   when at least one element is blank, and then with a single entry
   however many elements are blank.
   */
  function Validate(f: Form): (errs: Errors)
    ensures forall k :: k in errs ==> errs[k] == Message(k)
    ensures forall k :: k in errs <==> Fails(f, k)
    ensures Title in errs <==> IsBlankJs(f.title)
    ensures Summary in errs <==> IsBlankJs(f.summary)
    ensures Subject in errs <==> IsBlankJs(f.subject)
    ensures Duration in errs <==> IsBlankJs(f.duration)
    ensures TargetDate in errs <==> f.targetDate == ""
    ensures PriorityLevel in errs <==> f.priorityLevel == ""
    ensures Category in errs <==> f.category == ""
    ensures Level in errs <==> f.level == ""
    ensures Content in errs <==> HasBlank(f.content)
    ensures Materials in errs <==> HasBlank(f.materials)
  {
    ChecksMeaning(f);
    map k | k in AllKeys() && Check(f, k) :: Message(k)
  }

  /** A form is complete exactly when it is in error on no key. */
  lemma CompleteFailsNowhere(f: Form)
    ensures Complete(f) <==> forall k :: !Fails(f, k)
  {
    if !Complete(f) {
      if IsBlankJs(f.title) { assert Fails(f, Title); }
      else if IsBlankJs(f.summary) { assert Fails(f, Summary); }
      else if IsBlankJs(f.subject) { assert Fails(f, Subject); }
      else if IsBlankJs(f.duration) { assert Fails(f, Duration); }
      else if f.targetDate == "" { assert Fails(f, TargetDate); }
      else if f.priorityLevel == "" { assert Fails(f, PriorityLevel); }
      else if f.category == "" { assert Fails(f, Category); }
      else if f.level == "" { assert Fails(f, Level); }
      else if HasBlank(f.content) { assert Fails(f, Content); }
      else { assert Fails(f, Materials); }
    }
  }

  /** `validate()`'s return value: the error map has no keys. */
  function IsValid(f: Form): (ok: bool)
    ensures ok <==> Complete(f)
  {
    var errs := Validate(f);
    assert !Complete(f) ==> exists k :: k in errs;
    assert Complete(f) ==> errs.Keys == {};
    |errs| == 0
  }

  /** The untouched form fails validation on every one of its ten fields. */
  lemma EmptyFormFailsEverywhere()
    ensures Validate(EmptyForm()).Keys == AllKeys()
    ensures !IsValid(EmptyForm())
  {
    var f := EmptyForm();
    assert IsBlankJs(f.content[0]);
    assert IsBlankJs(f.materials[0]);
    var errs := Validate(f);
    assert Title in errs && Summary in errs && Subject in errs && Duration in errs;
    assert Content in errs && Materials in errs;
  }

  // ---------------------------------------------------------------------
  // Editing the list fields
  // ---------------------------------------------------------------------

  /** The two list-valued fields. */
  datatype ListField = ContentList | MaterialsList

  function Items(f: Form, which: ListField): seq<string> {
    match which
    case ContentList => f.content
    case MaterialsList => f.materials
  }

  function WithItems(f: Form, which: ListField, items: seq<string>): (r: Form)
    ensures Items(r, which) == items
  {
    match which
    case ContentList => f.(content := items)
    case MaterialsList => f.(materials := items)
  }

  /**
   `handleArrayChange(field, idx, val)`. The index comes from rendering
   the list, so it is always a valid position. The list keeps its length,
   position `idx` holds the new value, every other position and every
   other field is unchanged.
   */
  function ChangeItem(f: Form, which: ListField, idx: nat, v: string): (r: Form)
    requires idx < |Items(f, which)|
    ensures |Items(r, which)| == |Items(f, which)|
    ensures Items(r, which)[idx] == v
    ensures forall j :: 0 <= j < |Items(f, which)| && j != idx ==>
      Items(r, which)[j] == Items(f, which)[j]
    ensures r == WithItems(f, which, Items(r, which))
  {
    WithItems(f, which, Items(f, which)[idx := v])
  }

  /** `addArrayField(field)`: one empty entry appended, the existing ones kept in order. */
  function AddItem(f: Form, which: ListField): (r: Form)
    ensures |Items(r, which)| == |Items(f, which)| + 1
    ensures Items(r, which)[..|Items(f, which)|] == Items(f, which)
    ensures Items(r, which)[|Items(f, which)|] == ""
    ensures r == WithItems(f, which, Items(r, which))
  {
    WithItems(f, which, Items(f, which) + [""])
  }

  /** `items.filter((_, i) => i !== idx)`, from position `from` on. */
  function FilterOut(items: seq<string>, idx: int, from: nat): (r: seq<string>)
    requires from <= |items|
    ensures from <= idx < |items| ==> r == items[from..idx] + items[idx + 1..]
    ensures !(from <= idx < |items|) ==> r == items[from..]
    decreases |items| - from
  {
    if from == |items| then []
    else if from == idx then FilterOut(items, idx, from + 1)
    else [items[from]] + FilterOut(items, idx, from + 1)
  }

  /**
   `removeArrayField(field, idx)`: exactly position `idx` is dropped and
   the rest keep their order; an index outside the list removes nothing.
   */
  function RemoveItem(f: Form, which: ListField, idx: int): (r: Form)
    ensures 0 <= idx < |Items(f, which)| ==>
      Items(r, which) == Items(f, which)[..idx] + Items(f, which)[idx + 1..]
    ensures !(0 <= idx < |Items(f, which)|) ==> r == f
    ensures r == WithItems(f, which, Items(r, which))
  {
    var items := FilterOut(Items(f, which), idx, 0);
    assert Items(f, which)[0..] == Items(f, which);
    assert 0 <= idx < |Items(f, which)| ==> Items(f, which)[0..idx] == Items(f, which)[..idx];
    WithItems(f, which, items)
  }

  /** The Remove button is rendered only for lists with more than one entry. */
  predicate RemoveOffered(f: Form, which: ListField) {
    |Items(f, which)| > 1
  }

  /** Both list fields have at least one entry (one input box each). */
  predicate ListsNonEmpty(f: Form) {
    |f.content| > 0 && |f.materials| > 0
  }

  /**
   The edits the form offers keep both lists non-empty: changing keeps the
   length, adding grows it, and removal is only offered on longer lists.
   */
  lemma EditsKeepListsNonEmpty(f: Form, which: ListField, idx: nat, v: string)
    requires ListsNonEmpty(f)
    ensures ListsNonEmpty(AddItem(f, which))
    ensures idx < |Items(f, which)| ==> ListsNonEmpty(ChangeItem(f, which, idx, v))
    ensures RemoveOffered(f, which) && idx < |Items(f, which)| ==>
      ListsNonEmpty(RemoveItem(f, which, idx))
  {
  }

  // ---------------------------------------------------------------------
  // Loading a record for editing
  // ---------------------------------------------------------------------

  /** The record as the server sends it: any field may be missing or `null`. */
  datatype Record = Record(
    title: Option<string>,
    summary: Option<string>,
    subject: Option<string>,
    targetDate: Option<string>,
    priorityLevel: Option<string>,
    category: Option<string>,
    level: Option<string>,
    duration: Option<string>,
    content: Option<seq<string>>,
    materials: Option<seq<string>>,
    completed: Option<bool>)

  /** `data.content?.length ? data.content : ['']`. */
  function ListOrBlank(items: Option<seq<string>>): (r: seq<string>)
    ensures |r| > 0
    ensures items.Some? && items.value != [] ==> r == items.value
    ensures items.None? || items.value == [] ==> r == [""]
  {
    if items.Some? && |items.value| > 0 then items.value else [""]
  }

  /**
   The form state set from a loaded record: missing scalars become the
   empty string, missing or empty lists become one empty entry, a missing
   `completed` becomes false. Present values are kept.
   */
  function FromRecord(data: Record): (f: Form)
    ensures ListsNonEmpty(f)
    ensures data.title.None? ==> f.title == ""
    ensures data.title.Some? ==> f.title == data.title.value
    ensures data.summary.None? ==> f.summary == ""
    ensures data.summary.Some? ==> f.summary == data.summary.value
    ensures data.subject.None? ==> f.subject == ""
    ensures data.subject.Some? ==> f.subject == data.subject.value
    ensures data.targetDate.None? ==> f.targetDate == ""
    ensures data.targetDate.Some? ==> f.targetDate == data.targetDate.value
    ensures data.priorityLevel.None? ==> f.priorityLevel == ""
    ensures data.priorityLevel.Some? ==> f.priorityLevel == data.priorityLevel.value
    ensures data.category.None? ==> f.category == ""
    ensures data.category.Some? ==> f.category == data.category.value
    ensures data.level.None? ==> f.level == ""
    ensures data.level.Some? ==> f.level == data.level.value
    ensures data.duration.None? ==> f.duration == ""
    ensures data.duration.Some? ==> f.duration == data.duration.value
    ensures f.content == ListOrBlank(data.content) && f.materials == ListOrBlank(data.materials)
    ensures data.content.Some? && data.content.value != [] ==> f.content == data.content.value
    ensures data.materials.Some? && data.materials.value != [] ==> f.materials == data.materials.value
    ensures f.completed <==> data.completed == Some(true)
  {
    Form(
      data.title.GetOr(""), data.summary.GetOr(""), data.subject.GetOr(""),
      data.targetDate.GetOr(""), data.priorityLevel.GetOr(""), data.category.GetOr(""),
      data.level.GetOr(""), data.duration.GetOr(""),
      ListOrBlank(data.content), ListOrBlank(data.materials),
      data.completed.GetOr(false))
  }

  /** Both ways the form gets its state give one input box per list field. */
  lemma InitialStatesHaveNonEmptyLists(data: Record)
    ensures ListsNonEmpty(EmptyForm())
    ensures ListsNonEmpty(FromRecord(data))
  {
  }

  /** A loaded record with no content sections fails validation on the content field. */
  lemma MissingContentFailsValidation(data: Record)
    requires data.content.None? || data.content.value == []
    ensures Content in Validate(FromRecord(data))
  {
    assert IsBlankJs(FromRecord(data).content[0]);
  }

  // ---------------------------------------------------------------------
  // Submitting
  // ---------------------------------------------------------------------

  /** What a submit does: nothing but show errors, or exactly one request. */
  datatype Submission =
    | Blocked(errors: Errors)
    | Put(id: string, body: Form)
    | Post(body: Form)

  /** `Boolean(id)` for the route parameter: present and not the empty string. */
  function IsEdit(routeId: Option<string>): (r: bool)
    ensures r <==> routeId.Some? && |routeId.value| > 0
  {
    routeId.Some? && routeId.value != ""
  }

  /**
   `handleSubmit`: an incomplete form issues no request and shows the
   validation errors; a complete one issues exactly one request, a PUT of
   the form to the edited id when editing and a POST otherwise.
   */
  function Submit(f: Form, routeId: Option<string>): (s: Submission)
    ensures s.Blocked? <==> !Complete(f)
    ensures s.Blocked? ==> s.errors == Validate(f) && s.errors != map[]
    ensures s.Put? <==> Complete(f) && IsEdit(routeId)
    ensures s.Post? <==> Complete(f) && !IsEdit(routeId)
    ensures !s.Blocked? ==> s.body == f
    ensures s.Put? ==> s.id == routeId.value
  {
    if !IsValid(f) then
      var errs := Validate(f);
      assert errs != map[] by { assert |errs| != 0; }
      Blocked(errs)
    else if IsEdit(routeId) then Put(routeId.value, f)
    else Post(f)
  }

  /**
   A form that is complete except for an empty title is blocked with one
   error, under the title, and issues no request.
   */
  lemma EmptyTitleBlocksSubmit(f: Form, routeId: Option<string>)
    requires Complete(f.(title := "x"))
    requires f.title == ""
    ensures Submit(f, routeId) == Blocked(map[Title := Message(Title)])
  {
    OnlyTitleFails(f);
    ValidateOnlyTitle(f);
    assert IsBlankJs(f.title);
  }

  /** Blanking the title of a complete form makes the title its only failing field. */
  lemma OnlyTitleFails(f: Form)
    requires Complete(f.(title := "x"))
    requires f.title == ""
    ensures forall k :: Fails(f, k) <==> k == Title
  {
    var g := f.(title := "x");
    CompleteFailsNowhere(g);
    forall k | k != Title ensures !Fails(f, k) {
      assert Fails(f, k) == Fails(g, k);
    }
    assert Fails(f, Title);
  }

  lemma ValidateOnlyTitle(f: Form)
    requires forall k :: Fails(f, k) <==> k == Title
    ensures Validate(f) == map[Title := Message(Title)]
  {
    assert Validate(f).Keys == {Title};
  }
}
