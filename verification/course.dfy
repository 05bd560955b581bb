/**
 The persisted learning-plan record (`Course.java`). Every reference-typed
 Java field may be `null`, so it is an `Option`; the two primitive
 booleans start out `false`. Dates (`LocalDate`) are day numbers counted
 from Monday 1970-01-05.

 The class's fourteen getter/setter pairs are modelled once, generically,
 by `Get` and `Set` over an enumeration of the fields.
 */
module CourseModel {
  import opened Common

  type CourseId = string

  /** A calendar day, counted from Monday 1970-01-05. */
  type Date = int

  datatype Course = Course(
    id: Option<CourseId>,
    title: Option<string>,
    summary: Option<string>,
    category: Option<string>,
    level: Option<string>,
    duration: Option<string>,
    content: Option<seq<string>>,
    subject: Option<string>,
    targetDate: Option<Date>,
    priorityLevel: Option<string>,
    materials: Option<seq<string>>,
    completed: bool,
    archived: bool,
    completedDate: Option<Date>)

  /** The fields of the record, one per getter/setter pair. */
  datatype Field =
    | Id | Title | Summary | Category | Level | Duration | Content
    | Subject | TargetDate | PriorityLevel | Materials
    | Completed | Archived | CompletedDate

  /** A field's value, tagged with its Java type. */
  datatype Value =
    | Text(text: Option<string>)
    | Day(day: Option<Date>)
    | Texts(texts: Option<seq<string>>)
    | Flag(flag: bool)

  /** `v` has the Java type of field `f` (what the compiler checks for a setter call). */
  predicate Fits(f: Field, v: Value) {
    match f
    case TargetDate | CompletedDate => v.Day?
    case Content | Materials => v.Texts?
    case Completed | Archived => v.Flag?
    case _ => v.Text?
  }

  /**
   The ten fields the 10-argument constructor takes and `update` copies
   from a request body: everything except the id, the two status flags
   and the completion date.
   */
  predicate Editable(f: Field) {
    !(f.Id? || f.Completed? || f.Archived? || f.CompletedDate?)
  }

  /** The value of the `null` reference / `false` primitive for field `f`. */
  function Initial(f: Field): (v: Value)
    ensures Fits(f, v)
  {
    match f
    case TargetDate | CompletedDate => Day(None)
    case Content | Materials => Texts(None)
    case Completed | Archived => Flag(false)
    case _ => Text(None)
  }

  /** The getters (`getTitle()`, `isCompleted()`, ...). */
  function Get(c: Course, f: Field): (v: Value)
    ensures Fits(f, v)
  {
    match f
    case Id => Text(c.id)
    case Title => Text(c.title)
    case Summary => Text(c.summary)
    case Category => Text(c.category)
    case Level => Text(c.level)
    case Duration => Text(c.duration)
    case Content => Texts(c.content)
    case Subject => Text(c.subject)
    case TargetDate => Day(c.targetDate)
    case PriorityLevel => Text(c.priorityLevel)
    case Materials => Texts(c.materials)
    case Completed => Flag(c.completed)
    case Archived => Flag(c.archived)
    case CompletedDate => Day(c.completedDate)
  }

  /**
   The setters (`setTitle(v)`, `setCompleted(v)`, ...): the getter for the
   field returns the value just set, and every other getter is unchanged.
   In particular nothing ties `completedDate` to `completed`.
   */
  function Set(c: Course, f: Field, v: Value): (r: Course)
    requires Fits(f, v)
    ensures Get(r, f) == v
    ensures forall g :: g != f ==> Get(r, g) == Get(c, g)
  {
    match f
    case Id => c.(id := v.text)
    case Title => c.(title := v.text)
    case Summary => c.(summary := v.text)
    case Category => c.(category := v.text)
    case Level => c.(level := v.text)
    case Duration => c.(duration := v.text)
    case Content => c.(content := v.texts)
    case Subject => c.(subject := v.text)
    case TargetDate => c.(targetDate := v.day)
    case PriorityLevel => c.(priorityLevel := v.text)
    case Materials => c.(materials := v.texts)
    case Completed => c.(completed := v.flag)
    case Archived => c.(archived := v.flag)
    case CompletedDate => c.(completedDate := v.day)
  }

  /** Two records are equal exactly when all getters agree. */
  lemma Extensionality(a: Course, b: Course)
    requires forall f :: Get(a, f) == Get(b, f)
    ensures a == b
  {
    assert Get(a, Id) == Get(b, Id);
    assert Get(a, Title) == Get(b, Title);
    assert Get(a, Summary) == Get(b, Summary);
    assert Get(a, Category) == Get(b, Category);
    assert Get(a, Level) == Get(b, Level);
    assert Get(a, Duration) == Get(b, Duration);
    assert Get(a, Content) == Get(b, Content);
    assert Get(a, Subject) == Get(b, Subject);
    assert Get(a, TargetDate) == Get(b, TargetDate);
    assert Get(a, PriorityLevel) == Get(b, PriorityLevel);
    assert Get(a, Materials) == Get(b, Materials);
    assert Get(a, Completed) == Get(b, Completed);
    assert Get(a, Archived) == Get(b, Archived);
    assert Get(a, CompletedDate) == Get(b, CompletedDate);
  }

  /** Setting a field twice is the same as setting it to the second value. */
  lemma SetSet(c: Course, f: Field, v: Value, w: Value)
    requires Fits(f, v) && Fits(f, w)
    ensures Set(Set(c, f, v), f, w) == Set(c, f, w)
  {
    var a := Set(Set(c, f, v), f, w);
    var b := Set(c, f, w);
    forall g ensures Get(a, g) == Get(b, g) {
    }
    Extensionality(a, b);
  }

  /** Setting a field to the value it already has changes nothing. */
  lemma SetGet(c: Course, f: Field)
    ensures Set(c, f, Get(c, f)) == c
  {
    var a := Set(c, f, Get(c, f));
    forall g ensures Get(a, g) == Get(c, g) {
    }
    Extensionality(a, c);
  }

  /**
   The no-argument constructor: every reference field is `null` and both
   `completed` and `archived` are `false`.
   */
  function NewCourse(): (c: Course)
    ensures forall f :: Get(c, f) == Initial(f)
    ensures !c.completed && !c.archived
  {
    Course(None, None, None, None, None, None, None, None, None, None, None,
           false, false, None)
  }

  /**
   The 10-argument constructor: exactly the ten editable fields take the
   arguments; the id and completion date stay `null` and both flags stay
   `false`.
   */
  function NewCourseWith(
    title: Option<string>, summary: Option<string>, category: Option<string>,
    level: Option<string>, duration: Option<string>, content: Option<seq<string>>,
    subject: Option<string>, targetDate: Option<Date>, priorityLevel: Option<string>,
    materials: Option<seq<string>>): (c: Course)
    ensures Get(c, Title) == Text(title) && Get(c, Summary) == Text(summary)
    ensures Get(c, Category) == Text(category) && Get(c, Level) == Text(level)
    ensures Get(c, Duration) == Text(duration) && Get(c, Content) == Texts(content)
    ensures Get(c, Subject) == Text(subject) && Get(c, TargetDate) == Day(targetDate)
    ensures Get(c, PriorityLevel) == Text(priorityLevel)
    ensures Get(c, Materials) == Texts(materials)
    ensures forall f :: !Editable(f) ==> Get(c, f) == Initial(f)
  {
    Course(None, title, summary, category, level, duration, content,
           subject, targetDate, priorityLevel, materials, false, false, None)
  }
}
