/** The records every part of the planner shares (model.py), and their validation from decoded
    replies, in which a missing key is `None`. */
module Model {
  import opened Results

  datatype Resource = Resource(title: string, description: string)

  datatype Exercise = Exercise(description: string)

  /** One node of the curriculum tree; `subject` is its title. */
  datatype Subject = Subject(
    id: string,
    subject: string,
    description: string,
    reason: string,
    subjects: seq<Subject>,
    resources: seq<Resource>,
    exercises: seq<Exercise>)

  datatype Plan = Plan(id: string, goal: string, subject: Subject)

  /** The keys of a decoded resource record. */
  datatype ResourceFields = ResourceFields(title: Option<string>, description: Option<string>)

  /** The keys of a decoded exercise record. */
  datatype ExerciseFields = ExerciseFields(description: Option<string>)

  /** The keys of a decoded subject record; nested lists arrive already validated. */
  datatype SubjectFields = SubjectFields(
    id: Option<string>,
    subject: Option<string>,
    description: Option<string>,
    reason: Option<string>,
    subjects: Option<seq<Subject>>,
    resources: Option<seq<Resource>>,
    exercises: Option<seq<Exercise>>)

  /** `Resource(**fields)`: both keys are required. */
  function ParseResource(f: ResourceFields): (r: Result<Resource>)
    ensures r.Success? <==> f.title.Some? && f.description.Some?
    ensures r.Success? ==> r.value.title == f.title.value && r.value.description == f.description.value
    ensures f.title.None? ==> r == Failure(SchemaError("title"))
    ensures f.title.Some? && f.description.None? ==> r == Failure(SchemaError("description"))
  {
    match (f.title, f.description)
    case (None, _) => Failure(SchemaError("title"))
    case (_, None) => Failure(SchemaError("description"))
    case (Some(t), Some(d)) => Success(Resource(t, d))
  }

  /** `Exercise(**fields)`: the description is required. */
  function ParseExercise(f: ExerciseFields): (r: Result<Exercise>)
    ensures r.Success? <==> f.description.Some?
    ensures r.Success? ==> r.value.description == f.description.value
    ensures f.description.None? ==> r == Failure(SchemaError("description"))
  {
    match f.description
    case None => Failure(SchemaError("description"))
    case Some(d) => Success(Exercise(d))
  }

  /** `Subject.parse_obj(fields)`: only the title is required; the texts default to "" and the
      lists to empty; a missing id takes the freshly generated `freshId`. */
  function ParseSubject(f: SubjectFields, freshId: string): (r: Result<Subject>)
    ensures r.Success? <==> f.subject.Some?
    ensures f.subject.None? ==> r == Failure(SchemaError("subject"))
    ensures r.Success? ==>
      && r.value.subject == f.subject.value
      && r.value.id == (if f.id.Some? then f.id.value else freshId)
      && r.value.description == (if f.description.Some? then f.description.value else "")
      && r.value.reason == (if f.reason.Some? then f.reason.value else "")
      && r.value.subjects == (if f.subjects.Some? then f.subjects.value else [])
      && r.value.resources == (if f.resources.Some? then f.resources.value else [])
      && r.value.exercises == (if f.exercises.Some? then f.exercises.value else [])
  {
    match f.subject
    case None => Failure(SchemaError("subject"))
    case Some(title) =>
      Success(Subject(
        f.id.GetOr(freshId), title, f.description.GetOr(""), f.reason.GetOr(""),
        f.subjects.GetOr([]), f.resources.GetOr([]), f.exercises.GetOr([])))
  }

  /** `parse_obj_as(List[T], xs)`: every element must validate, else the first failure is raised. */
  function ParseAll<F, T>(parse: F -> Result<T>, xs: seq<F>): (r: Result<seq<T>>)
    ensures r.Success? <==> forall i :: 0 <= i < |xs| ==> parse(xs[i]).Success?
    ensures r.Success? ==> |r.value| == |xs| && forall i :: 0 <= i < |xs| ==> r.value[i] == parse(xs[i]).value
    ensures r.Failure? ==>
      exists i :: 0 <= i < |xs| && parse(xs[i]) == Failure(r.error) && forall j :: 0 <= j < i ==> parse(xs[j]).Success?
  {
    if xs == [] then Success([])
    else
      match parse(xs[0])
      case Failure(e) => Failure(e)
      case Success(x) =>
        match ParseAll(parse, xs[1..])
        case Failure(e) => Failure(e)
        case Success(rest) => Success([x] + rest)
  }
}
