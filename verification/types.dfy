/** The journal's data types: templates of questions, categories of
    ratings, entries that answer a template, the user and their
    preferences, and the coach's chat messages. Dates are instants in
    milliseconds; optional properties are `Option`s. */
module Types {
  import opened Optional
  import Records

  /** A morning ("start of day") or evening ("end of day") template. */
  datatype TemplateType = Sod | Eod

  /** The kinds of question a template can ask. */
  datatype QuestionType = TextInput | YesNo | Slider | DynamicCheckboxGroup

  datatype QuestionOption = QuestionOption(id: string, text: string)

  datatype Question = Question(
    id: string,
    text: string,
    qtype: QuestionType,
    order: int,
    options: Option<seq<QuestionOption>>)

  datatype Template = Template(id: string, name: string, ttype: TemplateType, questions: seq<Question>)

  /** A template before the store has given it an id. */
  datatype TemplateDraft = TemplateDraft(name: string, ttype: TemplateType, questions: seq<Question>)

  datatype Category = Category(id: string, name: string, ctype: TemplateType)

  /** A category before the store has given it an id. */
  datatype CategoryDraft = CategoryDraft(name: string, ctype: TemplateType)

  /** `value` is any number: the 1 to 10 range belongs to the form's slider,
      not to the type. */
  datatype Rating = Rating(id: string, category: string, value: int, timestamp: int)

  /** A rating as the forms submit it, without id and timestamp. */
  datatype RatingInput = RatingInput(category: string, value: int)

  /** One answer: the question's wording and the answer's (HTML) text. */
  datatype Answer = Answer(text: string, value: string)

  /** `answers` is a plain object keyed by question id, so it keeps the
      ECMAScript property order of `Records`. */
  datatype Entry = Entry(
    id: string,
    templateId: Option<string>,
    timestamp: int,
    answers: Records.Record<Answer>,
    ratings: seq<Rating>)

  datatype Tag = Tag(id: string, name: string, color: Option<string>, description: Option<string>)

  datatype AppState = AppState(
    templates: seq<Template>,
    entries: seq<Entry>,
    categories: seq<Category>,
    tags: seq<Tag>,
    darkMode: bool)

  datatype Notifications = Notifications(journal: bool, insights: bool)

  datatype UserPreferences = UserPreferences(darkMode: bool, notifications: Notifications)

  datatype User = User(
    id: string,
    firstName: Option<string>,
    lastName: Option<string>,
    avatarUrl: Option<string>,
    isSuperAdmin: Option<bool>,
    preferences: UserPreferences)

  datatype Role = SystemRole | UserRole | AssistantRole

  datatype AICoachMessage = AICoachMessage(
    id: string,
    sessionId: string,
    role: Role,
    content: string,
    tokensUsed: Option<int>,
    createdAt: int)

  /** The string each template type is written as. */
  function TemplateTypeName(t: TemplateType): string {
    match t
    case Sod => "sod"
    case Eod => "eod"
  }

  /** Reads a template type; exactly the two names are accepted. */
  function ParseTemplateType(s: string): (r: Option<TemplateType>)
    ensures r.Some? <==> s == "sod" || s == "eod"
    ensures r.Some? ==> TemplateTypeName(r.value) == s
  {
    if s == "sod" then Some(Sod) else if s == "eod" then Some(Eod) else None
  }

  lemma TemplateTypeRoundTrip(t: TemplateType)
    ensures ParseTemplateType(TemplateTypeName(t)) == Some(t)
  {
  }

  function QuestionTypeName(q: QuestionType): string {
    match q
    case TextInput => "text"
    case YesNo => "yesno"
    case Slider => "slider"
    case DynamicCheckboxGroup => "dynamic_checkbox_group"
  }

  /** Reads a question type; exactly the four names are accepted. */
  function ParseQuestionType(s: string): (r: Option<QuestionType>)
    ensures r.Some? <==> s in {"text", "yesno", "slider", "dynamic_checkbox_group"}
    ensures r.Some? ==> QuestionTypeName(r.value) == s
  {
    if s == "text" then Some(TextInput)
    else if s == "yesno" then Some(YesNo)
    else if s == "slider" then Some(Slider)
    else if s == "dynamic_checkbox_group" then Some(DynamicCheckboxGroup)
    else None
  }

  lemma QuestionTypeRoundTrip(q: QuestionType)
    ensures ParseQuestionType(QuestionTypeName(q)) == Some(q)
  {
  }

  function RoleName(r: Role): string {
    match r
    case SystemRole => "system"
    case UserRole => "user"
    case AssistantRole => "assistant"
  }

  /** Reads a message role; exactly the three names are accepted. */
  function ParseRole(s: string): (r: Option<Role>)
    ensures r.Some? <==> s in {"system", "user", "assistant"}
    ensures r.Some? ==> RoleName(r.value) == s
  {
    if s == "system" then Some(SystemRole)
    else if s == "user" then Some(UserRole)
    else if s == "assistant" then Some(AssistantRole)
    else None
  }

  lemma RoleRoundTrip(r: Role)
    ensures ParseRole(RoleName(r)) == Some(r)
  {
  }
}
