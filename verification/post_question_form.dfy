/** The "ask a question" form: per-field checks on the title, the
    description (ignoring Markdown punctuation) and the comma-separated
    tags, the request it sends when every check passes, how it reacts to
    the server's answer, and how editing a field clears that field's error. */
module PostQuestionForm {
  import opened Base
  import opened Text
  import opened Models
  import QuestionsRoute

  datatype QuestionForm = QuestionForm(title: string, description: string, tags: string)

  datatype FormErrors = FormErrors(title: Option<string>, description: Option<string>,
                                   tags: Option<string>, general: Option<string>)

  const NoErrors := FormErrors(None, None, None, None)

  const TitleMin := 10
  const TitleMax := 200
  const DescriptionMin := 20
  const MaxTags := 5
  const TagMax := 20

  const TitleRequired := "Title is required"
  const TitleTooShort := "Title must be at least 10 characters long"
  const TitleTooLong := "Title must be less than 200 characters"
  const DescriptionRequired := "Description is required"
  const DescriptionTooShort := "Description must be at least 20 characters long"
  const TagsRequired := "At least one tag is required"
  const TooManyTags := "Maximum 5 tags allowed"
  const TagTooLong := "Each tag must be less than 20 characters"

  /** The Markdown characters the description check ignores. */
  const MarkdownChars: set<char> := {'#', '*', '`', '_', '~', '[', ']', '(', ')'}

  /** The title is checked trimmed; the first failing check wins. */
  function TitleError(title: string): (e: Option<string>)
    ensures e.None? <==> TitleMin <= |Trim(title)| <= TitleMax
    ensures e == Some(TitleRequired) <==> Trim(title) == []
    ensures e == Some(TitleTooShort) <==> 0 < |Trim(title)| < TitleMin
    ensures e == Some(TitleTooLong) <==> |Trim(title)| > TitleMax
  {
    var t := Trim(title);
    if t == [] then Some(TitleRequired)
    else if |t| < TitleMin then Some(TitleTooShort)
    else if |t| > TitleMax then Some(TitleTooLong)
    else None
  }

  /** The text the description check measures. */
  function DescriptionText(description: string): string {
    Trim(RemoveAll(description, MarkdownChars))
  }

  function DescriptionError(description: string): (e: Option<string>)
    ensures e.None? <==> |DescriptionText(description)| >= DescriptionMin
    ensures e == Some(DescriptionRequired) <==> DescriptionText(description) == []
    ensures e == Some(DescriptionTooShort) <==> 0 < |DescriptionText(description)| < DescriptionMin
  {
    var text := DescriptionText(description);
    if text == [] then Some(DescriptionRequired)
    else if |text| < DescriptionMin then Some(DescriptionTooShort)
    else None
  }

  /** `.map(tag => tag.trim()).filter(tag => tag)`. */
  function TrimParts(parts: seq<string>): (r: seq<string>)
    ensures |r| <= |parts|
    ensures forall k :: 0 <= k < |r| ==> r[k] != [] && NoEdgeSpace(r[k])
  {
    if parts == [] then []
    else
      var t := Trim(parts[0]);
      if t == [] then TrimParts(parts[1..]) else [t] + TrimParts(parts[1..])
  }

  /** A single part is kept, trimmed, exactly when it is not blank. */
  lemma TrimPartsOne(p: string)
    ensures TrimParts([p]) == if Trim(p) == [] then [] else [Trim(p)]
  {
    assert [p][1..] == [];
  }

  /** Reading a concatenation reads each part in turn, so every non-blank
      part is kept, trimmed and in order. */
  lemma {:induction false} TrimPartsAppend(a: seq<string>, b: seq<string>)
    ensures TrimParts(a + b) == TrimParts(a) + TrimParts(b)
  {
    if a == [] {
      assert a + b == b;
    } else {
      assert (a + b)[0] == a[0];
      assert (a + b)[1..] == a[1..] + b;
      TrimPartsAppend(a[1..], b);
    }
  }

  /** The tags the form reads from its comma-separated field. */
  function TagList(raw: string): seq<string> {
    TrimParts(Split(raw, ','))
  }

  function TagsError(raw: string): (e: Option<string>)
    ensures e.None? <==>
      1 <= |TagList(raw)| <= MaxTags && forall k :: 0 <= k < |TagList(raw)| ==> |TagList(raw)[k]| <= TagMax
    ensures e == Some(TagsRequired) <==> TagList(raw) == []
    ensures e == Some(TooManyTags) <==> |TagList(raw)| > MaxTags
    ensures e == Some(TagTooLong) <==>
      1 <= |TagList(raw)| <= MaxTags && exists k :: 0 <= k < |TagList(raw)| && |TagList(raw)[k]| > TagMax
  {
    if Trim(raw) == [] then
      BlankFieldNoTags(raw);
      Some(TagsRequired)
    else
      var tags := TagList(raw);
      if |tags| == 0 then Some(TagsRequired)
      else if |tags| > MaxTags then Some(TooManyTags)
      else if exists k :: 0 <= k < |tags| && |tags[k]| > TagMax then Some(TagTooLong)
      else None
  }

  /** A field holding only spaces yields no tags, so the field's own
      emptiness check agrees with the list's. */
  lemma BlankFieldNoTags(raw: string)
    requires Trim(raw) == []
    ensures TagList(raw) == []
  {
    TrimEmptyIffAllSpace(raw);
    BlankPartsVanish(Split(raw, ','), raw);
  }

  lemma {:induction false} BlankPartsVanish(parts: seq<string>, raw: string)
    requires AllSpace(raw)
    requires forall p, c :: p in parts && c in p ==> c in raw
    ensures TrimParts(parts) == []
  {
    if parts != [] {
      assert forall c :: c in parts[0] ==> c in raw;
      assert AllSpace(parts[0]) by {
        forall k | 0 <= k < |parts[0]| ensures IsSpace(parts[0][k]) {
          assert parts[0][k] in raw;
        }
      }
      TrimEmptyIffAllSpace(parts[0]);
      BlankPartsVanish(parts[1..], raw);
    }
  }

  /** No tag read from the field holds a comma. */
  lemma {:induction false} TrimPartsKeepOut(parts: seq<string>, c: char)
    requires forall k :: 0 <= k < |parts| ==> c !in parts[k]
    ensures forall k :: 0 <= k < |TrimParts(parts)| ==> c !in TrimParts(parts)[k]
  {
    if parts != [] {
      TrimKeepsChars(parts[0]);
      TrimPartsKeepOut(parts[1..], c);
    }
  }

  /** Typing tags joined by commas gives those tags back: the field reads
      exactly the list of trimmed, non-empty, comma-free tags it displays. */
  lemma TagListJoin(tags: seq<string>)
    requires forall k :: 0 <= k < |tags| ==> tags[k] != [] && NoEdgeSpace(tags[k]) && ',' !in tags[k]
    ensures TagList(Join(tags, ',')) == tags
  {
    if tags == [] {
      assert Split([], ',') == [[]];
    } else {
      SplitJoin(tags, ',');
      TrimPartsOfTrimmed(tags);
    }
  }

  lemma {:induction false} TrimPartsOfTrimmed(tags: seq<string>)
    requires forall k :: 0 <= k < |tags| ==> tags[k] != [] && NoEdgeSpace(tags[k])
    ensures TrimParts(tags) == tags
  {
    if tags != [] {
      TrimNoEdgeSpace(tags[0]);
      TrimPartsOfTrimmed(tags[1..]);
      assert [tags[0]] + tags[1..] == tags;
    }
  }

  /** Reading the tags again from the list joined by commas gives the same
      list: every read tag is trimmed, non-empty and comma-free. */
  lemma TagListStable(raw: string)
    ensures TagList(Join(TagList(raw), ',')) == TagList(raw)
  {
    var parts := Split(raw, ',');
    assert forall k :: 0 <= k < |parts| ==> ',' !in parts[k] by {
      forall k | 0 <= k < |parts| ensures ',' !in parts[k] {
        assert parts[k] in parts;
      }
    }
    TrimPartsKeepOut(parts, ',');
    var tags := TrimParts(parts);
    assert forall k :: 0 <= k < |tags| ==> tags[k] != [] && NoEdgeSpace(tags[k]) && ',' !in tags[k];
    TagListJoin(tags);
  }

  /** `validateForm`: the errors replace the previous ones wholesale, so the
      general error is dropped too. */
  function Validate(form: QuestionForm): (errors: FormErrors)
    ensures errors.general.None?
    ensures errors.title == TitleError(form.title)
    ensures errors.description == DescriptionError(form.description)
    ensures errors.tags == TagsError(form.tags)
  {
    FormErrors(TitleError(form.title), DescriptionError(form.description), TagsError(form.tags), None)
  }

  predicate Valid(form: QuestionForm) {
    Validate(form) == NoErrors
  }

  /** The form is valid exactly when every field passes its checks. */
  lemma ValidIff(form: QuestionForm)
    ensures Valid(form) <==>
      && TitleMin <= |Trim(form.title)| <= TitleMax
      && |DescriptionText(form.description)| >= DescriptionMin
      && 1 <= |TagList(form.tags)| <= MaxTags
      && (forall k :: 0 <= k < |TagList(form.tags)| ==> |TagList(form.tags)[k]| <= TagMax)
  {
  }

  datatype SubmitResult =
    | Rejected(errors: FormErrors)
    | Sent(errors: FormErrors, payload: QuestionsRoute.PostRequest)

  /** `handleSubmit` up to the request: an invalid form shows its errors and
      sends nothing; a valid one clears every error and sends the trimmed
      title, the description as typed and the tags the validator read. */
  function Submit(form: QuestionForm): (r: SubmitResult)
    ensures r.Rejected? <==> !Valid(form)
    ensures r.Rejected? ==> r.errors == Validate(form)
    ensures r.Sent? ==>
      && r.errors == NoErrors
      && r.payload == QuestionsRoute.PostRequest(Some(Trim(form.title)), Some(form.description), Some(TagList(form.tags)))
  {
    if !Valid(form) then Rejected(Validate(form))
    else Sent(NoErrors, QuestionsRoute.PostRequest(Some(Trim(form.title)), Some(form.description), Some(TagList(form.tags))))
  }

  /** What the form sends for a valid question, the server accepts: it
      stores the title as shown and each read tag in its stored form. */
  lemma ValidFormIsCreated(form: QuestionForm, questions: seq<Question>, tags: seq<Tag>,
                           caller: Id, newId: Id, now: int)
    requires Valid(form)
    ensures var r := QuestionsRoute.HandlePost(questions, tags, Some(caller), Submit(form).payload, newId, now);
      && r.reply.Created?
      && r.reply.question.title == Trim(form.title)
      && r.reply.question.description == form.description
      && r.reply.question.tags == NormTags(TagList(form.tags))
  {
    ValidIff(form);
    TrimIdempotent(form.title);
  }

  /** The server's answer to a sent form. */
  datatype ServerResponse = NetworkError | Responded(status: nat, error: Option<string>)

  const LoginRequired := "You must be logged in to post a question. Please sign in and try again."
  const SubmitFailed := "Failed to submit question. Please try again."
  const NetworkFailed := "Network error. Please check your connection and try again."

  /** After the request: a success status leaves the page (no errors shown,
      `None`); otherwise exactly one general error is shown. */
  function AfterResponse(resp: ServerResponse): (shown: Option<FormErrors>)
    ensures shown.None? <==> resp.Responded? && 200 <= resp.status <= 299
    ensures shown.Some? ==> shown.value.general.Some? && shown.value.(general := None) == NoErrors
    ensures resp.Responded? && resp.status == 401 ==> shown == Some(NoErrors.(general := Some(LoginRequired)))
    ensures resp.NetworkError? ==> shown == Some(NoErrors.(general := Some(NetworkFailed)))
    ensures resp.Responded? && !(200 <= resp.status <= 299) && resp.status != 401 && !Truthy(resp.error) ==>
      shown == Some(NoErrors.(general := Some(SubmitFailed)))
  {
    match resp
    case NetworkError => Some(NoErrors.(general := Some(NetworkFailed)))
    case Responded(status, error) =>
      if 200 <= status <= 299 then None
      else if status == 401 then Some(NoErrors.(general := Some(LoginRequired)))
      else Some(NoErrors.(general := Some(if Truthy(error) then error.value else SubmitFailed)))
  }

  /** A refusal from the server is shown with the server's own message. */
  lemma ServerRefusalShown(questions: seq<Question>, tags: seq<Tag>, caller: Option<Id>,
                           req: QuestionsRoute.PostRequest, newId: Id, now: int)
    ensures var r := QuestionsRoute.HandlePost(questions, tags, caller, req, newId, now);
      r.reply.PostRefused? && r.reply.status != 401 && r.reply.error != [] ==>
        AfterResponse(Responded(r.reply.status, Some(r.reply.error)))
          == Some(NoErrors.(general := Some(r.reply.error)))
  {
    var reply := QuestionsRoute.HandlePost(questions, tags, caller, req, newId, now).reply;
    if reply.PostRefused? && reply.status != 401 && reply.error != [] {
      RefusalShownVerbatim(reply.status, reply.error);
    }
  }

  /** Any other failing status with a non-empty message shows that message. */
  lemma RefusalShownVerbatim(status: nat, error: string)
    requires !(200 <= status <= 299) && status != 401 && error != []
    ensures AfterResponse(Responded(status, Some(error))) == Some(NoErrors.(general := Some(error)))
  {
    var shown := AfterResponse(Responded(status, Some(error)));
    assert shown.value.general == Some(error);
  }

  datatype Field = TitleField | DescriptionField | TagsField

  datatype Editor = Editor(form: QuestionForm, errors: FormErrors)

  /** `handleInputChange` and `handleDescriptionChange` (whose empty editor
      value arrives as `None`): the field takes the new value, and its own
      error and the general error are cleared. */
  function Edit(e: Editor, field: Field, value: Option<string>): (r: Editor)
    ensures field == TitleField ==>
      r.form == e.form.(title := value.GetOr("")) && r.errors == e.errors.(title := None, general := None)
    ensures field == DescriptionField ==>
      r.form == e.form.(description := value.GetOr("")) && r.errors == e.errors.(description := None, general := None)
    ensures field == TagsField ==>
      r.form == e.form.(tags := value.GetOr("")) && r.errors == e.errors.(tags := None, general := None)
  {
    var v := value.GetOr("");
    match field
    case TitleField => Editor(e.form.(title := v), e.errors.(title := None, general := None))
    case DescriptionField => Editor(e.form.(description := v), e.errors.(description := None, general := None))
    case TagsField => Editor(e.form.(tags := v), e.errors.(tags := None, general := None))
  }

  /** Each field is checked on its own: after editing one field, the next
      validation reports the other fields exactly as before. */
  lemma EditRevalidatesOnlyItsField(e: Editor, field: Field, value: Option<string>)
    ensures var before := Validate(e.form);
      var after := Validate(Edit(e, field, value).form);
      && (field != TitleField ==> after.title == before.title)
      && (field != DescriptionField ==> after.description == before.description)
      && (field != TagsField ==> after.tags == before.tags)
  {
  }
}
