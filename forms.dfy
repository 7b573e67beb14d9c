/** The questionnaire page of src/pages/Forms.tsx: the answers object edited one field at a
    time, the guarded submit that inserts a `submissions` row and resets on success, and the
    question list read from a form's `schema_json`. The answers it inserts are what
    `normalizeKeys` later reads. */
module Forms {
  import opened Wrappers
  import opened Json
  import KeyNormalizer

  /** One entry of a form's `schema_json` array. */
  datatype Question = Question(name: string, labelText: string, kind: string)

  /** A form's `schema_json`: a falsy value (missing, null, false, 0, ""), an array of
      questions, or some other truthy value. */
  datatype Schema = Falsy | QuestionArray(questions: seq<Question>) | NonArray

  /** A row of `forms`. */
  datatype Form = Form(id: string, title: string, description: string, schema: Schema)

  /** What `renderQuestions` shows. */
  datatype QuestionsView = NoQuestionsDefined | QuestionList(questions: seq<Question>)

  /** `renderQuestions()`: the notice when no form is selected or its schema is falsy;
      otherwise the schema's questions when it is an array, and none when it is not. */
  function RenderQuestions(selected: Option<Form>): (v: QuestionsView)
    ensures v.NoQuestionsDefined? <==> selected.None? || selected.value.schema.Falsy?
    ensures v.QuestionList? && selected.value.schema.QuestionArray? ==>
      v.questions == selected.value.schema.questions
    ensures v.QuestionList? && selected.value.schema.NonArray? ==> v.questions == []
  {
    match selected
    case None => NoQuestionsDefined
    case Some(form) =>
      match form.schema
      case Falsy => NoQuestionsDefined
      case QuestionArray(qs) => QuestionList(qs)
      case NonArray => QuestionList([])
  }

  /** The `answers` object, as its entries in enumeration order. */
  type Answers = seq<(string, Value)>

  /** A JavaScript object never holds a key twice. */
  predicate UniqueKeys(a: Answers) {
    forall i, j :: 0 <= i < j < |a| ==> a[i].0 != a[j].0
  }

  /** `answers[key]`, or `None` when the key is absent. */
  function Lookup(a: Answers, key: string): (r: Option<Value>)
    ensures r.None? <==> forall i :: 0 <= i < |a| ==> a[i].0 != key
    ensures r.Some? ==> exists i :: 0 <= i < |a| && a[i] == (key, r.value)
  {
    if a == [] then None
    else if a[0].0 == key then Some(a[0].1)
    else
      var r := Lookup(a[1..], key);
      assert r.Some? ==> exists i :: 1 <= i < |a| && a[i] == (key, r.value);
      r
  }

  /** `{ ...prev, [field]: value }`: an existing key keeps its place and takes the new value;
      a new key goes last. */
  function SetAnswer(a: Answers, field: string, value: Value): (r: Answers)
    ensures |a| <= |r| <= |a| + 1
  {
    if a == [] then [(field, value)]
    else if a[0].0 == field then [(field, value)] + a[1..]
    else [a[0]] + SetAnswer(a[1..], field, value)
  }

  /** With unique keys, the entry of a key is what `Lookup` finds. */
  lemma {:induction false} LookupUnique(a: Answers, i: nat)
    requires UniqueKeys(a) && i < |a|
    ensures Lookup(a, a[i].0) == Some(a[i].1)
  {
    if i > 0 {
      assert a[0].0 != a[i].0;
      assert a[1..][i - 1] == a[i];
      LookupUnique(a[1..], i - 1);
    }
  }

  /** Where editing a field writes: over the entry of that key if there is one, otherwise
      after every existing entry; every other entry stays as and where it was. */
  lemma {:induction false} SetAnswerShape(a: Answers, field: string, value: Value)
    requires UniqueKeys(a)
    ensures var r := SetAnswer(a, field, value);
      && (forall i :: 0 <= i < |a| ==> r[i] == if a[i].0 == field then (field, value) else a[i])
      && (Lookup(a, field).Some? ==> |r| == |a|)
      && (Lookup(a, field).None? ==> |r| == |a| + 1 && r[|a|] == (field, value))
  {
    if a != [] && a[0].0 != field {
      SetAnswerShape(a[1..], field, value);
    } else if a != [] {
      forall i | 0 < i < |a| ensures a[i].0 != field {
        assert a[0].0 != a[i].0;
      }
    }
  }

  /** The entry written by an edit, and everything else left alone. */
  lemma SetAnswerEntry(a: Answers, field: string, value: Value) returns (at: nat)
    requires UniqueKeys(a)
    ensures var r := SetAnswer(a, field, value);
      && at < |r| && r[at] == (field, value)
      && |r| == (if at < |a| then |a| else |a| + 1)
      && forall j :: 0 <= j < |a| && j != at ==> r[j] == a[j] && a[j].0 != field
  {
    SetAnswerShape(a, field, value);
    var r := SetAnswer(a, field, value);
    if Lookup(a, field).Some? {
      var i :| 0 <= i < |a| && a[i] == (field, Lookup(a, field).value);
      at := i;
      forall j | 0 <= j < |a| && j != at ensures r[j] == a[j] && a[j].0 != field {
        if j < at { assert a[j].0 != a[at].0; } else { assert a[at].0 != a[j].0; }
      }
    } else {
      at := |a|;
    }
  }

  /** Editing a field keeps the keys unique. */
  lemma SetAnswerUnique(a: Answers, field: string, value: Value)
    requires UniqueKeys(a)
    ensures UniqueKeys(SetAnswer(a, field, value))
  {
    var at := SetAnswerEntry(a, field, value);
    var r := SetAnswer(a, field, value);
    forall i, j | 0 <= i < j < |r| ensures r[i].0 != r[j].0 {
      if i != at && j != at {
        assert i < j < |a|;
        assert r[i] == a[i];
        assert r[j] == a[j];
      }
    }
  }

  /** Editing a field sets that field and no other, keeps every existing key in its place,
      and keeps the keys unique. */
  lemma SetAnswerSpec(a: Answers, field: string, value: Value)
    requires UniqueKeys(a)
    ensures UniqueKeys(SetAnswer(a, field, value))
    ensures Lookup(SetAnswer(a, field, value), field) == Some(value)
    ensures forall k :: k != field ==> Lookup(SetAnswer(a, field, value), k) == Lookup(a, k)
    ensures forall i :: 0 <= i < |a| ==> SetAnswer(a, field, value)[i].0 == a[i].0
  {
    SetAnswerShape(a, field, value);
    SetAnswerUnique(a, field, value);
    var at := SetAnswerEntry(a, field, value);
    var r := SetAnswer(a, field, value);
    LookupUnique(r, at);
    forall k | k != field ensures Lookup(r, k) == Lookup(a, k) {
      if Lookup(a, k).Some? {
        var i :| 0 <= i < |a| && a[i] == (k, Lookup(a, k).value);
        assert r[i] == a[i];
        LookupUnique(r, i);
      } else {
        forall i | 0 <= i < |r| ensures r[i].0 != k {
          if i != at {
            assert i < |a|;
            assert r[i] == a[i];
          }
        }
      }
    }
  }

  /** A value typed into a field is what the series extraction later reads under that
      field's canonical key, unless another key of the answers normalises alike. */
  lemma SubmittedAnswerIsRead(h: Host, a: Answers, field: string, text: string)
    requires UniqueKeys(a)
    requires forall i :: 0 <= i < |a| && a[i].0 != field ==>
               KeyNormalizer.NormalizeKey(h, a[i].0) != KeyNormalizer.NormalizeKey(h, field)
    ensures var m := KeyNormalizer.NormalizeAnswers(h, JObject(SetAnswer(a, field, JString(text))));
      KeyNormalizer.NormalizeKey(h, field) in m &&
      m[KeyNormalizer.NormalizeKey(h, field)] == JString(text)
  {
    var at := SetAnswerEntry(a, field, JString(text));
    var r := SetAnswer(a, field, JString(text));
    forall j | at < j < |r|
      ensures KeyNormalizer.NormalizeKey(h, r[j].0) != KeyNormalizer.NormalizeKey(h, r[at].0)
    {
      assert j < |a|;
      assert r[j] == a[j];
    }
    KeyNormalizer.NormalizedEntriesSpec(h, r);
  }

  /** The control a question is rendered with: a text area for `type` `"textarea"`, otherwise
      an input whose type is the question's, or `"text"` when that is empty. */
  datatype Control = TextArea | Input(inputType: string)

  function ControlOf(q: Question): (c: Control)
    ensures c == TextArea <==> q.kind == "textarea"
    ensures q.kind == "" ==> c == Input("text")
    ensures c.Input? ==> c.inputType != "" && (q.kind != "" ==> c.inputType == q.kind)
  {
    if q.kind == "textarea" then TextArea
    else if q.kind == "" then Input("text")
    else Input(q.kind)
  }

  /** `answers[q.name] || ""`: the text a control shows; a missing, falsy or non-text answer
      shows as empty. */
  function DisplayedAnswer(a: Answers, name: string): (shown: string)
    ensures Lookup(a, name).Some? && Lookup(a, name).value.JString? ==> shown == Lookup(a, name).value.s
    ensures !(Lookup(a, name).Some? && Lookup(a, name).value.JString?) ==> shown == ""
  {
    match Lookup(a, name)
    case Some(JString(s)) => s
    case _ => ""
  }

  /** What was typed into a field is what its control shows afterwards, and the other
      controls show what they showed before. */
  lemma TypedAnswerIsShown(a: Answers, field: string, text: string)
    requires UniqueKeys(a)
    ensures DisplayedAnswer(SetAnswer(a, field, JString(text)), field) == text
    ensures forall k :: k != field ==>
              DisplayedAnswer(SetAnswer(a, field, JString(text)), k) == DisplayedAnswer(a, k)
  {
    SetAnswerSpec(a, field, JString(text));
  }

  /** A row inserted into `submissions`. */
  datatype SubmissionRow = SubmissionRow(userId: string, formId: string, answers: Value)

  /** What `handleSubmit` ends with. */
  datatype SubmitOutcome = NoFormSelected | NotSignedIn | UserNotFound | InsertFailed | Submitted

  /** The page's state; `submissions` stands for the remote table. */
  class FormsPage {
    var forms: seq<Form>
    var selectedForm: Option<Form>
    var answers: Answers
    var submissions: seq<SubmissionRow>

    ghost predicate Valid()
      reads this
    {
      UniqueKeys(answers)
    }

    constructor(table: seq<SubmissionRow>)
      ensures Valid()
      ensures forms == [] && selectedForm == None && answers == [] && submissions == table
    {
      forms, selectedForm, answers, submissions := [], None, [], table;
    }

    /** `fetchForms`: the list is replaced when the query succeeds and kept on an error. */
    method FetchForms(reply: Option<seq<Form>>)
      modifies this`forms
      ensures forms == if reply.Some? then reply.value else old(forms)
    {
      if reply.Some? {
        forms := reply.value;
      }
    }

    /** Choosing a form, or going back: the answers typed so far are kept either way. */
    method SelectForm(form: Option<Form>)
      modifies this`selectedForm
      ensures selectedForm == form
    {
      selectedForm := form;
    }

    /** `handleAnswerChange(field, value)`. */
    method HandleAnswerChange(field: string, value: string)
      requires Valid()
      modifies this`answers
      ensures Valid()
      ensures answers == SetAnswer(old(answers), field, JString(value))
      ensures Lookup(answers, field) == Some(JString(value))
      ensures forall k :: k != field ==> Lookup(answers, k) == Lookup(old(answers), k)
    {
      SetAnswerSpec(answers, field, JString(value));
      answers := SetAnswer(answers, field, JString(value));
    }

    /** `handleSubmit()`. `authUser` is the signed-in user (if any), `userRow` the id of their
        `users` row (if found), `insertOk` whether the insert succeeded. Nothing is inserted
        without a selected form, a user or a `users` row; a successful insert carries the
        row id, the form's id and the current answers, and clears the form and the answers;
        a failed one keeps both. */
    method HandleSubmit(authUser: Option<string>, userRow: Option<string>, insertOk: bool)
      returns (outcome: SubmitOutcome)
      requires Valid()
      modifies this`selectedForm, this`answers, this`submissions
      ensures Valid()
      ensures old(selectedForm).None? ==> outcome == NoFormSelected
      ensures old(selectedForm).Some? && authUser.None? ==> outcome == NotSignedIn
      ensures old(selectedForm).Some? && authUser.Some? && userRow.None? ==> outcome == UserNotFound
      ensures old(selectedForm).Some? && authUser.Some? && userRow.Some? ==>
        outcome == if insertOk then Submitted else InsertFailed
      ensures outcome != Submitted ==> unchanged(this)
      ensures outcome == Submitted ==>
        && submissions == old(submissions) +
             [SubmissionRow(userRow.value, old(selectedForm).value.id, JObject(old(answers)))]
        && selectedForm == None
        && answers == []
    {
      if selectedForm.None? {
        return NoFormSelected;
      }
      if authUser.None? {
        return NotSignedIn;
      }
      if userRow.None? {
        return UserNotFound;
      }
      if !insertOk {
        return InsertFailed;
      }
      submissions := submissions + [SubmissionRow(userRow.value, selectedForm.value.id, JObject(answers))];
      selectedForm := None;
      answers := [];
      outcome := Submitted;
    }
  }
}
