/** QuestionService: creating a survey's question banks and (survey, bank) questions, patching
    them, and deleting a survey's questions. */
module QuestionService {
  import opened Types
  import opened Ids
  import opened Db
  import opened Strings
  import Domain

  /** One question of a create request. */
  datatype QuestionRequest = QuestionRequest(
    title: string,
    description: string,
    questionType: QuestionType,
    questionNo: int,
    isRequired: bool,
    questionOptions: Option<seq<string>>)

  /** One question of an update request; absent fields stay as they are. */
  datatype QuestionBankUpdateRequest = QuestionBankUpdateRequest(
    questionBankId: BankId,
    title: string,
    description: string,
    questionType: Option<QuestionType>,
    isRequired: Option<bool>,
    questionNo: Option<int>,
    questionOptions: Option<seq<string>>)

  function RequestTypes(items: seq<QuestionRequest>): (r: seq<QuestionType>)
    ensures |r| == |items|
    ensures forall i :: 0 <= i < |items| ==> r[i] == items[i].questionType
  {
    if items == [] then [] else RequestTypes(items[..|items| - 1]) + [items[|items| - 1].questionType]
  }

  /** One item of createQuestion: a new bank, the question linking it to survey s and, when the
      item carries options, the option list handed to the option service. */
  function CreateOneQuestion(t: Tables, item: QuestionRequest, s: SurveyId): Tables
  {
    var b := t.nextBankId;
    t.(questionBanks := t.questionBanks[b := QuestionBank(item.title, item.description, item.questionType)],
       nextBankId := b + 1,
       questions := t.questions[QuestionId(s, b) := QuestionRow(item.questionNo, item.isRequired)],
       questionOptions := if item.questionOptions.Some? then t.questionOptions[b := item.questionOptions.value] else t.questionOptions)
  }

  function CreateQuestionSpec(t: Tables, items: seq<QuestionRequest>, s: SurveyId): Tables
  {
    if items == [] then t
    else CreateOneQuestion(CreateQuestionSpec(t, items[..|items| - 1], s), items[|items| - 1], s)
  }

  method CreateQuestion(db: Database, items: seq<QuestionRequest>, s: SurveyId)
    modifies db
    ensures db.State() == CreateQuestionSpec(old(db.State()), items, s)
  {
    for i := 0 to |items|
      invariant db.State() == CreateQuestionSpec(old(db.State()), items[..i], s)
    {
      var item := items[i];
      assert items[..i + 1][..i] == items[..i];
      var b := db.InsertQuestionBank(QuestionBank(item.title, item.description, item.questionType));
      var question := new Domain.Question(b, s, item.questionNo, item.isRequired);
      db.SaveQuestion(question.questionId, question.Row());
      if item.questionOptions.Some? {
        db.SaveQuestionOptions(b, item.questionOptions.value);
      }
    }
    assert items[..|items|] == items;
  }

  /** t' differs from t at most in the bank, question and option tables. */
  predicate OnlyQuestionTablesChanged(t: Tables, t': Tables)
  {
    t' == t.(questionBanks := t'.questionBanks, nextBankId := t'.nextBankId,
             questions := t'.questions, questionOptions := t'.questionOptions)
  }

  /** One item of createQuestion keeps the ids valid. */
  lemma CreateOneQuestionIds(t: Tables, item: QuestionRequest, s: SurveyId)
    requires IdsValid(t) && s < t.nextSurveyId
    ensures IdsValid(CreateOneQuestion(t, item, s))
    ensures OnlyQuestionTablesChanged(t, CreateOneQuestion(t, item, s))
    ensures CreateOneQuestion(t, item, s).nextBankId == t.nextBankId + 1
  {
  }

  /** One item of createQuestion links the new bank to survey s and to no other survey. */
  lemma CreateOneQuestionBankIds(t: Tables, item: QuestionRequest, s: SurveyId, s': SurveyId)
    requires IdsValid(t)
    ensures var t' := CreateOneQuestion(t, item, s);
      SurveyBankIds(t'.questions, s', t'.nextBankId)
      == SurveyBankIds(t.questions, s', t.nextBankId) + (if s' == s then [t.nextBankId] else [])
  {
    var t' := CreateOneQuestion(t, item, s);
    var b := t.nextBankId;
    assert t'.questions == t.questions[QuestionId(s, b) := QuestionRow(item.questionNo, item.isRequired)];
    assert t'.nextBankId == b + 1;
    assert QuestionId(s', b) !in t.questions;
    SurveyBankIdsFrame(t'.questions, t.questions, s', b);
    assert SurveyBankIds(t'.questions, s', b + 1)
        == SurveyBankIds(t'.questions, s', b) + (if QuestionId(s', b) in t'.questions then [b] else []);
  }

  /** One item of createQuestion extends survey s's question list by that item's type and leaves
      every other survey's list as it was. */
  lemma CreateOneQuestionTypes(t: Tables, item: QuestionRequest, s: SurveyId, s': SurveyId)
    requires IdsValid(t) && s < t.nextSurveyId
    ensures IdsValid(CreateOneQuestion(t, item, s))
    ensures SurveyQuestionTypes(CreateOneQuestion(t, item, s), s')
         == SurveyQuestionTypes(t, s') + (if s' == s then [item.questionType] else [])
  {
    var t' := CreateOneQuestion(t, item, s);
    var b := t.nextBankId;
    CreateOneQuestionIds(t, item, s);
    var ids := SurveyBankIds(t.questions, s', b);
    assert SurveyBankIds(t'.questions, s', t'.nextBankId) == ids + (if s' == s then [b] else []) by {
      CreateOneQuestionBankIds(t, item, s, s');
    }
    assert forall i :: 0 <= i < |ids| ==> ids[i] in t.questionBanks && ids[i] != b;
    BankTypesExtend(t.questionBanks, ids, b, QuestionBank(item.title, item.description, item.questionType));
    if s' != s {
      assert ids + [] == ids;
    }
  }

  /** Adding a bank under a fresh id leaves the types of the listed banks as they were and
      appends its own type when it is listed last. */
  lemma BankTypesExtend(banks: map<BankId, QuestionBank>, ids: seq<BankId>, b: BankId, bank: QuestionBank)
    requires forall i :: 0 <= i < |ids| ==> ids[i] in banks && ids[i] != b
    ensures BankTypes(banks[b := bank], ids) == BankTypes(banks, ids)
    ensures BankTypes(banks[b := bank], ids + [b]) == BankTypes(banks, ids) + [bank.questionType]
  {
    BankTypesFrame(banks[b := bank], banks, ids);
    assert (ids + [b])[..|ids|] == ids;
  }


  /** createQuestion keeps the ids valid, hands out one bank id per item and changes no table
      other than banks, questions and options. */
  lemma {:induction false} CreateQuestionFrame(t: Tables, items: seq<QuestionRequest>, s: SurveyId)
    requires IdsValid(t) && s < t.nextSurveyId
    ensures var t' := CreateQuestionSpec(t, items, s);
      IdsValid(t') && t'.nextBankId == t.nextBankId + |items| && OnlyQuestionTablesChanged(t, t')
    decreases |items|
  {
    if items != [] {
      var n := |items|;
      CreateQuestionFrame(t, items[..n - 1], s);
      CreateOneQuestionIds(CreateQuestionSpec(t, items[..n - 1], s), items[n - 1], s);
    }
  }

  /** The last item of createQuestion extends survey s's question list by its type and leaves
      every other survey's list as it was. */
  lemma CreateQuestionTypesStep(t: Tables, items: seq<QuestionRequest>, s: SurveyId, s': SurveyId)
    requires IdsValid(t) && s < t.nextSurveyId && items != []
    ensures IdsValid(CreateQuestionSpec(t, items[..|items| - 1], s))
    ensures IdsValid(CreateQuestionSpec(t, items, s))
    ensures SurveyQuestionTypes(CreateQuestionSpec(t, items, s), s')
         == SurveyQuestionTypes(CreateQuestionSpec(t, items[..|items| - 1], s), s')
            + (if s' == s then [items[|items| - 1].questionType] else [])
  {
    var mid := CreateQuestionSpec(t, items[..|items| - 1], s);
    CreateQuestionFrame(t, items[..|items| - 1], s);
    CreateOneQuestionTypes(mid, items[|items| - 1], s, s');
  }

  /** createQuestion appends the requested types, in order, to survey s's question list. */
  lemma {:induction false} CreateQuestionOwnTypes(t: Tables, items: seq<QuestionRequest>, s: SurveyId)
    requires IdsValid(t) && s < t.nextSurveyId
    ensures IdsValid(CreateQuestionSpec(t, items, s))
    ensures SurveyQuestionTypes(CreateQuestionSpec(t, items, s), s) == SurveyQuestionTypes(t, s) + RequestTypes(items)
    decreases |items|
  {
    if items == [] {
      assert SurveyQuestionTypes(t, s) + RequestTypes(items) == SurveyQuestionTypes(t, s);
    } else {
      var n := |items|;
      var before, done, last := SurveyQuestionTypes(t, s), RequestTypes(items[..n - 1]), [items[n - 1].questionType];
      CreateQuestionTypesStep(t, items, s, s);
      CreateQuestionOwnTypes(t, items[..n - 1], s);
      assert RequestTypes(items) == done + last;
      AppendAssoc(before, done, last);
    }
  }

  lemma AppendAssoc<T>(a: seq<T>, b: seq<T>, c: seq<T>)
    ensures (a + b) + c == a + (b + c)
  {
  }

  /** createQuestion leaves every other survey's question list as it was. */
  lemma {:induction false} CreateQuestionOtherTypes(t: Tables, items: seq<QuestionRequest>, s: SurveyId, s': SurveyId)
    requires IdsValid(t) && s < t.nextSurveyId && s' != s
    ensures IdsValid(CreateQuestionSpec(t, items, s))
    ensures SurveyQuestionTypes(CreateQuestionSpec(t, items, s), s') == SurveyQuestionTypes(t, s')
    decreases |items|
  {
    if items != [] {
      CreateQuestionTypesStep(t, items, s, s');
      CreateQuestionOtherTypes(t, items[..|items| - 1], s, s');
      assert SurveyQuestionTypes(CreateQuestionSpec(t, items[..|items| - 1], s), s') + []
          == SurveyQuestionTypes(CreateQuestionSpec(t, items[..|items| - 1], s), s');
    }
  }

  /** The bank after a patch: title and description are always replaced by their trimmed
      values, the type only when the item carries one. */
  function PatchedBank(bank: QuestionBank, item: QuestionBankUpdateRequest): (r: QuestionBank)
    ensures r.title == Trim(item.title) && r.description == Trim(item.description)
    ensures r.questionType == (if item.questionType.Some? then item.questionType.value else bank.questionType)
  {
    var trimmed := bank.(title := Trim(item.title), description := Trim(item.description));
    if item.questionType.Some? then trimmed.(questionType := item.questionType.value) else trimmed
  }

  /** The question row after a patch: the required flag and the number only when the item
      carries them; a number that is not positive is refused. */
  function PatchedRow(row: QuestionRow, item: QuestionBankUpdateRequest): (r: Result<QuestionRow>)
    ensures r.Err? <==> item.questionNo.Some? && item.questionNo.value <= 0
    ensures r.Err? ==> r.error == POSITIVE_VALUE_REQUIRED
    ensures r.Ok? ==> r.value.isRequired == (if item.isRequired.Some? then item.isRequired.value else row.isRequired)
    ensures r.Ok? ==> r.value.questionNo == (if item.questionNo.Some? then item.questionNo.value else row.questionNo)
  {
    var row' := if item.isRequired.Some? then row.(isRequired := item.isRequired.value) else row;
    if item.questionNo.Some? then Domain.ChangeQuestionNoSpec(row', item.questionNo.value) else Ok(row')
  }

  /** One item of updateQuestion. The bank must exist (QUESTION_BANK_NOT_FOUND) and belong to
      survey s (QUESTION_NOT_FOUND); then bank and question row are patched and, when the item
      carries options, the option list is handed on. */
  function UpdateOneQuestion(t: Tables, s: SurveyId, item: QuestionBankUpdateRequest): Result<Tables>
  {
    var b := item.questionBankId;
    if b !in t.questionBanks then Err(QUESTION_BANK_NOT_FOUND)
    else if QuestionId(s, b) !in t.questions then Err(QUESTION_NOT_FOUND)
    else
      var row := PatchedRow(t.questions[QuestionId(s, b)], item);
      if row.Err? then Err(row.error)
      else
        Ok(t.(questionBanks := t.questionBanks[b := PatchedBank(t.questionBanks[b], item)],
              questions := t.questions[QuestionId(s, b) := row.value],
              questionOptions := if item.questionOptions.Some? then t.questionOptions[b := item.questionOptions.value]
                                 else t.questionOptions))
  }

  /** updateQuestion: the items one after another; the first refusal ends it. */
  function UpdateQuestionSpec(t: Tables, s: SurveyId, items: seq<QuestionBankUpdateRequest>): Result<Tables>
  {
    if items == [] then Ok(t)
    else match UpdateQuestionSpec(t, s, items[..|items| - 1])
      case Err(e) => Err(e)
      case Ok(t') => UpdateOneQuestion(t', s, items[|items| - 1])
  }

  /** The item is acceptable against tables t. */
  predicate UpdateAcceptable(t: Tables, s: SurveyId, item: QuestionBankUpdateRequest)
  {
    item.questionBankId in t.questionBanks && QuestionId(s, item.questionBankId) in t.questions
    && (item.questionNo.Some? ==> item.questionNo.value > 0)
  }

  method UpdateQuestion(db: Database, s: SurveyId, items: seq<QuestionBankUpdateRequest>) returns (r: Outcome)
    modifies db
    ensures var spec := UpdateQuestionSpec(old(db.State()), s, items);
      (spec.Err? ==> r == Fail(spec.error) && db.State() == old(db.State()))
      && (spec.Ok? ==> r == Pass && db.State() == spec.value)
  {
    var snapshot := db.State();
    for i := 0 to |items|
      invariant UpdateQuestionSpec(snapshot, s, items[..i]) == Ok(db.State())
    {
      ghost var before := db.State();
      UpdateQuestionStep(snapshot, s, items, i, before);
      var patched := PatchQuestion(db, s, items[i]);
      if patched.Fail? {
        db.Restore(snapshot);
        UpdateQuestionStopsAtError(snapshot, s, items, i + 1);
        return patched;
      }
    }
    assert items[..|items|] == items;
    r := Pass;
  }

  /** One more item after an accepted prefix is that item applied to the prefix's tables. */
  lemma UpdateQuestionStep(t: Tables, s: SurveyId, items: seq<QuestionBankUpdateRequest>, i: nat, before: Tables)
    requires i < |items| && UpdateQuestionSpec(t, s, items[..i]) == Ok(before)
    ensures UpdateQuestionSpec(t, s, items[..i + 1]) == UpdateOneQuestion(before, s, items[i])
  {
    assert items[..i + 1][..i] == items[..i];
  }

  /** One pass of updateQuestion's loop: the bank and its question in survey s are looked up,
      the entities are patched through their setters and saved. A refusal comes before any write. */
  method PatchQuestion(db: Database, s: SurveyId, item: QuestionBankUpdateRequest) returns (r: Outcome)
    modifies db
    ensures var spec := UpdateOneQuestion(old(db.State()), s, item);
      (spec.Err? ==> r == Fail(spec.error) && db.State() == old(db.State()))
      && (spec.Ok? ==> r == Pass && db.State() == spec.value)
  {
    var b := item.questionBankId;
    if b !in db.questionBanks {
      return Fail(QUESTION_BANK_NOT_FOUND);
    }
    if QuestionId(s, b) !in db.questions {
      return Fail(QUESTION_NOT_FOUND);
    }
    var t := db.State();
    var bank := PatchedBank(t.questionBanks[b], item);
    var row := t.questions[QuestionId(s, b)];
    var patched := PatchQuestionEntity(b, s, row, item);
    if patched.Err? {
      return Fail(patched.error);
    }
    db.UpdateQuestionBank(b, bank);
    db.SaveQuestion(QuestionId(s, b), patched.value);
    if item.questionOptions.Some? {
      db.SaveQuestionOptions(b, item.questionOptions.value);
    }
    r := Pass;
  }

  /** The question entity of (s, b) loaded from its row and changed through its setters: the
      required flag, then the number, which the setter refuses when it is not positive. */
  method PatchQuestionEntity(b: BankId, s: SurveyId, row: QuestionRow, item: QuestionBankUpdateRequest)
    returns (r: Result<QuestionRow>)
    ensures r == PatchedRow(row, item)
  {
    var question := new Domain.Question(b, s, row.questionNo, row.isRequired);
    if item.isRequired.Some? {
      question.ChangeIsRequired(item.isRequired.value);
    }
    if item.questionNo.Some? {
      var changed := question.ChangeQuestionNo(item.questionNo.value);
      if changed.Fail? {
        return Err(changed.error);
      }
    }
    r := Ok(question.Row());
  }

  /** Once a prefix is refused, the whole list is refused with the same error. */
  lemma {:induction false} UpdateQuestionStopsAtError(t: Tables, s: SurveyId, items: seq<QuestionBankUpdateRequest>, k: nat)
    requires k <= |items| && UpdateQuestionSpec(t, s, items[..k]).Err?
    ensures UpdateQuestionSpec(t, s, items) == UpdateQuestionSpec(t, s, items[..k])
    decreases |items| - k
  {
    if k < |items| {
      assert items[..k + 1][..k] == items[..k];
      UpdateQuestionStopsAtError(t, s, items, k + 1);
    } else {
      assert items[..k] == items;
    }
  }

  /** One item is accepted exactly when it is acceptable; an accepted item changes only the bank
      it names, that bank's question in survey s and the options, and adds or removes no row. */
  lemma UpdateOneQuestionFrame(t: Tables, s: SurveyId, item: QuestionBankUpdateRequest)
    ensures UpdateOneQuestion(t, s, item).Ok? <==> UpdateAcceptable(t, s, item)
    ensures UpdateOneQuestion(t, s, item).Ok? ==>
      var t' := UpdateOneQuestion(t, s, item).value;
      var b := item.questionBankId;
      t'.questionBanks == t.questionBanks[b := PatchedBank(t.questionBanks[b], item)]
      && t'.questions == t.questions[QuestionId(s, b) := PatchedRow(t.questions[QuestionId(s, b)], item).value]
      && OnlyQuestionTablesChanged(t, t') && t'.nextBankId == t.nextBankId
  {
    var b := item.questionBankId;
    if b in t.questionBanks && QuestionId(s, b) in t.questions {
      var row := PatchedRow(t.questions[QuestionId(s, b)], item);
      if row.Ok? {
        assert OnlyQuestionTablesChanged(t, UpdateOneQuestion(t, s, item).value);
      }
    }
  }

  /** An accepted patch adds or removes no bank and no question and changes no other table. */
  lemma {:induction false} UpdateQuestionFrame(t: Tables, s: SurveyId, items: seq<QuestionBankUpdateRequest>)
    ensures UpdateQuestionSpec(t, s, items).Ok? ==>
      var t' := UpdateQuestionSpec(t, s, items).value;
      t'.questionBanks.Keys == t.questionBanks.Keys && t'.questions.Keys == t.questions.Keys
      && OnlyQuestionTablesChanged(t, t') && t'.nextBankId == t.nextBankId
    decreases |items|
  {
    if items != [] {
      var n := |items|;
      UpdateQuestionFrame(t, s, items[..n - 1]);
      var prefix := UpdateQuestionSpec(t, s, items[..n - 1]);
      if prefix.Ok? {
        UpdateOneQuestionFrame(prefix.value, s, items[n - 1]);
      }
    }
  }

  /** Every item is acceptable against tables t. */
  predicate AllAcceptable(t: Tables, s: SurveyId, items: seq<QuestionBankUpdateRequest>)
  {
    forall i :: 0 <= i < |items| ==> UpdateAcceptable(t, s, items[i])
  }

  lemma AllAcceptableSplit(t: Tables, s: SurveyId, items: seq<QuestionBankUpdateRequest>)
    requires items != []
    ensures AllAcceptable(t, s, items)
        <==> AllAcceptable(t, s, items[..|items| - 1]) && UpdateAcceptable(t, s, items[|items| - 1])
  {
    assert forall i :: 0 <= i < |items| - 1 ==> items[..|items| - 1][i] == items[i];
  }

  /** updateQuestion goes through exactly when every item is acceptable against the original
      tables. */
  lemma {:induction false} UpdateQuestionAccepts(t: Tables, s: SurveyId, items: seq<QuestionBankUpdateRequest>)
    ensures UpdateQuestionSpec(t, s, items).Ok? <==> AllAcceptable(t, s, items)
    decreases |items|
  {
    if items != [] {
      var n := |items|;
      var front, last := items[..n - 1], items[n - 1];
      var prefix := UpdateQuestionSpec(t, s, front);
      AllAcceptableSplit(t, s, items);
      UpdateQuestionAccepts(t, s, front);
      if prefix.Ok? {
        assert UpdateQuestionSpec(t, s, items) == UpdateOneQuestion(prefix.value, s, last);
        assert UpdateOneQuestion(prefix.value, s, last).Ok? <==> UpdateAcceptable(t, s, last) by {
          UpdateQuestionFrame(t, s, front);
          UpdateOneQuestionFrame(prefix.value, s, last);
        }
      } else {
        assert UpdateQuestionSpec(t, s, items) == Err(prefix.error);
      }
    }
  }

  /** Every bank of t is still in t' with the same question type. */
  predicate TypesKept(t: Tables, t': Tables)
  {
    forall b :: b in t.questionBanks ==> b in t'.questionBanks && t'.questionBanks[b].questionType == t.questionBanks[b].questionType
  }

  /** One patch that carries no question type leaves every bank's type as it was. */
  lemma UpdateOneQuestionKeepsTypes(t: Tables, s: SurveyId, item: QuestionBankUpdateRequest)
    requires item.questionType.None? && UpdateOneQuestion(t, s, item).Ok?
    ensures TypesKept(t, UpdateOneQuestion(t, s, item).value)
  {
    UpdateOneQuestionFrame(t, s, item);
  }

  /** Patches that carry no question type leave every bank's type as it was. */
  lemma {:induction false} UpdateQuestionKeepsTypes(t: Tables, s: SurveyId, items: seq<QuestionBankUpdateRequest>)
    requires forall i :: 0 <= i < |items| ==> items[i].questionType.None?
    requires UpdateQuestionSpec(t, s, items).Ok?
    ensures TypesKept(t, UpdateQuestionSpec(t, s, items).value)
    decreases |items|
  {
    if items != [] {
      var n := |items|;
      var front, last := items[..n - 1], items[n - 1];
      UpdateQuestionLast(t, s, items);
      var prefix := UpdateQuestionSpec(t, s, front);
      NoTypesPrefix(items, n - 1);
      UpdateQuestionKeepsTypes(t, s, front);
      UpdateOneQuestionKeepsTypes(prefix.value, s, last);
      TypesKeptTransitive(t, prefix.value, UpdateQuestionSpec(t, s, items).value);
    }
  }

  /** The last item applied after the others. */
  lemma UpdateQuestionLast(t: Tables, s: SurveyId, items: seq<QuestionBankUpdateRequest>)
    requires items != [] && UpdateQuestionSpec(t, s, items).Ok?
    ensures UpdateQuestionSpec(t, s, items[..|items| - 1]).Ok?
    ensures UpdateQuestionSpec(t, s, items)
         == UpdateOneQuestion(UpdateQuestionSpec(t, s, items[..|items| - 1]).value, s, items[|items| - 1])
  {
  }

  lemma NoTypesPrefix(items: seq<QuestionBankUpdateRequest>, k: nat)
    requires k <= |items| && forall i :: 0 <= i < |items| ==> items[i].questionType.None?
    ensures forall i :: 0 <= i < |items[..k]| ==> items[..k][i].questionType.None?
  {
  }

  lemma TypesKeptTransitive(t1: Tables, t2: Tables, t3: Tables)
    requires TypesKept(t1, t2) && TypesKept(t2, t3)
    ensures TypesKept(t1, t3)
  {
  }

  /** A patch keeps the ids valid. */
  lemma UpdateQuestionKeepsIds(t: Tables, s: SurveyId, items: seq<QuestionBankUpdateRequest>)
    requires IdsValid(t) && UpdateQuestionSpec(t, s, items).Ok?
    ensures IdsValid(UpdateQuestionSpec(t, s, items).value)
  {
    UpdateQuestionFrame(t, s, items);
  }

  method DeleteQuestion(db: Database, s: SurveyId)
    modifies db
    ensures db.State() == old(db.State()).(questions := map q | q in old(db.questions) && q.survey != s :: old(db.questions)[q])
  {
    db.DeleteQuestionsOfSurvey(s);
  }

  /** deleteQuestion leaves survey s with no questions and every other survey's questions as they were. */
  lemma DeleteQuestionOnlyThatSurvey(t: Tables, s: SurveyId)
    requires IdsValid(t)
    ensures var t' := t.(questions := map q | q in t.questions && q.survey != s :: t.questions[q]);
      IdsValid(t')
      && SurveyQuestionTypes(t', s) == []
      && (forall s' :: s' != s ==> SurveyQuestionTypes(t', s') == SurveyQuestionTypes(t, s'))
  {
    var t' := t.(questions := map q | q in t.questions && q.survey != s :: t.questions[q]);
    SurveyBankIdsEmpty(t'.questions, s, t.nextBankId);
    forall s' | s' != s
      ensures SurveyQuestionTypes(t', s') == SurveyQuestionTypes(t, s')
    {
      SurveyBankIdsFrame(t'.questions, t.questions, s', t.nextBankId);
    }
  }
}
