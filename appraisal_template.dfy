/** The "Create Appraisal" dialog of the appraisal templates table: a name, a
    status and an id-tagged list of criteria edited in place, a submit that
    refuses a blank name, and the table's title search
    (src/Screens/dashboard/appraisal/data-table.tsx). */
module AppraisalTemplate {
  import opened Wrappers
  import opened Records
  import Seqs
  import Text
  import AuthSlice

  /** One criterion input; its id comes from `Date.now()` and may collide with another's. */
  datatype Criterion = Criterion(id: int, value: string)

  /** The dialog's `formData` state slot. */
  datatype TemplateForm = TemplateForm(name: string, status: string, criteria: seq<Criterion>)

  /** The form as first rendered and as reset after a successful submit. */
  function EmptyForm(id: int): TemplateForm
  {
    TemplateForm("", "draft", [Criterion(id, "")])
  }

  /** `addCriteria`: append one empty criterion with a new id. */
  function AddCriteria(f: TemplateForm, newId: int): TemplateForm
  {
    f.(criteria := f.criteria + [Criterion(newId, "")])
  }

  /** The filter predicate of `removeCriteria`: `c => c.id !== id`. */
  function Without(id: int): Criterion -> bool
  {
    (c: Criterion) => c.id != id
  }

  /** `removeCriteria`: drop every criterion with that id. */
  function RemoveCriteria(f: TemplateForm, id: int): (g: TemplateForm)
    ensures g.name == f.name && g.status == f.status
    ensures forall c :: c in g.criteria <==> c in f.criteria && c.id != id
    ensures Seqs.IsSubseq(g.criteria, f.criteria)
    ensures |g.criteria| == Seqs.Count(f.criteria, Without(id))
  {
    Seqs.FilterIsSubseq(f.criteria, Without(id));
    Seqs.FilterLength(f.criteria, Without(id));
    f.(criteria := Seqs.Filter(f.criteria, Without(id)))
  }

  /** `updateCriteria`: set the value of every criterion with that id. */
  function UpdateCriteria(f: TemplateForm, id: int, value: string): TemplateForm
  {
    f.(criteria := seq(|f.criteria|, i requires 0 <= i < |f.criteria| =>
      if f.criteria[i].id == id then f.criteria[i].(value := value) else f.criteria[i]))
  }

  /** The ids of the criteria are pairwise distinct. */
  predicate UniqueIds(cs: seq<Criterion>)
  {
    forall i, j :: 0 <= i < j < |cs| ==> cs[i].id != cs[j].id
  }

  /** Some criterion carries this id. */
  predicate HasId(cs: seq<Criterion>, id: int)
  {
    exists i :: 0 <= i < |cs| && cs[i].id == id
  }

  /** `addCriteria` appends exactly one empty criterion and changes nothing else. */
  lemma AddAppendsOne(f: TemplateForm, newId: int)
    ensures var g := AddCriteria(f, newId);
      && g.name == f.name && g.status == f.status
      && |g.criteria| == |f.criteria| + 1 && f.criteria <= g.criteria
      && g.criteria[|f.criteria|] == Criterion(newId, "")
  {
  }

  /** `updateCriteria` keeps length, ids and order, and changes only the values of matching criteria. */
  lemma UpdateChangesOnlyMatches(f: TemplateForm, id: int, value: string)
    ensures var g := UpdateCriteria(f, id, value);
      && g.name == f.name && g.status == f.status && |g.criteria| == |f.criteria|
      && (forall i :: 0 <= i < |f.criteria| ==> g.criteria[i].id == f.criteria[i].id)
      && (forall i :: 0 <= i < |f.criteria| && f.criteria[i].id == id ==> g.criteria[i].value == value)
      && (forall i :: 0 <= i < |f.criteria| && f.criteria[i].id != id ==> g.criteria[i] == f.criteria[i])
  {
  }

  /** With distinct ids, the criteria before and after position `k` all survive removing its id. */
  lemma OthersSurvive(cs: seq<Criterion>, k: nat)
    requires UniqueIds(cs) && k < |cs|
    ensures Seqs.Filter(cs[..k], Without(cs[k].id)) == cs[..k]
    ensures Seqs.Filter(cs[k + 1..], Without(cs[k].id)) == cs[k + 1..]
  {
    var keep := Without(cs[k].id);
    var before, after := cs[..k], cs[k + 1..];
    forall i | 0 <= i < |before| ensures keep(before[i]) {
      assert before[i] == cs[i];
    }
    forall i | 0 <= i < |after| ensures keep(after[i]) {
      assert after[i] == cs[k + 1 + i];
    }
    Seqs.FilterAll(before, keep);
    Seqs.FilterAll(after, keep);
  }

  /** With distinct ids, removing a present id drops exactly that one criterion. */
  lemma RemoveUniqueDropsOne(f: TemplateForm, k: nat)
    requires UniqueIds(f.criteria) && k < |f.criteria|
    ensures RemoveCriteria(f, f.criteria[k].id).criteria == f.criteria[..k] + f.criteria[k + 1..]
    ensures |RemoveCriteria(f, f.criteria[k].id).criteria| == |f.criteria| - 1
  {
    var cs := f.criteria;
    var keep := Without(cs[k].id);
    var before, x, after := cs[..k], cs[k], cs[k + 1..];
    calc {
      Seqs.Filter(cs, keep);
      { assert cs == (before + [x]) + after; }
      Seqs.Filter((before + [x]) + after, keep);
      { Seqs.FilterConcat(before + [x], after, keep); }
      Seqs.Filter(before + [x], keep) + Seqs.Filter(after, keep);
      { Seqs.FilterConcat(before, [x], keep); }
      Seqs.Filter(before, keep) + Seqs.Filter([x], keep) + Seqs.Filter(after, keep);
      { OthersSurvive(cs, k); FilterDropsOne(x, keep); }
      before + [] + after;
    }
    assert before + [] + after == before + after;
  }

  /** A rejected element filters to nothing. */
  lemma FilterDropsOne(x: Criterion, keep: Criterion -> bool)
    requires !keep(x)
    ensures Seqs.Filter([x], keep) == []
  {
    assert Seqs.Filter([x], keep) == [] + Seqs.Filter([x][1..], keep);
  }

  /** Dropping one element of a list with distinct ids keeps them distinct. */
  lemma DropKeepsUniqueIds(cs: seq<Criterion>, k: nat)
    requires UniqueIds(cs) && k < |cs|
    ensures UniqueIds(cs[..k] + cs[k + 1..])
  {
    var r := cs[..k] + cs[k + 1..];
    forall i, j | 0 <= i < j < |r| ensures r[i].id != r[j].id {
      var i' := if i < k then i else i + 1;
      var j' := if j < k then j else j + 1;
      assert r[i] == cs[i'] && r[j] == cs[j'];
    }
  }

  /** What a user can do in the dialog. The add and remove buttons sit on each rendered
      criterion, so neither exists without a criterion; remove is offered only while more
      than one criterion exists. */
  datatype FormAction =
    | AddClicked(newId: int)
    | RemoveClicked(id: int)
    | CriterionEdited(id: int, value: string)
    | NameEdited(name: string)

  /** The action is one the rendered dialog offers. */
  predicate Offered(f: TemplateForm, a: FormAction)
  {
    match a
    case AddClicked(_) => |f.criteria| >= 1
    case RemoveClicked(id) => |f.criteria| > 1 && HasId(f.criteria, id)
    case CriterionEdited(id, _) => HasId(f.criteria, id)
    case NameEdited(_) => true
  }

  /** The form after one action. */
  function Apply(f: TemplateForm, a: FormAction): TemplateForm
  {
    match a
    case AddClicked(newId) => AddCriteria(f, newId)
    case RemoveClicked(id) => RemoveCriteria(f, id)
    case CriterionEdited(id, value) => UpdateCriteria(f, id, value)
    case NameEdited(name) => f.(name := name)
  }

  /** With distinct ids and a fresh id for every added criterion, no action the dialog
      offers empties the list, and ids stay distinct. */
  lemma OfferedActionKeepsCriteria(f: TemplateForm, a: FormAction)
    requires |f.criteria| >= 1 && UniqueIds(f.criteria) && Offered(f, a)
    requires a.AddClicked? ==> !HasId(f.criteria, a.newId)
    ensures |Apply(f, a).criteria| >= 1 && UniqueIds(Apply(f, a).criteria)
  {
    match a
    case AddClicked(newId) =>
    case RemoveClicked(id) =>
      var k :| 0 <= k < |f.criteria| && f.criteria[k].id == id;
      RemoveUniqueDropsOne(f, k);
      DropKeepsUniqueIds(f.criteria, k);
    case CriterionEdited(id, value) =>
    case NameEdited(name) =>
  }

  /** Colliding ids defeat the guard: two criteria created in the same millisecond are both
      removed by one click, leaving no criterion, and afterwards only the name can be edited. */
  lemma CollidingIdsEmptyTheList()
    ensures var f := TemplateForm("", "draft", [Criterion(7, ""), Criterion(7, "")]);
      Offered(f, RemoveClicked(7)) && Apply(f, RemoveClicked(7)).criteria == []
      && forall a :: Offered(Apply(f, RemoveClicked(7)), a) ==> a.NameEdited?
  {
    var f := TemplateForm("", "draft", [Criterion(7, ""), Criterion(7, "")]);
    assert f.criteria[0].id == 7;
    var keep := Without(7);
    assert Seqs.Filter(f.criteria, keep) == [] + Seqs.Filter([Criterion(7, "")], keep);
  }

  /** The request body's `criteria`: the criterion values in order. */
  function Values(cs: seq<Criterion>): (vs: seq<string>)
    ensures |vs| == |cs| && forall i :: 0 <= i < |cs| ==> vs[i] == cs[i].value
  {
    seq(|cs|, i requires 0 <= i < |cs| => cs[i].value)
  }

  /** The POST the dialog sends: endpoint path, authorization header and body. */
  datatype AppraisalRequest = AppraisalRequest(
    path: string,
    authorization: string,
    name: string,
    status: string,
    criteria: seq<string>)

  /** The request for a form: the untrimmed name, the status and the values, to `/users`. */
  function RequestFor(f: TemplateForm, token: Option<string>): (r: AppraisalRequest)
    ensures r.path == "/users" && r.authorization == AuthSlice.BearerHeader(token)
    ensures r.name == f.name && r.status == f.status && r.criteria == Values(f.criteria)
  {
    AppraisalRequest("/users", AuthSlice.BearerHeader(token), f.name, f.status, Values(f.criteria))
  }

  /** The notice for a blank name. */
  const NameEmptyNotice: Notice := Notice(Error, "Name field is empty ")

  /** The notice after the server accepted the template. */
  const CreatedNotice: Notice := Notice(Success, "Appraisal created successfully")

  /** The notice after the request failed. */
  const FailedNotice: Notice := Notice(Error, "Something went wrong")

  /** The table's `globalFilterFn`: the lower-cased title contains the lower-cased query. */
  predicate TitleMatches(title: Option<string>, query: string)
  {
    Text.FieldMatches(title, query)
  }

  /** Title search keeps a row exactly when the lower-cased query occurs in its lower-cased
      title, a missing title counting as "". */
  lemma TitleSearch(title: Option<string>, query: string)
    ensures TitleMatches(title, query) <==>
      exists i :: Text.OccursAt(Text.Lower(title.GetOr("")), Text.Lower(query), i)
    ensures query == "" ==> TitleMatches(title, query)
  {
    Text.FieldMatchesIff(title, query);
  }

  /** The dialog's `formData` and `open` state slots. */
  class TemplateDialog {
    var formData: TemplateForm
    var open: bool

    /** First render: an empty form and a closed dialog. */
    constructor (id: int)
      ensures formData == EmptyForm(id) && !open
    {
      formData := EmptyForm(id);
      open := false;
    }

    /** The "+" button. */
    method OnAddCriteria(newId: int)
      modifies this`formData
      ensures formData == AddCriteria(old(formData), newId)
    {
      formData := AddCriteria(formData, newId);
    }

    /** The "x" button of a criterion. */
    method OnRemoveCriteria(id: int)
      modifies this`formData
      ensures formData == RemoveCriteria(old(formData), id)
    {
      formData := RemoveCriteria(formData, id);
    }

    /** Typing into a criterion. */
    method OnUpdateCriteria(id: int, value: string)
      modifies this`formData
      ensures formData == UpdateCriteria(old(formData), id, value)
    {
      formData := UpdateCriteria(formData, id, value);
    }

    /** `onOpenChange={setOpen}`: the trigger button opens the dialog, and closing it by
        hand closes it. */
    method OnOpenChange(o: bool)
      modifies this`open
      ensures open == o
    {
      open := o;
    }

    /** Typing into the name input. */
    method OnNameEdit(name: string)
      modifies this`formData
      ensures formData == Apply(old(formData), NameEdited(name))
      ensures formData.name == name && formData.status == old(formData).status
        && formData.criteria == old(formData).criteria
    {
      formData := formData.(name := name);
    }

    /** `formSubmit`, given the session token, how the POST ends and the `Date.now()` of the
        reset: a blank name sends nothing; a created template resets the form and closes
        the dialog; a failure leaves both as they were. */
    method FormSubmit(token: Option<string>, outcome: PostOutcome, resetId: int)
      returns (request: Option<AppraisalRequest>, notice: Notice)
      modifies this
      ensures Text.Trim(old(formData).name) == "" ==>
        request == None && notice == NameEmptyNotice && formData == old(formData) && open == old(open)
      ensures Text.Trim(old(formData).name) != "" ==> request == Some(RequestFor(old(formData), token))
      ensures Text.Trim(old(formData).name) != "" && outcome == Created ==>
        formData == EmptyForm(resetId) && !open && notice == CreatedNotice
      ensures Text.Trim(old(formData).name) != "" && outcome == Failed ==>
        formData == old(formData) && open == old(open) && notice == FailedNotice
    {
      if Text.Trim(formData.name) == "" {
        return None, NameEmptyNotice;
      }
      request := Some(RequestFor(formData, token));
      if outcome == Created {
        notice := CreatedNotice;
        formData := EmptyForm(resetId);
        open := false;
      } else {
        notice := FailedNotice;
      }
    }
  }
}
