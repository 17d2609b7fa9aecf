/** The admins table: a search over first name, last name and email, and the
    "Add Admin" dialog whose submit refuses mismatched passwords and posts the new
    user without its confirmation field (src/Screens/dashboard/admins/data-table.tsx). */
module AdminTable {
  import opened Wrappers
  import opened Records
  import Text
  import AuthSlice
  import AdminsStream

  /** The table's `globalFilterFn`: the query occurs, ignoring case, in the first name,
      the last name or the email. */
  predicate AdminMatches(u: AdminsStream.User, query: string)
  {
    Text.FieldMatches(u.firstname, query) || Text.FieldMatches(u.lastname, query)
    || Text.FieldMatches(u.email, query)
  }

  /** The lower-cased query occurs in one of the three lower-cased fields. */
  ghost predicate OccursInSomeField(u: AdminsStream.User, query: string)
  {
    || (exists i :: Text.OccursAt(Text.Lower(u.firstname.GetOr("")), Text.Lower(query), i))
    || (exists i :: Text.OccursAt(Text.Lower(u.lastname.GetOr("")), Text.Lower(query), i))
    || (exists i :: Text.OccursAt(Text.Lower(u.email.GetOr("")), Text.Lower(query), i))
  }

  /** Search keeps a row exactly when the lower-cased query occurs in one of its three
      lower-cased fields, missing fields counting as ""; an empty query keeps every row,
      and the letter case of the query does not matter. */
  lemma AdminSearch(u: AdminsStream.User, query: string)
    ensures AdminMatches(u, query) <==> OccursInSomeField(u, query)
    ensures query == "" ==> AdminMatches(u, query)
    ensures AdminMatches(u, Text.Upper(query)) == AdminMatches(u, query)
  {
    Text.FieldMatchesIff(u.firstname, query);
    Text.FieldMatchesIff(u.lastname, query);
    Text.FieldMatchesIff(u.email, query);
    Text.FieldMatchesIgnoresQueryCase(u.firstname, query);
    Text.FieldMatchesIgnoresQueryCase(u.lastname, query);
    Text.FieldMatchesIgnoresQueryCase(u.email, query);
  }

  /** The dialog's `formData` state slot. */
  datatype AdminForm = AdminForm(
    firstname: string,
    lastname: string,
    email: string,
    role: string,
    password: string,
    confirmPassword: string)

  /** The role every new user gets: the form has no control that changes it. */
  const DefaultRole: string := "ADMIN"

  /** The form as first rendered. */
  const InitialForm: AdminForm := AdminForm("", "", "", DefaultRole, "", "")

  /** The inputs of the dialog, each wired to one field of `formData`. */
  datatype FormInput = FirstnameInput | LastnameInput | EmailInput | PasswordInput | ConfirmPasswordInput

  /** `setFormData({ ...formData, <field>: value })`. */
  function Edit(f: AdminForm, input: FormInput, value: string): AdminForm
  {
    match input
    case FirstnameInput => f.(firstname := value)
    case LastnameInput => f.(lastname := value)
    case EmailInput => f.(email := value)
    case PasswordInput => f.(password := value)
    case ConfirmPasswordInput => f.(confirmPassword := value)
  }

  /** The form after a sequence of keystrokes. */
  function EditAll(f: AdminForm, edits: seq<(FormInput, string)>): AdminForm
    decreases |edits|
  {
    if edits == [] then f else EditAll(Edit(f, edits[0].0, edits[0].1), edits[1..])
  }

  /** No input touches the role, so it stays "ADMIN" whatever is typed. */
  lemma {:induction false} RoleStaysAdmin(f: AdminForm, edits: seq<(FormInput, string)>)
    requires f.role == DefaultRole
    ensures EditAll(f, edits).role == DefaultRole
    decreases |edits|
  {
    if edits != [] {
      RoleStaysAdmin(Edit(f, edits[0].0, edits[0].1), edits[1..]);
    }
  }

  /** The POST the dialog sends: endpoint path, authorization header and body. */
  datatype CreateUserRequest = CreateUserRequest(
    path: string,
    authorization: string,
    firstname: string,
    lastname: string,
    role: string,
    email: string,
    password: string)

  /** The request for a form: its fields except `confirm_password`, to `/users`. */
  function RequestFor(f: AdminForm, token: Option<string>): (r: CreateUserRequest)
    ensures r.path == "/users" && r.authorization == AuthSlice.BearerHeader(token)
    ensures r.firstname == f.firstname && r.lastname == f.lastname && r.role == f.role
      && r.email == f.email && r.password == f.password
  {
    CreateUserRequest("/users", AuthSlice.BearerHeader(token), f.firstname, f.lastname, f.role, f.email, f.password)
  }

  /** Requests do not depend on the confirmation field. */
  lemma RequestIgnoresConfirmation(f: AdminForm, confirm: string, token: Option<string>)
    ensures RequestFor(f.(confirmPassword := confirm), token) == RequestFor(f, token)
  {
  }

  /** The notice for differing passwords. */
  const MismatchNotice: Notice := Notice(Error, "Passwords do not match")

  /** The notice after the server created the user. */
  const CreatedNotice: Notice := Notice(Success, "Admin created successfully")

  /** The notice after the request failed. */
  const FailedNotice: Notice := Notice(Error, "Something went wrong")

  /** The dialog's `formData` and `open` state slots. */
  class AdminDialog {
    var formData: AdminForm
    var open: bool

    /** First render: the initial form and a closed dialog. */
    constructor ()
      ensures formData == InitialForm && !open
    {
      formData := InitialForm;
      open := false;
    }

    /** `onOpenChange={setOpen}`: the trigger button opens the dialog, and closing it by
        hand closes it. */
    method OnOpenChange(o: bool)
      modifies this`open
      ensures open == o
    {
      open := o;
    }

    /** Typing into one input. */
    method OnEdit(input: FormInput, value: string)
      modifies this`formData
      ensures formData == Edit(old(formData), input, value)
    {
      formData := Edit(formData, input, value);
    }

    /** `formSubmit`, given the session token and how the POST ends: differing passwords
        send nothing; a created user closes the dialog without resetting the form; a
        failure changes nothing. */
    method FormSubmit(token: Option<string>, outcome: PostOutcome)
      returns (request: Option<CreateUserRequest>, notice: Notice)
      modifies this`open
      ensures formData == old(formData)
      ensures formData.password != formData.confirmPassword ==>
        request == None && notice == MismatchNotice && open == old(open)
      ensures formData.password == formData.confirmPassword ==> request == Some(RequestFor(formData, token))
      ensures formData.password == formData.confirmPassword && outcome == Created ==>
        !open && notice == CreatedNotice
      ensures formData.password == formData.confirmPassword && outcome == Failed ==>
        open == old(open) && notice == FailedNotice
    {
      if formData.password != formData.confirmPassword {
        return None, MismatchNotice;
      }
      request := Some(RequestFor(formData, token));
      if outcome == Created {
        notice := CreatedNotice;
        open := false;
      } else {
        notice := FailedNotice;
      }
    }
  }
}
