# A verified model of the SES appraisal dashboard's client-side rules

The repository is a React single-page application for a staff evaluation system.
Admins and lecturers sign in, admins manage users, appraisal templates and lecturer
rosters, and lecturers fill in appraisal forms. Most of the code renders views. This
project models the small sequential rules in it and proves their properties in Dafny:

- **Admins stream** (`admins_stream.dfy`). The Admins screen receives a live user list.
  A seed event replaces the list by its non-lecturer users. An update event replaces
  the record with the same id in place, or appends an unseen one. A transport error
  shows "Connection lost. Retrying…" and closes the stream. The screen's `data`,
  `loading` and `error` state slots, and whether the stream is open, are the fields of
  the class `AdminsScreen`.
- **Session** (`auth_slice.dfy`, `root_guard.dfy`, `lecturer_slice.dfy`).
  - The `auth` slice's `loginSuccess`/`logout` reducers are the methods of `AuthStore`,
    beside the pure reducer they refine.
  - The dashboard's redirect is the `useEffect` of `Root.tsx`. It is modelled by
    effect runs over a sequence of renders.
  - The `lecturer` slice has two setters.
- **Appraisal templates** (`appraisal_template.dfy`). The "Create Appraisal" dialog has
  add, remove and update over an id-tagged criteria list, a submit that refuses a blank
  name, and the title search.
- **Appraisal form** (`appraisal_form.dfy`). It covers option selection, the running
  total, and the avatar initials and heading after removing a leading title.
- **Grades** (`grades.dfy`). The score cell parses the percentage with JavaScript's
  `parseInt` after removing "%". `getGradeBadgeColor` turns the number into one of five
  colour classes.
- **Tables** (`lecturer_table.dfy`, `admin_table.dfy`, `visitor_table.dfy`).
  - Every table has a case-insensitive substring search.
  - The lecturer table also has faculty and department selections with a `"__all__"`
    sentinel, and the option lists of each selection.
  - The "Add Admin" dialog refuses differing passwords.
- **Registration** (`register.dfy`). The password check comes first. On success the
  session is stored and the page navigates to "/login". Otherwise the handler shows
  the message that fits the kind of failure.

Shared modules:

- `wrappers.dfy` holds JavaScript's optional values and small records.
- `seqs.dfy` holds `filter` and `new Set` de-duplication.
- `text.dfy` holds the JavaScript string operations: `trim`, ASCII `toLowerCase` and
  `toUpperCase`, `includes` and `split`.

Strings are sequences of characters. Case mapping is ASCII only. For the title regex
this is exact: every letter of its pattern is ASCII, and without the `u` flag the `/i`
canonicalisation never maps a non-ASCII character onto an ASCII one. So a name character
matches a pattern letter exactly when the two agree up to ASCII case. White space is the ECMAScript WhiteSpace and LineTerminator set, which `trim`, `\s`
and `parseInt` all use. Where the code does I/O (an `EventSource`, `axios`), its
outcome is a parameter: a parsed payload or a parse failure; created or failed; a
server error, no response, another request error, or a non-`axios` error.
`Date.now()` ids and the token are parameters too.

Points where the code differs from what it evidently intends; the model follows the code:

- `Root.tsx` renders the outlet unconditionally and redirects after rendering. The
  guard is not a render gate.
- The error handler of the stream closes it, although its message says "Retrying…".
- The appraisal template dialog posts to `/users`, not to an appraisal endpoint.
- The store registers only the `auth` reducer. The `lecturer` slice is modelled but
  nothing in the application dispatches into it.
- The appraisal form's selector (`src/Screens/user/appraisal/ApprasalForm.tsx:22`) reads
  `state.lecturer.lecturer`, but `src/store/store.ts` has no `lecturer` slice. As wired,
  that selector reads a field of `undefined` and throws on the first render. The
  appraisal form members model the screen's handlers and derived values as written,
  for a store that would have that slice.
- Re-subscribing after a token change sets `loading` again, but it clears neither
  `error` nor `data`.

## Model

| member | source | states |
|---|---|---|
| AdminsStream.SeedFilter | src/Screens/dashboard/admins/Admins.tsx:30-37 | the seeded list holds exactly the incoming users whose role is not "LECTURER", each with as many copies as it has in the payload, as an order-preserving subsequence whose length is the number of such users; it is the payload itself when that has no lecturer |
| Seqs.FilterUnique | src/Screens/dashboard/admins/Admins.tsx:35 | a filter's result is the only subsequence that holds only kept elements and has as many elements as the input has kept ones, so membership, order and length together determine every filter below |
| Seqs.FilterMultiplicity | src/Screens/dashboard/admins/Admins.tsx:35 | `Array.filter` keeps every copy of a kept element and no copy of a dropped one |
| AdminsStream.Find | src/Screens/dashboard/admins/Admins.tsx:53 | `find` succeeds exactly when some user has the id, and returns a user with that id from the list |
| AdminsStream.LecturerUpdateIgnored | src/Screens/dashboard/admins/Admins.tsx:50 | an update whose role is "LECTURER" leaves the list unchanged, even if its id is present |
| AdminsStream.UpdateKnownIdInPlace | src/Screens/dashboard/admins/Admins.tsx:53-55 | an update for a present id keeps the length, puts the user at that position and leaves every record with another id alone; with distinct ids it is exactly `prev[k := user]` |
| AdminsStream.UpdateUnseenIdAppends | src/Screens/dashboard/admins/Admins.tsx:57 | an update for an unseen id appends it: the length grows by one and the old list is a prefix |
| AdminsStream.UpdatePreservesUniqueIds | src/Screens/dashboard/admins/Admins.tsx:52-58 | distinct ids before an update stay distinct after it |
| AdminsStream.UpdatePreservesNoLecturer | src/Screens/dashboard/admins/Admins.tsx:50-58 | an update never brings a lecturer into a lecturer-free list |
| AdminsStream.SeedKeepsDuplicateIds | src/Screens/dashboard/admins/Admins.tsx:35 | seeding does not de-duplicate: a repeated admin record with a lecturer between the copies leaves both copies, so ids are not distinct |
| AdminsStream.MalformedIgnored | src/Screens/dashboard/admins/Admins.tsx:38-40 | a seed or update payload that fails to parse leaves the list unchanged |
| AdminsStream.StepKeepsNoLecturer | src/Screens/dashboard/admins/Admins.tsx:35-67 | no stream event brings a lecturer into a lecturer-free list |
| AdminsStream.ReplayKeepsNoLecturer | src/Screens/dashboard/admins/Admins.tsx:28-67 | after any sequence of seeds, updates and errors the list holds no lecturer |
| AdminsStream.SeedPreservesUniqueIds | src/Screens/dashboard/admins/Admins.tsx:35 | seeding from users with distinct ids gives a list with distinct ids |
| AdminsStream.SubseqKeepsUniqueIds | src/Screens/dashboard/admins/Admins.tsx:35 | a subsequence of a list with distinct ids has distinct ids and only members of that list |
| AdminsStream.ReplayKeepsUniqueIds | src/Screens/dashboard/admins/Admins.tsx:28-67 | ids stay distinct across any event sequence whose seeds carry distinct ids (uniqueness is preserved, not established) |
| AdminsStream.SeedThenUpdates | src/Screens/dashboard/admins/Admins.tsx:35-58 | a seed with a lecturer, then an update of a known id, a lecturer update and an unseen id, give the expected list |
| AdminsStream.AdminsScreen.constructor | src/Screens/dashboard/admins/Admins.tsx:15-17 | the screen starts with no data, loading, no error and an open stream |
| AdminsStream.AdminsScreen.OnInitUsers | src/Screens/dashboard/admins/Admins.tsx:28-41 | a parsed seed sets `data` to the seed filter of the payload; a parse failure changes nothing |
| AdminsStream.AdminsScreen.OnUserUpdate | src/Screens/dashboard/admins/Admins.tsx:44-62 | a parsed update sets `data` to the replace-or-append of the payload; a parse failure changes nothing |
| AdminsStream.AdminsScreen.OnError | src/Screens/dashboard/admins/Admins.tsx:64-67 | a transport error sets the error to "Connection lost. Retrying…" and closes the stream, keeping the data |
| AdminsStream.AdminsScreen.OnLoadingTimeout | src/Screens/dashboard/admins/Admins.tsx:69-71 | the timeout clears `loading` and nothing else |
| AdminsStream.AdminsScreen.Unmount | src/Screens/dashboard/admins/Admins.tsx:73-75 | unmounting closes the stream and changes no state slot |
| AdminsStream.AdminsScreen.OnTokenChange | src/Screens/dashboard/admins/Admins.tsx:22-25 | a new token sets `loading` and opens a new stream, keeping data and error |
| AdminsStream.AdminsScreen.Deliver | src/Screens/dashboard/admins/Admins.tsx:28-67 | a closed stream delivers nothing; an open one applies the event to `data` and, on a transport error, records the message and closes |
| AdminsStream.AdminsScreen.View | src/Screens/dashboard/admins/Admins.tsx:81-87 | the table shows exactly when loading is over and there is no non-empty error, and it shows `data` |
| AuthSlice.LoginOverwrites | src/store/features/auth/AuthSlice.ts:21-25 | `loginSuccess` stores exactly the payload user and token and sets the flag, whatever the previous session |
| AuthSlice.LogoutIdempotent | src/store/features/auth/AuthSlice.ts:26-30 | `logout` returns to the initial state, so applying it twice equals applying it once |
| AuthSlice.FlagFollowsLastAction | src/store/features/auth/AuthSlice.ts:21-30 | after a non-empty action sequence the flag is set exactly when the last action was `loginSuccess` |
| AuthSlice.ReachableConsistent | src/store/features/auth/AuthSlice.ts:5-30 | every reachable state has a token when authenticated and neither user nor token when not |
| AuthSlice.BearerHeader | src/Screens/dashboard/admins/data-table.tsx:108 | the header is "Bearer " followed by the token, and "Bearer null" without one |
| AuthSlice.AuthStore.constructor | src/store/features/auth/AuthSlice.ts:11-15 | the store starts with user null, token null and the flag false |
| AuthSlice.AuthStore.LoginSuccess | src/store/features/auth/AuthSlice.ts:21-25 | the reducer assigns the payload user and token and sets the flag, as the pure reducer does |
| AuthSlice.AuthStore.Logout | src/store/features/auth/AuthSlice.ts:26-30 | the reducer clears user and token and the flag, as the pure reducer does |
| RootGuard.GuardEffect | src/Screens/dashboard/Root.tsx:14-16 | the effect navigates to "/" exactly when not authenticated, and does nothing otherwise |
| RootGuard.DecisionReadsOnlyFlag | src/Screens/dashboard/Root.tsx:11-16 | two sessions with the same flag get the same redirect decision |
| RootGuard.RenderRoot | src/Screens/dashboard/Root.tsx:13-26 | every render shows the outlet; the only possible navigation is to "/", and it happens exactly when the effect runs while not authenticated |
| RootGuard.Navigations | src/Screens/dashboard/Root.tsx:13-17 | one navigation outcome per render |
| RootGuard.NavigationsAt | src/Screens/dashboard/Root.tsx:13-17 | the outcome of a render depends on the flag and navigate identity it has and on those of the render before |
| RootGuard.LogoutRedirects | src/Screens/dashboard/Root.tsx:13-17 | a render that follows an authenticated render and is not authenticated itself navigates to "/" |
| RootGuard.AuthenticatedNeverNavigates | src/Screens/dashboard/Root.tsx:14 | an authenticated render never navigates |
| RootGuard.StretchStart | src/Screens/dashboard/Root.tsx:13-17 | an unauthenticated render belongs to a stretch of unauthenticated renders that begins at the first render or right after an authenticated one |
| RootGuard.AnonymousIsRedirected | src/Screens/dashboard/Root.tsx:13-17 | every unauthenticated render is preceded or matched by an unauthenticated render in its stretch that navigates to "/" |
| LecturerSlice.SettersTouchOneField | src/store/features/lecturer/LecturerSlice.ts:19-24 | each setter replaces its own field with the payload and leaves the other unchanged |
| LecturerSlice.SettersIdempotent | src/store/features/lecturer/LecturerSlice.ts:19-24 | applying a setter twice with the same payload equals applying it once |
| LecturerSlice.SettersCommute | src/store/features/lecturer/LecturerSlice.ts:19-24 | the two setters commute |
| LecturerSlice.LecturerStore.constructor | src/store/features/lecturer/LecturerSlice.ts:10-13 | the store starts with no lecturer and an empty list |
| LecturerSlice.LecturerStore.SetLecturer | src/store/features/lecturer/LecturerSlice.ts:19-21 | `setLecturer` assigns the payload and leaves the list unchanged |
| LecturerSlice.LecturerStore.SetLecturers | src/store/features/lecturer/LecturerSlice.ts:22-24 | `setLecturers` assigns the payload and leaves the selected lecturer unchanged |
| AppraisalTemplate.RemoveCriteria | src/Screens/dashboard/appraisal/data-table.tsx:101-106 | removal keeps name and status and exactly the criteria with another id, in their order and with their number, so every copy of such a criterion stays |
| AppraisalTemplate.AddAppendsOne | src/Screens/dashboard/appraisal/data-table.tsx:93-98 | adding appends one empty criterion with the new id; the old criteria, name and status are unchanged |
| AppraisalTemplate.UpdateChangesOnlyMatches | src/Screens/dashboard/appraisal/data-table.tsx:109-116 | an update keeps length, ids and order, and sets the value of exactly the criteria with that id |
| AppraisalTemplate.RemoveUniqueDropsOne | src/Screens/dashboard/appraisal/data-table.tsx:101-106 | with distinct ids, removing a present id drops exactly that one criterion |
| AppraisalTemplate.OfferedActionKeepsCriteria | src/Screens/dashboard/appraisal/data-table.tsx:199-254 | with distinct ids and a fresh id per added criterion, no action the dialog offers empties the list, and ids stay distinct |
| AppraisalTemplate.CollidingIdsEmptyTheList | src/Screens/dashboard/appraisal/data-table.tsx:96-104 | with two criteria sharing an id, the offered remove click leaves no criterion, and afterwards the dialog offers only name edits |
| AppraisalTemplate.RequestFor | src/Screens/dashboard/appraisal/data-table.tsx:130-142 | the request goes to `/users` with the bearer header and carries the untrimmed name, the status and the values |
| AppraisalTemplate.TitleSearch | src/Screens/dashboard/appraisal/data-table.tsx:82-85 | a row is kept exactly when the lower-cased query occurs in its lower-cased title, a missing title counting as ""; an empty query keeps every row |
| AppraisalTemplate.TemplateDialog.constructor | src/Screens/dashboard/appraisal/data-table.tsx:58-64 | the dialog starts closed with name "", status "draft" and one empty criterion |
| AppraisalTemplate.TemplateDialog.OnOpenChange | src/Screens/dashboard/appraisal/data-table.tsx:177 | the dialog's open state becomes the one the dialog reports |
| AppraisalTemplate.TemplateDialog.OnAddCriteria | src/Screens/dashboard/appraisal/data-table.tsx:93-98 | the "+" button sets the form to its `addCriteria` update |
| AppraisalTemplate.TemplateDialog.OnRemoveCriteria | src/Screens/dashboard/appraisal/data-table.tsx:101-106 | the "x" button sets the form to its `removeCriteria` update |
| AppraisalTemplate.TemplateDialog.OnUpdateCriteria | src/Screens/dashboard/appraisal/data-table.tsx:109-116 | typing sets the form to its `updateCriteria` update |
| AppraisalTemplate.TemplateDialog.OnNameEdit | src/Screens/dashboard/appraisal/data-table.tsx:199-205 | typing into the name input sets the name and keeps status and criteria |
| AppraisalTemplate.TemplateDialog.FormSubmit | src/Screens/dashboard/appraisal/data-table.tsx:118-162 | a name blank after trimming sends nothing and shows "Name field is empty "; otherwise the form is posted; success resets the form and closes the dialog; failure changes nothing |
| Text.TrimStart | src/Screens/dashboard/appraisal/data-table.tsx:121 | the result is the suffix left after the leading white space |
| Text.TrimEnd | src/Screens/dashboard/appraisal/data-table.tsx:121 | the result is the prefix left before the trailing white space |
| Text.TrimEmptyIffBlank | src/Screens/dashboard/appraisal/data-table.tsx:121 | a string trims to "" exactly when it is all white space |
| Text.ContainsIffOccurs | src/Screens/dashboard/appraisal/data-table.tsx:84 | `includes` holds exactly when the needle occurs at some position |
| Text.FieldMatchesIff | src/Screens/dashboard/appraisal/data-table.tsx:83-84 | a field search holds exactly when the lower-cased query occurs in the lower-cased field; a missing field matches only "" |
| Text.FieldMatchesIgnoresQueryCase | src/Screens/dashboard/visitors/data-table.tsx:58 | the search result does not depend on the letter case of the query |
| Text.LowerForgetsCase | src/Screens/dashboard/visitors/data-table.tsx:58 | lower-casing an upper-cased or lower-cased string equals lower-casing it |
| Text.Split | src/Screens/user/appraisal/ApprasalForm.tsx:54 | a split has at least one piece and no piece holds the separator |
| Text.JoinSplit | src/Screens/user/appraisal/ApprasalForm.tsx:54 | joining the pieces of a split with the separator gives back the string |
| AppraisalForm.SelectChangesOnlyThatActivity | src/Screens/user/appraisal/ApprasalForm.tsx:26-34 | selecting sets the choice of the activities with that id only; length, order, ids, questions and options are kept |
| AppraisalForm.ReselectOverwrites | src/Screens/user/appraisal/ApprasalForm.tsx:30 | re-selecting overwrites the previous choice, and selecting the same value twice equals selecting it once |
| AppraisalForm.NothingSelectedTotalZero | src/Screens/user/appraisal/ApprasalForm.tsx:36-39 | with nothing selected the total is 0 |
| AppraisalForm.InitialTotalIsZero | src/Screens/user/appraisal/ApprasalForm.tsx:16-20 | the total of the seeded activities is 0 |
| AppraisalForm.TotalAfterReplace | src/Screens/user/appraisal/ApprasalForm.tsx:36-39 | changing one activity moves the total by the difference of its contributions, so the total is the sum of the choices with unselected counting 0 |
| AppraisalForm.TotalAfterSelect | src/Screens/user/appraisal/ApprasalForm.tsx:26-39 | with distinct ids, selecting a value moves the total by that value minus the activity's previous choice |
| AppraisalForm.TotalBounds | src/Screens/user/appraisal/ApprasalForm.tsx:36-39 | with every choice between 1 and 5 the total lies between 0 and 5 per activity |
| AppraisalForm.PicksKeepChoicesInRange | src/Screens/user/appraisal/ApprasalForm.tsx:100-111 | clicks on values between 1 and 5 keep every choice in that range and the number of activities |
| AppraisalForm.SeededOptions | src/Screens/user/appraisal/ApprasalForm.tsx:16-20 | the seeded activities offer 1 to 5 and have nothing selected |
| AppraisalForm.OfferedSeededInRange | src/Screens/user/appraisal/ApprasalForm.tsx:105-111 | a value rendered as an option of a seeded activity lies between 1 and 5 |
| AppraisalForm.SeededTotalWithinFifteen | src/Screens/user/appraisal/ApprasalForm.tsx:16-20 | with the three seeded activities and only offered options clicked, the total stays between 0 and 15 |
| AppraisalForm.MatchedTitle | src/Screens/user/appraisal/ApprasalForm.tsx:53 | a match is the length of a title the name starts with, ignoring case, and no match means it starts with none |
| AppraisalForm.StripTitle | src/Screens/user/appraisal/ApprasalForm.tsx:53 | a name starting with one of Mr./Mrs./Ms./Dr./Prof. (ignoring case) loses it and the white space after it; any other name is unchanged |
| AppraisalForm.TitlesPrefixFree | src/Screens/user/appraisal/ApprasalForm.tsx:53 | no title is a case-insensitive prefix of a longer one |
| AppraisalForm.TitlesExclusive | src/Screens/user/appraisal/ApprasalForm.tsx:53 | the titles a name starts with all have the same length, so the removal is determined |
| AppraisalForm.Words | src/Screens/user/appraisal/ApprasalForm.tsx:54-55 | the words are exactly the non-empty pieces of splitting at spaces, in their order and with their number, so none is empty or holds a space |
| AppraisalForm.InitialsOf | src/Screens/user/appraisal/ApprasalForm.tsx:54-58 | the initials are the upper-cased first characters of the first two words (fewer if there are fewer), so at most two |
| AppraisalForm.NoInitialsIffBlank | src/Screens/user/appraisal/ApprasalForm.tsx:54-58 | the initials are empty exactly when the stripped name is all spaces |
| AppraisalForm.AppraisalFormScreen.constructor | src/Screens/user/appraisal/ApprasalForm.tsx:16-20 | the form starts with the three seeded activities |
| AppraisalForm.AppraisalFormScreen.HandleOptionSelect | src/Screens/user/appraisal/ApprasalForm.tsx:26-34 | a radio click sets the activities to their selection update |
| AppraisalGrades.DigitPrefix | src/Screens/dashboard/appraisals/columns.tsx:117 | the digits read are the longest prefix of digits of the radix |
| AppraisalGrades.ParseDigits | src/Screens/dashboard/appraisals/columns.tsx:117 | a run of digits gives NaN exactly when it is empty |
| AppraisalGrades.RemoveFirst | src/Screens/dashboard/appraisals/columns.tsx:117 | `replace("%", "")` removes the first "%" only, and nothing when there is none |
| AppraisalGrades.ShowNat | src/Screens/dashboard/appraisals/columns.tsx:117 | a decimal numeral is made of digits and has no leading zero |
| AppraisalGrades.ShowNatValue | src/Screens/dashboard/appraisals/columns.tsx:117 | the digits of a numeral denote its number |
| AppraisalGrades.TrimStartAfterSpace | src/Screens/dashboard/appraisals/columns.tsx:117 | trimming leading white space in front of a non-space leaves the rest |
| AppraisalGrades.DigitPrefixOfDigits | src/Screens/dashboard/appraisals/columns.tsx:117 | digits followed by a non-digit read as those digits |
| AppraisalGrades.DigitPrefixOfNumeral | src/Screens/dashboard/appraisals/columns.tsx:117 | a numeral followed by a non-digit reads as the numeral |
| AppraisalGrades.ParseUnsignedNumeral | src/Screens/dashboard/appraisals/columns.tsx:117 | an unsigned numeral reads as its number unless it is "0" before "x" or "X" |
| AppraisalGrades.ParseIntSkipsSpace | src/Screens/dashboard/appraisals/columns.tsx:117 | `parseInt` ignores the white space in front of its input |
| AppraisalGrades.ParseIntNumeral | src/Screens/dashboard/appraisals/columns.tsx:117 | white space, a numeral and a non-digit tail read as the numeral's number |
| AppraisalGrades.ParseIntNegativeNumeral | src/Screens/dashboard/appraisals/columns.tsx:117 | a minus sign before a numeral negates it |
| AppraisalGrades.ParseIntHex | src/Screens/dashboard/appraisals/columns.tsx:117 | "0x1F" reads as 31 and "0x" as NaN |
| AppraisalGrades.ParseIntBlankIsNaN | src/Screens/dashboard/appraisals/columns.tsx:117 | white space alone reads as NaN |
| AppraisalGrades.ParseIntNonNumeralIsNaN | src/Screens/dashboard/appraisals/columns.tsx:117 | text starting with neither white space, a sign nor a decimal digit reads as NaN |
| AppraisalGrades.ParseIntBareSignIsNaN | src/Screens/dashboard/appraisals/columns.tsx:117 | a lone "-" or "+" reads as NaN |
| AppraisalGrades.RemoveFirstTrailing | src/Screens/dashboard/appraisals/columns.tsx:117 | when the only "%" is the last character, removing the first one drops exactly it |
| AppraisalTemplate.DropKeepsUniqueIds | src/Screens/dashboard/appraisal/data-table.tsx:101-106 | dropping one criterion from a list with distinct ids keeps them distinct |
| AppraisalGrades.ParseIntNoDigitsIsNaN | src/Screens/dashboard/appraisals/columns.tsx:117 | "abc" and a bare "-" read as NaN |
| AppraisalGrades.ScoreOfPercentage | src/Screens/dashboard/appraisals/columns.tsx:116-117 | a numeral followed by "%" scores its number |
| AppraisalGrades.EightyFivePercent | src/Screens/dashboard/appraisals/columns.tsx:116-117 | "85%" scores 85 |
| AppraisalGrades.BadgeColorOfBand | src/Screens/dashboard/appraisals/columns.tsx:66-72 | the if-chain gives the colour of the score's interval band (A from 70, B 60-69, C 50-59, D 45-49, F below 45 or NaN), and exactly one band has that colour |
| AppraisalGrades.NaNIsRed | src/Screens/dashboard/appraisals/columns.tsx:66-72 | NaN is red, whatever the comparisons, and "abc%" scores NaN |
| AppraisalGrades.GradeMonotone | src/Screens/dashboard/appraisals/columns.tsx:66-72 | a higher score never gets a lower band |
| LecturerTable.FilteredData | src/Screens/user/lecturers/data-table.tsx:50-56 | a row is kept exactly when it passes both selections, "__all__" imposing nothing; the kept rows keep their order and their number of copies; all rows are kept when both are "__all__" |
| LecturerTable.FacultySelectionRestricts | src/Screens/user/lecturers/data-table.tsx:52-54 | choosing a faculty gives the same rows, copies and order as filtering the rows by "has that faculty and passes the department selection" |
| LecturerTable.PresentValues | src/Screens/user/lecturers/data-table.tsx:86 | the kept values are exactly the present, non-empty ones, each with as many copies as in the column |
| LecturerTable.PresentValuesKeepOrder | src/Screens/user/lecturers/data-table.tsx:86 | dropping missing and empty values keeps the order in which the remaining values first appear |
| LecturerTable.FirstFacultyRow | src/Screens/user/lecturers/data-table.tsx:84-88 | the index of the first row having that faculty |
| LecturerTable.FirstDepartmentRow | src/Screens/user/lecturers/data-table.tsx:90-94 | the index of the first row having that department |
| LecturerTable.FacultiesListEachOnce | src/Screens/user/lecturers/data-table.tsx:84-88 | the faculty options are each non-empty faculty of some row, once each, ordered by the first row that has them |
| LecturerTable.DepartmentsListEachOnce | src/Screens/user/lecturers/data-table.tsx:90-94 | the department options are each non-empty department of some row, once each, ordered by the first row that has them |
| LecturerTable.NameSearch | src/Screens/user/lecturers/data-table.tsx:72-76 | a row is kept exactly when the lower-cased query occurs in the lower-cased name, a missing name counting as ""; an empty query keeps every row |
| LecturerTable.VisibleRows | src/Screens/user/lecturers/data-table.tsx:47-76 | the shown rows are exactly those passing both selections and the name search, in order and with their number of copies |
| AdminTable.AdminSearch | src/Screens/dashboard/admins/data-table.tsx:76-81 | a row is kept exactly when the lower-cased query occurs in its lower-cased first name, last name or email, missing fields counting as ""; an empty query keeps every row, and the query's case does not matter |
| AdminTable.RoleStaysAdmin | src/Screens/dashboard/admins/data-table.tsx:51-58 | no input of the form changes the role, so it stays "ADMIN" |
| AdminTable.RequestFor | src/Screens/dashboard/admins/data-table.tsx:100-110 | the request goes to `/users` with the bearer header and holds first name, last name, role, email and password |
| AdminTable.RequestIgnoresConfirmation | src/Screens/dashboard/admins/data-table.tsx:100-106 | the confirmation field is never sent |
| AdminTable.AdminDialog.constructor | src/Screens/dashboard/admins/data-table.tsx:49-58 | the dialog starts closed with empty fields and role "ADMIN" |
| AdminTable.AdminDialog.OnOpenChange | src/Screens/dashboard/admins/data-table.tsx:138 | the dialog's open state becomes the one the dialog reports |
| AdminTable.AdminDialog.OnEdit | src/Screens/dashboard/admins/data-table.tsx:161-212 | typing updates the one field its input is wired to |
| AdminTable.AdminDialog.FormSubmit | src/Screens/dashboard/admins/data-table.tsx:88-126 | differing passwords send nothing and show "Passwords do not match"; otherwise the form is posted; success only closes the dialog, without resetting the form; failure changes nothing |
| VisitorTable.VisitorSearch | src/Screens/dashboard/visitors/data-table.tsx:55-59 | a row is kept exactly when the lower-cased query occurs in its lower-cased user or ip, missing fields counting as ""; an empty query keeps every row; the query's case does not matter |
| Register.RequestFor | src/Screens/auth/Register.tsx:29-33 | the request goes to `/api/register` with first name, last name, email and password only |
| Register.FailureNoticeNonEmpty | src/Screens/auth/Register.tsx:43-54 | every failure raises an error notice, whose title is empty only for an `axios` error with an empty message |
| Register.HandleRegister | src/Screens/auth/Register.tsx:19-56 | differing passwords send nothing; a registration stores exactly the response's user and token and navigates to "/login"; a failure leaves the session alone and shows its message |
| Register.RegisteredSessionIsAuthenticated | src/Screens/auth/Register.tsx:38-40 | after a registration the session is authenticated and consistent, holding the response's user and token |

## Left out

- Rendering, the sidebar, the theme, breadcrumbs and toasts as UI are left out, except for the notice each handler raises.
- TanStack table internals are left out: sorting, pagination, row selection and column visibility.
- The network is left out: `EventSource` construction, `axios` requests and `JSON.parse` appear only as their outcomes.
- Timers and `navigate` are events or results of the model.
- `console.log` output is left out.
- `Date.now()` ids are parameters. The model does not assume they are distinct; the lemmas that need distinct ids require it.
- Unicode case mapping is left out: `toLowerCase` and `toUpperCase` are modelled on ASCII letters only.
- Strings are sequences of Unicode scalar values, not UTF-16 code units. `n[0]` of a word beginning with an astral character is therefore not modelled exactly.
- AppraisalGrades.ParseInt: it returns exact integers. JavaScript rounds very long numerals to the nearest double, and it gives -0 for "-0"; neither changes the band, because every comparison treats -0 as 0.
- Register.HandleRegister: the success notice's missing `message` is modelled as an empty title.
- AppraisalTemplate.TemplateDialog.FormSubmit, AdminTable.AdminDialog.FormSubmit and Register.HandleRegister are modelled as atomic. In the code the `await` lets edits or a second submit interleave with a pending request, because no submit button is disabled meanwhile. After a created template the reset also discards edits typed during the request. The model does not capture that interleaving.
- Register.RegisterResponse: a response token is typed as a string, as the slice's payload type says. A server that omits it is not modelled.
- The HTML `required` attributes of the dialogs are browser-side validation and are left out, so empty fields can be submitted in the model.
- The faculties table's column filter is left out, and so are the thin fetch wrappers: Faculties, Appraisal, Login, Lecturers and the User screens.
- The static sample data of all other column files is left out.
- The store wiring is left out. It registers the `auth` reducer only.
