/** The lecturers table of the user area: faculty and department selections with a
    "show all" sentinel, the choices offered in each selection, and a name search
    (src/Screens/user/lecturers/data-table.tsx). */
module LecturerTable {
  import opened Wrappers
  import Seqs
  import Text

  /** The fields of a row the table reads; each may be missing. */
  datatype LecturerRow = LecturerRow(name: Option<string>, faculty: Option<string>, department: Option<string>)

  /** The selection value meaning "Show All". */
  const ShowAll: string := "__all__"

  /** `selected === "__all__" || field === selected`; a missing field equals no string. */
  predicate MatchesSelection(field: Option<string>, selected: string)
  {
    selected == ShowAll || field == Some(selected)
  }

  /** The filter predicate of `filteredData`. */
  function InSelection(selectedFaculty: string, selectedDepartment: string): LecturerRow -> bool
  {
    (row: LecturerRow) =>
      MatchesSelection(row.faculty, selectedFaculty) && MatchesSelection(row.department, selectedDepartment)
  }

  /** `filteredData`: the rows matching both selections, in their order; all rows when
      both selections are "Show All". */
  function FilteredData(data: seq<LecturerRow>, selectedFaculty: string, selectedDepartment: string)
    : (r: seq<LecturerRow>)
    ensures forall row :: row in r <==>
      row in data && MatchesSelection(row.faculty, selectedFaculty)
      && MatchesSelection(row.department, selectedDepartment)
    ensures Seqs.IsSubseq(r, data)
    ensures selectedFaculty == ShowAll && selectedDepartment == ShowAll ==> r == data
    ensures |r| == Seqs.Count(data, InSelection(selectedFaculty, selectedDepartment))
  {
    var keep := InSelection(selectedFaculty, selectedDepartment);
    Seqs.FilterIsSubseq(data, keep);
    Seqs.FilterLength(data, keep);
    assert selectedFaculty == ShowAll && selectedDepartment == ShowAll ==> Seqs.Filter(data, keep) == data by {
      if selectedFaculty == ShowAll && selectedDepartment == ShowAll {
        Seqs.FilterAll(data, keep);
      }
    }
    Seqs.Filter(data, keep)
  }

  /** The rows of one faculty that pass the department selection. */
  function OfFaculty(faculty: string, selectedDepartment: string): LecturerRow -> bool
  {
    (row: LecturerRow) => row.faculty == Some(faculty) && MatchesSelection(row.department, selectedDepartment)
  }

  /** Choosing a faculty keeps exactly the rows of that faculty that pass the department
      selection: the same rows, copies and order as filtering by that condition. */
  lemma FacultySelectionRestricts(data: seq<LecturerRow>, faculty: string, selectedDepartment: string)
    requires faculty != ShowAll
    ensures forall row :: row in FilteredData(data, faculty, selectedDepartment) <==>
      row in data && row.faculty == Some(faculty) && MatchesSelection(row.department, selectedDepartment)
    ensures FilteredData(data, faculty, selectedDepartment) == Seqs.Filter(data, OfFaculty(faculty, selectedDepartment))
  {
    Seqs.FilterCongruent(data, InSelection(faculty, selectedDepartment), OfFaculty(faculty, selectedDepartment));
  }

  /** `.filter((f): f is string => !!f)`: the present, non-empty values in order. */
  function PresentValues(vs: seq<Option<string>>): (r: seq<string>)
    ensures forall x :: x in r <==> Some(x) in vs && x != ""
    ensures forall x :: multiset(r)[x] == if x != "" then multiset(vs)[Some(x)] else 0
  {
    if vs == [] then []
    else
      var rest := PresentValues(vs[1..]);
      assert forall v :: v in vs <==> v == vs[0] || v in vs[1..] by {
        assert vs == [vs[0]] + vs[1..];
      }
      assert multiset(vs) == multiset{vs[0]} + multiset(vs[1..]) by {
        assert vs == [vs[0]] + vs[1..];
      }
      if vs[0].Some? && vs[0].value != "" then [vs[0].value] + rest else rest
  }

  /** Dropping the missing and empty values keeps the order in which the others first appear. */
  lemma {:induction false} PresentValuesKeepOrder(vs: seq<Option<string>>, x: string, y: string)
    requires x in PresentValues(vs) && y in PresentValues(vs)
    ensures Seqs.FirstIndex(PresentValues(vs), x) < Seqs.FirstIndex(PresentValues(vs), y)
      <==> Seqs.FirstIndex(vs, Some(x)) < Seqs.FirstIndex(vs, Some(y))
    decreases |vs|
  {
    var rest := vs[1..];
    var pr := PresentValues(rest);
    assert vs == [vs[0]] + rest;
    Seqs.FirstIndexCons(vs[0], rest, Some(x));
    Seqs.FirstIndexCons(vs[0], rest, Some(y));
    if vs[0].Some? && vs[0].value != "" {
      var v := vs[0].value;
      assert PresentValues(vs) == [v] + pr;
      Seqs.FirstIndexCons(v, pr, x);
      Seqs.FirstIndexCons(v, pr, y);
      if x != v && y != v {
        PresentValuesKeepOrder(rest, x, y);
      }
    } else {
      assert PresentValues(vs) == pr;
      PresentValuesKeepOrder(rest, x, y);
    }
  }

  /** `data.map(item => item.faculty)`. */
  function FacultyColumn(data: seq<LecturerRow>): (vs: seq<Option<string>>)
    ensures |vs| == |data| && forall i :: 0 <= i < |data| ==> vs[i] == data[i].faculty
  {
    seq(|data|, i requires 0 <= i < |data| => data[i].faculty)
  }

  /** `data.map(item => item.department)`. */
  function DepartmentColumn(data: seq<LecturerRow>): (vs: seq<Option<string>>)
    ensures |vs| == |data| && forall i :: 0 <= i < |data| ==> vs[i] == data[i].department
  {
    seq(|data|, i requires 0 <= i < |data| => data[i].department)
  }

  /** The first row whose faculty is `f`. */
  function FirstFacultyRow(data: seq<LecturerRow>, f: string): (k: nat)
    requires exists i :: 0 <= i < |data| && data[i].faculty == Some(f)
    ensures k < |data| && data[k].faculty == Some(f)
    ensures forall i :: 0 <= i < k ==> data[i].faculty != Some(f)
  {
    var column := FacultyColumn(data);
    var i :| 0 <= i < |data| && data[i].faculty == Some(f);
    assert column[i] == Some(f);
    var k := Seqs.FirstIndex(column, Some(f));
    assert forall j :: 0 <= j < k ==> column[..k][j] == column[j];
    k
  }

  /** The first row whose department is `d`. */
  function FirstDepartmentRow(data: seq<LecturerRow>, d: string): (k: nat)
    requires exists i :: 0 <= i < |data| && data[i].department == Some(d)
    ensures k < |data| && data[k].department == Some(d)
    ensures forall i :: 0 <= i < k ==> data[i].department != Some(d)
  {
    var column := DepartmentColumn(data);
    var i :| 0 <= i < |data| && data[i].department == Some(d);
    assert column[i] == Some(d);
    var k := Seqs.FirstIndex(column, Some(d));
    assert forall j :: 0 <= j < k ==> column[..k][j] == column[j];
    k
  }

  /** `faculties`: `Array.from(new Set(...))` over the present faculties. */
  function Faculties(data: seq<LecturerRow>): seq<string>
  {
    Seqs.Dedup(PresentValues(FacultyColumn(data)))
  }

  /** `departments`: `Array.from(new Set(...))` over the present departments. */
  function Departments(data: seq<LecturerRow>): seq<string>
  {
    Seqs.Dedup(PresentValues(DepartmentColumn(data)))
  }

  /** The faculty selection offers each non-empty faculty of some row exactly once, in the
      order of the first row that has it. */
  lemma FacultiesListEachOnce(data: seq<LecturerRow>)
    ensures forall f :: f in Faculties(data) <==>
      f != "" && exists i :: 0 <= i < |data| && data[i].faculty == Some(f)
    ensures Seqs.NoDup(Faculties(data))
    ensures forall i, j :: 0 <= i < j < |Faculties(data)| ==>
      FirstFacultyRow(data, Faculties(data)[i]) < FirstFacultyRow(data, Faculties(data)[j])
  {
    var column := FacultyColumn(data);
    var present := PresentValues(column);
    var fs := Faculties(data);
    forall f ensures Some(f) in column <==> exists i :: 0 <= i < |data| && data[i].faculty == Some(f) {
      if Some(f) in column {
        var i :| 0 <= i < |column| && column[i] == Some(f);
      }
    }
    Seqs.DedupFirstAppearance(present);
    forall i, j | 0 <= i < j < |fs|
      ensures FirstFacultyRow(data, fs[i]) < FirstFacultyRow(data, fs[j])
    {
      assert fs[i] in fs && fs[j] in fs;
      PresentValuesKeepOrder(column, fs[i], fs[j]);
    }
  }

  /** The department selection offers each non-empty department of some row exactly once,
      in the order of the first row that has it. */
  lemma DepartmentsListEachOnce(data: seq<LecturerRow>)
    ensures forall d :: d in Departments(data) <==>
      d != "" && exists i :: 0 <= i < |data| && data[i].department == Some(d)
    ensures Seqs.NoDup(Departments(data))
    ensures forall i, j :: 0 <= i < j < |Departments(data)| ==>
      FirstDepartmentRow(data, Departments(data)[i]) < FirstDepartmentRow(data, Departments(data)[j])
  {
    var column := DepartmentColumn(data);
    var present := PresentValues(column);
    var ds := Departments(data);
    forall d ensures Some(d) in column <==> exists i :: 0 <= i < |data| && data[i].department == Some(d) {
      if Some(d) in column {
        var i :| 0 <= i < |column| && column[i] == Some(d);
      }
    }
    Seqs.DedupFirstAppearance(present);
    forall i, j | 0 <= i < j < |ds|
      ensures FirstDepartmentRow(data, ds[i]) < FirstDepartmentRow(data, ds[j])
    {
      assert ds[i] in ds && ds[j] in ds;
      PresentValuesKeepOrder(column, ds[i], ds[j]);
    }
  }

  /** The table's `globalFilterFn`: the lower-cased name contains the lower-cased query. */
  predicate NameMatches(row: LecturerRow, query: string)
  {
    Text.FieldMatches(row.name, query)
  }

  /** Name search keeps a row exactly when the lower-cased query occurs in the lower-cased
      name, a missing name counting as ""; an empty query keeps every row. */
  lemma NameSearch(row: LecturerRow, query: string)
    ensures NameMatches(row, query) <==>
      exists i :: Text.OccursAt(Text.Lower(row.name.GetOr("")), Text.Lower(query), i)
    ensures row.name.None? ==> (NameMatches(row, query) <==> query == "")
    ensures query == "" ==> NameMatches(row, query)
  {
    Text.FieldMatchesIff(row.name, query);
  }

  /** The filter predicate of the name search. */
  function NameFilter(query: string): LecturerRow -> bool
  {
    (row: LecturerRow) => NameMatches(row, query)
  }

  /** The rows the table shows: the name search applied to `filteredData`. */
  function VisibleRows(data: seq<LecturerRow>, selectedFaculty: string, selectedDepartment: string, query: string)
    : (r: seq<LecturerRow>)
    ensures forall row :: row in r <==>
      row in data && MatchesSelection(row.faculty, selectedFaculty)
      && MatchesSelection(row.department, selectedDepartment) && NameMatches(row, query)
    ensures Seqs.IsSubseq(r, FilteredData(data, selectedFaculty, selectedDepartment))
    ensures |r| == Seqs.Count(FilteredData(data, selectedFaculty, selectedDepartment), NameFilter(query))
  {
    var shown := FilteredData(data, selectedFaculty, selectedDepartment);
    Seqs.FilterIsSubseq(shown, NameFilter(query));
    Seqs.FilterLength(shown, NameFilter(query));
    Seqs.Filter(shown, NameFilter(query))
  }
}
