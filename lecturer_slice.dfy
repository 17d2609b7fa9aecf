/** The `lecturer` slice of the store: the selected lecturer and the lecturer
    list, each replaced by its own setter (src/store/features/lecturer/LecturerSlice.ts). */
module LecturerSlice {
  import opened Wrappers
  import opened Records

  /** The slice's state: the selected lecturer (possibly null) and the list. */
  datatype LecturerState = LecturerState(lecturer: Option<Profile>, lecturers: seq<Profile>)

  /** The two actions the slice handles. */
  datatype LecturerAction = SetLecturer(payload: Option<Profile>) | SetLecturers(list: seq<Profile>)

  /** `initialState`. */
  const InitialState: LecturerState := LecturerState(None, [])

  /** The reducer: the state after one action. */
  function Reduce(s: LecturerState, a: LecturerAction): LecturerState
  {
    match a
    case SetLecturer(p) => s.(lecturer := p)
    case SetLecturers(list) => s.(lecturers := list)
  }

  /** Each setter replaces its own field with the payload and leaves the other one alone. */
  lemma SettersTouchOneField(s: LecturerState, p: Option<Profile>, list: seq<Profile>)
    ensures Reduce(s, SetLecturer(p)).lecturer == p && Reduce(s, SetLecturer(p)).lecturers == s.lecturers
    ensures Reduce(s, SetLecturers(list)).lecturers == list && Reduce(s, SetLecturers(list)).lecturer == s.lecturer
  {
  }

  /** Applying the same action twice equals applying it once. */
  lemma SettersIdempotent(s: LecturerState, a: LecturerAction)
    ensures Reduce(Reduce(s, a), a) == Reduce(s, a)
  {
  }

  /** The two setters commute, since they write different fields. */
  lemma SettersCommute(s: LecturerState, p: Option<Profile>, list: seq<Profile>)
    ensures Reduce(Reduce(s, SetLecturer(p)), SetLecturers(list))
      == Reduce(Reduce(s, SetLecturers(list)), SetLecturer(p))
  {
  }

  /** The store's `lecturer` slice, whose reducers assign the draft fields in place. */
  class LecturerStore {
    var lecturer: Option<Profile>
    var lecturers: seq<Profile>

    /** The slice's state as a value. */
    function Snapshot(): LecturerState
      reads this
    {
      LecturerState(lecturer, lecturers)
    }

    /** The store starts at `initialState`: no lecturer and an empty list. */
    constructor ()
      ensures lecturer == None && lecturers == []
      ensures Snapshot() == InitialState
    {
      lecturer := None;
      lecturers := [];
    }

    /** The `setLecturer` reducer. */
    method SetLecturer(payload: Option<Profile>)
      modifies this`lecturer
      ensures lecturer == payload && lecturers == old(lecturers)
      ensures Snapshot() == Reduce(old(Snapshot()), LecturerAction.SetLecturer(payload))
    {
      lecturer := payload;
    }

    /** The `setLecturers` reducer. */
    method SetLecturers(payload: seq<Profile>)
      modifies this`lecturers
      ensures lecturers == payload && lecturer == old(lecturer)
      ensures Snapshot() == Reduce(old(Snapshot()), LecturerAction.SetLecturers(payload))
    {
      lecturers := payload;
    }
  }
}
