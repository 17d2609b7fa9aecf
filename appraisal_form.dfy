/** The lecturer appraisal form: three seeded activities scored 1 to 5 by radio
    buttons, a running total, and the lecturer's avatar initials and display name
    with any leading title removed (src/Screens/user/appraisal/ApprasalForm.tsx). */
module AppraisalForm {
  import opened Wrappers
  import Seqs
  import Text

  /** One activity row; `selectedOption` is absent until a radio button is picked. */
  datatype Activity = Activity(id: string, question: string, options: seq<int>, selectedOption: Option<int>)

  /** The five radio values every seeded activity offers. */
  const ScoreOptions: seq<int> := [1, 2, 3, 4, 5]

  /** The initial `activities` state. */
  const SeededActivities: seq<Activity> := [
    Activity("1", "Prepared lesson plan", ScoreOptions, None),
    Activity("2", "Class participation", ScoreOptions, None),
    Activity("3", "Assignment grading", ScoreOptions, None)
  ]

  /** `handleOptionSelect`'s updater: set `selectedOption` on the activities with that id. */
  function SelectOption(acts: seq<Activity>, activityId: string, value: int): seq<Activity>
  {
    seq(|acts|, i requires 0 <= i < |acts| =>
      if acts[i].id == activityId then acts[i].(selectedOption := Some(value)) else acts[i])
  }

  /** Selecting changes the choice of the activities with that id only; length, order,
      ids, questions and options are kept. */
  lemma SelectChangesOnlyThatActivity(acts: seq<Activity>, activityId: string, value: int)
    ensures var r := SelectOption(acts, activityId, value);
      && |r| == |acts|
      && (forall i :: 0 <= i < |acts| ==>
            r[i].id == acts[i].id && r[i].question == acts[i].question && r[i].options == acts[i].options)
      && (forall i :: 0 <= i < |acts| && acts[i].id == activityId ==> r[i].selectedOption == Some(value))
      && (forall i :: 0 <= i < |acts| && acts[i].id != activityId ==> r[i] == acts[i])
  {
  }

  /** Re-selecting overwrites the previous choice; selecting the same value twice equals once. */
  lemma ReselectOverwrites(acts: seq<Activity>, activityId: string, first: int, second: int)
    ensures SelectOption(SelectOption(acts, activityId, first), activityId, second)
      == SelectOption(acts, activityId, second)
  {
  }

  /** `activity.selectedOption || 0`. */
  function Contribution(a: Activity): int
  {
    a.selectedOption.GetOr(0)
  }

  /** `totalScore`: `activities.reduce((sum, a) => sum + (a.selectedOption || 0), 0)`. */
  function TotalScore(acts: seq<Activity>): int
  {
    if acts == [] then 0
    else TotalScore(acts[..|acts| - 1]) + Contribution(acts[|acts| - 1])
  }

  /** While nothing is selected the total is 0. */
  lemma {:induction false} NothingSelectedTotalZero(acts: seq<Activity>)
    requires forall i :: 0 <= i < |acts| ==> acts[i].selectedOption.None?
    ensures TotalScore(acts) == 0
  {
    if acts != [] {
      var n := |acts| - 1;
      assert forall i :: 0 <= i < n ==> acts[..n][i] == acts[i];
      NothingSelectedTotalZero(acts[..n]);
    }
  }

  /** The total starts at 0. */
  lemma InitialTotalIsZero()
    ensures TotalScore(SeededActivities) == 0
  {
    NothingSelectedTotalZero(SeededActivities);
  }

  /** Changing one activity changes the total by the difference of its contributions. */
  lemma {:induction false} TotalAfterReplace(acts: seq<Activity>, k: nat, a: Activity)
    requires k < |acts|
    ensures TotalScore(acts[k := a]) == TotalScore(acts) - Contribution(acts[k]) + Contribution(a)
    decreases |acts|
  {
    var n := |acts| - 1;
    if k < n {
      assert acts[k := a][..n] == acts[..n][k := a];
      TotalAfterReplace(acts[..n], k, a);
    } else {
      assert acts[k := a][..n] == acts[..n];
    }
  }

  /** With distinct ids, selecting `value` for the activity at `k` moves the total by
      `value` minus that activity's previous contribution. */
  lemma TotalAfterSelect(acts: seq<Activity>, k: nat, value: int)
    requires k < |acts|
    requires forall i :: 0 <= i < |acts| && i != k ==> acts[i].id != acts[k].id
    ensures TotalScore(SelectOption(acts, acts[k].id, value))
      == TotalScore(acts) - Contribution(acts[k]) + value
  {
    assert SelectOption(acts, acts[k].id, value) == acts[k := acts[k].(selectedOption := Some(value))];
    TotalAfterReplace(acts, k, acts[k].(selectedOption := Some(value)));
  }

  /** Every option offered and every choice made lies between 1 and 5. */
  predicate ChoicesInRange(acts: seq<Activity>)
  {
    forall i :: 0 <= i < |acts| ==>
      (forall v :: v in acts[i].options ==> 1 <= v <= 5)
      && (acts[i].selectedOption.Some? ==> 1 <= acts[i].selectedOption.value <= 5)
  }

  /** With every choice between 1 and 5 the total lies between 0 and 5 per activity. */
  lemma {:induction false} TotalBounds(acts: seq<Activity>)
    requires ChoicesInRange(acts)
    ensures 0 <= TotalScore(acts) <= 5 * |acts|
  {
    if acts != [] {
      var n := |acts| - 1;
      assert ChoicesInRange(acts[..n]) by {
        forall i | 0 <= i < n ensures acts[..n][i] == acts[i] { }
      }
      TotalBounds(acts[..n]);
    }
  }

  /** One radio click: the activity it belongs to and the option's value. */
  datatype Pick = Pick(activityId: string, value: int)

  /** The picked value is an option of the activity it was rendered for. */
  predicate Offered(acts: seq<Activity>, p: Pick)
  {
    exists i :: 0 <= i < |acts| && acts[i].id == p.activityId && p.value in acts[i].options
  }

  /** The activities after a sequence of radio clicks. */
  function ApplyPicks(acts: seq<Activity>, picks: seq<Pick>): seq<Activity>
    decreases |picks|
  {
    if picks == [] then acts
    else ApplyPicks(SelectOption(acts, picks[0].activityId, picks[0].value), picks[1..])
  }

  /** Clicks on offered options keep every choice between 1 and 5 and keep the length. */
  lemma {:induction false} PicksKeepChoicesInRange(acts: seq<Activity>, picks: seq<Pick>)
    requires ChoicesInRange(acts)
    requires forall j :: 0 <= j < |picks| ==> 1 <= picks[j].value <= 5
    ensures ChoicesInRange(ApplyPicks(acts, picks)) && |ApplyPicks(acts, picks)| == |acts|
    decreases |picks|
  {
    if picks != [] {
      var next := SelectOption(acts, picks[0].activityId, picks[0].value);
      assert ChoicesInRange(next);
      assert forall j :: 0 <= j < |picks[1..]| ==> picks[1..][j] == picks[j + 1];
      PicksKeepChoicesInRange(next, picks[1..]);
    }
  }

  /** Every seeded activity offers the values 1 to 5 and has nothing selected. */
  lemma SeededOptions()
    ensures forall i :: 0 <= i < |SeededActivities| ==>
      SeededActivities[i].options == ScoreOptions && SeededActivities[i].selectedOption.None?
    ensures forall v :: v in ScoreOptions <==> 1 <= v <= 5
  {
  }

  /** An option offered by a seeded activity lies between 1 and 5. */
  lemma OfferedSeededInRange(p: Pick)
    requires Offered(SeededActivities, p)
    ensures 1 <= p.value <= 5
  {
    SeededOptions();
    var i :| 0 <= i < |SeededActivities| && SeededActivities[i].id == p.activityId
      && p.value in SeededActivities[i].options;
  }

  /** With the three seeded activities and only their offered options clicked, the total
      stays between 0 and 15. */
  lemma SeededTotalWithinFifteen(picks: seq<Pick>)
    requires forall j :: 0 <= j < |picks| ==> Offered(SeededActivities, picks[j])
    ensures 0 <= TotalScore(ApplyPicks(SeededActivities, picks)) <= 15
  {
    forall j | 0 <= j < |picks| ensures 1 <= picks[j].value <= 5 {
      OfferedSeededInRange(picks[j]);
    }
    assert ChoicesInRange(SeededActivities) by {
      SeededOptions();
    }
    PicksKeepChoicesInRange(SeededActivities, picks);
    TotalBounds(ApplyPicks(SeededActivities, picks));
  }

  /** The titles the display-name regex `/^(Mr\.|Mrs\.|Ms\.|Dr\.|Prof\.)\s* /i` removes. */
  const Titles: seq<string> := ["Mr.", "Mrs.", "Ms.", "Dr.", "Prof."]

  /** `name` starts with `title`, ignoring ASCII letter case. */
  predicate StartsWithIgnoringCase(name: string, title: string)
  {
    |title| <= |name| && Text.Lower(name[..|title|]) == Text.Lower(title)
  }

  /** The length of the first title in `titles` that `name` starts with, if any. */
  function MatchedTitle(name: string, titles: seq<string>): (n: Option<nat>)
    ensures n.Some? ==> exists t :: t in titles && StartsWithIgnoringCase(name, t) && |t| == n.value
    ensures n.None? ==> forall t :: t in titles ==> !StartsWithIgnoringCase(name, t)
  {
    if titles == [] then None
    else if StartsWithIgnoringCase(name, titles[0]) then Some(|titles[0]|)
    else MatchedTitle(name, titles[1..])
  }

  /** `name.replace(/^(Mr\.|Mrs\.|Ms\.|Dr\.|Prof\.)\s* /i, "")`: one leading title and the
      white space after it are removed. */
  function StripTitle(name: string): (r: string)
    ensures (forall t :: t in Titles ==> !StartsWithIgnoringCase(name, t)) ==> r == name
    ensures forall t :: t in Titles && StartsWithIgnoringCase(name, t) ==> r == Text.TrimStart(name[|t|..])
  {
    TitlesExclusive(name);
    match MatchedTitle(name, Titles)
    case Some(n) => Text.TrimStart(name[n..])
    case None => name
  }

  /** No title is a case-insensitive prefix of a longer one. */
  lemma TitlesPrefixFree(t: string, u: string)
    requires t in Titles && u in Titles && |t| < |u|
    ensures Text.Lower(u)[..|t|] != Text.Lower(t)
  {
    assert |t| >= 3;
    assert Text.LowerChar(u[0]) != Text.LowerChar(t[0]) || Text.LowerChar(u[1]) != Text.LowerChar(t[1])
      || Text.LowerChar(u[2]) != Text.LowerChar(t[2]);
    assert Text.Lower(u)[..|t|][0] == Text.LowerChar(u[0]) && Text.Lower(t)[0] == Text.LowerChar(t[0]);
    assert Text.Lower(u)[..|t|][1] == Text.LowerChar(u[1]) && Text.Lower(t)[1] == Text.LowerChar(t[1]);
    assert Text.Lower(u)[..|t|][2] == Text.LowerChar(u[2]) && Text.Lower(t)[2] == Text.LowerChar(t[2]);
  }

  /** No name starts with two titles of different lengths. */
  lemma TitlesExclusive(name: string)
    ensures forall t, u :: (t in Titles && u in Titles && StartsWithIgnoringCase(name, t)
      && StartsWithIgnoringCase(name, u)) ==> |t| == |u|
  {
    forall t, u | t in Titles && u in Titles && StartsWithIgnoringCase(name, t)
      && StartsWithIgnoringCase(name, u) && |t| < |u|
      ensures false
    {
      assert name[..|t|] == name[..|u|][..|t|];
      assert Text.Lower(name[..|t|]) == Text.Lower(name[..|u|])[..|t|];
      TitlesPrefixFree(t, u);
    }
  }

  /** The filter predicate `Boolean` on strings: non-empty. */
  function NonEmpty(w: string): bool
  {
    w != ""
  }

  /** `s.split(" ").filter(Boolean)`: the non-empty space-separated words. */
  function Words(s: string): (ws: seq<string>)
    ensures forall i :: 0 <= i < |ws| ==> ws[i] != "" && ' ' !in ws[i]
    ensures forall w :: w in ws <==> w in Text.Split(s, ' ') && w != ""
    ensures Seqs.IsSubseq(ws, Text.Split(s, ' '))
    ensures |ws| == Seqs.Count(Text.Split(s, ' '), NonEmpty)
  {
    var pieces := Text.Split(s, ' ');
    var ws := Seqs.Filter(pieces, NonEmpty);
    Seqs.FilterIsSubseq(pieces, NonEmpty);
    Seqs.FilterLength(pieces, NonEmpty);
    assert forall i :: 0 <= i < |ws| ==> ws[i] in pieces;
    ws
  }

  /** `.slice(0, 2).map(n => n[0].toUpperCase()).join("")`: the upper-cased first
      characters of at most the first two words. */
  function InitialsOf(s: string): (r: string)
    ensures |r| <= 2 && |r| == if |Words(s)| < 2 then |Words(s)| else 2
    ensures forall i :: 0 <= i < |r| ==> r[i] == Text.UpperChar(Words(s)[i][0])
  {
    var ws := Words(s);
    var firsts := if |ws| < 2 then ws else ws[..2];
    seq(|firsts|, i requires 0 <= i < |firsts| => Text.UpperChar(firsts[i][0]))
  }

  /** The avatar text for the lecturer's `name` (absent when the name is). */
  function Avatar(name: Option<string>): Option<string>
  {
    match name
    case Some(n) => Some(InitialsOf(StripTitle(n)))
    case None => None
  }

  /** The heading text for the lecturer's `name`. */
  function DisplayName(name: Option<string>): Option<string>
  {
    match name
    case Some(n) => Some(StripTitle(n))
    case None => None
  }

  /** A string of separators only splits into empty pieces. */
  lemma {:induction false} SplitOfSeparators(s: string, sep: char)
    requires forall i :: 0 <= i < |s| ==> s[i] == sep
    ensures forall i :: 0 <= i < |Text.Split(s, sep)| ==> Text.Split(s, sep)[i] == ""
  {
    if s != [] {
      SplitOfSeparators(s[1..], sep);
      assert Text.Split(s, sep) == [""] + Text.Split(s[1..], sep);
    }
  }

  /** Every character of a join is the separator or a character of one of the pieces. */
  lemma {:induction false} JoinChars(ws: seq<string>, sep: char)
    ensures forall c :: c in Text.Join(ws, sep) ==> c == sep || exists i :: 0 <= i < |ws| && c in ws[i]
  {
    if |ws| > 1 {
      JoinChars(ws[1..], sep);
      forall c | c in Text.Join(ws, sep) && c != sep ensures exists i :: 0 <= i < |ws| && c in ws[i] {
        if c in ws[0] {
          assert c in ws[0];
        } else {
          assert c in Text.Join(ws[1..], sep);
          var i :| 0 <= i < |ws[1..]| && c in ws[1..][i];
          assert c in ws[i + 1];
        }
      }
    }
  }

  /** A name has no words, so no initials, exactly when it consists of spaces only. */
  lemma NoInitialsIffBlank(s: string)
    ensures InitialsOf(s) == "" <==> forall i :: 0 <= i < |s| ==> s[i] == ' '
  {
    var pieces := Text.Split(s, ' ');
    if forall i :: 0 <= i < |s| ==> s[i] == ' ' {
      SplitOfSeparators(s, ' ');
      Seqs.FilterLength(pieces, NonEmpty);
      NoneCounted(pieces, NonEmpty);
    } else {
      var j :| 0 <= j < |s| && s[j] != ' ';
      Text.JoinSplit(s, ' ');
      JoinChars(pieces, ' ');
      assert s[j] in Text.Join(pieces, ' ');
      var i :| 0 <= i < |pieces| && s[j] in pieces[i];
      assert pieces[i] in Seqs.Filter(pieces, NonEmpty);
    }
  }

  /** Nothing is counted when no element satisfies the predicate. */
  lemma {:induction false} NoneCounted<T>(s: seq<T>, p: T -> bool)
    requires forall i :: 0 <= i < |s| ==> !p(s[i])
    ensures Seqs.Count(s, p) == 0
  {
    if s != [] {
      NoneCounted(s[1..], p);
    }
  }

  /** The form's `activities` state slot. */
  class AppraisalFormScreen {
    var activities: seq<Activity>

    /** First render: the three seeded activities with nothing selected. */
    constructor ()
      ensures activities == SeededActivities
    {
      activities := SeededActivities;
    }

    /** `handleOptionSelect`. */
    method HandleOptionSelect(activityId: string, value: int)
      modifies this
      ensures activities == SelectOption(old(activities), activityId, value)
    {
      activities := SelectOption(activities, activityId, value);
    }
  }
}
