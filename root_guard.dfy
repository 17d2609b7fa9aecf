/** The dashboard's route guard: an effect that navigates to "/" whenever the
    session is not authenticated, re-run whenever the flag changes; the outlet
    is rendered regardless (src/Screens/dashboard/Root.tsx). */
module RootGuard {
  import opened Wrappers
  import AuthSlice

  /** What the effect does: navigate to a path, or nothing. */
  datatype Navigation = Navigate(path: string) | NoNavigation

  /** The effect body: `if (!isAuthenticated) navigate('/')`. */
  function GuardEffect(isAuthenticated: bool): (n: Navigation)
    ensures n == Navigate("/") <==> !isAuthenticated
    ensures n == NoNavigation <==> isAuthenticated
  {
    if !isAuthenticated then Navigate("/") else NoNavigation
  }

  /** The decision taken from the whole session snapshot the selector sees. */
  function Decision(s: AuthSlice.AuthState): Navigation
  {
    GuardEffect(s.isAuthenticated)
  }

  /** The decision reads only `state.auth.isAuthenticated`: user and token never matter. */
  lemma DecisionReadsOnlyFlag(s: AuthSlice.AuthState, t: AuthSlice.AuthState)
    requires s.isAuthenticated == t.isAuthenticated
    ensures Decision(s) == Decision(t)
  {
  }

  /** One render of `Root`: the flag the selector returns, and whether `navigate`
      is a different function from the previous render's. */
  datatype Render = Render(isAuthenticated: bool, navigateChanged: bool)

  /** What one render produces: whether the outlet is rendered, and the effect's navigation. */
  datatype RootOutput = RootOutput(rendersOutlet: bool, navigation: Navigation)

  /** React runs the effect after the first render and after every render whose
      dependencies `[isAuthenticated, navigate]` changed. */
  predicate EffectRuns(previous: Option<bool>, r: Render)
  {
    previous.None? || previous.value != r.isAuthenticated || r.navigateChanged
  }

  /** One render: the outlet always, and the guard's navigation when the effect runs. */
  function RenderRoot(previous: Option<bool>, r: Render): (o: RootOutput)
    ensures o.rendersOutlet
    ensures o.navigation == Navigate("/") <==> !r.isAuthenticated && EffectRuns(previous, r)
    ensures r.isAuthenticated ==> o.navigation == NoNavigation
    ensures o.navigation == Navigate("/") || o.navigation == NoNavigation
  {
    RootOutput(true, if EffectRuns(previous, r) then GuardEffect(r.isAuthenticated) else NoNavigation)
  }

  /** The navigations issued by successive renders; `previous` is the flag of the
      render before the first one (`None` on mount). */
  function Navigations(previous: Option<bool>, renders: seq<Render>): (ns: seq<Navigation>)
    ensures |ns| == |renders|
    decreases |renders|
  {
    if renders == [] then []
    else
      [RenderRoot(previous, renders[0]).navigation]
        + Navigations(Some(renders[0].isAuthenticated), renders[1..])
  }

  /** The `k`-th navigation is the guard run against the flag of the render before it. */
  lemma {:induction false} NavigationsAt(previous: Option<bool>, renders: seq<Render>, k: nat)
    requires k < |renders|
    ensures Navigations(previous, renders)[k] ==
      RenderRoot(if k == 0 then previous else Some(renders[k - 1].isAuthenticated), renders[k]).navigation
    decreases k
  {
    if k > 0 {
      NavigationsAt(Some(renders[0].isAuthenticated), renders[1..], k - 1);
      if k > 1 {
        assert renders[1..][k - 2] == renders[k - 1];
      }
    }
  }

  /** A logout while inside the dashboard redirects at the very next render. */
  lemma LogoutRedirects(previous: Option<bool>, renders: seq<Render>, k: nat)
    requires 0 < k < |renders|
    requires renders[k - 1].isAuthenticated && !renders[k].isAuthenticated
    ensures Navigations(previous, renders)[k] == Navigate("/")
  {
    NavigationsAt(previous, renders, k);
  }

  /** A render with the flag set never navigates. */
  lemma AuthenticatedNeverNavigates(previous: Option<bool>, renders: seq<Render>, k: nat)
    requires k < |renders| && renders[k].isAuthenticated
    ensures Navigations(previous, renders)[k] == NoNavigation
  {
    NavigationsAt(previous, renders, k);
  }

  /** The first render of the stretch of anonymous renders that ends at `k`. */
  function StretchStart(renders: seq<Render>, k: nat): (j: nat)
    requires k < |renders| && !renders[k].isAuthenticated
    ensures j <= k && (j == 0 || renders[j - 1].isAuthenticated)
    ensures forall m :: j <= m <= k ==> !renders[m].isAuthenticated
  {
    if k == 0 || renders[k - 1].isAuthenticated then k else StretchStart(renders, k - 1)
  }

  /** Every anonymous render since mount lies in a stretch whose first render navigated to "/":
      the guard never lets an anonymous session stay unredirected. */
  lemma AnonymousIsRedirected(renders: seq<Render>, k: nat)
    requires k < |renders| && !renders[k].isAuthenticated
    ensures exists j ::
              && 0 <= j <= k
              && Navigations(None, renders)[j] == Navigate("/")
              && (forall m :: j <= m <= k ==> !renders[m].isAuthenticated)
  {
    var j := StretchStart(renders, k);
    NavigationsAt(None, renders, j);
    var previous := if j == 0 then None else Some(renders[j - 1].isAuthenticated);
    assert EffectRuns(previous, renders[j]);
  }
}
