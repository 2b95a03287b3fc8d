/** The route table and the active-route test of lib/routes.ts. */
module Routes {
  import opened Text

  const Home: string := "/"
  const Login: string := "/login"
  const Dashboard: string := "/dashboard"
  const MembersList: string := "/socios"
  const MembersCreate: string := "/socios/crear"
  const SeasonsList: string := "/temporadas"
  const SeasonsCreate: string := "/temporadas/crear"
  const Associations: string := "/socios-temporadas"
  const Statistics: string := "/estadisticas"
  const Profile: string := "/perfil"
  const Settings: string := "/configuracion"

  /** `MEMBERS.VIEW(id)`. */
  function MemberView(id: string): (r: string)
    ensures StartsWith(r, MembersList + "/") && r[|MembersList| + 1..] == id
  {
    assert (MembersList + "/" + id)[..|MembersList| + 1] == MembersList + "/";
    MembersList + "/" + id
  }

  /** `MEMBERS.EDIT(id)`: the view path followed by `/edit`. */
  function MemberEdit(id: string): (r: string)
    ensures StartsWith(r, MemberView(id)) && r[|MemberView(id)|..] == "/edit"
  {
    assert (MemberView(id) + "/edit")[..|MemberView(id)|] == MemberView(id);
    MemberView(id) + "/edit"
  }

  /** `SEASONS.VIEW(id)`. */
  function SeasonView(id: string): (r: string)
    ensures StartsWith(r, SeasonsList + "/") && r[|SeasonsList| + 1..] == id
  {
    assert (SeasonsList + "/" + id)[..|SeasonsList| + 1] == SeasonsList + "/";
    SeasonsList + "/" + id
  }

  /** `SEASONS.EDIT(id)`. */
  function SeasonEdit(id: string): (r: string)
    ensures StartsWith(r, SeasonView(id)) && r[|SeasonView(id)|..] == "/edit"
  {
    assert (SeasonView(id) + "/edit")[..|SeasonView(id)|] == SeasonView(id);
    SeasonView(id) + "/edit"
  }

  /** The view paths name their entity: different ids give different paths. */
  lemma ViewInjective(a: string, b: string)
    ensures MemberView(a) == MemberView(b) <==> a == b
    ensures SeasonView(a) == SeasonView(b) <==> a == b
  {
  }

  /** `isActiveRoute(currentPath, route)`: the home route only matches itself; any other route matches as a string prefix. */
  predicate IsActiveRoute(currentPath: string, route: string) {
    if route == Home then currentPath == Home else StartsWith(currentPath, route)
  }

  lemma HomeOnlyItself(p: string)
    ensures IsActiveRoute(p, Home) <==> p == Home
  {
  }

  lemma PrefixRule(p: string, r: string)
    requires r != Home
    ensures IsActiveRoute(p, r) <==> |r| <= |p| && p[..|r|] == r
  {
  }

  /** Every route is active on its own path. */
  lemma Reflexive(r: string)
    ensures IsActiveRoute(r, r)
  {
    assert r[..|r|] == r;
  }

  /** Sub-pages keep their section active. */
  lemma SubpagesActive(id: string)
    ensures IsActiveRoute(MemberEdit(id), MembersList)
    ensures IsActiveRoute(SeasonEdit(id), SeasonsList)
    ensures IsActiveRoute(MembersCreate, MembersList)
  {
    assert MembersCreate[..|MembersList|] == MembersList;
  }

  /** The match is not segment-aware: the associations page also lights up the members entry. */
  lemma NotSegmentAware()
    ensures IsActiveRoute(Associations, MembersList)
    ensures !IsActiveRoute(MembersList, Associations)
  {
    assert Associations[..|MembersList|] == MembersList;
  }
}
