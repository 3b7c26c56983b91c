/**
 * `AdminRoute`: from the signed-in user and the `useIsAdmin` flags, the
 * navigation its effect issues and what it renders.
 */
module AdminRoute {
  import opened Wrappers
  import opened IsAdminHook

  /** Where a visitor without a session is sent, keeping the admin list as the destination. */
  const LoginRedirect := "/login?redirectTo=/admin/measurements"

  /** Where a signed-in visitor without the privilege is sent. */
  const Home := "/"

  /** What the guard renders. */
  datatype View = LoadingView | NothingView | ChildrenView

  /**
   * The `router.push` calls of one run of the effect. Nothing happens while
   * loading; without a user the early return stops after the login redirect.
   */
  function Navigations(isLoading: bool, user: Option<User>, isAdmin: bool): (pushes: seq<string>)
    ensures |pushes| <= 1
    ensures isLoading ==> pushes == []
    ensures pushes == [LoginRedirect] <==> !isLoading && user.None?
    ensures pushes == [Home] <==> !isLoading && user.Some? && !isAdmin
    ensures pushes == [] <==> isLoading || (user.Some? && isAdmin)
  {
    if !isLoading then
      if user.None? then [LoginRedirect]
      else if !isAdmin then [Home]
      else []
    else []
  }

  /** The rendered output: a spinner while loading, then the children for an administrator and nothing otherwise. */
  function Render(isLoading: bool, isAdmin: bool): (v: View)
    ensures v == LoadingView <==> isLoading
    ensures v == ChildrenView <==> !isLoading && isAdmin
    ensures v == NothingView <==> !isLoading && !isAdmin
  {
    if isLoading then LoadingView
    else if !isAdmin then NothingView
    else ChildrenView
  }

  /**
   * When the flags are consistent with the user (no administrator without a
   * user), a settled guard does exactly one thing: it navigates away or it
   * renders the children.
   */
  lemma SettledGuardNavigatesOrRenders(isLoading: bool, user: Option<User>, isAdmin: bool)
    requires isAdmin ==> user.Some?
    ensures Render(isLoading, isAdmin) == ChildrenView <==> !isLoading && Navigations(isLoading, user, isAdmin) == []
    ensures !isLoading ==> (Render(isLoading, isAdmin) == NothingView <==> |Navigations(isLoading, user, isAdmin)| == 1)
  {
  }

  /**
   * After a completed check the children are shown exactly when the user has
   * a uid and the user's document grants the privilege; a session without a
   * uid is shown nothing and sent away.
   */
  lemma CompletedCheckDecides(user: Option<User>, lookup: Lookup, isAdmin: bool)
    requires isAdmin <==> HasUid(user) && lookup.Snapshot? && GrantsAdmin(lookup.data)
    ensures Render(false, isAdmin) == ChildrenView <==> HasUid(user) && lookup.Snapshot? && GrantsAdmin(lookup.data)
    ensures !HasUid(user) ==> Render(false, isAdmin) == NothingView && |Navigations(false, user, isAdmin)| == 1
  {
  }

  /**
   * With flags that describe the current user (a check is pending, or the
   * last completed one was for this user), the children are rendered only
   * for a user with a uid, and no navigation accompanies them.
   */
  lemma ChildrenOnlyForCheckedAdmin(user: Option<User>, isLoading: bool, isAdmin: bool, checkedFor: Option<Option<User>>)
    requires isAdmin ==> checkedFor.Some? && HasUid(checkedFor.value)
    requires !isLoading ==> checkedFor == Some(user)
    ensures Render(isLoading, isAdmin) == ChildrenView ==> HasUid(user) && Navigations(isLoading, user, isAdmin) == []
  {
  }

  /**
   * The hook as written: an administrator's check completes, then the user
   * signs out. The guard renders with the new (absent) user before the
   * hook's effect runs again, and the flags it reads are the old ones: the
   * children are rendered while the effect redirects to the login page.
   */
  method SignOutWithStaleFlags() returns (view: View, pushes: seq<string>)
    ensures view == ChildrenView && pushes == [LoginRedirect]
  {
    var status := new AdminStatus();
    status.CheckAdminStatus(Some(User("admin-uid")), Snapshot(Some(UserDoc(Some(JsBool(true))))));
    var user: Option<User> := None;
    view := Render(status.isLoading, status.isAdmin);
    pushes := Navigations(status.isLoading, user, status.isAdmin);
  }

  /**
   * A lookup is not cancelled when the user changes. An administrator signs
   * in and the lookup of their document is under way; they sign out, and the
   * check for the absent user settles at once; then the administrator's
   * lookup resolves. Even with the pending check marked, the guard renders
   * the children with no user while it redirects to the login page.
   */
  method LateLookupAfterSignOut() returns (view: View, pushes: seq<string>)
    ensures view == ChildrenView && pushes == [LoginRedirect]
  {
    var admin := Some(User("admin-uid"));
    var status := new AdminStatus();
    status.BeginCheck(None);
    status.CheckAdminStatus(None, LookupFailed);
    status.CheckAdminStatus(admin, Snapshot(Some(UserDoc(Some(JsBool(true))))));
    view := Render(status.isLoading, status.isAdmin);
    pushes := Navigations(status.isLoading, None, status.isAdmin);
  }

  /** The same sign-out with the pending check marked first: a spinner, then nothing and the login redirect. */
  method SignOutWithBeginCheck() returns (pending: View, settled: View, pushes: seq<string>)
    ensures pending == LoadingView && settled == NothingView && pushes == [LoginRedirect]
  {
    var status := new AdminStatus();
    status.CheckAdminStatus(Some(User("admin-uid")), Snapshot(Some(UserDoc(Some(JsBool(true))))));
    var user: Option<User> := None;
    status.BeginCheck(user);
    ChildrenOnlyForCheckedAdmin(user, status.isLoading, status.isAdmin, status.checkedFor);
    pending := Render(status.isLoading, status.isAdmin);
    status.CheckAdminStatus(user, LookupFailed);
    settled := Render(status.isLoading, status.isAdmin);
    pushes := Navigations(status.isLoading, user, status.isAdmin);
  }
}
