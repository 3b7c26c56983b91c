/**
 * The `useIsAdmin` hook: two pieces of state, `isAdmin` and `isLoading`, set
 * by `checkAdminStatus` from the signed-in user and the user's document in
 * the "users" collection.
 */
module IsAdminHook {
  import opened Wrappers

  /** A signed-in user as `useUser` reports it. */
  datatype User = User(uid: string)

  /** A field value of a stored document, with JavaScript's kinds of value. */
  datatype JsValue = JsBool(b: bool) | JsString(s: string) | JsNumber(n: int) | JsNull | JsObject

  /** The part of a user document the check reads: its `isAdmin` field, if any. */
  datatype UserDoc = UserDoc(isAdmin: Option<JsValue>)

  /** How `getDoc(doc(db, 'users', uid))` ends: an error, or a snapshot whose `data()` may be undefined. */
  datatype Lookup = LookupFailed | Snapshot(data: Option<UserDoc>)

  /** `user?.uid` is truthy: there is a user and the uid is not the empty string. */
  predicate HasUid(user: Option<User>)
  {
    user.Some? && user.value.uid != ""
  }

  /** `userDoc.data()?.isAdmin === true`: the field holds exactly the boolean `true`. */
  predicate GrantsAdmin(data: Option<UserDoc>)
  {
    match data
    case None => false
    case Some(d) => d.isAdmin == Some(JsBool(true))
  }

  /** A missing document, a missing field and every value other than `true`, truthy or not, grant nothing. */
  lemma OnlyTrueGrants(data: Option<UserDoc>)
    ensures GrantsAdmin(data) <==> data.Some? && data.value.isAdmin.Some? && data.value.isAdmin.value == JsBool(true)
    ensures !GrantsAdmin(Some(UserDoc(Some(JsString("true")))))
    ensures !GrantsAdmin(Some(UserDoc(Some(JsNumber(1)))))
    ensures !GrantsAdmin(Some(UserDoc(Some(JsObject))))
    ensures !GrantsAdmin(Some(UserDoc(None))) && !GrantsAdmin(None)
  {
  }

  /** The hook's state. */
  class AdminStatus {
    var isAdmin: bool
    var isLoading: bool
    /** The uids whose lookup in the "users" collection has completed, in order of completion. */
    var lookups: seq<string>
    /** The user the last completed check was made for; none before the first one completes. */
    ghost var checkedFor: Option<Option<User>>

    /** `isAdmin` is true only after a check that found a user with a uid. */
    ghost predicate Valid()
      reads this
    {
      isAdmin ==> checkedFor.Some? && HasUid(checkedFor.value)
    }

    /** The flags describe `user`: either a check is pending, or the last one completed was for `user`. */
    ghost predicate DescribesUser(user: Option<User>)
      reads this
    {
      !isLoading ==> checkedFor == Some(user)
    }

    /** The initial state: not an administrator, still loading, nothing looked up. */
    constructor ()
      ensures Valid()
      ensures !isAdmin && isLoading && lookups == [] && checkedFor == None
      ensures forall user :: DescribesUser(user)
    {
      isAdmin, isLoading, lookups, checkedFor := false, true, [], None;
    }

    /**
     * `checkAdminStatus` run to completion for `user`, the lookup ending as
     * `lookup`. Without a uid nothing is looked up; an error counts as not an
     * administrator; either way loading is over.
     */
    method CheckAdminStatus(user: Option<User>, lookup: Lookup)
      requires Valid()
      modifies this
      ensures Valid() && DescribesUser(user)
      ensures !isLoading
      ensures isAdmin <==> HasUid(user) && lookup.Snapshot? && GrantsAdmin(lookup.data)
      ensures !HasUid(user) ==> lookups == old(lookups)
      ensures HasUid(user) ==> lookups == old(lookups) + [user.value.uid]
      ensures checkedFor == Some(user)
    {
      checkedFor := Some(user);
      if !HasUid(user) {
        isAdmin := false;
        isLoading := false;
        return;
      }
      lookups := lookups + [user.value.uid];
      if lookup.LookupFailed? {
        isAdmin := false;
      } else {
        isAdmin := GrantsAdmin(lookup.data);
      }
      isLoading := false;
    }

    /**
     * What the effect is evidently meant to do first whenever the user
     * changes, and does not: mark the pending check as loading, so that flags
     * left from an earlier user are not read as describing the new one.
     */
    method BeginCheck(user: Option<User>)
      requires Valid()
      modifies this`isLoading
      ensures Valid() && DescribesUser(user)
      ensures isLoading && isAdmin == old(isAdmin)
    {
      isLoading := true;
    }
  }
}
