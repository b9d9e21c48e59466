/** The web client's login state, web/src/hooks/auth.js: the signed-in user kept in
    session storage under "epistolaryAuthUser", the anonymous placeholder, and the rules
    that keep an expired user out of storage.

    JavaScript values are modelled as far as the hook looks at them: a falsy user is
    `None`; a username is either a string or the `ANONYMOUS` object itself, which is the
    only thing strict equality with that object accepts. `exp` is in seconds and
    `Date.now()` (`now`) in milliseconds. */
module WebAuth {
  import opened Base

  const AuthSessionKey := "epistolaryAuthUser"

  datatype Username = Name(s: string) | AnonymousObject

  datatype User = User(username: Username, exp: int)

  /** `ANONYMOUS`, as it reads back from session storage: its username is a string. */
  const Anonymous := User(Name("anonymous"), 0)

  /** `isAnonymous` as written: a missing user, or one whose username is the `ANONYMOUS`
      object itself and whose expiry is not positive. */
  predicate IsAnonymous(u: Option<User>) {
    u.None? || (u.value.username == AnonymousObject && u.value.exp <= 0)
  }

  /** The check by name the comparison stands in for. */
  predicate IsAnonymousByName(u: Option<User>) {
    u.None? || (u.value.username == Anonymous.username && u.value.exp <= 0)
  }

  /** `isExpired`: expired unless present and `now` is before the expiry. */
  predicate IsExpired(u: Option<User>, now: int) {
    !(u.Some? && now < u.value.exp * 1000)
  }

  /** No user whose username is a string counts as anonymous, the anonymous record
      included. */
  lemma StringUsernameNeverAnonymous(name: string, exp: int)
    ensures !IsAnonymous(Some(User(Name(name), exp)))
    ensures !IsAnonymous(Some(Anonymous)) && IsAnonymousByName(Some(Anonymous))
  {
  }

  /** `setAuthUser`: the value written to session storage. */
  function SetAuthUser(u: Option<User>, now: int): (r: User)
    ensures r == Anonymous || (u.Some? && r == u.value && !IsExpired(u, now))
    ensures u.Some? && !IsExpired(u, now) && !IsAnonymous(u) ==> r == u.value
    ensures IsExpired(u, now) ==> r == Anonymous
  {
    if !IsAnonymous(u) && !IsExpired(u, now) then u.value else Anonymous
  }

  /** The effect that runs whenever the stored user changes: the value it writes, if it
      writes one. */
  function ExpiryReset(stored: Option<User>, now: int): (r: Option<User>)
    ensures r.Some? ==> r.value == Anonymous
    ensures r.Some? <==> !IsAnonymous(stored) && IsExpired(stored, now)
  {
    if !IsAnonymous(stored) && IsExpired(stored, now) then Some(Anonymous) else None
  }

  /** Storage after the effect has run. */
  function AfterReset(stored: Option<User>, now: int): Option<User> {
    match ExpiryReset(stored, now)
    case Some(v) => Some(v)
    case None => stored
  }

  /** Whatever is passed in, what `setAuthUser` stores is the anonymous record or a user
      that has not expired at that moment; a live user with a string username is stored
      as given. */
  lemma SetAuthUserStoresOnlyLive(u: Option<User>, now: int)
    ensures SetAuthUser(u, now) != Anonymous ==> !IsExpired(Some(SetAuthUser(u, now)), now)
    ensures u.Some? && u.value.username.Name? && now < u.value.exp * 1000 ==> SetAuthUser(u, now) == u.value
  {
  }

  /** After the effect, storage never holds an expired user other than the anonymous
      record, and running the effect again writes nothing new. */
  lemma ResetLeavesNoExpiredUser(stored: Option<User>, now: int)
    ensures var s := AfterReset(stored, now);
      s.None? || s.value == Anonymous || !IsExpired(s, now) || IsAnonymous(s)
    ensures AfterReset(AfterReset(stored, now), now) == AfterReset(stored, now)
  {
  }

  /** As written, the stored anonymous record is not recognised, so at any time from the
      epoch on the effect writes it again. */
  lemma AnonymousRewritten(now: int)
    requires now >= 0
    ensures ExpiryReset(Some(Anonymous), now) == Some(Anonymous)
  {
  }

  /** From the epoch on, the identity check makes no difference to what `setAuthUser`
      stores: a user it fails to call anonymous has a non-positive expiry and so is
      expired anyway. And the effect, as written, still leaves storage holding either an
      unexpired user or one the check by name calls anonymous. */
  lemma AnonymityCheckIsMoot(u: Option<User>, now: int)
    requires now >= 0
    ensures SetAuthUser(u, now) ==
      (if !IsAnonymousByName(u) && !IsExpired(u, now) then u.value else Anonymous)
    ensures u.None? || u.value.username.Name? ==>
      IsAnonymousByName(AfterReset(u, now)) || !IsExpired(AfterReset(u, now), now)
  {
  }
}
