/** The auth slice of the client store: whether the session is authenticated, whether the
    first check is still loading, and the signed-in user. */
module AuthSlice {

  import opened Js

  /** The JavaScript `!!v`. */
  function ToBoolean(v: Value): (r: Value)
    ensures r.Bool? && (r.b <==> Truthy(v))
  {
    Bool(Truthy(v))
  }

  /** The slice state; `isAuthenticated` holds whatever value a handler stored, which for the
      Google and check-auth handlers is the server's raw `success` field. */
  class AuthStore {
    var isAuthenticated: Value
    var isLoading: bool
    var user: Value

    /** `initialState`: not authenticated, loading, no user. */
    constructor ()
      ensures isAuthenticated == Bool(false) && isLoading && user == Null
    {
      isAuthenticated, isLoading, user := Bool(false), true, Null;
    }

    /** The `setUser` reducer: the payload becomes the user, authenticated iff it is truthy. */
    method SetUser(payload: Value)
      modifies this
      ensures user == payload && isAuthenticated == ToBoolean(payload) && isLoading == old(isLoading)
    {
      user := payload;
      isAuthenticated := ToBoolean(payload);
    }

    /** `registerUser.fulfilled`: registering does not sign in. */
    method RegisterFulfilled()
      modifies this
      ensures !isLoading && user == Null && isAuthenticated == Bool(false)
    {
      isLoading := false;
      user := Null;
      isAuthenticated := Bool(false);
    }

    /** `loginUser.fulfilled`, with optional chaining: any payload is accepted. */
    method LoginFulfilled(payload: Value)
      modifies this
      ensures !isLoading && (isAuthenticated, user) == AfterLogin(payload)
    {
      isLoading := false;
      var success := Prop(payload, "success");
      user := if Truthy(success) then Prop(payload, "user") else Null;
      isAuthenticated := ToBoolean(success);
    }

    /** The handler shared by `registerUserByGoogle`, `loginUserByGoogle` and `checkAuth`:
        `payload.success` without optional chaining, so a nullish payload throws and the state
        is left as it was; otherwise `isAuthenticated` is the raw `success` value. */
    method SessionFulfilled(payload: Value)
      modifies this
      ensures AfterSession(payload).None? ==>
                isLoading == old(isLoading) && user == old(user) && isAuthenticated == old(isAuthenticated)
      ensures AfterSession(payload).Some? ==>
                !isLoading && (isAuthenticated, user) == AfterSession(payload).value
    {
      var success := Read(payload, "success");
      if success.None? {
        return;
      }
      isLoading := false;
      user := if Truthy(success.value) then Prop(payload, "user") else Null;
      isAuthenticated := success.value;
    }

    /** `registerUserByGoogle.fulfilled`. */
    method GoogleRegisterFulfilled(payload: Value)
      modifies this
      ensures AfterSession(payload).None? ==>
                isLoading == old(isLoading) && user == old(user) && isAuthenticated == old(isAuthenticated)
      ensures AfterSession(payload).Some? ==>
                !isLoading && (isAuthenticated, user) == AfterSession(payload).value
    {
      SessionFulfilled(payload);
    }

    /** `loginUserByGoogle.fulfilled`. */
    method GoogleLoginFulfilled(payload: Value)
      modifies this
      ensures AfterSession(payload).None? ==>
                isLoading == old(isLoading) && user == old(user) && isAuthenticated == old(isAuthenticated)
      ensures AfterSession(payload).Some? ==>
                !isLoading && (isAuthenticated, user) == AfterSession(payload).value
    {
      SessionFulfilled(payload);
    }

    /** `checkAuth.fulfilled`. */
    method CheckAuthFulfilled(payload: Value)
      modifies this
      ensures AfterSession(payload).None? ==>
                isLoading == old(isLoading) && user == old(user) && isAuthenticated == old(isAuthenticated)
      ensures AfterSession(payload).Some? ==>
                !isLoading && (isAuthenticated, user) == AfterSession(payload).value
    {
      SessionFulfilled(payload);
    }

    /** `logOutUser.fulfilled`: back to signed out, done loading. */
    method LogOutFulfilled()
      modifies this
      ensures !isLoading && user == Null && isAuthenticated == Bool(false)
    {
      user := Null;
      isAuthenticated := Bool(false);
      isLoading := false;
    }
  }

  /** The `(isAuthenticated, user)` pair a login reply leaves: always a boolean, and a user
      only when authenticated. */
  function AfterLogin(payload: Value): (r: (Value, Value))
    ensures r.0.Bool? && (r.0.b <==> Truthy(Prop(payload, "success")))
    ensures !r.0.b ==> r.1 == Null
    ensures r.0.b ==> r.1 == Prop(payload, "user")
  {
    var success := Prop(payload, "success");
    (ToBoolean(success), if Truthy(success) then Prop(payload, "user") else Null)
  }

  /** The `(isAuthenticated, user)` pair a Google or check-auth reply leaves, or `None` when
      reading `success` of a nullish payload throws. `isAuthenticated` is the raw `success`
      value, so it is a boolean only when the server sent one; as with login, a user is kept
      exactly when that value is truthy. */
  function AfterSession(payload: Value): (r: Wrappers.Option<(Value, Value)>)
    ensures r.None? <==> Nullish(payload)
    ensures r.Some? ==> r.value.0 == Prop(payload, "success")
    ensures r.Some? && !Truthy(r.value.0) ==> r.value.1 == Null
    ensures r.Some? && Truthy(r.value.0) ==> r.value.1 == Prop(payload, "user")
  {
    match Read(payload, "success")
    case None => Wrappers.None
    case Some(success) => Wrappers.Some((success, if Truthy(success) then Prop(payload, "user") else Null))
  }

  /** The two handlers agree on a well-formed reply whose `success` is a boolean, and differ
      on one whose `success` is any other value: `{success: "no"}` leaves `isAuthenticated`
      the truthy string `"no"` after `checkAuth` but `true` after login. */
  lemma SessionAgreesWithLoginOnBooleans(payload: Value)
    requires !Nullish(payload) && Prop(payload, "success").Bool?
    ensures AfterSession(payload) == Wrappers.Some(AfterLogin(payload))
  {
  }

  /** A concrete reply where the two disagree. */
  lemma RawSuccessIsNotBoolean()
    ensures var payload := Obj(map["success" := Str("no")]);
      AfterSession(payload).Some? && AfterSession(payload).value.0 == Str("no")
      && AfterLogin(payload).0 == Bool(true)
  {
  }
}
