/**
 * The session held by the client (`frontend/AuthContext.js`): the logged-in `user`,
 * the token in device storage, the backend-reachability flag read once at start-up and
 * the notification preference. Reachability checks and the answers of the user
 * endpoints are inputs: `Remote.Threw` stands for a request that failed or was answered
 * with an error status.
 */
module Session {
  import opened Js
  import opened LocalStore

  /** The `user` state. Login fills `user_id`; the server user document that
      `updateUserName` stores carries `_id` instead, so its `userId` is `None`. */
  datatype SessionUser = SessionUser(userId: Option<string>, name: string, email: string)

  /** The body of a successful `POST /users/login`: the JWT and the user's public fields. */
  datatype LoginReply = LoginReply(token: string, id: string, name: string, email: string)

  /** The user document `PUT /users/update-name` answers with. */
  datatype UserDocument = UserDocument(id: string, name: string, email: string)

  /** `user && user.user_id`: a user is logged in and has a non-empty id. */
  predicate HasUserId(user: Option<SessionUser>) {
    user.Some? && Truthy(user.value.userId)
  }

  /** What `updateUserName` stores in `user`: the server document as it is. */
  function FromServerDocument(doc: UserDocument): (u: SessionUser)
    ensures u.name == doc.name && u.email == doc.email
    ensures !HasUserId(Some(u))
  {
    SessionUser(None, doc.name, doc.email)
  }

  /** The session user the rest of the client expects after a rename: same fields, with
      `user_id` taken from the document's `_id`. */
  function KeepingUserId(doc: UserDocument): (u: SessionUser)
    ensures u.name == doc.name && u.email == doc.email
    ensures doc.id != "" ==> HasUserId(Some(u))
  {
    SessionUser(Some(doc.id), doc.name, doc.email)
  }

  class AuthContext {
    var user: Option<SessionUser>
    var token: Option<string>
    var isBackendActive: bool
    var notificationsEnabled: bool

    /** The provider's initial state; the token is whatever device storage already holds. */
    constructor (storedToken: Option<string>)
      ensures user.None? && token == storedToken && !isBackendActive && !notificationsEnabled
    {
      user := None;
      token := storedToken;
      isBackendActive := false;
      notificationsEnabled := false;
    }

    /** The mount effect: the flag takes the result of the health check. */
    method VerifyBackend(status: bool)
      modifies this
      ensures isBackendActive == status
      ensures user == old(user) && token == old(token) && notificationsEnabled == old(notificationsEnabled)
    {
      isBackendActive := status;
    }

    /** The preference effect: with a user and an active backend the preference is
        fetched and stored; a failed fetch or any other state leaves it as it was. */
    method RefreshNotificationPreference(fetched: Remote<bool>)
      modifies this
      ensures user == old(user) && token == old(token) && isBackendActive == old(isBackendActive)
      ensures notificationsEnabled ==
        if user.Some? && isBackendActive && fetched.Returned? then fetched.value else old(notificationsEnabled)
    {
      if user.Some? && isBackendActive {
        match fetched
        case Returned(preference) => notificationsEnabled := preference;
        case Threw =>
      }
    }

    /** `register`: the local row is written only after the server accepted the
        registration, keyed by the server's `_id`; a failed request or a local constraint
        violation answers false. The session itself is not touched. */
    method Register(name: string, email: string, password: string, reply: Remote<string>, db: LocalDb)
      returns (ok: bool)
      requires db.Valid()
      modifies db
      ensures db.Valid() && db.events == old(db.events)
      ensures reply.Threw? ==> !ok && db.users == old(db.users)
      ensures reply.Returned? ==>
        (ok <==> forall k :: 0 <= k < |old(db.users)| ==>
                   old(db.users)[k].userId != reply.value && old(db.users)[k].email != email)
      ensures ok ==> db.users == old(db.users) + [UserRow(reply.value, name, email, password)]
      ensures !ok ==> db.users == old(db.users)
    {
      match reply
      case Threw =>
        return false;
      case Returned(userId) =>
        ok := db.InsertUser(email, password, name, userId);
    }

    /** `login`: online first, when the fresh health check says the backend is up and the
        request succeeds the token is stored and the user comes from the server. Otherwise
        the local user with that email is looked up and accepted only on an exact password
        match, without touching the token. */
    method Login(email: string, password: string, backendUp: bool, reply: Remote<LoginReply>, db: LocalDb)
      returns (ok: bool)
      requires db.Valid()
      modifies this
      ensures isBackendActive == old(isBackendActive) && notificationsEnabled == old(notificationsEnabled)
      ensures backendUp && reply.Returned? ==>
        ok && token == Some(reply.value.token)
        && user == Some(SessionUser(Some(reply.value.id), reply.value.name, reply.value.email))
      ensures !(backendUp && reply.Returned?) ==>
        token == old(token)
        && match db.FindUserByEmail(email)
           case None => !ok && user == old(user)
           case Some(row) =>
             if row.password == password then ok && user == Some(SessionUser(Some(row.userId), row.name, row.email))
             else !ok && user == old(user)
    {
      if backendUp {
        match reply
        case Returned(data) =>
          token := Some(data.token);
          user := Some(SessionUser(Some(data.id), data.name, data.email));
          return true;
        case Threw =>
      }
      var localUser := db.FindUserByEmail(email);
      match localUser
      case None =>
        ok := false;
      case Some(row) =>
        if row.password == password {
          user := Some(SessionUser(Some(row.userId), row.name, row.email));
          ok := true;
        } else {
          ok := false;
        }
    }

    /** `logout`: the token leaves device storage and the user is cleared. */
    method Logout()
      modifies this
      ensures user.None? && token.None?
      ensures isBackendActive == old(isBackendActive) && notificationsEnabled == old(notificationsEnabled)
    {
      token := None;
      user := None;
    }

    /** `updateUserName` as written: online only; on success `user` becomes the server's
        user document, which has no `user_id`. `name` is what the request sends; `reply`
        stands for the server's answer to it, the renamed user's document. */
    method UpdateUserName(name: string, backendUp: bool, reply: Remote<UserDocument>) returns (ok: bool)
      modifies this
      ensures token == old(token) && isBackendActive == old(isBackendActive)
      ensures notificationsEnabled == old(notificationsEnabled)
      ensures ok <==> backendUp && reply.Returned?
      ensures ok ==> user == Some(FromServerDocument(reply.value))
      ensures !ok ==> user == old(user)
    {
      if !backendUp {
        return false;
      }
      match reply
      case Threw =>
        return false;
      case Returned(doc) =>
        user := Some(FromServerDocument(doc));
        return true;
    }

    /** `updateUserName` with the session user rebuilt in the shape login gives it, so that
        `user_id` survives a rename. `name` and `reply` are as for `UpdateUserName`. */
    method UpdateUserNameKeepingId(name: string, backendUp: bool, reply: Remote<UserDocument>) returns (ok: bool)
      modifies this
      ensures token == old(token) && isBackendActive == old(isBackendActive)
      ensures notificationsEnabled == old(notificationsEnabled)
      ensures ok <==> backendUp && reply.Returned?
      ensures ok ==> user == Some(KeepingUserId(reply.value))
      ensures !ok ==> user == old(user)
    {
      if !backendUp {
        return false;
      }
      match reply
      case Threw =>
        return false;
      case Returned(doc) =>
        user := Some(KeepingUserId(doc));
        return true;
    }

    /** `toggleNotifications`: asks the backend to store the negated preference and keeps
        the value the backend confirms; with no user id, or when the request fails, nothing
        changes. */
    method ToggleNotifications(confirmed: Remote<bool>)
      modifies this
      ensures user == old(user) && token == old(token) && isBackendActive == old(isBackendActive)
      ensures notificationsEnabled ==
        if HasUserId(old(user)) && confirmed.Returned? then confirmed.value else old(notificationsEnabled)
    {
      if user.Some? && Truthy(user.value.userId) {
        match confirmed
        case Returned(updatedStatus) => notificationsEnabled := updatedStatus;
        case Threw =>
      }
    }
  }

  /** After a rename as written, toggling notifications does nothing, even when the backend
      would confirm the change. */
  method RenameThenToggle(session: AuthContext, name: string, doc: UserDocument)
    modifies session
    ensures session.user == Some(FromServerDocument(doc))
    ensures session.notificationsEnabled == old(session.notificationsEnabled)
  {
    var ok := session.UpdateUserName(name, true, Returned(doc));
    session.ToggleNotifications(Returned(!session.notificationsEnabled));
  }

  /** With the id kept, the same sequence flips the preference. */
  method RenameKeepingIdThenToggle(session: AuthContext, name: string, doc: UserDocument)
    requires doc.id != ""
    modifies session
    ensures session.user == Some(KeepingUserId(doc))
    ensures session.notificationsEnabled == !old(session.notificationsEnabled)
  {
    var ok := session.UpdateUserNameKeepingId(name, true, Returned(doc));
    session.ToggleNotifications(Returned(!session.notificationsEnabled));
  }
}
