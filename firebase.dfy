/**
 * The identity-provider helper: the module-level `firebaseApp`, set at most once by
 * `initializeFirebase`, and the outcome classification of `deleteFirebaseUser`, which
 * never throws and reports every failure as a record.
 */
module Firebase {
  import opened Values
  import opened Strings

  /** An initialised Firebase Admin app; only its identity matters here. */
  datatype App = App(handle: nat)

  /** An error thrown by the identity provider's `deleteUser`. */
  datatype AuthError = AuthError(code: Option<string>, message: Option<string>)

  /** The `{ success, message }` record `deleteFirebaseUser` resolves to. */
  datatype DeleteOutcome = DeleteOutcome(success: bool, message: Option<string>)

  const UserNotFoundCode := "auth/user-not-found"
  const NotConfiguredMessage := "Firebase not configured"
  const DeletedMessage := "Firebase user deleted successfully"
  const AlreadyDeletedMessage := "User not found in Firebase (may already be deleted)"
  const CredentialHintMessage := "Firebase credentials not loaded. Run: gcloud auth application-default login"

  /**
   * The value of `firebaseApp` after `initializeFirebase`: an app already set is kept;
   * otherwise a configured service-account path yields the app the provider built
   * (`loaded`, None when reading the file or initialising threw), and no path yields null.
   */
  function Initialized(current: Option<App>, servicePath: Option<string>, loaded: Option<App>): (r: Option<App>)
    ensures current.Some? ==> r == current
    ensures r.Some? ==> r == current || (current.None? && Truthy(servicePath) && r == loaded)
    ensures current.None? && !Truthy(servicePath) ==> r.None?
    ensures current.None? && Truthy(servicePath) ==> r == loaded
  {
    if current.Some? then current
    else if Truthy(servicePath) then loaded
    else None
  }

  /** Once an app is set, later initialisations keep it whatever they are given. */
  lemma InitializeIsIdempotent(current: Option<App>, servicePath: Option<string>, loaded: Option<App>,
                               servicePath': Option<string>, loaded': Option<App>)
    requires Initialized(current, servicePath, loaded).Some?
    ensures var once := Initialized(current, servicePath, loaded);
            Initialized(once, servicePath', loaded') == once
  {
  }

  /** A credential failure, recognised by the wording of the error's message. */
  predicate IsCredentialMessage(message: Option<string>) {
    message.Some? &&
    (Includes(message.value, "default credentials") ||
     Includes(message.value, "OAuth2") ||
     Includes(message.value, "Could not load"))
  }

  /** The record `deleteFirebaseUser` returns for an error thrown by `deleteUser`. */
  function ClassifyDeleteError(e: AuthError): (r: DeleteOutcome)
    ensures r.success <==> e.code == Some(UserNotFoundCode)
    ensures e.code == Some(UserNotFoundCode) ==> r.message == Some(AlreadyDeletedMessage)
    ensures e.code != Some(UserNotFoundCode) && IsCredentialMessage(e.message) ==>
              r.message == Some(CredentialHintMessage)
    ensures e.code != Some(UserNotFoundCode) && !IsCredentialMessage(e.message) ==>
              r.message == e.message
  {
    if e.code == Some(UserNotFoundCode) then DeleteOutcome(true, Some(AlreadyDeletedMessage))
    else if IsCredentialMessage(e.message) then DeleteOutcome(false, Some(CredentialHintMessage))
    else DeleteOutcome(false, e.message)
  }

  /**
   * `deleteFirebaseUser(uid)` given the current app and what `deleteUser(uid)` did
   * (`thrown` is None when it succeeded).
   */
  function DeleteUserOutcome(app: Option<App>, thrown: Option<AuthError>): (r: DeleteOutcome)
    ensures app.None? ==> r == DeleteOutcome(false, Some(NotConfiguredMessage))
    ensures r.success <==> app.Some? && (thrown.None? || thrown.value.code == Some(UserNotFoundCode))
    ensures app.Some? && thrown.None? ==> r.message == Some(DeletedMessage)
    ensures app.Some? && thrown.Some? ==> r == ClassifyDeleteError(thrown.value)
  {
    if app.None? then DeleteOutcome(false, Some(NotConfiguredMessage))
    else
      match thrown
      case None => DeleteOutcome(true, Some(DeletedMessage))
      case Some(e) => ClassifyDeleteError(e)
  }

  /** The user-not-found code wins over any message, credential wording included. */
  lemma UserNotFoundBeforeMessage(app: App, code: string, message: Option<string>)
    requires code == UserNotFoundCode
    ensures DeleteUserOutcome(Some(app), Some(AuthError(Some(code), message)))
         == DeleteOutcome(true, Some(AlreadyDeletedMessage))
  {
  }

  /** The module-level state of the helper: `let firebaseApp = null`. */
  class FirebaseAdmin {
    var app: Option<App>

    /** Loading the module runs `initializeFirebase()` once on an unset app. */
    constructor (servicePath: Option<string>, loaded: Option<App>)
      ensures app == Initialized(None, servicePath, loaded)
    {
      app := if Truthy(servicePath) then loaded else None;
    }

    /** `initializeFirebase()`: it always returns the app as it stands afterwards (or null). */
    method Initialize(servicePath: Option<string>, loaded: Option<App>) returns (r: Option<App>)
      modifies this
      ensures app == Initialized(old(app), servicePath, loaded)
      ensures r == app
    {
      if app.Some? {
        return app;
      }
      if Truthy(servicePath) {
        app := loaded;
        return app;
      }
      return None;
    }

    /** `deleteFirebaseUser(uid)`; it reads the app and changes nothing. */
    method DeleteUser(uid: string, thrown: Option<AuthError>) returns (r: DeleteOutcome)
      ensures r == DeleteUserOutcome(app, thrown)
      ensures app.None? ==> !r.success
    {
      r := DeleteUserOutcome(app, thrown);
    }
  }
}
