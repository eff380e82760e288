/**
 * The decisions taken by the authentication hook: which role a new account
 * gets, which backend requests `signUp` makes and which failures end it, how
 * the profile row is filled, and which message each failure shows.
 * The backend itself is not modelled: every answer it gives is a parameter.
 */
module Auth {
  import opened Wrappers
  import opened JsText

  /** The database enumeration `app_role`. */
  datatype AppRole = Admin | Moderator | Student | Teacher

  /**
   * `roleMap[profileType] || "student"`: ETEC and entrance-exam students are
   * students, teachers are teachers, and anything else falls back to student.
   */
  function RoleFor(profileType: string): (r: AppRole)
    ensures r != Admin && r != Moderator
    ensures r == Teacher <==> profileType == "professor"
    ensures profileType == "etec" || profileType == "vestibular" ==> r == Student
  {
    if profileType == "etec" then Student
    else if profileType == "vestibular" then Student
    else if profileType == "professor" then Teacher
    else Student
  }

  /** A failure thrown inside `signUp` or `signIn`; its `message` may be absent. */
  datatype Failure = Failure(message: Option<string>)

  /** `error.message?.includes(phrase)`: an absent message mentions nothing. */
  predicate Mentions(e: Failure, phrase: string) {
    e.message.Some? && Contains(e.message.value, phrase)
  }

  /** The same test read positionally: the phrase occurs somewhere in the message. */
  ghost predicate MentionsAt(e: Failure, phrase: string) {
    e.message.Some? && exists i :: OccursAt(e.message.value, phrase, i)
  }

  lemma MentionsIff(e: Failure, phrase: string)
    ensures Mentions(e, phrase) <==> MentionsAt(e, phrase)
  {
    if e.message.Some? {
      ContainsIff(e.message.value, phrase);
    }
  }

  /** A toast notification: title, description, and whether it is the destructive variant. */
  datatype Toast = Toast(title: string, description: string, destructive: bool)

  const AlreadyRegisteredText := "Este e-mail já está cadastrado."
  const SignUpGenericText := "Erro ao criar conta. Tente novamente."
  const WrongCredentialsText := "E-mail ou senha incorretos."
  const UnconfirmedText := "Confirme seu e-mail antes de fazer login."
  const SignInGenericText := "Erro ao fazer login. Tente novamente."

  /** The description of the toast shown when `signUp` fails. */
  function SignUpFailureText(e: Failure): string {
    if Mentions(e, "already registered") then AlreadyRegisteredText else SignUpGenericText
  }

  /** The description of the toast shown when `signIn` fails; the credentials test comes first. */
  function SignInFailureText(e: Failure): string {
    if Mentions(e, "Invalid login credentials") then WrongCredentialsText
    else if Mentions(e, "Email not confirmed") then UnconfirmedText
    else SignInGenericText
  }

  /** A failed sign-up says the e-mail is taken exactly when the message mentions it. */
  lemma SignUpMessageSelection(e: Failure)
    ensures SignUpFailureText(e) == AlreadyRegisteredText <==> MentionsAt(e, "already registered")
    ensures SignUpFailureText(e) == SignUpGenericText <==> !MentionsAt(e, "already registered")
  {
    MentionsIff(e, "already registered");
  }

  /**
   * A failed sign-in blames the credentials whenever the message says so, even
   * if it also says the e-mail is unconfirmed; each other case has its own text.
   */
  lemma SignInMessageSelection(e: Failure)
    ensures SignInFailureText(e) == WrongCredentialsText <==> MentionsAt(e, "Invalid login credentials")
    ensures SignInFailureText(e) == UnconfirmedText <==>
      !MentionsAt(e, "Invalid login credentials") && MentionsAt(e, "Email not confirmed")
    ensures SignInFailureText(e) == SignInGenericText <==>
      !MentionsAt(e, "Invalid login credentials") && !MentionsAt(e, "Email not confirmed")
  {
    MentionsIff(e, "Invalid login credentials");
    MentionsIff(e, "Email not confirmed");
  }

  /** What the sign-up form hands to `signUp`; absent optional fields are `None`. */
  datatype SignUpData = SignUpData(
    email: string,
    password: string,
    fullName: string,
    phone: string,
    profileType: string,
    currentSchool: Option<string>,
    desiredCourse: Option<string>,
    familyIncome: Option<string>,
    technicalCourse: Option<string>,
    subject: Option<string>,
    teachingTargets: Option<seq<string>>)

  /** A row of the `profiles` table as `signUp` inserts it; `None` is SQL null. */
  datatype ProfileRow = ProfileRow(
    userId: string,
    fullName: string,
    email: string,
    phone: string,
    profileType: string,
    currentSchool: Option<string>,
    desiredCourse: Option<string>,
    familyIncome: Option<string>,
    technicalCourse: Option<string>,
    subject: Option<string>,
    teachingTargets: Option<seq<string>>)

  /** The JavaScript falsiness of an optional string: absent or empty. */
  predicate Falsy(x: Option<string>) {
    x == None || x == Some([])
  }

  /** `x || null` */
  function OrNull(x: Option<string>): Option<string> {
    if Falsy(x) then None else x
  }

  /** Column `c` is null exactly when the input was absent or empty, and otherwise holds it. */
  predicate StoredOrNull(c: Option<string>, x: Option<string>) {
    (c == None <==> Falsy(x)) && (c != None ==> c == x)
  }

  /**
   * The profile row: required fields are copied, optional text columns are null
   * when their input is absent or empty, and the teaching targets are copied
   * as given (an empty list is truthy, so it is stored as an empty list).
   */
  function ProfileRowFor(userId: string, data: SignUpData): (row: ProfileRow)
    ensures row.userId == userId && row.fullName == data.fullName && row.email == data.email
    ensures row.phone == data.phone && row.profileType == data.profileType
    ensures StoredOrNull(row.currentSchool, data.currentSchool)
    ensures StoredOrNull(row.desiredCourse, data.desiredCourse)
    ensures StoredOrNull(row.familyIncome, data.familyIncome)
    ensures StoredOrNull(row.technicalCourse, data.technicalCourse)
    ensures StoredOrNull(row.subject, data.subject)
    ensures row.teachingTargets == data.teachingTargets
  {
    ProfileRow(userId, data.fullName, data.email, data.phone, data.profileType,
      OrNull(data.currentSchool), OrNull(data.desiredCourse), OrNull(data.familyIncome),
      OrNull(data.technicalCourse), OrNull(data.subject), data.teachingTargets)
  }

  /** What the authentication service answered to the account creation. */
  datatype AuthAnswer = AuthRejected(error: Failure) | NoUser | UserCreated(userId: string)

  /** A request to the backend, in the order `signUp` issues them. */
  datatype Request =
    | CreateAuthUser(email: string, password: string, fullName: string)
    | InsertProfile(row: ProfileRow)
    | InsertRole(userId: string, role: AppRole)
    | SignInWithPassword(email: string, password: string)

  /** The requests made, the error returned to the caller (`None` is `null`) and the toast shown. */
  datatype Outcome = Outcome(requests: seq<Request>, error: Option<Failure>, toast: Toast)

  /** The error thrown when the service answers without a user. */
  const NoUserFailure := Failure(Some("Erro ao criar usuário"))

  const SignUpSuccessToast := Toast("Conta criada com sucesso! 🎉", "Verifique seu e-mail para confirmar sua conta.", false)
  const SignInSuccessToast := Toast("Bem-vindo de volta! 👋", "Login realizado com sucesso.", false)

  function SignUpFailed(requests: seq<Request>, e: Failure): Outcome {
    Outcome(requests, Some(e), Toast("Erro no cadastro", SignUpFailureText(e), true))
  }

  /**
   * `signUp`: create the account; stop on a rejection or a missing user; insert
   * the profile and stop on its failure; then insert the role and succeed
   * whatever the role insert answered. `profileInsert` and `roleInsert` are
   * the answers the table inserts would give (`None` for success).
   */
  function SignUp(data: SignUpData, auth: AuthAnswer, profileInsert: Option<Failure>, roleInsert: Option<Failure>): Outcome {
    var create := CreateAuthUser(data.email, data.password, data.fullName);
    match auth
    case AuthRejected(e) => SignUpFailed([create], e)
    case NoUser => SignUpFailed([create], NoUserFailure)
    case UserCreated(id) =>
      var insert := InsertProfile(ProfileRowFor(id, data));
      if profileInsert.Some? then SignUpFailed([create, insert], profileInsert.value)
      else Outcome([create, insert, InsertRole(id, RoleFor(data.profileType))], None, SignUpSuccessToast)
  }

  /**
   * The requests come in a fixed order and each one needs the previous to have
   * succeeded: the account first, the profile only for a created user, the role
   * only after the profile was stored.
   */
  lemma SignUpOrdering(data: SignUpData, auth: AuthAnswer, profileInsert: Option<Failure>, roleInsert: Option<Failure>)
    ensures var out := SignUp(data, auth, profileInsert, roleInsert);
      && 1 <= |out.requests| <= 3
      && out.requests[0] == CreateAuthUser(data.email, data.password, data.fullName)
      && (|out.requests| >= 2 <==> auth.UserCreated?)
      && (|out.requests| >= 2 ==> out.requests[1] == InsertProfile(ProfileRowFor(auth.userId, data)))
      && (|out.requests| == 3 <==> auth.UserCreated? && profileInsert == None)
      && (|out.requests| == 3 ==> out.requests[2] == InsertRole(auth.userId, RoleFor(data.profileType)))
  {
  }

  /**
   * Which failures are fatal: a rejected account, a missing user or a failed
   * profile insert make `signUp` return that error with a destructive toast;
   * the role insert's answer changes nothing at all.
   */
  lemma SignUpFatalFailures(data: SignUpData, auth: AuthAnswer, profileInsert: Option<Failure>, roleInsert: Option<Failure>)
    ensures var out := SignUp(data, auth, profileInsert, roleInsert);
      && (out.error == None <==> auth.UserCreated? && profileInsert == None)
      && (auth.AuthRejected? ==> out.error == Some(auth.error))
      && (auth.NoUser? ==> out.error == Some(NoUserFailure))
      && (auth.UserCreated? && profileInsert.Some? ==> out.error == profileInsert)
      && (out.error == None ==> out.toast == SignUpSuccessToast)
      && (out.error.Some? ==> out.toast == Toast("Erro no cadastro", SignUpFailureText(out.error.value), true))
    ensures forall other: Option<Failure> ::
      SignUp(data, auth, profileInsert, other) == SignUp(data, auth, profileInsert, roleInsert)
  {
  }

  /** A missing user is reported with the generic message, since its text mentions no registration. */
  lemma NoUserShowsGenericMessage()
    ensures SignUpFailureText(NoUserFailure) == SignUpGenericText
  {
    var m, phrase := NoUserFailure.message.value, "already registered";
    assert phrase[10] == 'g';
    assert 'g' !in m;
    ContainedCharacters(m, phrase, 10);
    assert !Mentions(NoUserFailure, phrase);
  }

  /** Every character of a string that occurs in `s` is a character of `s`. */
  lemma ContainedCharacters(s: string, sub: string, k: int)
    requires 0 <= k < |sub|
    ensures Contains(s, sub) ==> sub[k] in s
  {
    ContainsIff(s, sub);
    if Contains(s, sub) {
      var i :| OccursAt(s, sub, i);
      assert s[i..i + |sub|][k] == s[i + k];
    }
  }

  /** `signIn`: one password sign-in request; the error is whatever the service answered, with the matching toast. */
  function SignIn(email: string, password: string, answer: Option<Failure>): (out: Outcome)
    ensures out.requests == [SignInWithPassword(email, password)]
    ensures out.error == answer
    ensures answer == None ==> out.toast == SignInSuccessToast
    ensures answer.Some? ==> out.toast.destructive && out.toast.description == SignInFailureText(answer.value)
  {
    var request := [SignInWithPassword(email, password)];
    match answer
    case None => Outcome(request, None, SignInSuccessToast)
    case Some(e) => Outcome(request, Some(e), Toast("Erro no login", SignInFailureText(e), true))
  }
}
