/**
 * The labels of the dashboard header: the greeting for the hour of the day,
 * the first name used in the welcome line, the display name and the label of
 * the profile type. The hour is a parameter instead of a clock reading.
 */
module Dashboard {
  import opened Wrappers
  import opened JsText
  import Auth
  import SignupForm

  /** The two profile columns the header reads. */
  datatype Profile = Profile(fullName: string, profileType: string)

  /** The signed-in user; `email` may be absent. */
  datatype User = User(email: Option<string>)

  const Morning := "Bom dia"
  const Afternoon := "Boa tarde"
  const Evening := "Boa noite"

  /** `getGreeting`, given the local hour. */
  function Greeting(hour: int): string {
    if hour < 12 then Morning
    else if hour < 18 then Afternoon
    else Evening
  }

  /** Every hour of the day gets exactly one greeting, by the interval it falls in. */
  lemma GreetingByHour(hour: int)
    requires 0 <= hour < 24
    ensures Greeting(hour) == Morning <==> hour < 12
    ensures Greeting(hour) == Afternoon <==> 12 <= hour < 18
    ensures Greeting(hour) == Evening <==> 18 <= hour
  {
  }

  /** The greeting only moves forward through the day. */
  lemma GreetingIsMonotone(h1: int, h2: int)
    requires h1 <= h2
    ensures Greeting(h1) == Evening ==> Greeting(h2) == Evening
    ensures Greeting(h2) == Morning ==> Greeting(h1) == Morning
  {
  }

  /** `a || b` on optional strings: the first operand when it is a non-empty string. */
  function OrElse(a: Option<string>, b: string): string {
    if a.Some? && a.value != [] then a.value else b
  }

  /**
   * `profile?.full_name?.split(" ")[0] || user?.email?.split("@")[0] || "Estudante"`
   */
  function FirstName(profile: Option<Profile>, user: Option<User>): (r: string)
    ensures r != []
  {
    var fromName := if profile.Some? then Some(BeforeFirst(profile.value.fullName, ' ')) else None;
    var fromEmail := if user.Some? && user.value.email.Some? then Some(BeforeFirst(user.value.email.value, '@')) else None;
    OrElse(fromName, OrElse(fromEmail, "Estudante"))
  }

  /**
   * When the full name starts with a word, the first name is that word: a
   * non-empty prefix of the name without spaces, followed by a space or by
   * the end of the name.
   */
  lemma FirstNameIsFirstWord(profile: Profile, user: Option<User>)
    requires profile.fullName != [] && profile.fullName[0] != ' '
    ensures var r := FirstName(Some(profile), user);
      && r != [] && StartsWith(profile.fullName, r) && ' ' !in r
      && (|r| == |profile.fullName| || profile.fullName[|r|] == ' ')
  {
  }

  /**
   * Without a first word (no profile, an empty name or one that starts with a
   * space) the first name is the local part of the e-mail address, or
   * "Estudante" when that is missing or empty too.
   */
  lemma FirstNameFallsBack(profile: Option<Profile>, user: Option<User>)
    requires profile == None || profile.value.fullName == [] || profile.value.fullName[0] == ' '
    ensures var r := FirstName(profile, user);
      && (user.Some? && user.value.email.Some? && BeforeFirst(user.value.email.value, '@') != [] ==>
            r == BeforeFirst(user.value.email.value, '@')
            && StartsWith(user.value.email.value, r) && '@' !in r)
      && (user == None || user.value.email == None || BeforeFirst(user.value.email.value, '@') == [] ==>
            r == "Estudante")
  {
    if profile.Some? && profile.value.fullName != [] {
      assert BeforeFirst(profile.value.fullName, ' ') == [];
    }
  }

  /** `profile?.full_name || user?.email`: absent when both are. */
  function DisplayName(profile: Option<Profile>, user: Option<User>): (r: Option<string>)
    ensures profile.Some? && profile.value.fullName != [] ==> r == Some(profile.value.fullName)
    ensures (profile == None || profile.value.fullName == []) ==> r == (if user.Some? then user.value.email else None)
  {
    if profile.Some? && profile.value.fullName != [] then Some(profile.value.fullName)
    else if user.Some? then user.value.email
    else None
  }

  /** The welcome line's first name begins the header's display name whenever that name has a first word. */
  lemma FirstNameBeginsDisplayName(profile: Profile, user: Option<User>)
    requires profile.fullName != [] && profile.fullName[0] != ' '
    ensures DisplayName(Some(profile), user) == Some(profile.fullName)
    ensures StartsWith(DisplayName(Some(profile), user).value, FirstName(Some(profile), user))
  {
    FirstNameIsFirstWord(profile, user);
  }

  const EtecLabel := "Aluno ETEC"
  const VestibularLabel := "Aluno Vestibular"
  const DefaultLabel := "Estudante"

  /** The label under the display name. */
  function ProfileLabel(profile: Option<Profile>): string {
    var t := if profile.Some? then profile.value.profileType else "";
    if t == "etec" then EtecLabel
    else if t == "vestibular" then VestibularLabel
    else if profile.Some? && t != [] then t
    else DefaultLabel
  }

  /**
   * The two student types get their own labels, any other non-empty type is
   * shown as it is, and a missing profile or an empty type shows "Estudante".
   */
  lemma ProfileLabelCases(profile: Option<Profile>)
    ensures profile.Some? && profile.value.profileType == "etec" ==> ProfileLabel(profile) == EtecLabel
    ensures profile.Some? && profile.value.profileType == "vestibular" ==> ProfileLabel(profile) == VestibularLabel
    ensures profile.Some? && profile.value.profileType !in {"", "etec", "vestibular"} ==>
      ProfileLabel(profile) == profile.value.profileType
    ensures profile == None || profile.value.profileType == [] ==> ProfileLabel(profile) == DefaultLabel
    ensures ProfileLabel(profile) != []
  {
  }

  /** The header's view of a profile row. */
  function ProfileOf(row: Auth.ProfileRow): Profile {
    Profile(row.fullName, row.profileType)
  }

  /**
   * For an account made by the sign-up wizard, the two student profiles get
   * their own labels and a teacher's shows the raw type "professor".
   */
  lemma LabelOfNewAccount(f: SignupForm.Fields, kind: SignupForm.ProfileKind, userId: string)
    ensures var shown := ProfileLabel(Some(ProfileOf(Auth.ProfileRowFor(userId, SignupForm.Payload(f, kind)))));
      && (kind == SignupForm.Etec ==> shown == EtecLabel)
      && (kind == SignupForm.Vestibular ==> shown == VestibularLabel)
      && (kind == SignupForm.Professor ==> shown == "professor")
  {
  }
}
