/**
 * The three-page sign-up wizard: the phone mask, the teaching-target toggle,
 * the first page's validation, the page transitions of the submit handler and
 * the Back button, and the payload handed to `signUp`.
 */
module SignupForm {
  import opened Wrappers
  import opened JsText
  import opened Auth
  import opened SeqLemmas

  // ---------------------------------------------------------------- phone mask

  predicate AllDigits(s: string) {
    forall i :: 0 <= i < |s| ==> IsDigit(s[i])
  }

  /** `value.replace(/\D/g, "")`: the decimal digits of `value`, in order. */
  function Digits(value: string): string {
    if value == [] then []
    else (if IsDigit(value[0]) then [value[0]] else []) + Digits(value[1..])
  }

  lemma {:induction false} DigitsAreDigits(value: string)
    ensures AllDigits(Digits(value))
    decreases |value|
  {
    if value != [] {
      DigitsAreDigits(value[1..]);
      var r := Digits(value[1..]);
      var h := if IsDigit(value[0]) then [value[0]] else [];
      forall i | 0 <= i < |h + r| ensures IsDigit((h + r)[i]) {
        if i >= |h| {
          assert (h + r)[i] == r[i - |h|];
        }
      }
    }
  }

  function Min(a: int, b: int): int {
    if a <= b then a else b
  }

  /** The `maxLength` of the phone input. */
  const PhoneMaxLength := 16

  /**
   * `formatPhone`: the Brazilian mask `(dd) ddddd-dddd`, filled with the first
   * eleven digits of the input as far as they go.
   */
  function FormatPhone(value: string): (r: string)
    ensures |r| <= 15 < PhoneMaxLength
  {
    var numbers := Digits(value);
    if |numbers| <= 2 then numbers
    else if |numbers| <= 7 then "(" + numbers[..2] + ") " + numbers[2..]
    else if |numbers| <= 11 then "(" + numbers[..2] + ") " + numbers[2..7] + "-" + numbers[7..]
    else "(" + numbers[..2] + ") " + numbers[2..7] + "-" + numbers[7..11]
  }

  lemma {:induction false} DigitsAppend(a: string, b: string)
    ensures Digits(a + b) == Digits(a) + Digits(b)
    decreases |a|
  {
    if a == [] {
      assert a + b == b;
    } else {
      var h := if IsDigit(a[0]) then [a[0]] else [];
      assert (a + b)[0] == a[0];
      assert (a + b)[1..] == a[1..] + b;
      calc {
        Digits(a + b);
        h + Digits(a[1..] + b);
        { DigitsAppend(a[1..], b); }
        h + (Digits(a[1..]) + Digits(b));
        { AppendAssoc(h, Digits(a[1..]), Digits(b)); }
        Digits(a) + Digits(b);
      }
    }
  }

  lemma {:induction false} DigitsOfDigits(s: string)
    requires AllDigits(s)
    ensures Digits(s) == s
    decreases |s|
  {
    if s != [] {
      DigitsOfDigits(s[1..]);
    }
  }

  predicate NoDigits(s: string) {
    forall i :: 0 <= i < |s| ==> !IsDigit(s[i])
  }

  lemma {:induction false} DigitsOfNoDigits(s: string)
    requires NoDigits(s)
    ensures Digits(s) == []
    decreases |s|
  {
    if s != [] {
      DigitsOfNoDigits(s[1..]);
    }
  }

  /** Punctuation followed by digits: only the digits survive. */
  lemma DigitsAfterPunctuation(p: string, a: string)
    requires NoDigits(p) && AllDigits(a)
    ensures Digits(p + a) == a
  {
    DigitsAppend(p, a);
    DigitsOfNoDigits(p);
    DigitsOfDigits(a);
  }

  /** Appending punctuation and then digits to a string appends just those digits to its digits. */
  lemma DigitsThen(x: string, q: string, b: string)
    requires NoDigits(q) && AllDigits(b)
    ensures Digits(x + q + b) == Digits(x) + b
  {
    assert x + q + b == x + (q + b);
    DigitsAppend(x, q + b);
    DigitsAfterPunctuation(q, b);
  }

  /** The digits of a masked number are the digits that were masked. */
  lemma DigitsOfMasked(p: string, a: string, q: string, b: string)
    requires NoDigits(p) && NoDigits(q) && AllDigits(a) && AllDigits(b)
    ensures Digits(p + a + q + b) == a + b
  {
    DigitsAfterPunctuation(p, a);
    DigitsThen(p + a, q, b);
  }

  lemma DigitsOfFullyMasked(p: string, a: string, q: string, b: string, h: string, c: string)
    requires NoDigits(p) && NoDigits(q) && NoDigits(h) && AllDigits(a) && AllDigits(b) && AllDigits(c)
    ensures Digits(p + a + q + b + h + c) == a + b + c
  {
    DigitsOfMasked(p, a, q, b);
    DigitsThen(p + a + q + b, h, c);
  }

  /**
   * The mask keeps the digits it was given and nothing else: reading the
   * digits back out of the formatted phone gives the first eleven digits
   * of the input.
   */
  lemma FormatPhoneKeepsDigits(value: string)
    ensures var d := Digits(value);
      Digits(FormatPhone(value)) == d[..Min(|d|, 11)]
  {
    var d := Digits(value);
    DigitsAreDigits(value);
    if |d| <= 2 {
      DigitsOfDigits(d);
      assert d[..|d|] == d;
    } else if |d| <= 7 {
      assert FormatPhone(value) == "(" + d[..2] + ") " + d[2..];
      AreaCodeKeepsDigits(d);
      assert d[..|d|] == d;
    } else {
      var m := Min(|d|, 11);
      assert d[7..] == d[7..m] || |d| > 11;
      assert FormatPhone(value) == "(" + d[..2] + ") " + d[2..7] + "-" + d[7..m];
      FullMaskKeepsDigits(d);
    }
  }

  lemma AllDigitsSlice(d: string, i: int, j: int)
    requires AllDigits(d) && 0 <= i <= j <= |d|
    ensures AllDigits(d[i..j])
  {
    forall k | 0 <= k < j - i ensures IsDigit(d[i..j][k]) {
      assert d[i..j][k] == d[i + k];
    }
  }

  lemma AreaCodeKeepsDigits(d: string)
    requires AllDigits(d) && 3 <= |d|
    ensures Digits("(" + d[..2] + ") " + d[2..]) == d
  {
    AllDigitsSlice(d, 0, 2);
    AllDigitsSlice(d, 2, |d|);
    assert d[2..|d|] == d[2..];
    assert NoDigits("(") && NoDigits(") ");
    DigitsOfMasked("(", d[..2], ") ", d[2..]);
    assert d[..2] + d[2..] == d;
  }

  lemma FullMaskKeepsDigits(d: string)
    requires AllDigits(d) && 8 <= |d|
    ensures var m := Min(|d|, 11);
      Digits("(" + d[..2] + ") " + d[2..7] + "-" + d[7..m]) == d[..m]
  {
    var m := Min(|d|, 11);
    AllDigitsSlice(d, 0, 2);
    AllDigitsSlice(d, 2, 7);
    AllDigitsSlice(d, 7, m);
    assert NoDigits("(") && NoDigits(") ") && NoDigits("-");
    DigitsOfFullyMasked("(", d[..2], ") ", d[2..7], "-", d[7..m]);
    assert d[..2] + d[2..7] + d[7..m] == d[..m];
  }

  /**
   * The shape of the mask by digit count `n`: the bare digits up to two, then
   * the area code in parentheses, and from eight digits on a hyphen after the
   * fifth digit of the number.
   */
  lemma FormatPhoneShape(value: string)
    ensures var d, r := Digits(value), FormatPhone(value);
      && (|d| <= 2 ==> r == d)
      && (|d| >= 3 ==> r[0] == '(' && r[1..3] == d[..2] && r[3..5] == ") ")
      && (3 <= |d| <= 7 ==> r[5..] == d[2..])
      && (|d| >= 8 ==> r[5..10] == d[2..7] && r[10] == '-' && r[11..] == d[7..Min(|d|, 11)])
  {
    var d := Digits(value);
    if 3 <= |d| <= 7 {
      AreaCodeShape(d[..2], d[2..]);
    } else if |d| >= 8 {
      FullMaskShape(d[..2], d[2..7], d[7..Min(|d|, 11)]);
    }
  }

  lemma AreaCodeShape(a: string, b: string)
    requires |a| == 2
    ensures var r := "(" + a + ") " + b;
      r[0] == '(' && r[1..3] == a && r[3..5] == ") " && r[5..] == b
  {
  }

  lemma FullMaskShape(a: string, b: string, c: string)
    requires |a| == 2 && |b| == 5
    ensures var r := "(" + a + ") " + b + "-" + c;
      r[0] == '(' && r[1..3] == a && r[3..5] == ") " && r[5..10] == b && r[10] == '-' && r[11..] == c
  {
    AreaCodeShape(a, b + "-" + c);
    assert "(" + a + ") " + b + "-" + c == "(" + a + ") " + (b + "-" + c);
  }

  /** Formatting an already formatted phone changes nothing. */
  lemma FormatPhoneIdempotent(value: string)
    ensures FormatPhone(FormatPhone(value)) == FormatPhone(value)
  {
    var d := Digits(value);
    FormatPhoneKeepsDigits(value);
    var e := Digits(FormatPhone(value));
    if |d| <= 11 {
      assert e == d;
    } else {
      assert |e| == 11;
      assert e[..2] == d[..2] && e[2..7] == d[2..7] && e[7..] == d[7..11];
    }
  }

  // ------------------------------------------------------- teaching targets

  /** The student groups a teacher can teach: `"etec" | "vestibular"`. */
  datatype TeachingTarget = EtecStudents | EntranceExamStudents {
    function Id(): string {
      match this
      case EtecStudents => "etec"
      case EntranceExamStudents => "vestibular"
    }
  }

  /** `s.filter(t => t !== x)` */
  function Without<T(==)>(s: seq<T>, x: T): (r: seq<T>)
    ensures x !in r
    ensures forall y :: y in r ==> y in s
    ensures forall y :: y in s && y != x ==> y in r
  {
    if s == [] then []
    else (if s[0] == x then [] else [s[0]]) + Without(s[1..], x)
  }

  /** `toggleTeachingTarget`: remove the target if present, else append it at the end. */
  function Toggled<T(==)>(prev: seq<T>, target: T): seq<T> {
    if target in prev then Without(prev, target) else prev + [target]
  }

  predicate Distinct<T(==)>(s: seq<T>) {
    forall i, j :: 0 <= i < j < |s| ==> s[i] != s[j]
  }

  lemma {:induction false} WithoutAbsent<T>(s: seq<T>, x: T)
    requires x !in s
    ensures Without(s, x) == s
    decreases |s|
  {
    if s != [] {
      WithoutAbsent(s[1..], x);
      assert [s[0]] + s[1..] == s;
    }
  }

  lemma {:induction false} WithoutAppend<T>(s: seq<T>, t: seq<T>, x: T)
    ensures Without(s + t, x) == Without(s, x) + Without(t, x)
    decreases |s|
  {
    if s == [] {
      assert s + t == t;
    } else {
      assert (s + t)[0] == s[0];
      assert (s + t)[1..] == s[1..] + t;
      WithoutAppend(s[1..], t, x);
    }
  }

  lemma DistinctTail<T>(s: seq<T>)
    requires Distinct(s) && s != []
    ensures Distinct(s[1..]) && s[0] !in s[1..]
  {
    forall i, j | 0 <= i < j < |s| - 1 ensures s[1..][i] != s[1..][j] {
      assert s[1..][i] == s[i + 1] && s[1..][j] == s[j + 1];
    }
    forall j | 0 <= j < |s| - 1 ensures s[1..][j] != s[0] {
      assert s[1..][j] == s[j + 1];
    }
  }

  lemma DistinctCons<T>(x: T, s: seq<T>)
    requires Distinct(s) && x !in s
    ensures Distinct([x] + s)
  {
    var r := [x] + s;
    forall i, j | 0 <= i < j < |r| ensures r[i] != r[j] {
      assert r[j] == s[j - 1];
      if i > 0 {
        assert r[i] == s[i - 1];
      }
    }
  }

  lemma {:induction false} WithoutKeepsDistinct<T>(s: seq<T>, x: T)
    requires Distinct(s)
    ensures Distinct(Without(s, x))
    decreases |s|
  {
    if s != [] {
      DistinctTail(s);
      WithoutKeepsDistinct(s[1..], x);
      var rest := Without(s[1..], x);
      if s[0] != x {
        DistinctCons(s[0], rest);
      } else {
        assert [] + rest == rest;
      }
    }
  }

  /**
   * The target ends up in the list exactly when it was not there before, and
   * every other target keeps its membership.
   */
  lemma ToggleMembership<T>(prev: seq<T>, target: T)
    ensures target in Toggled(prev, target) <==> target !in prev
    ensures forall y :: y != target ==> (y in Toggled(prev, target) <==> y in prev)
  {
  }

  /** The other targets keep their order: filtering the target out of the result gives the same list as before. */
  lemma ToggleKeepsOthersInOrder<T>(prev: seq<T>, target: T)
    ensures Without(Toggled(prev, target), target) == Without(prev, target)
  {
    if target in prev {
      WithoutAbsent(Without(prev, target), target);
    } else {
      WithoutAppend(prev, [target], target);
      assert Without([target], target) == [];
      assert Without(prev, target) + [] == Without(prev, target);
    }
  }

  /**
   * An absent target is appended at the end and a second toggle removes it
   * again; a present one is removed, and toggled back it moves to the end.
   */
  lemma ToggleTwice<T>(prev: seq<T>, target: T)
    ensures target !in prev ==> Toggled(prev, target) == prev + [target]
    ensures target !in prev ==> Toggled(Toggled(prev, target), target) == prev
    ensures target in prev ==> Toggled(Toggled(prev, target), target) == Without(prev, target) + [target]
  {
    if target !in prev {
      WithoutAppend(prev, [target], target);
      WithoutAbsent(prev, target);
      assert Without([target], target) == [];
      assert prev + [] == prev;
    }
  }

  /** Toggling never duplicates a target. */
  lemma ToggleKeepsDistinct<T>(prev: seq<T>, target: T)
    requires Distinct(prev)
    ensures Distinct(Toggled(prev, target))
  {
    if target in prev {
      WithoutKeepsDistinct(prev, target);
    } else {
      var r := prev + [target];
      forall i, j | 0 <= i < j < |r| ensures r[i] != r[j] {
        if j == |prev| {
          assert r[i] == prev[i];
        } else {
          assert r[i] == prev[i] && r[j] == prev[j];
        }
      }
    }
  }

  // ------------------------------------------------------------ the fields

  /** The text typed into the wizard and the chosen teaching targets. */
  datatype Fields = Fields(
    fullName: string,
    email: string,
    phone: string,
    password: string,
    confirmPassword: string,
    currentSchool: string,
    desiredCourse: string,
    familyIncome: string,
    technicalCourse: string,
    inviteCode: string,
    subject: string,
    teachingTargets: seq<TeachingTarget>)

  const EmptyFields := Fields("", "", "", "", "", "", "", "", "", "", "", [])

  /**
   * `validateStep1`: every field of the first page is filled, the two passwords
   * agree, and the password is at least eight UTF-16 code units long.
   */
  function ValidateStep1(f: Fields): (ok: bool)
    ensures ok <==> (f.fullName != [] && f.email != [] && f.phone != [] && f.password != []
      && f.confirmPassword != [] && f.password == f.confirmPassword && Utf16Length(f.password) >= 8)
  {
    if f.fullName == [] || f.email == [] || f.phone == [] || f.password == [] || f.confirmPassword == [] then false
    else if f.password != f.confirmPassword then false
    else if Utf16Length(f.password) < 8 then false
    else true
  }

  /**
   * Measured in characters, the length rule accepts every password of eight
   * characters and rejects every one of fewer than four; in between it depends
   * on how many characters lie outside the Basic Multilingual Plane.
   */
  lemma PasswordLengthInCharacters(f: Fields)
    ensures ValidateStep1(f) ==> |f.password| >= 4
    ensures (f.fullName != [] && f.email != [] && f.phone != [] && f.password == f.confirmPassword
      && |f.password| >= 8) ==> ValidateStep1(f)
  {
  }

  /** The profile chosen on the second page: `"etec" | "vestibular" | "professor"`. */
  datatype ProfileKind = Etec | Vestibular | Professor {
    function Id(): string {
      match this
      case Etec => "etec"
      case Vestibular => "vestibular"
      case Professor => "professor"
    }
  }

  /** `s || undefined` */
  function OrUndefined(s: string): Option<string> {
    if s == [] then None else Some(s)
  }

  /** The optional field `x` is left out exactly when the typed text `s` is empty, and otherwise carries it. */
  predicate SentOrOmitted(x: Option<string>, s: string) {
    (x == None <==> s == []) && (x != None ==> x.value == s)
  }

  function TargetIds(ts: seq<TeachingTarget>): (ids: seq<string>)
    ensures |ids| == |ts| && forall i :: 0 <= i < |ts| ==> ids[i] == ts[i].Id()
  {
    seq(|ts|, i requires 0 <= i < |ts| => ts[i].Id())
  }

  /**
   * The argument of `signUp`: the first page's fields as typed, the profile
   * type, empty optional fields left out and no target list when none was
   * chosen. The invite code is not sent.
   */
  function Payload(f: Fields, kind: ProfileKind): (data: SignUpData)
    ensures data.email == f.email && data.password == f.password && data.fullName == f.fullName
    ensures data.phone == f.phone && data.profileType == kind.Id()
    ensures SentOrOmitted(data.currentSchool, f.currentSchool)
    ensures SentOrOmitted(data.desiredCourse, f.desiredCourse)
    ensures SentOrOmitted(data.familyIncome, f.familyIncome)
    ensures SentOrOmitted(data.technicalCourse, f.technicalCourse)
    ensures SentOrOmitted(data.subject, f.subject)
    ensures data.teachingTargets == None <==> f.teachingTargets == []
    ensures data.teachingTargets != None ==> data.teachingTargets.value == TargetIds(f.teachingTargets)
  {
    SignUpData(f.email, f.password, f.fullName, f.phone, kind.Id(),
      OrUndefined(f.currentSchool), OrUndefined(f.desiredCourse), OrUndefined(f.familyIncome),
      OrUndefined(f.technicalCourse), OrUndefined(f.subject),
      if |f.teachingTargets| > 0 then Some(TargetIds(f.teachingTargets)) else None)
  }

  /**
   * From the form to the database: an optional column is null exactly when its
   * field was left empty, the target list is null exactly when no target was
   * chosen, and the account is a teacher's exactly when the profile is.
   */
  lemma FormToProfileRow(f: Fields, kind: ProfileKind, userId: string)
    ensures var row := ProfileRowFor(userId, Payload(f, kind));
      && (row.currentSchool == None <==> f.currentSchool == [])
      && (row.desiredCourse == None <==> f.desiredCourse == [])
      && (row.familyIncome == None <==> f.familyIncome == [])
      && (row.technicalCourse == None <==> f.technicalCourse == [])
      && (row.subject == None <==> f.subject == [])
      && (row.teachingTargets == None <==> f.teachingTargets == [])
    ensures RoleFor(Payload(f, kind).profileType) == Teacher <==> kind == Professor
    ensures RoleFor(Payload(f, kind).profileType) == Student <==> kind != Professor
  {
  }

  // ------------------------------------------------------------ the wizard

  class SignupWizard {
    var step: int
    var fields: Fields
    var profileType: Option<ProfileKind>
    var acceptedTerms: bool
    var isSubmitting: bool

    /** The wizard is on one of its three pages, and on the last one only with a profile type chosen. */
    predicate Valid()
      reads this
    {
      1 <= step <= 3 && (step == 3 ==> profileType.Some?)
    }

    /** The submit button is enabled. */
    predicate CanSubmit()
      reads this
    {
      !((step == 1 && !ValidateStep1(fields)) || (step == 2 && profileType == None)
        || (step == 3 && !acceptedTerms) || isSubmitting)
    }

    constructor()
      ensures Valid()
      ensures step == 1 && fields == EmptyFields && profileType == None
      ensures !acceptedTerms && !isSubmitting
    {
      step := 1;
      fields := EmptyFields;
      profileType := None;
      acceptedTerms := false;
      isSubmitting := false;
    }

    /** `handlePhoneChange`: the phone field always holds the masked input. */
    method ChangePhone(value: string)
      modifies this`fields
      ensures fields == old(fields).(phone := FormatPhone(value))
    {
      fields := fields.(phone := FormatPhone(value));
    }

    /** `toggleTeachingTarget` */
    method ToggleTarget(target: TeachingTarget)
      modifies this`fields
      ensures fields == old(fields).(teachingTargets := Toggled(old(fields.teachingTargets), target))
    {
      fields := fields.(teachingTargets := Toggled(fields.teachingTargets, target));
    }

    /** Clicking a profile card on the second page. */
    method ChooseProfile(kind: ProfileKind)
      requires Valid()
      modifies this`profileType
      ensures Valid() && profileType == Some(kind)
    {
      profileType := Some(kind);
    }

    /**
     * `handleSubmit` up to the `signUp` call: the first page advances when
     * valid, the second when a profile is chosen, and the third, with the
     * terms accepted, starts submitting and yields the payload.
     */
    method Submit() returns (payload: Option<SignUpData>)
      requires Valid()
      modifies this`step, this`isSubmitting
      ensures Valid()
      ensures old(step) == 1 ==>
        payload == None && isSubmitting == old(isSubmitting) && step == (if ValidateStep1(fields) then 2 else 1)
      ensures old(step) == 2 ==>
        payload == None && isSubmitting == old(isSubmitting) && step == (if profileType.Some? then 3 else 2)
      ensures old(step) == 3 ==> step == 3 && (payload != None <==> acceptedTerms)
      ensures old(step) == 3 && payload != None ==>
        payload.value == Payload(fields, profileType.value) && isSubmitting
      ensures payload == None ==> isSubmitting == old(isSubmitting)
      ensures old(CanSubmit()) ==> step == old(step) + 1 || payload != None
    {
      payload := None;
      if step == 1 {
        if ValidateStep1(fields) {
          step := 2;
        }
      } else if step == 2 && profileType.Some? {
        step := 3;
      } else if step == 3 && acceptedTerms && profileType.Some? {
        isSubmitting := true;
        payload := Some(Payload(fields, profileType.value));
      }
    }

    /** The rest of `handleSubmit`: leave the wizard for the login page exactly when `signUp` succeeded. */
    method FinishSubmit(error: Option<Failure>) returns (switchToLogin: bool)
      modifies this`isSubmitting
      ensures !isSubmitting
      ensures switchToLogin <==> error == None
    {
      switchToLogin := error == None;
      isSubmitting := false;
    }

    /** The Back button: shown only after the first page and disabled while submitting. */
    method Back()
      requires Valid()
      modifies this`step
      ensures Valid()
      ensures step == if old(step) > 1 && !isSubmitting then old(step) - 1 else old(step)
    {
      if step > 1 && !isSubmitting {
        step := step - 1;
      }
    }
  }
}
