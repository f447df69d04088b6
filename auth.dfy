/**
 * The input rules of the authentication controller: the profile update's field
 * checks and the way it accumulates updates and errors, the new-password rule of
 * `changePassword`, the masked e-mail shown after a 2FA code is sent, and the guards
 * in front of enabling and disabling two-factor verification.
 */
module Auth {
  import opened Wrappers
  import opened PhpString
  import opened Json
  import opened HttpResponse

  // ---------------------------------------------------------------------------
  // updateProfile
  // ---------------------------------------------------------------------------

  /** The body fields of a profile update; None when a field is absent or null (`!isset`). */
  datatype ProfileData = ProfileData(name: Option<string>, email: Option<string>, phone: Option<string>,
                                     account: Option<string>)

  /** What one field contributes: nothing, an update (None clears the column), or an error. */
  datatype FieldCheck = Skip | Update(value: Option<string>) | Reject(message: string)

  const NameEmptyError := "El nombre no puede estar vacío"
  const NameShortError := "El nombre debe tener al menos 3 caracteres"
  const EmailInvalidError := "Email inválido"
  const EmailTakenError := "El email ya está en uso"
  const PhoneInvalidError := "Teléfono inválido"

  /** The name is trimmed; an empty() result or one under 3 bytes is refused. */
  function NameCheck(name: Option<string>): (r: FieldCheck)
    ensures r.Skip? <==> name.None?
    ensures r == Reject(NameEmptyError) <==> name.Some? && IsEmpty(Trim(name.value))
    ensures r == Reject(NameShortError) <==> name.Some? && !IsEmpty(Trim(name.value)) && |Trim(name.value)| < 3
    ensures r.Update? ==> r.value == Some(Trim(name.value)) && |r.value.value| >= 3
  {
    if name.None? then Skip
    else
      var n := Trim(name.value);
      if IsEmpty(n) then Reject(NameEmptyError)
      else if |n| < 3 then Reject(NameShortError)
      else Update(Some(n))
  }

  /**
   * The e-mail as filter_var(FILTER_VALIDATE_EMAIL) returns it (`validEmail`), refused
   * when that fails or when `ownerOf` names another user already holding it.
   */
  function EmailCheck(email: Option<string>, userId: int, validEmail: string -> Option<string>,
                      ownerOf: string -> Option<int>): (r: FieldCheck)
    ensures r.Skip? <==> email.None?
    ensures r == Reject(EmailInvalidError) <==> email.Some? && IsEmptyOpt(validEmail(email.value))
    ensures r == Reject(EmailTakenError) <==>
              email.Some? && !IsEmptyOpt(validEmail(email.value)) &&
              ownerOf(validEmail(email.value).value).Some? && ownerOf(validEmail(email.value).value).value != userId
    ensures r.Update? ==> r.value == validEmail(email.value)
  {
    if email.None? then Skip
    else
      var e := validEmail(email.value);
      if IsEmptyOpt(e) then Reject(EmailInvalidError)
      else
        var owner := ownerOf(e.value);
        if owner.Some? && owner.value != userId then Reject(EmailTakenError) else Update(e)
  }

  /** The bytes the phone pattern `[^0-9+]` keeps. */
  predicate IsPhoneChar(c: char) {
    IsDigit(c) || c == '+'
  }

  /**
   * The phone is trimmed; an empty() result clears the column, anything else keeps only
   * its digits and '+' and must still have 9 bytes.
   */
  function PhoneCheck(phone: Option<string>): (r: FieldCheck)
    ensures r.Skip? <==> phone.None?
    ensures r == Update(None) <==> phone.Some? && IsEmpty(Trim(phone.value))
    ensures r.Reject? <==> phone.Some? && !IsEmpty(Trim(phone.value)) && |Filter(Trim(phone.value), IsPhoneChar)| < 9
    ensures r.Reject? ==> r.message == PhoneInvalidError
    ensures r.Update? && r.value.Some? ==>
              |r.value.value| >= 9 && forall k :: 0 <= k < |r.value.value| ==> IsPhoneChar(r.value.value[k])
  {
    if phone.None? then Skip
    else
      var t := Trim(phone.value);
      if !IsEmpty(t) then
        var f := Filter(t, IsPhoneChar);
        if |f| < 9 then Reject(PhoneInvalidError) else Update(Some(f))
      else Update(None)
  }

  /** The subscriber number is trimmed; an empty() result clears the column. */
  function AccountCheck(account: Option<string>): (r: FieldCheck)
    ensures r.Skip? <==> account.None?
    ensures !r.Reject?
    ensures r == Update(None) <==> account.Some? && IsEmpty(Trim(account.value))
    ensures r.Update? && r.value.Some? ==> r.value.value == Trim(account.value) && !IsEmpty(r.value.value)
  {
    if account.None? then Skip
    else
      var t := Trim(account.value);
      if !IsEmpty(t) then Update(Some(t)) else Update(None)
  }

  /** The four checks in the order updateProfile runs them, each with its column. */
  function ProfileChecks(d: ProfileData, userId: int, validEmail: string -> Option<string>,
                         ownerOf: string -> Option<int>): (r: seq<(string, FieldCheck)>)
    ensures |r| == 4 && r[0].0 == "name" && r[1].0 == "email" && r[2].0 == "phone" && r[3].0 == "account"
    ensures r[0].1.Skip? <==> d.name.None?
    ensures r[1].1.Skip? <==> d.email.None?
    ensures r[2].1.Skip? <==> d.phone.None?
    ensures r[3].1.Skip? <==> d.account.None?
    ensures !r[3].1.Reject?
  {
    [("name", NameCheck(d.name)), ("email", EmailCheck(d.email, userId, validEmail, ownerOf)),
     ("phone", PhoneCheck(d.phone)), ("account", AccountCheck(d.account))]
  }

  /** `$updates`: the columns of the accepted fields, in order. */
  function UpdatesOf(cs: seq<(string, FieldCheck)>): (r: seq<(string, Option<string>)>)
    ensures |r| <= |cs|
    ensures forall j :: 0 <= j < |r| ==>
              exists k :: 0 <= k < |cs| && cs[k].1.Update? && r[j] == (cs[k].0, cs[k].1.value)
    decreases |cs|
  {
    if cs == [] then []
    else
      var last := cs[|cs| - 1];
      var prefix := cs[..|cs| - 1];
      assert forall k :: 0 <= k < |prefix| ==> prefix[k] == cs[k];
      UpdatesOf(prefix) + (if last.1.Update? then [(last.0, last.1.value)] else [])
  }

  /** `$errors`: the messages of the refused fields, in order. */
  function ErrorsOf(cs: seq<(string, FieldCheck)>): (r: seq<string>)
    ensures |r| <= |cs|
    ensures forall j :: 0 <= j < |r| ==> exists k :: 0 <= k < |cs| && cs[k].1.Reject? && r[j] == cs[k].1.message
    decreases |cs|
  {
    if cs == [] then []
    else
      var last := cs[|cs| - 1];
      var prefix := cs[..|cs| - 1];
      assert forall k :: 0 <= k < |prefix| ==> prefix[k] == cs[k];
      ErrorsOf(prefix) + (if last.1.Reject? then [last.1.message] else [])
  }

  /** There are no errors exactly when no field was refused. */
  lemma {:induction false} ErrorsOfEmpty(cs: seq<(string, FieldCheck)>)
    ensures ErrorsOf(cs) == [] <==> forall k :: 0 <= k < |cs| ==> !cs[k].1.Reject?
    decreases |cs|
  {
    if cs != [] {
      var n := |cs| - 1;
      var prefix := cs[..n];
      ErrorsOfEmpty(prefix);
      assert forall k :: 0 <= k < n ==> prefix[k] == cs[k];
      assert ErrorsOf(cs) == ErrorsOf(prefix) + (if cs[n].1.Reject? then [cs[n].1.message] else []);
    }
  }

  /** There are no updates exactly when no field was accepted. */
  lemma {:induction false} UpdatesOfEmpty(cs: seq<(string, FieldCheck)>)
    ensures UpdatesOf(cs) == [] <==> forall k :: 0 <= k < |cs| ==> !cs[k].1.Update?
    decreases |cs|
  {
    if cs != [] {
      var n := |cs| - 1;
      var prefix := cs[..n];
      UpdatesOfEmpty(prefix);
      assert forall k :: 0 <= k < n ==> prefix[k] == cs[k];
      assert UpdatesOf(cs) == UpdatesOf(prefix) + (if cs[n].1.Update? then [(cs[n].0, cs[n].1.value)] else []);
    }
  }

  /** `$updates` and `$errors` after one more field's check. */
  function Extend(acc: (seq<(string, Option<string>)>, seq<string>), column: string, c: FieldCheck)
    : (r: (seq<(string, Option<string>)>, seq<string>))
    ensures acc.0 <= r.0 && acc.1 <= r.1
    ensures |r.0| + |r.1| == |acc.0| + |acc.1| + (if c.Skip? then 0 else 1)
    ensures |r.0| > |acc.0| <==> c.Update?
    ensures |r.1| > |acc.1| <==> c.Reject?
    ensures c.Update? ==> r.0[|acc.0|] == (column, c.value)
    ensures c.Reject? ==> r.1[|acc.1|] == c.message
  {
    match c
    case Skip => acc
    case Update(v) => (acc.0 + [(column, v)], acc.1)
    case Reject(m) => (acc.0, acc.1 + [m])
  }

  /** Adding one more field's check extends `$updates` and `$errors` by its contribution alone. */
  lemma AppendCheck(cs: seq<(string, FieldCheck)>, k: nat)
    requires k < |cs|
    ensures (UpdatesOf(cs[..k + 1]), ErrorsOf(cs[..k + 1])) == Extend((UpdatesOf(cs[..k]), ErrorsOf(cs[..k])), cs[k].0, cs[k].1)
  {
    assert cs[..k + 1][..k] == cs[..k];
    assert UpdatesOf(cs[..k]) + [] == UpdatesOf(cs[..k]);
    assert ErrorsOf(cs[..k]) + [] == ErrorsOf(cs[..k]);
  }

  /** The name block of updateProfile, statement by statement; NameCheck is its verdict as a value, which the lemmas use. */
  method ValidateName(name: Option<string>, updates: seq<(string, Option<string>)>, errors: seq<string>)
    returns (updates': seq<(string, Option<string>)>, errors': seq<string>)
    ensures (updates', errors') == Extend((updates, errors), "name", NameCheck(name))
  {
    updates', errors' := updates, errors;
    if name.Some? {
      var n := Trim(name.value);
      if IsEmpty(n) {
        errors' := errors' + [NameEmptyError];
      } else if |n| < 3 {
        errors' := errors' + [NameShortError];
      } else {
        updates' := updates' + [("name", Some(n))];
      }
    }
  }

  /** The e-mail block of updateProfile, statement by statement; EmailCheck is its verdict as a value, which the lemmas use. */
  method ValidateEmail(email: Option<string>, userId: int, validEmail: string -> Option<string>,
                       ownerOf: string -> Option<int>, updates: seq<(string, Option<string>)>, errors: seq<string>)
    returns (updates': seq<(string, Option<string>)>, errors': seq<string>)
    ensures (updates', errors') == Extend((updates, errors), "email", EmailCheck(email, userId, validEmail, ownerOf))
  {
    updates', errors' := updates, errors;
    if email.Some? {
      var e := validEmail(email.value);
      if IsEmptyOpt(e) {
        errors' := errors' + [EmailInvalidError];
      } else {
        var owner := ownerOf(e.value);
        if owner.Some? && owner.value != userId {
          errors' := errors' + [EmailTakenError];
        } else {
          updates' := updates' + [("email", e)];
        }
      }
    }
  }

  /** The phone block of updateProfile, statement by statement; PhoneCheck is its verdict as a value, which the lemmas use. */
  method ValidatePhone(phone: Option<string>, updates: seq<(string, Option<string>)>, errors: seq<string>)
    returns (updates': seq<(string, Option<string>)>, errors': seq<string>)
    ensures (updates', errors') == Extend((updates, errors), "phone", PhoneCheck(phone))
  {
    updates', errors' := updates, errors;
    if phone.Some? {
      var p := Trim(phone.value);
      if !IsEmpty(p) {
        p := Filter(p, IsPhoneChar);
        if |p| < 9 {
          errors' := errors' + [PhoneInvalidError];
        } else {
          updates' := updates' + [("phone", Some(p))];
        }
      } else {
        updates' := updates' + [("phone", None)];
      }
    }
  }

  /** The subscriber-number block of updateProfile, statement by statement; AccountCheck is its verdict as a value, which the lemmas use. */
  method ValidateAccount(account: Option<string>, updates: seq<(string, Option<string>)>, errors: seq<string>)
    returns (updates': seq<(string, Option<string>)>, errors': seq<string>)
    ensures (updates', errors') == Extend((updates, errors), "account", AccountCheck(account))
  {
    updates', errors' := updates, errors;
    if account.Some? {
      var t := Trim(account.value);
      if !IsEmpty(t) {
        updates' := updates' + [("account", Some(t))];
      } else {
        updates' := updates' + [("account", None)];
      }
    }
  }

  /** The validation part of updateProfile, accumulating `$updates` and `$errors` field by field. */
  method ValidateProfile(d: ProfileData, userId: int, validEmail: string -> Option<string>,
                         ownerOf: string -> Option<int>)
    returns (updates: seq<(string, Option<string>)>, errors: seq<string>)
    ensures updates == UpdatesOf(ProfileChecks(d, userId, validEmail, ownerOf))
    ensures errors == ErrorsOf(ProfileChecks(d, userId, validEmail, ownerOf))
  {
    updates, errors := ValidateName(d.name, [], []);
    updates, errors := ValidateEmail(d.email, userId, validEmail, ownerOf, updates, errors);
    updates, errors := ValidatePhone(d.phone, updates, errors);
    updates, errors := ValidateAccount(d.account, updates, errors);
    FourChecks(ProfileChecks(d, userId, validEmail, ownerOf));
  }

  /** Four checks, as updateProfile has, extend an empty `$updates` and `$errors` one after the other. */
  lemma FourChecks(cs: seq<(string, FieldCheck)>)
    requires |cs| == 4
    ensures (UpdatesOf(cs), ErrorsOf(cs)) ==
            Extend(Extend(Extend(Extend(([], []), cs[0].0, cs[0].1), cs[1].0, cs[1].1), cs[2].0, cs[2].1), cs[3].0, cs[3].1)
  {
    assert cs[..0] == [];
    AppendCheck(cs, 0);
    AppendCheck(cs, 1);
    AppendCheck(cs, 2);
    AppendCheck(cs, 3);
    assert cs[..4] == cs;
  }

  /** Where updateProfile goes after validation. */
  datatype ProfileOutcome =
    | ValidationErrors(errors: seq<string>)
    | NothingToUpdate
    | ApplyUpdates(updates: seq<(string, Option<string>)>)

  /**
   * The decision of updateProfile: any refused field stops it with the error list, no
   * accepted field stops it too, and only otherwise are the updates applied.
   */
  method UpdateProfile(d: ProfileData, userId: int, validEmail: string -> Option<string>,
                       ownerOf: string -> Option<int>)
    returns (out: ProfileOutcome)
    ensures var cs := ProfileChecks(d, userId, validEmail, ownerOf);
            && (out.ValidationErrors? <==> exists k :: 0 <= k < |cs| && cs[k].1.Reject?)
            && (out.ValidationErrors? ==> out.errors == ErrorsOf(cs) && out.errors != [])
            && (out.NothingToUpdate? <==> forall k :: 0 <= k < |cs| ==> cs[k].1.Skip?)
            && (out.ApplyUpdates? ==> out.updates == UpdatesOf(cs) && out.updates != [])
  {
    ghost var cs := ProfileChecks(d, userId, validEmail, ownerOf);
    var updates, errors := ValidateProfile(d, userId, validEmail, ownerOf);
    ErrorsOfEmpty(cs);
    UpdatesOfEmpty(cs);
    if errors != [] {
      out := ValidationErrors(errors);
    } else if updates == [] {
      out := NothingToUpdate;
    } else {
      out := ApplyUpdates(updates);
    }
  }

  /** The 400 replies of updateProfile; an accepted update carries on to the database. */
  function ProfileReply(out: ProfileOutcome): (r: Option<Response>)
    ensures r.None? <==> out.ApplyUpdates?
    ensures r.Some? ==> r.value.code == 400 && Lookup(r.value.body, "status") == Some(JStr("error"))
    ensures out.ValidationErrors? ==>
              Lookup(r.value.body, "message") == Some(JStr("Errores de validación")) &&
              Lookup(r.value.body, "errors") == Some(JArr(seq(|out.errors|, k requires 0 <= k < |out.errors| => JStr(out.errors[k]))))
    ensures out.NothingToUpdate? ==> Lookup(r.value.body, "message") == Some(JStr("No hay datos para actualizar"))
  {
    match out
    case ValidationErrors(errors) =>
      var data := [("errors", JArr(seq(|errors|, k requires 0 <= k < |errors| => JStr(errors[k]))))];
      assert Keys(data) == ["errors"];
      Some(Respond(400, "Errores de validación", Some(data)))
    case NothingToUpdate => Some(Respond(400, "No hay datos para actualizar", None))
    case ApplyUpdates(_) => None
  }

  /** A name the profile accepted is accepted again, unchanged, when submitted once more. */
  lemma NameCheckStable(name: string)
    requires NameCheck(Some(name)).Update?
    ensures NameCheck(NameCheck(Some(name)).value) == NameCheck(Some(name))
  {
    TrimIdempotent(name);
  }

  /** A phone number the profile accepted is accepted again, unchanged, when submitted once more. */
  lemma PhoneCheckStable(phone: string)
    requires PhoneCheck(Some(phone)).Update? && PhoneCheck(Some(phone)).value.Some?
    ensures PhoneCheck(PhoneCheck(Some(phone)).value) == PhoneCheck(Some(phone))
  {
    var f := PhoneCheck(Some(phone)).value.value;
    assert !IsTrimSpace(f[0]) && !IsTrimSpace(f[|f| - 1]) by {
      assert IsPhoneChar(f[0]) && IsPhoneChar(f[|f| - 1]);
    }
    TrimOfUntrimmable(f);
    FilterKeepsAll(f, IsPhoneChar);
    assert !IsEmpty(f) by { assert |f| >= 9; }
  }

  /** "0" is one of PHP's empty strings, so a phone or account of "0" clears the column. */
  lemma ZeroClears()
    ensures PhoneCheck(Some("0")) == Update(None)
    ensures AccountCheck(Some(" 0 ")) == Update(None)
  {
    TrimOfUntrimmable("0");
    PaddedZeroTrims();
  }

  lemma PaddedZeroTrims()
    ensures Trim(" 0 ") == "0"
  {
    TrimPadded("0");
    assert " " + "0" + " " == " 0 ";
  }

  // ---------------------------------------------------------------------------
  // changePassword
  // ---------------------------------------------------------------------------

  predicate IsLowerAscii(c: char) { 'a' <= c <= 'z' }
  predicate IsUpperAscii(c: char) { 'A' <= c <= 'Z' }

  /** `(?=.*X)` at position i: a byte of class X is reached before any line break. */
  predicate LookAhead(s: string, i: nat, cls: char -> bool)
    decreases |s| - i
  {
    i < |s| && (cls(s[i]) || (s[i] != '\n' && LookAhead(s, i + 1, cls)))
  }

  /** `$` without modifiers: the end of the subject, or just before a final line break. */
  predicate AtDollar(s: string, k: nat) {
    k == |s| || (k == |s| - 1 && s[k] == '\n')
  }

  /** `.+$` at position i, with backtracking: some non-empty run of non-break bytes reaches `$`. */
  predicate DotPlusDollar(s: string, i: nat)
    decreases |s| - i
  {
    i < |s| && s[i] != '\n' && (AtDollar(s, i + 1) || DotPlusDollar(s, i + 1))
  }

  /** preg_match('/^(?=.*[a-z])(?=.*[A-Z])(?=.*\d).+$/', s). */
  predicate StrengthPattern(s: string)
    ensures StrengthPattern(s) ==> |Line(s)| > 0 && '\n' !in Line(s)
  {
    DotPlusDollarMeaning(s, 0);
    LookAhead(s, 0, IsLowerAscii) && LookAhead(s, 0, IsUpperAscii) && LookAhead(s, 0, IsDigit) && DotPlusDollar(s, 0)
  }

  /** The subject without one final line break, which `$` lets the pattern step over. */
  function Line(s: string): (r: string)
    ensures r <= s && |s| - 1 <= |r|
  {
    if |s| > 0 && s[|s| - 1] == '\n' then s[..|s| - 1] else s
  }

  predicate HasClass(s: string, cls: char -> bool) {
    exists k :: 0 <= k < |s| && cls(s[k])
  }

  /**
   * What the strength pattern accepts, without regular-expression machinery: a single
   * line, possibly followed by one line break, holding a lower-case letter, an upper-case
   * letter and a digit.
   */
  lemma StrengthPatternMeaning(s: string)
    ensures StrengthPattern(s) <==>
              && '\n' !in Line(s)
              && HasClass(Line(s), IsLowerAscii) && HasClass(Line(s), IsUpperAscii) && HasClass(Line(s), IsDigit)
  {
    DotPlusDollarMeaning(s, 0);
    if '\n' !in Line(s) {
      LookAheadInLine(s, 0, IsLowerAscii);
      LookAheadInLine(s, 0, IsUpperAscii);
      LookAheadInLine(s, 0, IsDigit);
    } else {
      assert !DotPlusDollar(s, 0);
    }
  }

  /** `.+$` from i holds exactly when i is inside the line and the line has no break from i on. */
  lemma {:induction false} DotPlusDollarMeaning(s: string, i: nat)
    requires i <= |s|
    ensures DotPlusDollar(s, i) <==> i < |Line(s)| && forall k :: i <= k < |Line(s)| ==> s[k] != '\n'
    decreases |s| - i
  {
    if i < |s| && s[i] != '\n' && !AtDollar(s, i + 1) {
      DotPlusDollarMeaning(s, i + 1);
    }
  }

  /** Within a break-free line, `(?=.*X)` from i holds exactly when the line has an X from i on. */
  lemma {:induction false} LookAheadInLine(s: string, i: nat, cls: char -> bool)
    requires i <= |Line(s)| && '\n' !in Line(s)
    requires forall c :: cls(c) ==> c != '\n'
    ensures LookAhead(s, i, cls) <==> exists k :: i <= k < |Line(s)| && cls(s[k])
    decreases |s| - i
  {
    if i < |Line(s)| {
      assert s[i] == Line(s)[i];
      LookAheadInLine(s, i + 1, cls);
    } else if i < |s| {
      assert s[i] == '\n';
    }
  }

  const PasswordTooShort := "La nueva contraseña debe tener al menos 8 caracteres"
  const PasswordTooWeak := "La contraseña debe contener al menos una mayúscula, una minúscula y un número"

  /** The checks on the new password, in order: at least 8 bytes, then the strength pattern. */
  function NewPasswordError(p: string): (r: Option<string>)
    ensures r == Some(PasswordTooShort) <==> |p| < 8
    ensures r == Some(PasswordTooWeak) <==> |p| >= 8 && !StrengthPattern(p)
    ensures r.None? <==> |p| >= 8 && StrengthPattern(p)
  {
    if |p| < 8 then Some(PasswordTooShort)
    else if !StrengthPattern(p) then Some(PasswordTooWeak)
    else None
  }

  /** A stored user as the password and 2FA checks see it. */
  datatype Account = Account(email: string, passwordHash: string, twoFactorEnabled: bool,
                             twoFactorEmail: Option<string>)

  /** Either the reply that ends the request, or the go-ahead. */
  datatype Guard<T> = Refuse(reply: Response) | Proceed(value: T)

  /**
   * The checks of changePassword before the password is written: both fields present,
   * the new password's rule, the user found, the current password right (`verify` is
   * password_verify), and the new one different from the stored one.
   */
  function ChangePasswordGuard(current: Option<string>, newPassword: Option<string>, user: Option<Account>,
                               verify: (string, string) -> bool): (r: Guard<string>)
    ensures r.Proceed? <==>
              && current.Some? && newPassword.Some? && NewPasswordError(newPassword.value).None? && user.Some?
              && verify(current.value, user.value.passwordHash) && !verify(newPassword.value, user.value.passwordHash)
    ensures r.Proceed? ==> r.value == newPassword.value
    ensures r.Refuse? && (current.None? || newPassword.None? || NewPasswordError(newPassword.value).Some?) ==> r.reply.code == 400
    ensures current.Some? && newPassword.Some? && NewPasswordError(newPassword.value).Some? ==>
              r == Refuse(Respond(400, NewPasswordError(newPassword.value).value, None))
  {
    if current.None? || newPassword.None? then Refuse(Respond(400, "La contraseña actual y la nueva son requeridas", None))
    else if NewPasswordError(newPassword.value).Some? then Refuse(Respond(400, NewPasswordError(newPassword.value).value, None))
    else if user.None? then Refuse(Respond(404, "Usuario no encontrado", None))
    else if !verify(current.value, user.value.passwordHash) then Refuse(Respond(401, "La contraseña actual es incorrecta", None))
    else if verify(newPassword.value, user.value.passwordHash) then Refuse(Respond(400, "La nueva contraseña debe ser diferente a la actual", None))
    else Proceed(newPassword.value)
  }

  /** A long enough password is refused without a digit, and accepted with a trailing line break. */
  lemma PasswordExamples()
    ensures NewPasswordError("Abcdefgh") == Some(PasswordTooWeak)
    ensures NewPasswordError("Abcdefg1\n").None?
    ensures NewPasswordError("Abc1\nefgh") == Some(PasswordTooWeak)
  {
    StrengthPatternMeaning("Abcdefgh");
    assert !HasClass("Abcdefgh", IsDigit);
    StrengthPatternMeaning("Abcdefg1\n");
    assert Line("Abcdefg1\n") == "Abcdefg1";
    assert IsLowerAscii("Abcdefg1"[1]) && IsUpperAscii("Abcdefg1"[0]) && IsDigit("Abcdefg1"[7]);
    StrengthPatternMeaning("Abc1\nefgh");
    assert Line("Abc1\nefgh")[4] == '\n';
  }

  // ---------------------------------------------------------------------------
  // E-mail masking and two-factor guards
  // ---------------------------------------------------------------------------

  /**
   * substr($e, 0, 3) . '****' . substr($e, strpos($e, '@')): when there is no '@',
   * strpos gives false, which substr reads as 0, so the whole address follows the stars.
   */
  function MaskEmail(e: string): (r: string)
    ensures var shown := if |e| < 3 then |e| else 3;
            && |r| >= shown + 4
            && r[..shown] == e[..shown]
            && r[shown..shown + 4] == "****"
            && (IndexOf(e, "@").Some? ==> r[shown + 4..] == e[IndexOf(e, "@").value..] && r[shown + 4] == '@')
            && (IndexOf(e, "@").None? ==> r[shown + 4..] == e)
  {
    var shown := if |e| < 3 then |e| else 3;
    var at := IndexOf(e, "@");
    var from := if at.Some? then at.value else 0;
    e[..shown] + "****" + e[from..]
  }

  /**
   * For an address whose only '@' comes after its third byte, the mask shows exactly
   * three bytes and four stars before the '@', and the domain after it unchanged: the
   * length of the local part does not show.
   */
  lemma MaskHidesLocalPart(local: string, domain: string)
    requires |local| >= 3 && '@' !in local
    ensures var r := MaskEmail(local + "@" + domain);
            r[..3] == local[..3] && IndexOf(r, "@") == Some(7) && r[8..] == domain
  {
    var e := local + "@" + domain;
    assert OccursAt(e, "@", |local|);
    forall j | 0 <= j < |local| ensures !OccursAt(e, "@", j) {
      assert e[j] == local[j];
    }
    assert IndexOf(e, "@") == Some(|local|);
    var r := MaskEmail(e);
    assert r == local[..3] + "****" + e[|local|..];
    assert e[|local|..] == "@" + domain;
    assert OccursAt(r, "@", 7);
    forall j | 0 <= j < 7 ensures !OccursAt(r, "@", j) {
      assert r[j] == (local[..3] + "****")[j];
    }
  }

  /** The address a 2FA code goes to: the dedicated one if set (`??`), else the account's. */
  function TwoFactorDestination(a: Account): (r: string)
    ensures a.twoFactorEmail.Some? ==> r == a.twoFactorEmail.value
    ensures a.twoFactorEmail.None? ==> r == a.email
  {
    a.twoFactorEmail.GetOr(a.email)
  }

  const LoginCodeSent := "Código de verificación enviado a tu email"
  const LoginCodeNotSent := "Error al enviar el código de verificación. Por favor, intenta nuevamente."

  /**
   * login's answer for an account with 2FA on, after the code was mailed to
   * TwoFactorDestination(a): 500 when the mail failed, else 200 with the temporary token
   * and the masked destination.
   */
  function LoginTwoFactorReply(a: Account, emailSent: bool, tempToken: string): (r: Response)
    ensures r.code == 200 <==> emailSent
    ensures !emailSent ==> r == Respond(500, LoginCodeNotSent, None)
    ensures emailSent ==>
              && Lookup(r.body, "requiresTwoFactor") == Some(JBool(true))
              && Lookup(r.body, "tempToken") == Some(JStr(tempToken))
              && Lookup(r.body, "emailSent") == Some(JBool(true))
              && Lookup(r.body, "email") == Some(JStr(MaskEmail(TwoFactorDestination(a))))
              && Lookup(r.body, "message") == Some(JStr(LoginCodeSent))
  {
    if !emailSent then Respond(500, LoginCodeNotSent, None)
    else
      var shown := JStr(MaskEmail(TwoFactorDestination(a)));
      var data := [("requiresTwoFactor", JBool(true)), ("tempToken", JStr(tempToken)), ("emailSent", JBool(true)),
                   ("email", shown)];
      LookupFour("requiresTwoFactor", JBool(true), "tempToken", JStr(tempToken), "emailSent", JBool(true), "email", shown);
      KeysFour(data);
      Respond(200, LoginCodeSent, Some(data))
  }

  /** With a dedicated 2FA address stored, login shows that address masked, not the account's. */
  lemma LoginShowsDedicatedAddress(a: Account, tempToken: string)
    requires a.twoFactorEmail.Some?
    ensures Lookup(LoginTwoFactorReply(a, true, tempToken).body, "email") == Some(JStr(MaskEmail(a.twoFactorEmail.value)))
  {
    assert TwoFactorDestination(a) == a.twoFactorEmail.value;
  }

  const TwoFactorAlreadyOn := "La verificación de dos pasos ya está activada"
  const TwoFactorNotOn := "La verificación de dos pasos no está activada"

  /**
   * enableTwoFactor's checks: a requested address must validate, the user must exist and
   * must not have 2FA on; the go-ahead carries the address the code will be sent to.
   */
  function EnableTwoFactorGuard(requested: Option<string>, validEmail: string -> Option<string>,
                                user: Option<Account>): (r: Guard<string>)
    ensures r.Proceed? <==>
              (requested.None? || !IsEmptyOpt(validEmail(requested.value))) && user.Some? && !user.value.twoFactorEnabled
    ensures user.Some? && user.value.twoFactorEnabled && r.Refuse? ==> r.reply.code == 400
    ensures (requested.None? || !IsEmptyOpt(validEmail(requested.value))) && user.Some? && user.value.twoFactorEnabled ==>
              r == Refuse(Respond(400, TwoFactorAlreadyOn, None))
    ensures r.Proceed? ==> r.value == (if requested.Some? then validEmail(requested.value).value else user.value.email)
  {
    if requested.Some? && IsEmptyOpt(validEmail(requested.value)) then Refuse(Respond(400, EmailInvalidError, None))
    else if user.None? then Refuse(Respond(404, "Usuario no encontrado", None))
    else if user.value.twoFactorEnabled then Refuse(Respond(400, TwoFactorAlreadyOn, None))
    else Proceed(if requested.Some? then validEmail(requested.value).value else user.value.email)
  }

  const EnableTwoFactorPrompt := "Por favor, ingresa el código enviado a tu email para activar la verificación de dos pasos"

  /** The 200 reply once the code was sent; its data's own 'message' replaces the outer one. */
  function EnableTwoFactorReply(destination: string): (r: Response)
    ensures r.code == 200
    ensures Lookup(r.body, "email") == Some(JStr(MaskEmail(destination)))
    ensures Lookup(r.body, "message") ==
              Some(JStr(EnableTwoFactorPrompt))
  {
    var prompt := JStr(EnableTwoFactorPrompt);
    var data := [("email", JStr(MaskEmail(destination))), ("message", prompt)];
    LookupPair("email", JStr(MaskEmail(destination)), "message", prompt);
    Respond(200, "Código de verificación enviado", Some(data))
  }

  /**
   * disableTwoFactor's checks, in order: the password present, the user found, the
   * password right (`verify` is password_verify), and 2FA on.
   */
  function DisableTwoFactorGuard(password: Option<string>, user: Option<Account>,
                                 verify: (string, string) -> bool): (r: Guard<()>)
    ensures r.Proceed? <==>
              password.Some? && user.Some? && verify(password.value, user.value.passwordHash) && user.value.twoFactorEnabled
    ensures password.Some? && user.Some? && verify(password.value, user.value.passwordHash) && !user.value.twoFactorEnabled ==>
              r == Refuse(Respond(400, TwoFactorNotOn, None))
    ensures password.None? ==> r.Refuse? && r.reply.code == 400
    ensures password.Some? && user.None? ==> r.Refuse? && r.reply.code == 404
  {
    if password.None? then Refuse(Respond(400, "Contraseña requerida para desactivar 2FA", None))
    else if user.None? then Refuse(Respond(404, "Usuario no encontrado", None))
    else if !verify(password.value, user.value.passwordHash) then Refuse(Respond(401, "Contraseña incorrecta", None))
    else if !user.value.twoFactorEnabled then Refuse(Respond(400, TwoFactorNotOn, None))
    else Proceed(())
  }

  /** Enabling and disabling 2FA are never both allowed for the same stored user. */
  lemma TwoFactorGuardsExclusive(requested: Option<string>, validEmail: string -> Option<string>, password: Option<string>,
                                 user: Option<Account>, verify: (string, string) -> bool)
    ensures !(EnableTwoFactorGuard(requested, validEmail, user).Proceed? && DisableTwoFactorGuard(password, user, verify).Proceed?)
  {
  }
}
