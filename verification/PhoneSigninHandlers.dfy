/**
  The handlers of phone sign-in as they are written, with all their early exits.  Configuration,
  database and network answers are whatever they may be; what is proved is what happens to locks, codes
  and accounts on every path, and whose account a login ends in.
 */
module PhoneSigninHandlers {
  import opened PhoneOwners
  import opened PhoneSignin
  import opened UserLookup
  import opened Wrappers

  datatype SignupItem = SignupItem(name: string, required: bool, rule: string)

  datatype Application = Application(
    organization: string, enablePhoneSigninSignup: bool, enableSignUp: bool, disableSignin: bool,
    codeSigninViaSms: bool, signupItems: seq<SignupItem>, phoneCodeRequired: bool)

  datatype AuthForm = AuthForm(
    formType: string, application: string, organization: string, username: string, password: string, signinMethod: string,
    countryCode: string, phone: string, agreement: bool, phoneSigninSignup: bool)

  /** The answer of a database lookup. */
  datatype Fetch<+T> = Failed | Missing | Found(value: T)

  /** A code that was consumed: for which organization, and to which number it had been sent. */
  datatype Code = Code(organization: string, phone: Number)

  predicate IsAgreementItem(item: SignupItem) {
    item.name == "Agreement" && item.required && item.rule != "" && item.rule != "None"
  }

  predicate NeedsAgreement(app: Application) {
    app.enableSignUp || exists item :: item in app.signupItems && IsAgreementItem(item)
  }

  method PhoneSigninNeedsAgreement(app: Application) returns (needed: bool)
    ensures needed <==> NeedsAgreement(app)
    ensures needed <==> app.enableSignUp || exists item :: item in app.signupItems && item.name == "Agreement" && item.required
                                                           && item.rule != "" && item.rule != "None"
  {
    if app.enableSignUp {
      return true;
    }
    for i := 0 to |app.signupItems|
      invariant forall j | 0 <= j < i :: !IsAgreementItem(app.signupItems[j])
    {
      var item := app.signupItems[i];
      if item.name == "Agreement" && item.required && item.rule != "" && item.rule != "None" {
        assert IsAgreementItem(item);
        return true;
      }
    }
    needed := false;
  }

  /** Whether the application takes part in phone sign-in for the organization of the form. */
  predicate TakesPart(app: Application, input: AuthForm) {
    && app.enablePhoneSigninSignup && !app.disableSignin && app.codeSigninViaSms
    && app.organization != "built-in" && app.organization == input.organization
  }

  /** The application takes part, and whoever may be signed up has agreed where agreement is needed. */
  predicate IsValid(app: Application, input: AuthForm) {
    TakesPart(app, input) && (input.phoneSigninSignup && NeedsAgreement(app) ==> input.agreement)
  }

  method ValidatePhoneSignin(app: Application, input: AuthForm) returns (valid: bool)
    ensures valid <==> IsValid(app, input)
    ensures valid <==>
            && app.enablePhoneSigninSignup && !app.disableSignin && app.codeSigninViaSms
            && app.organization != "built-in" && app.organization == input.organization
            && (input.phoneSigninSignup && !input.agreement ==>
                  && !app.enableSignUp
                  && forall item | item in app.signupItems && item.name == "Agreement" && item.required && item.rule != "" ::
                       item.rule == "None")
  {
    if !app.enablePhoneSigninSignup || app.disableSignin || !app.codeSigninViaSms || app.organization == "built-in"
       || app.organization != input.organization {
      return false;
    }
    var needed := PhoneSigninNeedsAgreement(app);
    if input.phoneSigninSignup && needed && !input.agreement {
      return false;
    }
    valid := true;
  }

  class Controller {
    const numbers: Numbers
    /** What the database answers for the application of the form. */
    const application: Fetch<Application>
    /** The locked numbers, and how often this request has locked and unlocked. */
    var held: set<Number>
    var locked: nat
    var unlocked: nat
    var accounts: seq<Account>
    var consumed: seq<Code>

    constructor (numbers: Numbers, application: Fetch<Application>)
      ensures this.numbers == numbers && this.application == application
      ensures held == {} && locked == 0 && unlocked == 0 && accounts == [] && consumed == []
    {
      this.numbers, this.application := numbers, application;
      held, locked, unlocked, accounts, consumed := {}, 0, 0, [], [];
    }

    /** A check that rests on data not modelled here. */
    method Passes() returns (ok: bool)
    {
      ok := *;
    }

    /** Tries the lock; fails if someone holds it, or if the database does. */
    method LockPhoneAuthentication(phone: Number) returns (ok: bool)
      modifies this`held, this`locked
      ensures ok ==> phone !in old(held) && held == old(held) + {phone} && locked == old(locked) + 1
      ensures !ok ==> held == old(held) && locked == old(locked)
    {
      ok := Passes();
      if phone in held {
        ok := false;
      }
      if ok {
        held := held + {phone};
        locked := locked + 1;
      }
    }

    method Unlock(phone: Number)
      requires phone in held
      modifies this`held, this`unlocked
      ensures held == old(held) - {phone} && unlocked == old(unlocked) + 1
    {
      held := held - {phone};
      unlocked := unlocked + 1;
    }

    method GetUserByPhone(owner: string, phone: Number) returns (user: Fetch<Account>)
      ensures user.Found? ==>
                user.value in accounts && user.value.owner == owner && user.value.phone == numbers.national(phone)
      ensures user.Found? ==> Registered(owner, phone)
      ensures user.Missing? ==> !Registered(owner, phone)
    {
      var ok := Passes();
      if !ok {
        return Failed;
      }
      if owner == "" {
        return Missing;
      }
      var national := numbers.national(phone);
      for i := 0 to |accounts|
        invariant forall j | 0 <= j < i :: accounts[j].owner != owner || accounts[j].phone != national
      {
        if accounts[i].owner == owner && accounts[i].phone == national {
          return Found(accounts[i]);
        }
      }
      user := Missing;
    }

    /** The look-up of the machine of `PhoneSignin`. */
    predicate Registered(owner: string, phone: Number)
      reads this`accounts
    {
      HasAccount(numbers, accounts, owner, phone)
    }

    /** The latest code that was sent to the number is consumed, or nothing happens. */
    method ConsumePhoneSigninCode(organization: string, phone: Number) returns (ok: bool)
      modifies this`consumed
      ensures consumed == if ok then old(consumed) + [Code(organization, phone)] else old(consumed)
    {
      ok := Passes();
      if ok {
        consumed := consumed + [Code(organization, phone)];
      }
    }

    /** One account was added, of the organization, phone and country of the form, with a name that was free. */
    predicate AddsOne(before: seq<Account>, form: AuthForm)
      reads this`accounts
    {
      && |accounts| == |before| + 1 && accounts[..|before|] == before
      && var a := accounts[|before|];
         && a.owner == form.organization && a.phone == form.phone && a.countryCode == form.countryCode
         && !HasName(before, a.owner, a.name)
    }

    /** At most one code was consumed. */
    predicate ConsumesOne(before: seq<Code>)
      reads this`consumed
    {
      consumed == before || (|consumed| == |before| + 1 && consumed[..|before|] == before)
    }

    /** One code was consumed, which was sent to the number of the account that was added. */
    predicate PaysForLast(organization: string, before: seq<Code>)
      reads this`accounts, this`consumed
    {
      && accounts != [] && var number := NumberOf(numbers, accounts[|accounts| - 1]);
                           number.Some? && consumed == before + [Code(organization, number.value)]
    }

    /** The application reads the phone number of a sign-up. */
    predicate ReadsPhone(form: AuthForm) {
      application.Found? && application.value.enablePhoneSigninSignup && form.phone != ""
    }

    /** The form with the number as it is read, if it is read. */
    function ReadForm(form: AuthForm): AuthForm {
      var phone := numbers.e164(form.phone, form.countryCode);
      if ReadsPhone(form) && phone.Some? then form.(phone := numbers.national(phone.value)) else form
    }

    /** The form with the default country. */
    function WithCountry(form: AuthForm): AuthForm {
      if form.countryCode == "" then form.(countryCode := "CN") else form
    }

    /** The form whose sign-up follows when nobody has the number. */
    function SignupForm(form: AuthForm, phone: Number): AuthForm {
      form.(username := phone, phone := numbers.national(phone))
    }

    /**
      Signs up.  With `unifiedPhone` the caller holds the lock; otherwise an application that reads the
      number locks it here, and unlocks it on every path.  At most one account is added.
     */
    method Signup(form: AuthForm, unifiedPhone: bool) returns (added: bool)
      modifies this
      ensures held == old(held)
      ensures 0 <= locked - old(locked) == unlocked - old(unlocked) <= if ReadsPhone(form) && !unifiedPhone then 1 else 0
      ensures if added then AddsOne(old(accounts), ReadForm(form)) else accounts == old(accounts)
      ensures added ==>
                && application.Found? && application.value.enableSignUp
                && |accounts| == |old(accounts)| + 1 && accounts[..|old(accounts)|] == old(accounts)
                && var a, number := accounts[|old(accounts)|], numbers.e164(form.phone, form.countryCode);
                   && a.owner == form.organization && a.countryCode == form.countryCode && !HasName(old(accounts), a.owner, a.name)
                   && if application.value.enablePhoneSigninSignup && form.phone != ""
                      then number.Some? && a.phone == numbers.national(number.value) else a.phone == form.phone
      ensures ConsumesOne(old(consumed))
      ensures added && ReadsPhone(form) && unifiedPhone ==> PaysForLast(form.organization, old(consumed))
      ensures added && ReadsPhone(form) ==>
                && form.organization == application.value.organization
                && numbers.e164(form.phone, form.countryCode).Some?
                && (!unifiedPhone ==>
                      numbers.e164(form.phone, form.countryCode).value !in old(held) && locked == old(locked) + 1)
    {
      added := false;
      if !application.Found? {
        return;
      }
      var authForm := form;
      var toUnlock: Option<Number> := None;
      if application.value.enablePhoneSigninSignup && authForm.phone != "" {
        if authForm.organization != application.value.organization {
          return;
        }
        var phone := numbers.e164(authForm.phone, authForm.countryCode);
        if phone == None {
          return;
        }
        authForm := authForm.(phone := numbers.national(phone.value));
        if !unifiedPhone {
          var ok := LockPhoneAuthentication(phone.value);
          if !ok {
            return;
          }
          toUnlock := phone;
        }
      }
      added := CheckAndAdd(application.value, authForm, unifiedPhone);
      if toUnlock.Some? {
        Unlock(toUnlock.value);
        assert held == old(held);
      }
    }

    /** The rest of the sign-up: checks, code consumption, and adding the account last. */
    method CheckAndAdd(application: Application, form: AuthForm, unifiedPhone: bool) returns (added: bool)
      modifies this`accounts, this`consumed
      ensures if added then AddsOne(old(accounts), form) else accounts == old(accounts)
      ensures ConsumesOne(old(consumed))
      ensures added && (unifiedPhone || (application.phoneCodeRequired && form.phone != "")) && application.enablePhoneSigninSignup ==>
                PaysForLast(application.organization, old(consumed))
      ensures added ==> application.enableSignUp
    {
      added := false;
      if !application.enableSignUp {
        return;
      }
      // organization, region, entry address, form, invitation and email checks
      var ok := Passes();
      if !ok {
        return;
      }
      if unifiedPhone || (application.phoneCodeRequired && form.phone != "") {
        var checkPhone := numbers.e164(form.phone, form.countryCode);
        if checkPhone == None {
          return;
        }
        if application.enablePhoneSigninSignup {
          ok := ConsumePhoneSigninCode(application.organization, checkPhone.value);
        } else {
          ok := Passes();
        }
        if !ok {
          return;
        }
      }
      // identifier, score and plan
      ok := Passes();
      if !ok {
        return;
      }
      var name: string, id: string, idCard: string := *, *, *;
      var affected := Passes();
      if !affected || HasName(accounts, form.organization, name) {
        return;
      }
      accounts := accounts + [Account(form.organization, name, form.phone, form.countryCode, id, idCard)];
      added := true;
    }

    /** The form asks for a phone sign-in. */
    predicate AsksForPhone(form: AuthForm) {
      form.password == "" && form.signinMethod in {"Verification code", ""} && form.username != "" && '@' !in form.username
    }

    /** The application lets phone sign-in through. */
    predicate Offered() {
      application.Found? && application.value.enablePhoneSigninSignup
    }

    /**
      Prepares a sign-in.  Either the response has been written and no lock is left behind; or the form
      is no phone sign-in, and nothing has happened; or the caller goes on with the lock of the number: an
      account has it and the number is one of that country, or nobody has it and no sign-up is asked for.
     */
    method PreparePhoneSignin(form: AuthForm) returns (handled: bool, unlock: Option<Number>, input: AuthForm)
      modifies this
      ensures handled ==> unlock == None
      ensures unlock == None ==> held == old(held) && 0 <= locked - old(locked) == unlocked - old(unlocked) <= 1
      ensures unlock.Some? ==>
                && unlock.value !in old(held) && held == old(held) + {unlock.value}
                && locked == old(locked) + 1 && unlocked == old(unlocked)
      ensures !handled ==> accounts == old(accounts) && consumed == old(consumed)
      ensures !handled && unlock == None ==>
                && input == form && locked == old(locked)
                && (!AsksForPhone(form) || (!application.Failed? && !Offered() && !form.phoneSigninSignup))
      ensures unlock.Some? ==>
                && !handled && AsksForPhone(form) && Offered() && IsValid(application.value, form) && input == WithCountry(form)
                && unlock == numbers.e164(input.username, input.countryCode) && GoesOn(input, unlock.value)
      ensures ConsumesOne(old(consumed))
      ensures accounts != old(accounts) ==>
                handled && AddedFor(form, old(accounts), old(held)) && PaysForLast(form.organization, old(consumed))
    {
      input := form;
      if input.password != "" || (input.signinMethod != "Verification code" && input.signinMethod != "")
         || input.username == "" || '@' in input.username {
        return false, None, input;
      }
      var app := application;
      if app.Failed? {
        return true, None, input;
      }
      if app.Missing? || !app.value.enablePhoneSigninSignup {
        return input.phoneSigninSignup, None, input;
      }
      var valid := ValidatePhoneSignin(app.value, input);
      if !valid {
        return true, None, input;
      }
      if input.phoneSigninSignup && input.formType == "code" {
        var matches := Passes();
        if !matches {
          return true, None, input;
        }
      }
      if input.countryCode == "" {
        input := input.(countryCode := "CN");
      }
      handled, unlock, input := LockAndGoOn(app.value, input);
    }

    /** The end of the preparation of a valid form, which locks its number. */
    method LockAndGoOn(app: Application, form: AuthForm) returns (handled: bool, unlock: Option<Number>, input: AuthForm)
      requires form.countryCode != "" && form.organization == app.organization
      requires application == Found(app) && app.enablePhoneSigninSignup
      modifies this
      ensures handled <==> unlock == None
      ensures handled ==> held == old(held) && 0 <= locked - old(locked) == unlocked - old(unlocked) <= 1
      ensures !handled ==>
                && unlock == numbers.e164(form.username, form.countryCode) && input == form && GoesOn(form, unlock.value)
                && unlock.value !in old(held) && held == old(held) + {unlock.value}
                && locked == old(locked) + 1 && unlocked == old(unlocked)
                && accounts == old(accounts) && consumed == old(consumed)
      ensures ConsumesOne(old(consumed))
      ensures accounts != old(accounts) ==>
                form.phoneSigninSignup && AddsFree(form, old(accounts), old(held)) && PaysForLast(app.organization, old(consumed))
    {
      input := form;
      var e164 := numbers.e164(input.username, input.countryCode);
      if e164 == None {
        return true, None, input;
      }
      var phone := e164.value;
      var ok := LockPhoneAuthentication(phone);
      if !ok {
        return true, None, input;
      }
      handled, unlock, input := SignUpOrGoOn(app, phone, input);
    }

    /** Nobody had the number of the form, which was free to lock, and one account was added for it. */
    predicate AddsFree(input: AuthForm, before: seq<Account>, locks: set<string>)
      reads this`accounts
    {
      var phone := numbers.e164(input.username, input.countryCode);
      && phone.Some? && phone.value !in locks && !HasAccount(numbers, before, input.organization, phone.value)
      && AddsOne(before, ReadForm(SignupForm(input, phone.value)))
      && application.Found? && application.value.enableSignUp
    }

    /** The form was valid and asked for a sign-up, and one account was added for its number. */
    predicate AddedFor(form: AuthForm, before: seq<Account>, locks: set<string>)
      reads this`accounts
    {
      && AsksForPhone(form) && Offered() && IsValid(application.value, form) && form.phoneSigninSignup
      && AddsFree(WithCountry(form), before, locks)
    }

    /** Some account has the number, and passes the check, or nobody has it and no sign-up is asked for. */
    predicate GoesOn(input: AuthForm, phone: Number)
      reads this`accounts
    {
      if Registered(input.organization, phone) then InRegion(numbers, phone, input.countryCode) else !input.phoneSigninSignup
    }

    /** The part of the preparation that runs under the lock. */
    method SignUpOrGoOn(app: Application, phone: Number, form: AuthForm)
        returns (handled: bool, unlock: Option<Number>, input: AuthForm)
      requires phone in held && form.countryCode != "" && form.organization == app.organization
      requires application == Found(app) && app.enablePhoneSigninSignup
      modifies this
      ensures handled <==> unlock == None
      ensures locked == old(locked) && ConsumesOne(old(consumed))
      ensures handled ==> held == old(held) - {phone} && unlocked == old(unlocked) + 1
      ensures !handled ==>
                && unlock == Some(phone) && held == old(held) && unlocked == old(unlocked)
                && input == form && accounts == old(accounts) && consumed == old(consumed) && GoesOn(form, phone)
      ensures accounts != old(accounts) ==>
                && form.phoneSigninSignup && app.enableSignUp && !old(Registered(app.organization, phone))
                && AddsOne(old(accounts), ReadForm(SignupForm(form, phone))) && PaysForLast(app.organization, old(consumed))
    {
      input := form;
      var user := GetUserByPhone(app.organization, phone);
      if user.Failed? {
        Unlock(phone);
        return true, None, input;
      }
      if user.Found? {
        var userPhone := numbers.e164(user.value.phone, input.countryCode);
        if userPhone != Some(phone) {
          Unlock(phone);
          return true, None, input;
        }
        return false, Some(phone), input;
      }
      if !input.phoneSigninSignup {
        return false, Some(phone), input;
      }
      if !app.enableSignUp {
        Unlock(phone);
        return true, None, input;
      }
      input := input.(username := phone);
      var generated := Passes();
      if !generated {
        Unlock(phone);
        return true, None, input;
      }
      var added := Signup(input.(phone := numbers.national(input.username)), true);
      Unlock(phone);
      return true, None, input;
    }

    /**
      A login locks at most once and unlocks as often, whatever happens in between.  A phone sign-in ends in an
      account that the look-up by what was typed in may give, and consumes a code that was sent to the number
      it has locked.
     */
    method Login(form: AuthForm) returns (signedIn: Option<Account>)
      modifies this
      ensures held == old(held)
      ensures 0 <= locked - old(locked) == unlocked - old(unlocked) <= 1
      ensures accounts != old(accounts) ==>
                signedIn == None && AddedFor(form, old(accounts), old(held)) && PaysForLast(form.organization, old(consumed))
      ensures old(consumed) <= consumed && |consumed| <= |old(consumed)| + 1
      ensures signedIn.Some? && AsksForPhone(form) && Offered() ==>
                && IsValid(application.value, form) && SignsInTo(WithCountry(form), signedIn.value, old(held), old(consumed))
      ensures signedIn.Some? && AsksForPhone(form) && Offered() && IsUnambiguous(WithCountry(form)) ==>
                NumberOf(numbers, signedIn.value) == numbers.e164(form.username, WithCountry(form).countryCode)
      // the same for a form of phone sign-in in full
      ensures signedIn.Some? && form.password == "" && (form.signinMethod == "" || form.signinMethod == "Verification code")
              && form.username != "" && '@' !in form.username && application.Found? && application.value.enablePhoneSigninSignup ==>
                var app, country := application.value, if form.countryCode == "" then "CN" else form.countryCode;
                var phone := numbers.e164(form.username, country);
                && !app.disableSignin && app.codeSigninViaSms && app.organization == form.organization != "built-in"
                && (form.phoneSigninSignup && app.enableSignUp ==> form.agreement)
                && (forall item | item in app.signupItems && item.name == "Agreement" && item.required
                                  && item.rule != "" && item.rule != "None" :: form.phoneSigninSignup ==> form.agreement)
                && phone.Some? && phone.value !in old(held) && consumed == old(consumed) + [Code(form.organization, phone.value)]
                && (if HasAccount(numbers, accounts, form.organization, phone.value)
                    then numbers.e164(numbers.national(phone.value), country) == phone else !form.phoneSigninSignup)
                && MayFind(numbers, accounts, form.organization, form.username, signedIn.value)
      ensures accounts != old(accounts) ==>
                && form.password == "" && (form.signinMethod == "" || form.signinMethod == "Verification code")
                && form.username != "" && '@' !in form.username && form.phoneSigninSignup && form.agreement
                && application.Found? && application.value.enablePhoneSigninSignup && application.value.enableSignUp
                && var country := if form.countryCode == "" then "CN" else form.countryCode;
                   var phone := numbers.e164(form.username, country);
                   && phone.Some? && phone.value !in old(held) && !HasAccount(numbers, old(accounts), form.organization, phone.value)
                   && |accounts| == |old(accounts)| + 1 && accounts[..|old(accounts)|] == old(accounts)
                   && var a := accounts[|old(accounts)|];
                      && a.owner == form.organization == application.value.organization && a.countryCode == country
                      && !HasName(old(accounts), a.owner, a.name)
                      && numbers.e164(a.phone, country).Some?
                      && consumed == old(consumed) + [Code(form.organization, numbers.e164(a.phone, country).value)]
                      && var again := numbers.e164(numbers.national(phone.value), country);
                         again.Some? && a.phone == numbers.national(again.value)
    {
      signedIn := None;
      var handled, unlock, input := PreparePhoneSignin(form);
      if !handled {
        signedIn := SignInByForm(input);
        if IsUnambiguous(input) {
          FoundOwnIffUnambiguous(numbers, accounts, input.organization, input.username,
                                 numbers.e164(input.username, input.countryCode).value);
        }
      }
      if unlock.Some? {
        Unlock(unlock.value);
        assert held == old(held);
      }
    }

    predicate SignsInTo(input: AuthForm, a: Account, locks: set<string>, before: seq<Code>)
      reads this`accounts, this`consumed
    {
      var phone := numbers.e164(input.username, input.countryCode);
      && phone.Some? && phone.value !in locks && GoesOn(input, phone.value)
      && MayFind(numbers, accounts, input.organization, input.username, a)
      && consumed == before + [Code(input.organization, phone.value)]
    }

    /** Somebody has the number, which was typed in as it is stored, and nothing else answers to that text. */
    ghost predicate IsUnambiguous(input: AuthForm)
      reads this`accounts
    {
      var phone := numbers.e164(input.username, input.countryCode);
      phone.Some? && IsClear(numbers, accounts, input.organization, input.username, phone.value)
    }

    /** The country of the form, that of the account, or that of its organization. */
    method GetCountryCode(user: Account, countryCode: string) returns (country: string)
      ensures countryCode != "" ==> country == countryCode
      ensures countryCode == "" && user.countryCode != "" ==> country == user.countryCode
    {
      if countryCode != "" {
        return countryCode;
      }
      if user.countryCode != "" {
        return user.countryCode;
      }
      country := *;
    }

    /** What a login does after it was prepared: sign-in by code, and other ways, which end in some account or none. */
    method SignInByForm(input: AuthForm) returns (signedIn: Option<Account>)
      modifies this`consumed
      ensures ConsumesOne(old(consumed))
      ensures signedIn.Some? && AsksForPhone(input) && Offered() && input.countryCode != "" ==>
                && numbers.e164(input.username, input.countryCode).Some?
                && MayFind(numbers, accounts, input.organization, input.username, signedIn.value)
                && consumed == old(consumed) +
                               [Code(application.value.organization, numbers.e164(input.username, input.countryCode).value)]
    {
      signedIn := None;
      if input.username == "" || input.signinMethod == "Face ID" || input.password != "" || '@' in input.username {
        var other: Option<Account> := *;
        return other;
      }
      var user := GetUserByFields(numbers, accounts, input.organization, input.username);
      if user == None || !application.Found? || !application.value.codeSigninViaSms {
        return;
      }
      var country := GetCountryCode(user.value, input.countryCode);
      var checkDest := numbers.e164(input.username, country);
      if checkDest == None {
        return;
      }
      var ok: bool;
      if application.value.enablePhoneSigninSignup {
        ok := ConsumePhoneSigninCode(application.value.organization, checkDest.value);
      } else {
        ok := Passes();
      }
      // second factor, and the rest of what may turn a login away
      var passed := Passes();
      if ok && passed {
        signedIn := user;
      }
    }
  }
}
