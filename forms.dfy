/**
  The declarative input validation of the blog's forms.

  Each form field carries a chain of validators, run in order as the form
  library runs them: a failing `DataRequired` clears the field's errors,
  records itself and stops the chain; any other failing validator records
  itself and the chain goes on. A form is valid when no field has errors.
  The `Email` validator belongs to an external library; its verdict is the
  parameter `isEmail`.
 */
module Forms {

  /** Characters that Python's `str.strip()` removes (Unicode whitespace). */
  predicate IsSpace(c: char) {
    || ('\t' <= c <= '\r')
    || ('\U{1C}' <= c <= ' ')
    || c == '\U{85}' || c == '\U{A0}' || c == '\U{1680}'
    || ('\U{2000}' <= c <= '\U{200A}')
    || c == '\U{2028}' || c == '\U{2029}' || c == '\U{202F}' || c == '\U{205F}' || c == '\U{3000}'
  }

  /** Empty, or whitespace only: what `DataRequired` rejects. */
  predicate IsBlank(s: string) {
    forall i :: 0 <= i < |s| ==> IsSpace(s[i])
  }

  /** The validators the forms use. `Length` with `max == -1` has no upper bound;
      `EqualTo` compares with the field it names, whose data is passed as `partner`. */
  datatype Validator = DataRequired | Length(min: int, max: int) | EqualTo | Email

  predicate Passes(v: Validator, data: string, partner: string, isEmail: string -> bool) {
    match v
    case DataRequired => !IsBlank(data)
    case Length(lo, hi) => lo <= |data| && (hi == -1 || |data| <= hi)
    case EqualTo => data == partner
    case Email => isEmail(data)
  }

  /** Runs `chain` on one field's data, starting from the errors `errors`. */
  function RunChain(chain: seq<Validator>, data: string, partner: string, isEmail: string -> bool,
                    errors: seq<Validator>): (r: seq<Validator>)
    ensures forall v :: v in r ==> v in errors || (v in chain && !Passes(v, data, partner, isEmail))
    decreases |chain|
  {
    if chain == [] then errors
    else if Passes(chain[0], data, partner, isEmail) then RunChain(chain[1..], data, partner, isEmail, errors)
    else if chain[0] == DataRequired then [DataRequired]
    else RunChain(chain[1..], data, partner, isEmail, errors + [chain[0]])
  }

  function FieldErrors(chain: seq<Validator>, data: string, partner: string, isEmail: string -> bool): seq<Validator> {
    RunChain(chain, data, partner, isEmail, [])
  }

  /** A field has no errors exactly when every validator of its chain passes. */
  lemma {:induction false} RunChainEmpty(chain: seq<Validator>, data: string, partner: string,
                                          isEmail: string -> bool, errors: seq<Validator>)
    ensures RunChain(chain, data, partner, isEmail, errors) == []
        <==> errors == [] && forall k :: 0 <= k < |chain| ==> Passes(chain[k], data, partner, isEmail)
    decreases |chain|
  {
    if chain != [] {
      if Passes(chain[0], data, partner, isEmail) {
        RunChainEmpty(chain[1..], data, partner, isEmail, errors);
        if errors == [] && forall k :: 0 <= k < |chain[1..]| ==> Passes(chain[1..][k], data, partner, isEmail) {
          forall k | 0 <= k < |chain| ensures Passes(chain[k], data, partner, isEmail) {
            if k > 0 { assert chain[k] == chain[1..][k - 1]; }
          }
        }
      } else if chain[0] != DataRequired {
        RunChainEmpty(chain[1..], data, partner, isEmail, errors + [chain[0]]);
      }
    }
  }

  lemma FieldValidIff(chain: seq<Validator>, data: string, partner: string, isEmail: string -> bool)
    ensures FieldErrors(chain, data, partner, isEmail) == []
        <==> forall k :: 0 <= k < |chain| ==> Passes(chain[k], data, partner, isEmail)
  {
    RunChainEmpty(chain, data, partner, isEmail, []);
  }

  /** Validator chains of the registration form. */
  const UsernameChain: seq<Validator> := [DataRequired, Length(4, 20)]
  const EmailChain: seq<Validator> := [DataRequired, Email]
  const PasswordChain: seq<Validator> := [DataRequired, Length(6, -1)]
  const ConfirmChain: seq<Validator> := [DataRequired, EqualTo]
  /** Validator chain of the login form's password and of both post form fields. */
  const RequiredChain: seq<Validator> := [DataRequired]

  datatype RegistrationForm = RegistrationForm(username: string, email: string, password: string, confirmPassword: string)
  datatype LoginForm = LoginForm(email: string, password: string)
  datatype PostForm = PostForm(title: string, content: string)

  predicate RegistrationValid(f: RegistrationForm, isEmail: string -> bool) {
    && FieldErrors(UsernameChain, f.username, "", isEmail) == []
    && FieldErrors(EmailChain, f.email, "", isEmail) == []
    && FieldErrors(PasswordChain, f.password, "", isEmail) == []
    && FieldErrors(ConfirmChain, f.confirmPassword, f.password, isEmail) == []
  }

  predicate LoginValid(f: LoginForm, isEmail: string -> bool) {
    && FieldErrors(EmailChain, f.email, "", isEmail) == []
    && FieldErrors(RequiredChain, f.password, "", isEmail) == []
  }

  /** The post form has no `Email` validator, so no email verdict is consulted. */
  predicate PostFormValid(f: PostForm) {
    && FieldErrors(RequiredChain, f.title, "", _ => false) == []
    && FieldErrors(RequiredChain, f.content, "", _ => false) == []
  }

  /** Registration is accepted exactly when the username is non-blank and 4 to 20
      characters long, the email is non-blank and well formed, the password is
      non-blank and at least 6 characters long, and the confirmation repeats it. */
  lemma RegistrationRules(f: RegistrationForm, isEmail: string -> bool)
    ensures RegistrationValid(f, isEmail)
        <==> && !IsBlank(f.username) && 4 <= |f.username| <= 20
             && !IsBlank(f.email) && isEmail(f.email)
             && !IsBlank(f.password) && 6 <= |f.password|
             && f.confirmPassword == f.password
  {
    FieldValidIff(UsernameChain, f.username, "", isEmail);
    FieldValidIff(EmailChain, f.email, "", isEmail);
    FieldValidIff(PasswordChain, f.password, "", isEmail);
    FieldValidIff(ConfirmChain, f.confirmPassword, f.password, isEmail);
  }

  /** Login needs a non-blank, well-formed email and a non-blank password. */
  lemma LoginRules(f: LoginForm, isEmail: string -> bool)
    ensures LoginValid(f, isEmail) <==> !IsBlank(f.email) && isEmail(f.email) && !IsBlank(f.password)
  {
    FieldValidIff(EmailChain, f.email, "", isEmail);
    FieldValidIff(RequiredChain, f.password, "", isEmail);
  }

  /** Creating or editing through the post form needs a non-blank title and non-blank content. */
  lemma PostFormRules(f: PostForm)
    ensures PostFormValid(f) <==> !IsBlank(f.title) && !IsBlank(f.content)
  {
    FieldValidIff(RequiredChain, f.title, "", _ => false);
    FieldValidIff(RequiredChain, f.content, "", _ => false);
  }

  /** The credentials a registration accepted also pass the login form. */
  lemma {:induction false} RegisteredCredentialsPassLogin(f: RegistrationForm, isEmail: string -> bool)
    requires RegistrationValid(f, isEmail)
    ensures LoginValid(LoginForm(f.email, f.password), isEmail)
  {
    RegistrationRules(f, isEmail);
    LoginRules(LoginForm(f.email, f.password), isEmail);
  }

  /** A failing `DataRequired` hides every other error of its field. */
  lemma BlankFieldReportsOnlyRequired(chain: seq<Validator>, data: string, partner: string, isEmail: string -> bool)
    requires |chain| > 0 && chain[0] == DataRequired && IsBlank(data)
    ensures FieldErrors(chain, data, partner, isEmail) == [DataRequired]
  {
  }
}
