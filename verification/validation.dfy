/**
 The request checks of `server/middleware/validation.js`: the registration,
 login and product chains, and the gate `handleValidationErrors` that turns
 any collected error into a 400 answer.

 A request body field is `None` when absent. The validators read an absent
 field as the empty text, except after `optional()`, which skips a field
 that is absent (and only then). Each chain runs every validator it holds,
 so one field can contribute more than one error, and the errors come out
 in chain order. Whether a text is an email address is the validation
 library's decision and is a parameter here.
 */
module Validation {
  import opened Results
  import Text
  import Numerals
  import Seqs

  /** The body fields the chains look at. */
  datatype Field =
    | Name | Email | Password | Role
    | Description | Category | Price | Unit | MinimumOrder | AvailableQuantity

  /** One validator of a chain, with the message attached to it by `withMessage`. */
  datatype Rule =
    | NameLength | EmailFormat | PasswordLength | PasswordClasses | RoleChoice
    | PasswordRequired
    | ProductNameLength | DescriptionLength | CategoryChoice | PriceRange | UnitChoice
    | MinimumOrderRange | AvailableQuantityRange
  {
    function FieldOf(): Field
    {
      match this
      case NameLength => Name
      case EmailFormat => Email
      case PasswordLength => Password
      case PasswordClasses => Password
      case RoleChoice => Role
      case PasswordRequired => Password
      case ProductNameLength => Name
      case DescriptionLength => Description
      case CategoryChoice => Category
      case PriceRange => Price
      case UnitChoice => Unit
      case MinimumOrderRange => MinimumOrder
      case AvailableQuantityRange => AvailableQuantity
    }

    function Message(): string
    {
      match this
      case NameLength => "Name must be between 2 and 50 characters"
      case EmailFormat => "Please provide a valid email"
      case PasswordLength => "Password must be at least 6 characters long"
      case PasswordClasses => "Password must contain at least one uppercase letter, one lowercase letter, and one number"
      case RoleChoice => "Role must be either customer or wholesaler"
      case PasswordRequired => "Password is required"
      case ProductNameLength => "Product name must be between 2 and 100 characters"
      case DescriptionLength => "Description must be between 10 and 1000 characters"
      case CategoryChoice => "Invalid category"
      case PriceRange => "Price must be a positive number"
      case UnitChoice => "Invalid unit"
      case MinimumOrderRange => "Minimum order must be at least 1"
      case AvailableQuantityRange => "Available quantity must be a positive number"
    }
  }

  /** One entry of `errors.array()`: the field and the failing validator's message. */
  datatype FieldError = FieldError(field: Field, message: string)

  /** What the gate does: call the next handler, or answer 400 listing the failing validators. */
  datatype Gate = Proceed | Rejected(status: int, failed: seq<Rule>)
  {
    /** The body of the 400 answer, one entry per failing validator, in chain order. */
    function Errors(): (errors: seq<FieldError>)
      ensures Rejected? ==> |errors| == |failed|
      ensures Rejected? ==> forall i :: 0 <= i < |failed| ==> errors[i] == FieldError(failed[i].FieldOf(), failed[i].Message())
    {
      if Proceed? then [] else seq(|failed|, i requires 0 <= i < |failed| => FieldError(failed[i].FieldOf(), failed[i].Message()))
    }
  }

  /** What a validator sees of a possibly absent field. */
  function Value(f: Option<string>): string
  {
    if f.None? then "" else f.value
  }

  /**
   `handleValidationErrors`: with no failing validator the next handler
   runs; otherwise the request is answered with 400 and every failure.
   */
  function HandleValidationErrors(failed: seq<Rule>): (g: Gate)
    ensures g == Proceed <==> |failed| == 0
    ensures g.Rejected? ==> g.status == 400 && g.failed == failed
    ensures g.Rejected? ==> |g.Errors()| == |failed|
    ensures g.Rejected? ==> forall i :: 0 <= i < |failed| ==> g.Errors()[i].message == failed[i].Message()
  {
    if |failed| == 0 then Proceed else Rejected(400, failed)
  }

  /**
   Where a validator stands in the declarations of
   `server/middleware/validation.js`; each chain lists its validators in
   this order.
   */
  function Rank(rule: Rule): int
  {
    match rule
    case NameLength => 0
    case EmailFormat => 1
    case PasswordLength => 2
    case PasswordClasses => 3
    case RoleChoice => 4
    case PasswordRequired => 5
    case ProductNameLength => 6
    case DescriptionLength => 7
    case CategoryChoice => 8
    case PriceRange => 9
    case UnitChoice => 10
    case MinimumOrderRange => 11
    case AvailableQuantityRange => 12
  }

  /**
   The failing validators of a chain, in chain order: a chain listed by rank
   gives a failure list rising strictly in rank, so each failure appears once.
   */
  function Failing(chain: seq<Rule>, fails: Rule -> bool): (failed: seq<Rule>)
    ensures forall rule :: rule in failed <==> rule in chain && fails(rule)
    ensures Seqs.Increasing(chain, Rank) ==> Seqs.Increasing(failed, Rank)
  {
    var failed := Seqs.Filter(chain, fails);
    assert forall rule :: rule in failed <==> rule in chain && fails(rule) by {
      forall rule {
        Seqs.FilterMember(chain, fails, rule);
      }
    }
    FilterKeepsRank(chain, fails);
    failed
  }

  lemma FilterKeepsRank(chain: seq<Rule>, fails: Rule -> bool)
    ensures Seqs.Increasing(chain, Rank) ==> Seqs.Increasing(Seqs.Filter(chain, fails), Rank)
  {
    if Seqs.Increasing(chain, Rank) {
      Seqs.FilterIncreasing(chain, fails, Rank);
    }
  }

  /** Each chain lists its validators in rank order. */
  lemma RegistrationChainRanked()
    ensures Seqs.Increasing(RegistrationChain, Rank)
  {
    forall i | 0 <= i < |RegistrationChain|
      ensures Rank(RegistrationChain[i]) == i
    {
    }
  }

  lemma LoginChainRanked()
    ensures Seqs.Increasing(LoginChain, Rank)
  {
  }

  lemma ProductChainRanked()
    ensures Seqs.Increasing(ProductChain, Rank)
  {
    forall i | 0 <= i < |ProductChain|
      ensures Rank(ProductChain[i]) == i + 6
    {
    }
  }

  /** A chain passes exactly when none of its validators fails. */
  lemma GateDecides(chain: seq<Rule>, fails: Rule -> bool, failed: seq<Rule>)
    requires forall rule :: rule in failed <==> rule in chain && fails(rule)
    ensures |failed| == 0 <==> forall rule :: rule in chain ==> !fails(rule)
  {
    if |failed| > 0 {
      assert failed[0] in failed;
    }
  }

  /** A failing validator of the chain makes the gate answer 400 and is listed in the answer. */
  lemma RejectedListsFailure(chain: seq<Rule>, fails: Rule -> bool, rule: Rule)
    requires rule in chain && fails(rule)
    ensures HandleValidationErrors(Failing(chain, fails)).Rejected?
    ensures rule in HandleValidationErrors(Failing(chain, fails)).failed
  {
  }

  // ---------------------------------------------------------------------
  // Registration

  datatype Registration = Registration(
    name: Option<string>, email: Option<string>, password: Option<string>, role: Option<string>)

  /** `trim()` then `isLength({ min: 2, max: 50 })`. */
  predicate NameOk(name: Option<string>)
  {
    2 <= |Text.Trim(Value(name))| <= 50
  }

  /** `isLength({ min: 6 })`. */
  predicate PasswordLongEnough(password: Option<string>)
  {
    |Value(password)| >= 6
  }

  /**
   The line the lookaheads of `/^(?=.*[a-z])(?=.*[A-Z])(?=.*\d)/` can see:
   each `.*` starts at the beginning and stops at the first line terminator.
   */
  function FirstLine(s: string): (t: string)
    ensures |t| <= |s| && t == s[..|t|]
    ensures forall i :: 0 <= i < |t| ==> !Text.IsLineTerminator(t[i])
    ensures |t| < |s| ==> Text.IsLineTerminator(s[|t|])
  {
    if |s| == 0 || Text.IsLineTerminator(s[0]) then ""
    else [s[0]] + FirstLine(s[1..])
  }

  /** Some character of `t` is in the class. */
  ghost predicate Occurs(t: string, cls: char -> bool)
  {
    exists i :: 0 <= i < |t| && cls(t[i])
  }

  /** The password rule as the regular expression states it: each class occurs before the first line break. */
  ghost predicate HasClasses(s: string)
  {
    var t := FirstLine(s);
    Occurs(t, Text.IsLower) && Occurs(t, Text.IsUpper) && Occurs(t, Text.IsDigit)
  }

  /**
   One left-to-right pass that remembers which classes it has met and
   stops at the first line break.
   */
  function ScanClasses(s: string, lower: bool, upper: bool, digit: bool): bool
  {
    if |s| == 0 || Text.IsLineTerminator(s[0]) then lower && upper && digit
    else ScanClasses(s[1..], lower || Text.IsLower(s[0]), upper || Text.IsUpper(s[0]), digit || Text.IsDigit(s[0]))
  }

  /** A class occurs in a line exactly when it is its first character's or occurs in the rest. */
  lemma OccursCons(c: char, u: string, cls: char -> bool)
    ensures Occurs([c] + u, cls) <==> cls(c) || Occurs(u, cls)
  {
    var t := [c] + u;
    if Occurs(t, cls) {
      var i :| 0 <= i < |t| && cls(t[i]);
      if i > 0 {
        assert t[i] == u[i - 1];
      }
    }
    if cls(c) {
      assert t[0] == c;
    } else if Occurs(u, cls) {
      var i :| 0 <= i < |u| && cls(u[i]);
      assert t[i + 1] == u[i];
    }
  }

  /** The pass decides the rule: it answers yes exactly when every class occurs before the first line break. */
  lemma {:induction false} ScanClassesDecides(s: string, lower: bool, upper: bool, digit: bool)
    ensures ScanClasses(s, lower, upper, digit) <==>
              && (lower || Occurs(FirstLine(s), Text.IsLower))
              && (upper || Occurs(FirstLine(s), Text.IsUpper))
              && (digit || Occurs(FirstLine(s), Text.IsDigit))
  {
    if |s| > 0 && !Text.IsLineTerminator(s[0]) {
      var u := FirstLine(s[1..]);
      assert FirstLine(s) == [s[0]] + u;
      ScanClassesDecides(s[1..], lower || Text.IsLower(s[0]), upper || Text.IsUpper(s[0]), digit || Text.IsDigit(s[0]));
      OccursCons(s[0], u, Text.IsLower);
      OccursCons(s[0], u, Text.IsUpper);
      OccursCons(s[0], u, Text.IsDigit);
    }
  }

  /** `matches(/^(?=.*[a-z])(?=.*[A-Z])(?=.*\d)/)` on the field's text. */
  function PasswordHasClasses(password: Option<string>): (ok: bool)
    ensures ok <==> HasClasses(Value(password))
  {
    ScanClassesDecides(Value(password), false, false, false);
    ScanClasses(Value(password), false, false, false)
  }

  /** `optional().isIn(['customer', 'wholesaler'])`: an absent role passes, a present one must be one of the two. */
  predicate RoleOk(role: Option<string>)
  {
    role.None? || role.value == "customer" || role.value == "wholesaler"
  }

  const RegistrationChain: seq<Rule> := [NameLength, EmailFormat, PasswordLength, PasswordClasses, RoleChoice]

  /** Whether a validator of the registration chain refuses the form. */
  predicate RegistrationFails(r: Registration, isEmail: string -> bool, rule: Rule)
  {
    match rule
    case NameLength => !NameOk(r.name)
    case EmailFormat => !isEmail(Value(r.email))
    case PasswordLength => !PasswordLongEnough(r.password)
    case PasswordClasses => !PasswordHasClasses(r.password)
    case RoleChoice => !RoleOk(r.role)
    case _ => false
  }

  function RegistrationFailsOn(r: Registration, isEmail: string -> bool): Rule -> bool
  {
    rule => RegistrationFails(r, isEmail, rule)
  }

  /** `validateUserRegistration` followed by the gate. */
  function ValidateRegistration(r: Registration, isEmail: string -> bool): (g: Gate)
    ensures g == Proceed <==>
              && NameOk(r.name) && isEmail(Value(r.email))
              && PasswordLongEnough(r.password) && HasClasses(Value(r.password))
              && RoleOk(r.role)
    ensures g.Rejected? ==> g.status == 400
    ensures g.Rejected? ==> forall rule :: rule in g.failed <==> rule in RegistrationChain && RegistrationFails(r, isEmail, rule)
    ensures g.Rejected? ==> Seqs.Increasing(g.failed, Rank)
  {
    RegistrationChainRanked();
    var failed := Failing(RegistrationChain, RegistrationFailsOn(r, isEmail));
    RegistrationPassesExactly(r, isEmail);
    HandleValidationErrors(failed)
  }

  /** The registration chain has no failure exactly when the five field conditions hold. */
  lemma RegistrationPassesExactly(r: Registration, isEmail: string -> bool)
    ensures |Failing(RegistrationChain, RegistrationFailsOn(r, isEmail))| == 0 <==>
              && NameOk(r.name) && isEmail(Value(r.email))
              && PasswordLongEnough(r.password) && HasClasses(Value(r.password))
              && RoleOk(r.role)
  {
    var failed := Failing(RegistrationChain, RegistrationFailsOn(r, isEmail));
    GateDecides(RegistrationChain, RegistrationFailsOn(r, isEmail), failed);
    RegistrationChainPasses(RegistrationFailsOn(r, isEmail));
    RegistrationRules(r, isEmail);
  }

  /** No validator of the registration chain fails exactly when each of the five passes. */
  lemma RegistrationChainPasses(fails: Rule -> bool)
    ensures (forall rule :: rule in RegistrationChain ==> !fails(rule)) <==>
              !fails(NameLength) && !fails(EmailFormat) && !fails(PasswordLength) && !fails(PasswordClasses) && !fails(RoleChoice)
  {
    assert RegistrationChain[0] == NameLength && RegistrationChain[1] == EmailFormat;
    assert RegistrationChain[2] == PasswordLength && RegistrationChain[3] == PasswordClasses;
    assert RegistrationChain[4] == RoleChoice;
  }

  /** What each validator of the registration chain asks of its field. */
  lemma RegistrationRules(r: Registration, isEmail: string -> bool)
    ensures !RegistrationFails(r, isEmail, NameLength) <==> NameOk(r.name)
    ensures !RegistrationFails(r, isEmail, EmailFormat) <==> isEmail(Value(r.email))
    ensures !RegistrationFails(r, isEmail, PasswordLength) <==> PasswordLongEnough(r.password)
    ensures !RegistrationFails(r, isEmail, PasswordClasses) <==> HasClasses(Value(r.password))
    ensures !RegistrationFails(r, isEmail, RoleChoice) <==> RoleOk(r.role)
  {
  }

  /** A self-chosen admin role is refused at registration, whatever else the form holds. */
  lemma AdminRoleRefused(r: Registration, isEmail: string -> bool)
    requires r.role == Some("admin")
    ensures ValidateRegistration(r, isEmail).Rejected?
    ensures RoleChoice in ValidateRegistration(r, isEmail).failed
  {
    assert !RoleOk(r.role) by {
      assert r.role.value[0] == 'a';
    }
    RoleRule(r, isEmail);
    RejectedListsFailure(RegistrationChain, RegistrationFailsOn(r, isEmail), RoleChoice);
  }

  lemma RoleRule(r: Registration, isEmail: string -> bool)
    ensures RegistrationFailsOn(r, isEmail)(RoleChoice) <==> !RoleOk(r.role)
  {
  }

  /** A short password without the three classes is reported twice, once per rule. */
  lemma ShortWeakPasswordTwoErrors(r: Registration, isEmail: string -> bool)
    requires r.password == Some("abc")
    ensures ValidateRegistration(r, isEmail).Rejected?
    ensures PasswordLength in ValidateRegistration(r, isEmail).failed
    ensures PasswordClasses in ValidateRegistration(r, isEmail).failed
  {
    RegistrationRules(r, isEmail);
    NoUpperInAbc();
    assert RegistrationChain[2] == PasswordLength && RegistrationChain[3] == PasswordClasses;
  }

  lemma NoUpperInAbc()
    ensures !HasClasses("abc")
  {
    FirstLineEndsAtBreak("abc", "");
    assert !Text.IsUpper('a') && !Text.IsUpper('b') && !Text.IsUpper('c');
  }

  /** The first line of a text is the part before its first line terminator. */
  lemma FirstLineEndsAtBreak(line: string, rest: string)
    requires forall i :: 0 <= i < |line| ==> !Text.IsLineTerminator(line[i])
    requires |rest| == 0 || Text.IsLineTerminator(rest[0])
    ensures FirstLine(line + rest) == line
  {
    assert (line + rest)[..|line|] == line;
  }

  /** A character class that only appears after a line break does not count. */
  lemma ClassAfterLineBreakIgnored()
    ensures !HasClasses("abcdef\nA1")
    ensures HasClasses("abcA1f\n")
  {
    BreakHidesClasses();
    ClassesBeforeBreak();
  }

  lemma BreakHidesClasses()
    ensures !HasClasses("abcdef\nA1")
  {
    assert "abcdef\nA1" == "abcdef" + "\nA1";
    FirstLineEndsAtBreak("abcdef", "\nA1");
    var t := "abcdef";
    assert forall i :: 0 <= i < |t| ==> !Text.IsUpper(t[i]);
  }

  lemma ClassesBeforeBreak()
    ensures HasClasses("abcA1f\n")
  {
    assert "abcA1f\n" == "abcA1f" + "\n";
    FirstLineEndsAtBreak("abcA1f", "\n");
    var t := "abcA1f";
    assert Text.IsLower(t[0]) && Text.IsUpper(t[3]) && Text.IsDigit(t[4]);
  }

  // ---------------------------------------------------------------------
  // Login

  datatype Login = Login(email: Option<string>, password: Option<string>)

  const LoginChain: seq<Rule> := [EmailFormat, PasswordRequired]

  /** Whether a validator of the login chain refuses the form; `notEmpty` refuses only the empty text. */
  predicate LoginFails(l: Login, isEmail: string -> bool, rule: Rule)
  {
    match rule
    case EmailFormat => !isEmail(Value(l.email))
    case PasswordRequired => Value(l.password) == ""
    case _ => false
  }

  function LoginFailsOn(l: Login, isEmail: string -> bool): Rule -> bool
  {
    rule => LoginFails(l, isEmail, rule)
  }

  /** `validateUserLogin` followed by the gate: no length or class rule applies to a login password. */
  function ValidateLogin(l: Login, isEmail: string -> bool): (g: Gate)
    ensures g == Proceed <==> isEmail(Value(l.email)) && Value(l.password) != ""
    ensures g.Rejected? ==> g.status == 400
    ensures g.Rejected? ==> forall rule :: rule in g.failed <==> rule in LoginChain && LoginFails(l, isEmail, rule)
    ensures g.Rejected? ==> Seqs.Increasing(g.failed, Rank)
  {
    LoginChainRanked();
    var failed := Failing(LoginChain, LoginFailsOn(l, isEmail));
    GateDecides(LoginChain, LoginFailsOn(l, isEmail), failed);
    assert LoginChain[0] == EmailFormat && LoginChain[1] == PasswordRequired;
    HandleValidationErrors(failed)
  }

  /** A password that registration would refuse still gets through the login checks. */
  lemma LoginSkipsComplexity(email: string, isEmail: string -> bool)
    requires isEmail(email)
    ensures ValidateLogin(Login(Some(email), Some("a")), isEmail) == Proceed
  {
  }

  // ---------------------------------------------------------------------
  // Products

  datatype ProductForm = ProductForm(
    name: Option<string>, description: Option<string>, category: Option<string>, price: Option<string>,
    unit: Option<string>, minimumOrder: Option<string>, availableQuantity: Option<string>)

  /** The eight categories the product chain allows. */
  predicate IsCategory(c: string)
  {
    c in {"grains", "vegetables", "fruits", "legumes", "spices", "dairy", "meat", "other"}
  }

  /** The six units the product chain allows. */
  predicate IsUnit(u: string)
  {
    u in {"kg", "quintal", "ton", "piece", "liter", "dozen"}
  }

  const ProductChain: seq<Rule> :=
    [ProductNameLength, DescriptionLength, CategoryChoice, PriceRange, UnitChoice, MinimumOrderRange, AvailableQuantityRange]

  /** Whether a validator of the product chain refuses the form. */
  predicate ProductFails(p: ProductForm, rule: Rule)
  {
    match rule
    case ProductNameLength => !(2 <= |Text.Trim(Value(p.name))| <= 100)
    case DescriptionLength => !(10 <= |Text.Trim(Value(p.description))| <= 1000)
    case CategoryChoice => !IsCategory(Value(p.category))
    case PriceRange => !Numerals.IsFloatAtLeastZero(Value(p.price))
    case UnitChoice => !IsUnit(Value(p.unit))
    case MinimumOrderRange => !Numerals.IsIntAtLeast(Value(p.minimumOrder), 1)
    case AvailableQuantityRange => !Numerals.IsFloatAtLeastZero(Value(p.availableQuantity))
    case _ => false
  }

  function ProductFailsOn(p: ProductForm): Rule -> bool
  {
    rule => ProductFails(p, rule)
  }

  /** `validateProduct` followed by the gate: the handler runs exactly when no validator of the chain refuses. */
  function ValidateProduct(p: ProductForm): (g: Gate)
    ensures g == Proceed <==> forall rule :: rule in ProductChain ==> !ProductFails(p, rule)
    ensures g.Rejected? ==> g.status == 400
    ensures g.Rejected? ==> forall rule :: rule in g.failed <==> rule in ProductChain && ProductFails(p, rule)
    ensures g.Rejected? ==> Seqs.Increasing(g.failed, Rank)
  {
    ProductChainRanked();
    var failed := Failing(ProductChain, ProductFailsOn(p));
    GateDecides(ProductChain, ProductFailsOn(p), failed);
    HandleValidationErrors(failed)
  }

  /** The product chain spelled out: the form passes exactly when every field meets its bound. */
  lemma ProductAccepted(p: ProductForm)
    ensures ValidateProduct(p) == Proceed <==>
              && 2 <= |Text.Trim(Value(p.name))| <= 100
              && 10 <= |Text.Trim(Value(p.description))| <= 1000
              && IsCategory(Value(p.category))
              && Numerals.IsFloatAtLeastZero(Value(p.price))
              && IsUnit(Value(p.unit))
              && Numerals.IsIntAtLeast(Value(p.minimumOrder), 1)
              && Numerals.IsFloatAtLeastZero(Value(p.availableQuantity))
  {
    ProductChainPasses(ProductFailsOn(p));
    NameRule(p);
    DescriptionRule(p);
    CategoryRule(p);
    PriceRule(p);
    UnitRule(p);
    MinimumOrderRule(p);
    QuantityRule(p);
  }

  // What each validator of the product chain asks of its field, one rule at a time.

  lemma NameRule(p: ProductForm)
    ensures !ProductFails(p, ProductNameLength) <==> 2 <= |Text.Trim(Value(p.name))| <= 100
  {
  }

  lemma DescriptionRule(p: ProductForm)
    ensures !ProductFails(p, DescriptionLength) <==> 10 <= |Text.Trim(Value(p.description))| <= 1000
  {
  }

  lemma CategoryRule(p: ProductForm)
    ensures !ProductFails(p, CategoryChoice) <==> IsCategory(Value(p.category))
  {
  }

  lemma PriceRule(p: ProductForm)
    ensures !ProductFails(p, PriceRange) <==> Numerals.IsFloatAtLeastZero(Value(p.price))
  {
  }

  lemma UnitRule(p: ProductForm)
    ensures !ProductFails(p, UnitChoice) <==> IsUnit(Value(p.unit))
  {
  }

  lemma MinimumOrderRule(p: ProductForm)
    ensures !ProductFails(p, MinimumOrderRange) <==> Numerals.IsIntAtLeast(Value(p.minimumOrder), 1)
  {
  }

  lemma QuantityRule(p: ProductForm)
    ensures !ProductFails(p, AvailableQuantityRange) <==> Numerals.IsFloatAtLeastZero(Value(p.availableQuantity))
  {
  }

  /** No validator of the product chain fails exactly when each of the seven passes. */
  lemma ProductChainPasses(fails: Rule -> bool)
    ensures (forall rule :: rule in ProductChain ==> !fails(rule)) <==>
              && !fails(ProductNameLength) && !fails(DescriptionLength) && !fails(CategoryChoice) && !fails(PriceRange)
              && !fails(UnitChoice) && !fails(MinimumOrderRange) && !fails(AvailableQuantityRange)
  {
    assert ProductChain[0] == ProductNameLength && ProductChain[1] == DescriptionLength && ProductChain[2] == CategoryChoice;
    assert ProductChain[3] == PriceRange && ProductChain[4] == UnitChoice && ProductChain[5] == MinimumOrderRange;
    assert ProductChain[6] == AvailableQuantityRange;
  }

  /** A product form that passes has a price and quantity that cast to numbers at least zero, and a minimum of at least one. */
  lemma AcceptedProductNumbers(p: ProductForm)
    requires ValidateProduct(p) == Proceed
    ensures Numerals.FloatValue(Value(p.price)) >= 0.0
    ensures Numerals.FloatValue(Value(p.availableQuantity)) >= 0.0
    ensures Numerals.IsIntText(Value(p.minimumOrder)) && Numerals.IntValue(Value(p.minimumOrder)) >= 1
  {
    ProductAccepted(p);
    Numerals.AcceptedFloatNotNegative(Value(p.price));
    Numerals.AcceptedFloatNotNegative(Value(p.availableQuantity));
  }
}
