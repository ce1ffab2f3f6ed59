/**
 The product handlers of `routes/products.js`: the public listing of
 available products, and product creation by a wholesaler. Creation runs
 six request checks, answers 400 if any fails, then looks the caller up,
 refuses anyone who is not a wholesaler with 401, builds the document with
 its defaults and saves it; a save the schema refuses, or a caller whose
 account is gone, ends in 500. Request fields are the texts the checks read
 (`None` when absent); the caller's id comes from the authentication
 middleware and the account lookup's answer is a parameter.
 */
module ProductRoutes {
  import opened Results
  import Text
  import Numerals
  import Identity
  import Seqs
  import Validation
  import ProductSchema

  type StoredProduct = ProductSchema.StoredProduct

  function IsAvailable(p: StoredProduct): bool
  {
    p.available
  }

  /** `GET /`: the stored products whose `available` flag is set, in stored order. */
  function ListAvailable(store: seq<StoredProduct>): (r: seq<StoredProduct>)
    ensures forall p :: p in r <==> p in store && p.available
    ensures |r| <= |store|
  {
    var r := Seqs.Filter(store, IsAvailable);
    assert forall p :: p in r <==> p in store && p.available by {
      forall p {
        Seqs.FilterMember(store, IsAvailable, p);
      }
    }
    r
  }

  /** Adding a product extends the listing by that product exactly when it is available. */
  lemma ListingAfterAdd(store: seq<StoredProduct>, p: StoredProduct)
    ensures ListAvailable(store + [p]) == ListAvailable(store) + (if p.available then [p] else [])
  {
    Seqs.FilterAppend(store, [p], IsAvailable);
    assert [p][1..] == [];
  }

  /** The checks of the create route, each with the message it reports. */
  datatype Check = NameGiven | DescriptionGiven | PriceNumber | QuantityNumber | CategoryGiven | UnitGiven
  {
    function Message(): string
    {
      match this
      case NameGiven => "Name is required"
      case DescriptionGiven => "Description is required"
      case PriceNumber => "Price must be a positive number"
      case QuantityNumber => "Quantity must be a positive number"
      case CategoryGiven => "Valid category is required"
      case UnitGiven => "Valid unit is required"
    }
  }

  const CreateChecks: seq<Check> := [NameGiven, DescriptionGiven, PriceNumber, QuantityNumber, CategoryGiven, UnitGiven]

  /** The request body of `POST /`. */
  datatype Body = Body(
    name: Option<string>, description: Option<string>, price: Option<string>, quantity: Option<string>,
    category: Option<string>, unit: Option<string>, minimumOrder: Option<real>, images: Option<seq<string>>)

  /**
   Whether a check refuses the body: `not().isEmpty()` refuses only the
   empty text (whitespace is not empty), `isFloat({ min: 0 })` and
   `isInt({ min: 0 })` refuse what is not such a number at least 0.
   */
  predicate CheckFails(b: Body, c: Check)
  {
    match c
    case NameGiven => Validation.Value(b.name) == ""
    case DescriptionGiven => Validation.Value(b.description) == ""
    case PriceNumber => !Numerals.IsFloatAtLeastZero(Validation.Value(b.price))
    case QuantityNumber => !Numerals.IsIntAtLeast(Validation.Value(b.quantity), 0)
    case CategoryGiven => Validation.Value(b.category) == ""
    case UnitGiven => Validation.Value(b.unit) == ""
  }

  function CheckFailsOn(b: Body): Check -> bool
  {
    c => CheckFails(b, c)
  }

  /** `validationResult(req)`: the failing checks, each once, in the order they are declared. */
  function Failures(b: Body): (failed: seq<Check>)
    ensures forall c :: c in failed <==> CheckFails(b, c)
    ensures |failed| == 0 <==> forall c :: !CheckFails(b, c)
    ensures forall i, j :: 0 <= i < j < |failed| ==> CheckPosition(failed[i]) < CheckPosition(failed[j])
  {
    var failed := Seqs.Filter(CreateChecks, CheckFailsOn(b));
    Selects(CheckFailsOn(b), failed);
    ChecksDeclaredInOrder();
    Seqs.FilterIncreasing(CreateChecks, CheckFailsOn(b), CheckPosition);
    failed
  }

  lemma ChecksDeclaredInOrder()
    ensures Seqs.Increasing(CreateChecks, CheckPosition)
  {
    forall i | 0 <= i < |CreateChecks|
      ensures CheckPosition(CreateChecks[i]) == i
    {
    }
  }

  /** Filtering the declared checks keeps exactly the failing ones, since every check is declared. */
  lemma Selects(fails: Check -> bool, failed: seq<Check>)
    requires failed == Seqs.Filter(CreateChecks, fails)
    ensures forall c :: c in failed <==> fails(c)
    ensures |failed| == 0 <==> forall c :: !fails(c)
  {
    forall c
      ensures c in failed <==> fails(c)
    {
      Seqs.FilterMember(CreateChecks, fails, c);
      assert CreateChecks[CheckPosition(c)] == c;
    }
    if |failed| > 0 {
      assert failed[0] in failed;
    }
  }

  function CheckPosition(c: Check): (k: int)
    ensures 0 <= k < |CreateChecks| && CreateChecks[k] == c
  {
    match c
    case NameGiven => 0
    case DescriptionGiven => 1
    case PriceNumber => 2
    case QuantityNumber => 3
    case CategoryGiven => 4
    case UnitGiven => 5
  }

  /** `minimumOrder || 1`: an absent or zero minimum becomes 1, any other number is kept. */
  function MinimumOrderOrOne(m: Option<real>): (r: real)
    ensures m.None? ==> r == 1.0
    ensures m.Some? && m.value == 0.0 ==> r == 1.0
    ensures m.Some? && m.value != 0.0 ==> r == m.value
  {
    if m.None? || m.value == 0.0 then 1.0 else m.value
  }

  /**
   The number a quantity text casts to; the route only builds a document
   after the checks, when the text is an integer.
   */
  function QuantityOf(q: string): (r: Option<real>)
    ensures Numerals.IsIntText(q) ==> r == Some(Numerals.IntValue(q) as real)
  {
    if Numerals.IsIntText(q) then Some(Numerals.IntValue(q) as real) else None
  }

  /**
   The document handed to `new Product(...)`: the body's texts, its price
   and quantity as numbers, the defaults for `minimumOrder` and `images`,
   the caller as wholesaler whatever the body says, and `available` left to
   the schema.
   */
  function DraftOf(b: Body, caller: Identity.UserId): ProductSchema.Draft
  {
    ProductSchema.Draft(
      Validation.Value(b.name), Validation.Value(b.description),
      Some(Numerals.FloatValue(Validation.Value(b.price))),
      Validation.Value(b.category),
      QuantityOf(Validation.Value(b.quantity)),
      Validation.Value(b.unit),
      if b.images.None? then [] else b.images.value,
      Some(caller),
      Some(MinimumOrderOrOne(b.minimumOrder)),
      None)
  }

  /** How a create request ends. */
  datatype Outcome = Invalid(failed: seq<Check>) | NotAuthorized | ServerError | Saved(product: StoredProduct)
  {
    function HttpStatus(): int
    {
      match this
      case Invalid(_) => 400
      case NotAuthorized => 401
      case ServerError => 500
      case Saved(_) => 200
    }
  }

  datatype Response = Response(outcome: Outcome, store: seq<StoredProduct>)

  /**
   `POST /`: the checks first; then the account of the caller `caller`
   (`account`, the answer of the lookup); then the save at time `now`.
   */
  function CreateProduct(
    store: seq<StoredProduct>, b: Body, caller: Identity.UserId, account: Option<Identity.User>, now: int): (r: Response)
    ensures r.outcome.Invalid? <==> |Failures(b)| > 0
    ensures r.outcome.Invalid? ==> r.outcome.failed == Failures(b)
    ensures r.outcome.NotAuthorized? <==> |Failures(b)| == 0 && account.Some? && account.value.role != Identity.Wholesaler
    ensures r.outcome.Saved? ==> r.store == store + [r.outcome.product] && ProductSchema.Valid(r.outcome.product)
    ensures !r.outcome.Saved? ==> r.store == store
  {
    var failed := Failures(b);
    if |failed| > 0 then Response(Invalid(failed), store)
    else if account.None? then Response(ServerError, store)
    else if account.value.role != Identity.Wholesaler then Response(NotAuthorized, store)
    else
      match ProductSchema.Save(DraftOf(b, caller), now)
      case Failure(_) => Response(ServerError, store)
      case Success(p) => Response(Saved(p), store + [p])
  }

  /** The checks decide before any lookup: a refused body gets the same answer whoever the caller is. */
  lemma ChecksComeFirst(
    store: seq<StoredProduct>, b: Body, caller1: Identity.UserId, account1: Option<Identity.User>,
    caller2: Identity.UserId, account2: Option<Identity.User>, now: int)
    requires |Failures(b)| > 0
    ensures CreateProduct(store, b, caller1, account1, now) == CreateProduct(store, b, caller2, account2, now)
    ensures CreateProduct(store, b, caller1, account1, now).outcome.HttpStatus() == 400
  {
  }

  /** Only a wholesaler's request can add a product. */
  lemma OnlyWholesalersAdd(store: seq<StoredProduct>, b: Body, caller: Identity.UserId, account: Option<Identity.User>, now: int)
    requires account.None? || account.value.role != Identity.Wholesaler
    ensures CreateProduct(store, b, caller, account, now).store == store
    ensures !CreateProduct(store, b, caller, account, now).outcome.Saved?
  {
  }

  /** A body that passes the checks, with the caller's account on record, either saves or fails at the schema. */
  lemma SavedExactlyWhenSchemaAccepts(store: seq<StoredProduct>, b: Body, caller: Identity.UserId, u: Identity.User, now: int)
    requires |Failures(b)| == 0 && u.role == Identity.Wholesaler
    ensures (CreateProduct(store, b, caller, Some(u), now).outcome.Saved? <==>
             ProductSchema.Save(DraftOf(b, caller), now).Success?)
  {
  }

  /**
   What a saved product holds: the trimmed name, the body's texts, the
   minimum-order and image defaults, the caller as wholesaler whatever the
   body says, and it is available and listed.
   */
  lemma SavedProductFields(store: seq<StoredProduct>, b: Body, caller: Identity.UserId, account: Option<Identity.User>, now: int)
    requires CreateProduct(store, b, caller, account, now).outcome.Saved?
    ensures var p := CreateProduct(store, b, caller, account, now).outcome.product;
            && p.wholesaler == caller
            && p.name == Text.Trim(Validation.Value(b.name))
            && p.description == Validation.Value(b.description)
            && p.category == Validation.Value(b.category) && p.unit == Validation.Value(b.unit)
            && p.minimumOrder == MinimumOrderOrOne(b.minimumOrder)
            && p.images == (if b.images.None? then [] else b.images.value)
            && p.available && p.createdAt == now
    ensures var r := CreateProduct(store, b, caller, account, now);
            r.outcome.product in ListAvailable(r.store)
  {
    var r := CreateProduct(store, b, caller, account, now);
    assert r.outcome.product in r.store;
  }

  /** A saved product's price and quantity are the numbers written in the body, neither below zero. */
  lemma SavedProductNumbers(store: seq<StoredProduct>, b: Body, caller: Identity.UserId, account: Option<Identity.User>, now: int)
    requires CreateProduct(store, b, caller, account, now).outcome.Saved?
    ensures var p := CreateProduct(store, b, caller, account, now).outcome.product;
            && p.price == Numerals.FloatValue(Validation.Value(b.price)) && p.price >= 0.0
            && Numerals.IsIntText(Validation.Value(b.quantity))
            && p.quantity == Numerals.IntValue(Validation.Value(b.quantity)) as real && p.quantity >= 0.0
  {
    var r := CreateProduct(store, b, caller, account, now);
    SavedIsSchemaSave(store, b, caller, account, now);
    var d := DraftOf(b, caller);
    PassedNumbers(b);
    assert Some(r.outcome.product.price) == d.price && Some(r.outcome.product.quantity) == d.quantity;
  }

  /** A saved product is what the schema's save made of the draft, after every check passed. */
  lemma SavedIsSchemaSave(store: seq<StoredProduct>, b: Body, caller: Identity.UserId, account: Option<Identity.User>, now: int)
    requires CreateProduct(store, b, caller, account, now).outcome.Saved?
    ensures |Failures(b)| == 0
    ensures ProductSchema.Save(DraftOf(b, caller), now) == Success(CreateProduct(store, b, caller, account, now).outcome.product)
  {
  }

  /** A body that passes the checks has a price and a quantity that read as numbers at least zero. */
  lemma PassedNumbers(b: Body)
    requires |Failures(b)| == 0
    ensures Numerals.IsFloatAtLeastZero(Validation.Value(b.price))
    ensures Numerals.FloatValue(Validation.Value(b.price)) >= 0.0
    ensures Numerals.IsIntAtLeast(Validation.Value(b.quantity), 0)
  {
    PassedPrice(b);
    PassedQuantity(b);
    Numerals.AcceptedFloatNotNegative(Validation.Value(b.price));
  }

  lemma PassedPrice(b: Body)
    requires |Failures(b)| == 0
    ensures Numerals.IsFloatAtLeastZero(Validation.Value(b.price))
  {
    assert !CheckFails(b, PriceNumber);
  }

  lemma PassedQuantity(b: Body)
    requires |Failures(b)| == 0
    ensures Numerals.IsIntAtLeast(Validation.Value(b.quantity), 0)
  {
    assert !CheckFails(b, QuantityNumber);
  }

  /** A body that passes the checks, from a wholesaler, whose draft the schema refuses is answered with 500 and nothing stored. */
  lemma SchemaRefusalIsServerError(store: seq<StoredProduct>, b: Body, caller: Identity.UserId, u: Identity.User, now: int)
    requires |Failures(b)| == 0 && u.role == Identity.Wholesaler
    requires ProductSchema.Save(DraftOf(b, caller), now).Failure?
    ensures CreateProduct(store, b, caller, Some(u), now) == Response(ServerError, store)
  {
  }

  /**
   The checks only ask for a non-empty category, the schema for one of its
   six: a well-formed body naming "legumes" gets past the checks and the
   role gate and then fails the save, answered with 500 and nothing stored.
   */
  lemma UnlistedCategoryIsServerError(store: seq<StoredProduct>, b: Body, caller: Identity.UserId, u: Identity.User, now: int)
    requires |Failures(b)| == 0 && u.role == Identity.Wholesaler
    requires b.category == Some("legumes")
    ensures CreateProduct(store, b, caller, Some(u), now) == Response(ServerError, store)
  {
    var d := DraftOf(b, caller);
    assert d.category == "legumes";
    ProductSchema.UnlistedCategoryRefused(d, now);
    SchemaRefusalIsServerError(store, b, caller, u, now);
  }

  /**
   A name of spaces is not empty for the check, but the schema trims it to
   nothing before requiring it: the save fails with 500.
   */
  lemma BlankNameIsServerError(store: seq<StoredProduct>, b: Body, caller: Identity.UserId, u: Identity.User, now: int)
    requires |Failures(b)| == 0 && u.role == Identity.Wholesaler
    requires b.name == Some(" ")
    ensures CreateProduct(store, b, caller, Some(u), now) == Response(ServerError, store)
  {
    var d := DraftOf(b, caller);
    assert d.name == " ";
    ProductSchema.BlankNameRefused(d, now);
    SchemaRefusalIsServerError(store, b, caller, u, now);
  }
}
