/**
 The product document of `server/models/Product.js`: its required fields,
 bounds, enumerations and defaults, and what `save()` makes of a draft.
 Numbers are JavaScript numbers (reals here); an absent field is `None`.
 */
module ProductSchema {
  import opened Results
  import Text
  import Identity
  import Seqs

  /** The schema's `category` enumeration (six values). */
  predicate IsCategory(c: string)
  {
    c in {"vegetables", "fruits", "grains", "dairy", "meat", "other"}
  }

  /** The schema's `unit` enumeration (six values). */
  predicate IsUnit(u: string)
  {
    u in {"kg", "g", "lb", "piece", "dozen", "liter"}
  }

  /** A saved product document. */
  datatype StoredProduct = StoredProduct(
    name: string,
    description: string,
    price: real,
    category: string,
    quantity: real,
    unit: string,
    images: seq<string>,
    wholesaler: Identity.UserId,
    minimumOrder: real,
    available: bool,
    createdAt: int)

  /** The invariant every saved product satisfies. */
  predicate Valid(p: StoredProduct)
  {
    && p.name != "" && Text.Trim(p.name) == p.name
    && p.description != ""
    && p.price >= 0.0
    && IsCategory(p.category)
    && p.quantity >= 0.0
    && IsUnit(p.unit)
  }

  /** The values handed to `new Product({ ... })`. */
  datatype Draft = Draft(
    name: string,
    description: string,
    price: Option<real>,
    category: string,
    quantity: Option<real>,
    unit: string,
    images: seq<string>,
    wholesaler: Option<Identity.UserId>,
    minimumOrder: Option<real>,
    available: Option<bool>)

  /** The schema paths a validation error can name. */
  datatype Path = NamePath | DescriptionPath | PricePath | CategoryPath | QuantityPath | UnitPath | WholesalerPath

  /** Every path, in the order the schema declares them. */
  const SchemaOrder: seq<Path> := [NamePath, DescriptionPath, PricePath, CategoryPath, QuantityPath, UnitPath, WholesalerPath]

  /**
   Whether the validators of path `p` refuse the draft. `name` is trimmed by
   its setter before `required` looks at it, so a name of whitespace only
   is missing; a string is present when it is non-empty; a number must be
   present and at least 0; an enumerated string must be one of its values.
   */
  predicate Fails(d: Draft, p: Path)
  {
    match p
    case NamePath => Text.Blank(d.name)
    case DescriptionPath => d.description == ""
    case PricePath => d.price.None? || d.price.value < 0.0
    case CategoryPath => !IsCategory(d.category)
    case QuantityPath => d.quantity.None? || d.quantity.value < 0.0
    case UnitPath => !IsUnit(d.unit)
    case WholesalerPath => d.wholesaler.None?
  }

  function FailsOn(d: Draft): Path -> bool
  {
    p => Fails(d, p)
  }

  /** Where `p` stands in the schema. */
  function Position(p: Path): (k: int)
    ensures 0 <= k < |SchemaOrder| && SchemaOrder[k] == p
  {
    match p
    case NamePath => 0
    case DescriptionPath => 1
    case PricePath => 2
    case CategoryPath => 3
    case QuantityPath => 4
    case UnitPath => 5
    case WholesalerPath => 6
  }

  lemma SchemaOrderIncreasing()
    ensures Seqs.Increasing(SchemaOrder, Position)
  {
    forall i | 0 <= i < |SchemaOrder|
      ensures Position(SchemaOrder[i]) == i
    {
    }
  }

  /**
   The validation errors of `save()`: every failing path and no other,
   each once, in schema order.
   */
  function SchemaErrors(d: Draft): (paths: seq<Path>)
    ensures forall p :: p in paths <==> Fails(d, p)
    ensures Seqs.Distinct(paths)
    ensures forall i, j :: 0 <= i < j < |paths| ==> Position(paths[i]) < Position(paths[j])
  {
    var paths := Seqs.Filter(SchemaOrder, FailsOn(d));
    assert forall p :: p in paths <==> Fails(d, p) by {
      forall p
        ensures p in paths <==> Fails(d, p)
      {
        var k := Position(p);
        assert FailsOn(d)(SchemaOrder[k]) == Fails(d, p);
      }
    }
    SchemaOrderIncreasing();
    Seqs.FilterIncreasing(SchemaOrder, FailsOn(d), Position);
    paths
  }

  /** A draft with no error fails no validator. */
  lemma NothingFails(d: Draft)
    requires SchemaErrors(d) == []
    ensures forall p :: !Fails(d, p)
  {
  }

  /** A draft that fails no validator has every required value, and its trimmed name is a valid stored name. */
  lemma PassesEveryRule(d: Draft)
    requires forall p :: !Fails(d, p)
    ensures Text.Trim(d.name) != "" && Text.Trim(Text.Trim(d.name)) == Text.Trim(d.name)
    ensures d.description != ""
    ensures d.price.Some? && d.price.value >= 0.0
    ensures IsCategory(d.category)
    ensures d.quantity.Some? && d.quantity.value >= 0.0
    ensures IsUnit(d.unit)
    ensures d.wholesaler.Some?
  {
    assert !Fails(d, NamePath) && !Fails(d, DescriptionPath) && !Fails(d, PricePath) && !Fails(d, CategoryPath);
    assert !Fails(d, QuantityPath) && !Fails(d, UnitPath) && !Fails(d, WholesalerPath);
    Text.TrimEmptyIffBlank(d.name);
    Text.TrimIdempotent(d.name);
  }

  /**
   `save()`: a draft with a failing path is refused with every failing
   path; otherwise it is stored with its name trimmed, `minimumOrder`
   defaulting to 1 and `available` to true, and the document is valid.
   */
  function Save(d: Draft, now: int): (r: Result<StoredProduct, seq<Path>>)
    ensures r.Failure? <==> |SchemaErrors(d)| > 0
    ensures r.Failure? ==> r.error == SchemaErrors(d)
    ensures r.Success? ==> Valid(r.value)
    ensures r.Success? ==>
              && r.value.name == Text.Trim(d.name)
              && r.value.description == d.description
              && Some(r.value.price) == d.price && Some(r.value.quantity) == d.quantity
              && r.value.category == d.category && r.value.unit == d.unit
              && r.value.images == d.images
              && Some(r.value.wholesaler) == d.wholesaler
              && r.value.minimumOrder == (if d.minimumOrder.None? then 1.0 else d.minimumOrder.value)
              && r.value.available == (d.available.None? || d.available.value)
              && r.value.createdAt == now
  {
    var errors := SchemaErrors(d);
    if |errors| > 0 then Failure(errors)
    else
      NothingFails(d);
      PassesEveryRule(d);
      var name := Text.Trim(d.name);
      Success(StoredProduct(
        name, d.description, d.price.value, d.category, d.quantity.value, d.unit, d.images,
        d.wholesaler.value,
        if d.minimumOrder.None? then 1.0 else d.minimumOrder.value,
        if d.available.None? then true else d.available.value,
        now))
  }

  /** A category outside the six, such as "legumes", is refused by the save and named among its errors. */
  lemma UnlistedCategoryRefused(d: Draft, now: int)
    requires d.category == "legumes"
    ensures Save(d, now).Failure? && CategoryPath in Save(d, now).error
  {
    assert !IsCategory(d.category);
    assert Fails(d, CategoryPath);
  }

  /** A name of one space is trimmed to nothing, so the save refuses it as missing. */
  lemma BlankNameRefused(d: Draft, now: int)
    requires d.name == " "
    ensures Save(d, now).Failure? && NamePath in Save(d, now).error
  {
    assert Text.IsSpace(d.name[0]);
    assert Fails(d, NamePath);
  }
}
