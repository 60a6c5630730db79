/**
 Coin packs: the business rules an admin's create or update request must
 satisfy, the name-uniqueness check that runs before them, and the pricing
 helpers. Prices and percentages are exact rationals here; the rounding
 the service applies when it converts between dollars and cents is not
 modelled.
 */
module Packs {
  import opened Wrappers

  /** A stored pack. `price` is in cents. */
  datatype Pack = Pack(
    id: string,
    name: string,
    price: real,
    coinsCount: int,
    discountPerCent: Option<int>,
    bonusCount: Option<int>,
    isDaily: bool,
    isFree: bool)

  /**
   A create or update request. Every field may be absent (`undefined`); a
   create request always carries a name, a price and a coin count.
   */
  datatype PackData = PackData(
    name: Option<string>,
    price: Option<real>,
    coinsCount: Option<int>,
    discountPerCent: Option<int>,
    bonusCount: Option<int>,
    advantages: Option<seq<string>>,
    disadvantages: Option<seq<string>>,
    isDaily: Option<bool>,
    isFree: Option<bool>)

  /** Things the rules log without rejecting the request. */
  datatype Warning = DailyWithoutDiscount | HighPricePerCoin(centsPerCoin: real)

  /** The most a pack may cost, in cents. */
  const MaxPrice := 99999.0
  const MaxCoins := 10000
  const MaxListItems := 10

  /** A JavaScript number read for truthiness: absent and 0 are falsy. */
  predicate TruthyNumber(x: Option<int>) {
    x.Some? && x.value != 0
  }

  /** The request marks the pack as free. */
  predicate MarkedFree(d: PackData) {
    d.isFree == Some(true)
  }

  /** A rule a request must satisfy, stated field by field; an absent field satisfies every rule on it. */
  predicate Valid(d: PackData) {
    && (d.price.Some? ==> 0.0 <= d.price.value <= MaxPrice)
    && (d.discountPerCent.Some? ==> 0 <= d.discountPerCent.value <= 100)
    && (d.bonusCount.Some? ==> d.bonusCount.value >= 0)
    && (d.coinsCount.Some? ==> 1 <= d.coinsCount.value <= MaxCoins)
    && (d.advantages.Some? ==> |d.advantages.value| <= MaxListItems)
    && (d.disadvantages.Some? ==> |d.disadvantages.value| <= MaxListItems)
    && (MarkedFree(d) && d.price.Some? ==> d.price.value <= 0.0)
    && (MarkedFree(d) ==> !(TruthyNumber(d.discountPerCent) && d.discountPerCent.value > 0))
  }

  /**
   `validatePackData`: the rules in the service's order, each failing with
   its own BadRequest message; a valid request yields the warnings the
   service would log.
   */
  function ValidatePackData(d: PackData): (r: Result<seq<Warning>>)
    ensures r.Success? <==> Valid(d)
    ensures r.Failure? ==> r.error.BadRequest?
    ensures d.price.Some? && d.price.value < 0.0 ==> r == Failure(BadRequest("Price cannot be negative"))
    ensures r.Success? ==>
      (DailyWithoutDiscount in r.value <==> d.isDaily == Some(true) && !TruthyNumber(d.discountPerCent))
  {
    if d.price.Some? && d.price.value < 0.0 then Failure(BadRequest("Price cannot be negative"))
    else if d.price.Some? && d.price.value > MaxPrice then Failure(BadRequest("Price cannot exceed $999.99"))
    else if d.discountPerCent.Some? && (d.discountPerCent.value < 0 || d.discountPerCent.value > 100) then
      Failure(BadRequest("Discount percentage must be between 0 and 100"))
    else if d.bonusCount.Some? && d.bonusCount.value < 0 then Failure(BadRequest("Bonus count cannot be negative"))
    else if d.coinsCount.Some? && d.coinsCount.value < 1 then Failure(BadRequest("Coins count must be at least 1"))
    else if d.coinsCount.Some? && d.coinsCount.value > MaxCoins then
      Failure(BadRequest("Coins count cannot exceed 10000"))
    else if d.advantages.Some? && |d.advantages.value| > MaxListItems then
      Failure(BadRequest("Advantages cannot exceed 10 items"))
    else if d.disadvantages.Some? && |d.disadvantages.value| > MaxListItems then
      Failure(BadRequest("Disadvantages cannot exceed 10 items"))
    else if MarkedFree(d) && d.price.Some? && d.price.value > 0.0 then
      Failure(BadRequest("Free packs must have price = 0"))
    else if MarkedFree(d) && TruthyNumber(d.discountPerCent) && d.discountPerCent.value > 0 then
      Failure(BadRequest("Free packs cannot have discounts"))
    else Success(Warnings(d))
  }

  /** The warnings a request that passed the rules is logged with. */
  function Warnings(d: PackData): (r: seq<Warning>)
    requires d.coinsCount.Some? ==> d.coinsCount.value >= 1
    ensures DailyWithoutDiscount in r <==> d.isDaily == Some(true) && !TruthyNumber(d.discountPerCent)
    ensures forall w :: w in r && w.HighPricePerCoin? ==>
      d.price.Some? && d.coinsCount.Some? && w.centsPerCoin * d.coinsCount.value as real == d.price.value
      && w.centsPerCoin > 100.0
    ensures (exists w :: w in r && w.HighPricePerCoin?) <==>
      d.price.Some? && d.coinsCount.Some? && d.price.value / d.coinsCount.value as real > 100.0
  {
    var daily := if d.isDaily == Some(true) && !TruthyNumber(d.discountPerCent) then [DailyWithoutDiscount] else [];
    var perCoin :=
      if d.price.Some? && d.coinsCount.Some? && d.price.value / d.coinsCount.value as real > 100.0 then
        [HighPricePerCoin(d.price.value / d.coinsCount.value as real)]
      else [];
    assert perCoin != [] ==> perCoin[0] in daily + perCoin;
    daily + perCoin
  }

  /** A request that leaves every field out passes every rule. */
  lemma EmptyRequestValid()
    ensures ValidatePackData(PackData(None, None, None, None, None, None, None, None, None)).Success?
  {
  }

  /** The daily flag only ever produces a warning: setting or clearing it never changes the verdict. */
  lemma DailyFlagNeverRejects(d: PackData, daily: Option<bool>)
    ensures ValidatePackData(d).Success? <==> ValidatePackData(d.(isDaily := daily)).Success?
  {
  }

  /** `isPackNameExists(name, excludeId)`: another pack has this name; an empty `excludeId` excludes nothing. */
  predicate NameExists(packs: seq<Pack>, name: string, excludeId: string) {
    exists i :: 0 <= i < |packs| && packs[i].name == name && (excludeId == "" || packs[i].id != excludeId)
  }

  /**
   `createPack`: a name already in use is a Conflict, checked before the
   business rules; a request passing both is handed on to be stored.
   */
  function CreatePack(packs: seq<Pack>, d: PackData): (r: Result<PackData>)
    requires d.name.Some?
    ensures NameExists(packs, d.name.value, "") ==> r == Failure(Conflict("Pack name already exists"))
    ensures r.Success? <==> !NameExists(packs, d.name.value, "") && Valid(d)
    ensures r.Success? ==> r.value == d
  {
    if NameExists(packs, d.name.value, "") then Failure(Conflict("Pack name already exists"))
    else
      var _ :- ValidatePackData(d);
      Success(d)
  }

  /**
   `updatePack(id, data)`: the pack must exist (NotFound 'Pack not found');
   a non-empty new name must not belong to any other pack (Conflict); then
   the business rules run.
   */
  function UpdatePack(packs: seq<Pack>, id: string, d: PackData): (r: Result<PackData>)
    ensures (forall i :: 0 <= i < |packs| ==> packs[i].id != id) ==> r == Failure(NotFound("Pack not found"))
    ensures r.Success? <==>
      && (exists i :: 0 <= i < |packs| && packs[i].id == id)
      && !(d.name.Some? && d.name.value != "" && NameExists(packs, d.name.value, id))
      && Valid(d)
  {
    if forall i :: 0 <= i < |packs| ==> packs[i].id != id then Failure(NotFound("Pack not found"))
    else if d.name.Some? && d.name.value != "" && NameExists(packs, d.name.value, id) then
      Failure(Conflict("Pack name already exists"))
    else
      var _ :- ValidatePackData(d);
      Success(d)
  }

  /** A pack may keep its own name on update: only other packs can clash with it. */
  lemma KeepOwnName(packs: seq<Pack>, k: int, d: PackData)
    requires 0 <= k < |packs| && packs[k].id != ""
    requires forall i :: 0 <= i < |packs| && i != k ==> packs[i].name != packs[k].name
    requires d.name == Some(packs[k].name) && Valid(d)
    ensures UpdatePack(packs, packs[k].id, d).Success?
    ensures CreatePack(packs, d) == Failure(Conflict("Pack name already exists"))
  {
  }

  // ----- pricing helpers -----

  /** `calculateEffectiveCoins`: the coins plus any bonus. */
  function EffectiveCoins(p: Pack): (r: int)
    ensures p.bonusCount.None? ==> r == p.coinsCount
    ensures p.bonusCount.Some? ==> r - p.bonusCount.value == p.coinsCount
  {
    p.coinsCount + p.bonusCount.GetOr(0)
  }

  /** `calculatePricePerCoin`: price over effective coins, 0 when there are none. */
  function PricePerCoin(p: Pack): (r: real)
    ensures EffectiveCoins(p) > 0 ==> r * EffectiveCoins(p) as real == p.price
    ensures EffectiveCoins(p) <= 0 ==> r == 0.0
  {
    var coins := EffectiveCoins(p);
    if coins > 0 then p.price / coins as real else 0.0
  }

  /** `calculateDiscountedPrice`: the price less its discount percentage; the price itself without a discount. */
  function DiscountedPrice(p: Pack): (r: real)
    ensures !TruthyNumber(p.discountPerCent) ==> r == p.price
    ensures TruthyNumber(p.discountPerCent) ==> r + p.price * p.discountPerCent.value as real / 100.0 == p.price
  {
    if !TruthyNumber(p.discountPerCent) then p.price
    else p.price - p.price * p.discountPerCent.value as real / 100.0
  }

  /** `calculateDiscountAmount`: the discount on the effective coins at `basePrice` each; 0 without a discount. */
  function DiscountAmount(p: Pack, basePrice: real): (r: real)
    ensures !TruthyNumber(p.discountPerCent) ==> r == 0.0
    ensures TruthyNumber(p.discountPerCent) ==>
      r * 100.0 == EffectiveCoins(p) as real * basePrice * p.discountPerCent.value as real
  {
    if !TruthyNumber(p.discountPerCent) then 0.0
    else
      var total := EffectiveCoins(p) as real * basePrice;
      total * p.discountPerCent.value as real / 100.0
  }

  /** With a discount between 0 and 100 percent, the discounted price lies between 0 and the price. */
  lemma DiscountedPriceBounds(p: Pack)
    requires p.price >= 0.0
    requires p.discountPerCent.Some? ==> 0 <= p.discountPerCent.value <= 100
    ensures 0.0 <= DiscountedPrice(p) <= p.price
  {
    if TruthyNumber(p.discountPerCent) {
      var d := p.discountPerCent.value as real;
      assert p.price * d / 100.0 <= p.price by {
        assert p.price * d <= p.price * 100.0;
      }
    }
  }

  /**
   The discount amount is what the discount takes off a pack priced at
   `basePrice` per effective coin.
   */
  lemma DiscountAmountIsPriceReduction(p: Pack, basePrice: real)
    ensures DiscountAmount(p, basePrice) + DiscountedPrice(p.(price := EffectiveCoins(p) as real * basePrice))
         == EffectiveCoins(p) as real * basePrice
  {
  }
}
