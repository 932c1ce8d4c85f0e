/** The limit-shop purchase a player sends: trade a product's ingredients,
    each multiplied by the requested amount, for the product's item, also
    multiplied by the amount.

    Item counts are Java `long`s and the amount a Java `int`, so every
    `count * amount` is a 64-bit product that wraps (`Total`). The game's
    inventory services are not part of this model: destroying `n` of an item
    lowers its count by exactly `n`, adding `n` raises it by exactly `n`, and
    each call leaves a line in the player's action trace. */
module LimitShop {
  import opened Common
  import opened Wire

  /** An item id with a count. */
  datatype ItemHolder = ItemHolder(id: int, count: int)

  /** The shop's product record, as the product lookup returns it. */
  datatype LCoinShopProduct = LCoinShopProduct(
    id: int, ingredients: seq<ItemHolder>, production: ItemHolder, expired: bool, minLevel: int)

  /** The result packet: `ExPurchaseLimitShopItemBuy.fail` or `.success`. */
  datatype ResultPacket = FailPacket(productId: int, tab: int) | SuccessPacket(productId: int, tab: int)

  /** What the purchase does to the player, in order. */
  datatype Action =
    | RequestAdded
    | ItemDestroyed(itemId: int, count: int)
    | ItemAdded(itemId: int, count: int)
    | PacketSent(packet: ResultPacket)
    | RequestRemoved

  type Inventory = map<int, int>

  /** `getInventoryItemCount(id, -1)`: any enchant level; absent items count 0. */
  function Count(inv: Inventory, id: int): int {
    if id in inv then inv[id] else 0
  }

  /** `holder.getCount() * amount` as a Java `long`. */
  function Total(h: ItemHolder, amount: int): (r: int)
    ensures IsInt64(r)
    ensures IsInt64(h.count * amount) ==> r == h.count * amount
  {
    Wrap64(h.count * amount)
  }

  /** Every ingredient is on hand `amount` times over. */
  predicate HasAll(inv: Inventory, ingredients: seq<ItemHolder>, amount: int) {
    forall k | 0 <= k < |ingredients| :: Count(inv, ingredients[k].id) >= Total(ingredients[k], amount)
  }

  function Withdraw(inv: Inventory, id: int, n: int): Inventory {
    inv[id := Count(inv, id) - n]
  }

  function Deposit(inv: Inventory, id: int, n: int): Inventory {
    inv[id := Count(inv, id) + n]
  }

  /** The inventory after each ingredient, in list order, is withdrawn. */
  function ConsumeAll(inv: Inventory, ingredients: seq<ItemHolder>, amount: int): Inventory {
    if ingredients == [] then inv
    else
      var last := ingredients[|ingredients| - 1];
      Withdraw(ConsumeAll(inv, ingredients[..|ingredients| - 1], amount), last.id, Total(last, amount))
  }

  /** How much of item `id` the ingredient list withdraws. */
  function Demand(ingredients: seq<ItemHolder>, id: int, amount: int): int {
    if ingredients == [] then 0
    else
      var last := ingredients[|ingredients| - 1];
      Demand(ingredients[..|ingredients| - 1], id, amount) + (if last.id == id then Total(last, amount) else 0)
  }

  /** The destroy calls, in list order. */
  function Destroys(ingredients: seq<ItemHolder>, amount: int): (t: seq<Action>)
    ensures |t| == |ingredients|
    ensures forall k | 0 <= k < |t| :: t[k] == ItemDestroyed(ingredients[k].id, Total(ingredients[k], amount))
  {
    if ingredients == [] then []
    else Destroys(ingredients[..|ingredients| - 1], amount)
         + [ItemDestroyed(ingredients[|ingredients| - 1].id, Total(ingredients[|ingredients| - 1], amount))]
  }

  /** The player's whole trace of a successful purchase. */
  function SuccessTrace(product: LCoinShopProduct, amount: int, tab: int): seq<Action> {
    [RequestAdded] + Destroys(product.ingredients, amount)
    + [ItemAdded(product.production.id, Total(product.production, amount)),
       PacketSent(SuccessPacket(product.id, tab)), RequestRemoved]
  }

  function PacketsIn(t: seq<Action>): nat {
    if t == [] then 0 else PacketsIn(t[..|t| - 1]) + (if t[|t| - 1].PacketSent? then 1 else 0)
  }

  predicate DistinctIds(ingredients: seq<ItemHolder>) {
    forall j, k | 0 <= j < k < |ingredients| :: ingredients[j].id != ingredients[k].id
  }

  // ---- properties of the specification functions

  /** Consuming changes each item's count by exactly what the list demands of it. */
  lemma {:induction false} ConsumeAllCount(inv: Inventory, ingredients: seq<ItemHolder>, amount: int, id: int)
    ensures Count(ConsumeAll(inv, ingredients, amount), id) == Count(inv, id) - Demand(ingredients, id, amount)
    decreases |ingredients|
  {
    if ingredients != [] {
      ConsumeAllCount(inv, ingredients[..|ingredients| - 1], amount, id);
    }
  }

  /** An item no ingredient names is not demanded at all. */
  lemma {:induction false} DemandUnlisted(ingredients: seq<ItemHolder>, id: int, amount: int)
    requires forall k | 0 <= k < |ingredients| :: ingredients[k].id != id
    ensures Demand(ingredients, id, amount) == 0
    decreases |ingredients|
  {
    if ingredients != [] {
      DemandUnlisted(ingredients[..|ingredients| - 1], id, amount);
    }
  }

  /** With distinct ids, the k-th ingredient's item is demanded exactly its own total. */
  lemma {:induction false} DemandDistinct(ingredients: seq<ItemHolder>, k: int, amount: int)
    requires DistinctIds(ingredients) && 0 <= k < |ingredients|
    ensures Demand(ingredients, ingredients[k].id, amount) == Total(ingredients[k], amount)
    decreases |ingredients|
  {
    var front := ingredients[..|ingredients| - 1];
    if k == |ingredients| - 1 {
      DemandUnlisted(front, ingredients[k].id, amount);
    } else {
      DemandDistinct(front, k, amount);
    }
  }

  /** With distinct ingredient ids, each listed item loses exactly its own
      total and every other item keeps its count. */
  lemma ConsumeDistinct(inv: Inventory, ingredients: seq<ItemHolder>, amount: int)
    requires DistinctIds(ingredients)
    ensures forall k | 0 <= k < |ingredients| ::
      Count(ConsumeAll(inv, ingredients, amount), ingredients[k].id)
        == Count(inv, ingredients[k].id) - Total(ingredients[k], amount)
    ensures forall id | (forall k | 0 <= k < |ingredients| :: ingredients[k].id != id) ::
      Count(ConsumeAll(inv, ingredients, amount), id) == Count(inv, id)
  {
    forall k | 0 <= k < |ingredients|
      ensures Count(ConsumeAll(inv, ingredients, amount), ingredients[k].id)
        == Count(inv, ingredients[k].id) - Total(ingredients[k], amount)
    {
      ConsumeAllCount(inv, ingredients, amount, ingredients[k].id);
      DemandDistinct(ingredients, k, amount);
    }
    forall id | (forall k | 0 <= k < |ingredients| :: ingredients[k].id != id)
      ensures Count(ConsumeAll(inv, ingredients, amount), id) == Count(inv, id)
    {
      ConsumeAllCount(inv, ingredients, amount, id);
      DemandUnlisted(ingredients, id, amount);
    }
  }

  /** What the precondition check buys: with distinct ids, no count that was
      non-negative goes below zero. (A list naming one item twice is checked
      item by item, so it may overdraw.) */
  lemma ConsumeKeepsCountsNonNegative(inv: Inventory, ingredients: seq<ItemHolder>, amount: int)
    requires DistinctIds(ingredients) && HasAll(inv, ingredients, amount)
    requires forall id | id in inv :: inv[id] >= 0
    ensures forall id | id in ConsumeAll(inv, ingredients, amount) :: ConsumeAll(inv, ingredients, amount)[id] >= 0
  {
    ConsumeDistinct(inv, ingredients, amount);
    var after := ConsumeAll(inv, ingredients, amount);
    forall id | id in after
      ensures after[id] >= 0
    {
      if k :| 0 <= k < |ingredients| && ingredients[k].id == id {
        assert Count(after, id) == Count(inv, id) - Total(ingredients[k], amount);
      } else {
        assert Count(after, id) == Count(inv, id);
      }
    }
  }

  /** The whole inventory effect of a successful purchase: each item loses
      what the ingredient list demands of it and the production item gains
      its total; no other count changes. */
  lemma PurchaseCount(inv: Inventory, product: LCoinShopProduct, amount: int, id: int)
    ensures Count(Deposit(ConsumeAll(inv, product.ingredients, amount), product.production.id,
                          Total(product.production, amount)), id)
      == Count(inv, id) - Demand(product.ingredients, id, amount)
         + (if id == product.production.id then Total(product.production, amount) else 0)
  {
    ConsumeAllCount(inv, product.ingredients, amount, id);
  }

  lemma {:induction false} PacketsInConcat(a: seq<Action>, b: seq<Action>)
    ensures PacketsIn(a + b) == PacketsIn(a) + PacketsIn(b)
    decreases |b|
  {
    if b == [] {
      assert a + b == a;
    } else {
      assert (a + b)[..|a + b| - 1] == a + b[..|b| - 1];
      PacketsInConcat(a, b[..|b| - 1]);
    }
  }

  lemma {:induction false} NoPacketsInDestroys(ingredients: seq<ItemHolder>, amount: int)
    ensures PacketsIn(Destroys(ingredients, amount)) == 0
    decreases |ingredients|
  {
    if ingredients != [] {
      var t := Destroys(ingredients, amount);
      assert t[..|t| - 1] == Destroys(ingredients[..|ingredients| - 1], amount);
      NoPacketsInDestroys(ingredients[..|ingredients| - 1], amount);
    }
  }

  /** A successful purchase sends one result packet, the success packet, after
      the request is taken and before it is released. */
  lemma SuccessSendsOnePacket(product: LCoinShopProduct, amount: int, tab: int)
    ensures PacketsIn(SuccessTrace(product, amount, tab)) == 1
    ensures var t := SuccessTrace(product, amount, tab);
      t[0] == RequestAdded && t[|t| - 1] == RequestRemoved && t[|t| - 2] == PacketSent(SuccessPacket(product.id, tab))
  {
    var d := Destroys(product.ingredients, amount);
    var tail := [ItemAdded(product.production.id, Total(product.production, amount)),
                 PacketSent(SuccessPacket(product.id, tab)), RequestRemoved];
    NoPacketsInDestroys(product.ingredients, amount);
    PacketsInConcat([RequestAdded], d);
    PacketsInConcat([RequestAdded] + d, tail);
    assert PacketsIn([tail[0]]) == 0 by { assert [tail[0]][..0] == []; }
    assert PacketsIn(tail[..2]) == 1 by { assert tail[..2][..1] == [tail[0]]; }
  }

  /** `hasIngredients` checks each ingredient on its own: an item listed
      twice passes on the stock it has once, and consuming overdraws it. */
  lemma RepeatedIngredientOverdraws()
    ensures HasAll(map[1 := 5], [ItemHolder(1, 3), ItemHolder(1, 3)], 1)
    ensures Count(ConsumeAll(map[1 := 5], [ItemHolder(1, 3), ItemHolder(1, 3)], 1), 1) == -1
  {
    assert [ItemHolder(1, 3), ItemHolder(1, 3)][..1] == [ItemHolder(1, 3)];
  }

  /** A negative `amount` from the client passes `hasIngredients` with an
      empty inventory, and the "destroy" of a negative total raises the count. */
  lemma NegativeAmountCredits()
    ensures HasAll(map[], [ItemHolder(1, 3)], -1)
    ensures Count(ConsumeAll(map[], [ItemHolder(1, 3)], -1), 1) == 3
  {
    assert [ItemHolder(1, 3)][..0] == [];
  }

  // ---- the player's state and the packet

  class Player {
    var inventory: Inventory
    var hasItemRequest: bool
    /** Whether the player holds an `LCoinShopRequest`. */
    var hasShopRequest: bool
    var level: int
    var trace: seq<Action>

    constructor (inventory: Inventory, level: int)
      ensures this.inventory == inventory && this.level == level
      ensures !hasItemRequest && !hasShopRequest && trace == []
    {
      this.inventory := inventory;
      this.level := level;
      hasItemRequest := false;
      hasShopRequest := false;
      trace := [];
    }

    method AddRequest()
      modifies this`hasShopRequest, this`trace
      ensures hasShopRequest && trace == old(trace) + [RequestAdded]
    {
      hasShopRequest := true;
      trace := trace + [RequestAdded];
    }

    method RemoveRequest()
      modifies this`hasShopRequest, this`trace
      ensures !hasShopRequest && trace == old(trace) + [RequestRemoved]
    {
      hasShopRequest := false;
      trace := trace + [RequestRemoved];
    }

    method DestroyItemByItemId(itemId: int, count: int)
      modifies this`inventory, this`trace
      ensures inventory == Withdraw(old(inventory), itemId, count)
      ensures trace == old(trace) + [ItemDestroyed(itemId, count)]
    {
      inventory := Withdraw(inventory, itemId, count);
      trace := trace + [ItemDestroyed(itemId, count)];
    }

    method AddItem(itemId: int, count: int)
      modifies this`inventory, this`trace
      ensures inventory == Deposit(old(inventory), itemId, count)
      ensures trace == old(trace) + [ItemAdded(itemId, count)]
    {
      inventory := Deposit(inventory, itemId, count);
      trace := trace + [ItemAdded(itemId, count)];
    }

    method SendPacket(p: ResultPacket)
      modifies this`trace
      ensures trace == old(trace) + [PacketSent(p)]
    {
      trace := trace + [PacketSent(p)];
    }
  }

  class RequestPurchaseLimitShopItemBuy {
    var productId: int32
    var amount: int32
    var tab: int

    constructor ()
      ensures productId == 0 && amount == 0 && tab == 0
    {
      productId := 0;
      amount := 0;
      tab := 0;
    }

    /** `readImpl`: the tab (a signed byte), then the product id and amount
        (each a Java `int`); fails exactly when the body is too short, and
        otherwise stores what was read. */
    method ReadImpl(data: seq<byte>) returns (r: Result<seq<byte>, ReadError>)
      modifies this
      ensures r.Success? <==> |data| >= 9
      ensures r.Success? ==>
        && r.value == data[9..]
        && ReadByte(data) == Success((tab, data[1..]))
        && ReadInt(data[1..]) == Success((productId as int, data[5..]))
        && ReadInt(data[5..]) == Success((amount as int, data[9..]))
    {
      var t :- ReadByte(data);
      var p :- ReadInt(t.1);
      var a :- ReadInt(p.1);
      tab := t.0;
      productId := p.0;
      amount := a.0;
      return Success(a.1);
    }

    /** `hasIngredients`: scans the list, stopping at the first ingredient the
        player does not hold `amount` times over. */
    method HasIngredients(player: Player, ingredients: seq<ItemHolder>) returns (r: bool)
      ensures r <==> HasAll(player.inventory, ingredients, amount)
    {
      for k := 0 to |ingredients|
        invariant HasAll(player.inventory, ingredients[..k], amount)
      {
        if Count(player.inventory, ingredients[k].id) < Total(ingredients[k], amount) {
          return false;
        }
      }
      assert ingredients[..|ingredients|] == ingredients;
      return true;
    }

    /** `consumeIngredients`: destroys each ingredient's total, in list order. */
    method ConsumeIngredients(player: Player, ingredients: seq<ItemHolder>)
      modifies player`inventory, player`trace
      ensures player.inventory == ConsumeAll(old(player.inventory), ingredients, amount)
      ensures player.trace == old(player.trace) + Destroys(ingredients, amount)
    {
      for k := 0 to |ingredients|
        invariant player.inventory == ConsumeAll(old(player.inventory), ingredients[..k], amount)
        invariant player.trace == old(player.trace) + Destroys(ingredients[..k], amount)
      {
        assert ingredients[..k + 1][..k] == ingredients[..k];
        player.DestroyItemByItemId(ingredients[k].id, Total(ingredients[k], amount));
      }
      assert ingredients[..|ingredients|] == ingredients;
    }

    /** The refusal test of `runImpl`. */
    predicate Refused(player: Player, product: LCoinShopProduct)
      reads this, player
    {
      player.hasItemRequest || player.hasShopRequest || !HasAll(player.inventory, product.ingredients, amount)
      || product.expired || player.level < product.minLevel
    }

    /** `runImpl` for the product the shop returned for `productId`. A
        refused purchase sends the fail packet and changes nothing else; an
        accepted one takes the request, withdraws the ingredients, credits
        the production, sends the success packet and releases the request. */
    method RunImpl(player: Player, product: LCoinShopProduct)
      modifies player
      ensures old(Refused(player, product)) ==>
        && player.trace == old(player.trace) + [PacketSent(FailPacket(product.id, tab))]
        && player.inventory == old(player.inventory) && player.hasShopRequest == old(player.hasShopRequest)
      ensures !old(Refused(player, product)) ==>
        && player.trace == old(player.trace) + SuccessTrace(product, amount, tab)
        && player.inventory == Deposit(ConsumeAll(old(player.inventory), product.ingredients, amount),
                                       product.production.id, Total(product.production, amount))
        && !player.hasShopRequest
      ensures player.hasItemRequest == old(player.hasItemRequest) && player.level == old(player.level)
    {
      var ingredients := product.ingredients;
      var enough := HasIngredients(player, ingredients);
      if player.hasItemRequest || player.hasShopRequest || !enough || product.expired
         || player.level < product.minLevel {
        player.SendPacket(FailPacket(product.id, tab));
        return;
      }
      var productItem := product.production;
      player.AddRequest();
      ConsumeIngredients(player, ingredients);
      player.AddItem(productItem.id, Total(productItem, amount));
      player.SendPacket(SuccessPacket(product.id, tab));
      player.RemoveRequest();
    }
  }
}
