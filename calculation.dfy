/**
 * The order summary (`calculateOrderSummary`): the gross total of all line
 * items, the discount with its threshold and optional cap, the net and grand
 * totals, each line's final price carrying its pro-rata share of the discount
 * and of the flat fee, and two rollups (quantity per menu item, final price
 * per user). Money is exact `real`; the source's floating-point rounding is
 * not modelled. A `reduce` is a recursion on the last element.
 */
module Calculation {
  import opened Wrappers
  import opened Orders
  import OM = OrderedMap

  datatype Profile = Profile(fullName: string)

  /** A participant order as the order page loads it: the row, joined with its user's profile. */
  datatype Line = Line(row: ParticipantOrder, profile: Option<Profile>)

  /** A line with the price its participant finally pays. */
  datatype PricedLine = PricedLine(line: Line, finalPrice: real)

  /** A `summaryByUser` value: the user's display name and total final price. */
  datatype UserTotal = UserTotal(userName: string, finalPrice: real)

  /** `IOrderSummary`. */
  datatype OrderSummary = OrderSummary(
    grossTotal: real,                               // totalPesananKotor
    netTotal: real,                                 // totalPesananSetelahDiskon
    discount: real,                                 // potonganDiskon
    additionalFees: real,                           // biayaTambahan
    grandTotal: real,
    pricedLines: seq<PricedLine>,                   // participantOrdersWithFinalPrice
    uncappedDiscount: real,                         // potonganDiskonLepas
    byMenu: OM.OrderedMap<string, int>,             // summaryByMenu: item name -> quantity
    byUser: OM.OrderedMap<UserId, UserTotal>)       // summaryByUser: user id -> name, final price

  /** The name shown for a user without a profile. */
  const UnknownUserName: string := "Tidak diketahui"

  /** `p.profiles?.full_name || 'Tidak diketahui'`: a missing or empty name falls back. */
  function DisplayName(profile: Option<Profile>): (name: string)
    ensures name != ""
    ensures profile.Some? && profile.value.fullName != "" ==> name == profile.value.fullName
    ensures profile.None? || profile.value.fullName == "" ==> name == UnknownUserName
  {
    match profile
    case Some(p) => if p.fullName != "" then p.fullName else UnknownUserName
    case None => UnknownUserName
  }

  function UserOf(l: Line): UserId { l.row.cols.userId }

  function ItemOf(l: Line): string { l.row.cols.itemName }

  function QuantityOf(l: Line): int { l.row.cols.quantity }

  /** `item_price * quantity`. */
  function Subtotal(l: Line): real {
    l.row.cols.itemPrice * l.row.cols.quantity as real
  }

  /** The gross total: the sum of every line's subtotal. */
  function Gross(lines: seq<Line>): real {
    if lines == [] then 0.0
    else Gross(lines[..|lines| - 1]) + Subtotal(lines[|lines| - 1])
  }

  /** With non-negative prices and quantities the gross total is non-negative, and zero only if every subtotal is. */
  lemma {:induction false} GrossNonNegative(lines: seq<Line>)
    requires forall i :: 0 <= i < |lines| ==> lines[i].row.cols.itemPrice >= 0.0 && lines[i].row.cols.quantity >= 0
    ensures Gross(lines) >= 0.0
    ensures Gross(lines) == 0.0 <==> forall i :: 0 <= i < |lines| ==> Subtotal(lines[i]) == 0.0
  {
    if lines != [] {
      var prefix := lines[..|lines| - 1];
      assert forall i :: 0 <= i < |prefix| ==> prefix[i] == lines[i];
      GrossNonNegative(prefix);
      var last := lines[|lines| - 1];
      ProductNonNegative(last.row.cols.itemPrice, last.row.cols.quantity as real);
    }
  }

  lemma {:induction false} ProductNonNegative(a: real, b: real)
    requires a >= 0.0 && b >= 0.0
    ensures a * b >= 0.0
  {
  }

  // ---------------------------------------------------------------------------
  // Discount
  // ---------------------------------------------------------------------------

  /** The discount cap. */
  datatype Cap = Capped(limit: real) | NoCap

  /** `max_discount || Infinity`: an absent or zero maximum means no cap. */
  function CapOf(order: OrderCols): (c: Cap)
    ensures c.NoCap? <==> order.maxDiscount.None? || order.maxDiscount.value == 0.0
    ensures c.Capped? ==> c.limit == order.maxDiscount.value
  {
    match order.maxDiscount
    case Some(m) => if m != 0.0 then Capped(m) else NoCap
    case None => NoCap
  }

  /** `Math.min(d, cap)`. */
  function ApplyCap(d: real, cap: Cap): real {
    match cap
    case Capped(m) => if d <= m then d else m
    case NoCap => d
  }

  /** `min_order_for_discount || 0`. */
  function MinOrder(order: OrderCols): real { order.minOrderForDiscount.GetOr(0.0) }

  /** `discount_percentage || 0`. */
  function Percentage(order: OrderCols): real { order.discountPercentage.GetOr(0.0) }

  /** `service_and_delivery_fee || 0`. */
  function FeeOf(order: OrderCols): real { order.serviceAndDeliveryFee.GetOr(0.0) }

  /**
   * The percentage discount on `gross`, zero below the minimum order; for a
   * non-negative gross and a percentage of at most 100 it lies between 0 and
   * the gross.
   */
  function UncappedDiscount(gross: real, order: OrderCols): (d: real)
    ensures d == 0.0 <==> gross < MinOrder(order) || gross == 0.0 || Percentage(order) == 0.0
    ensures gross >= 0.0 && 0.0 <= Percentage(order) <= 100.0 ==> 0.0 <= d <= gross
  {
    if gross >= MinOrder(order) then Percent(gross, Percentage(order)) else 0.0
  }

  /** `amount * (pct / 100)`: zero only for a zero amount or percentage, and within the amount for a percentage of 0 to 100. */
  function Percent(amount: real, pct: real): (p: real)
    ensures p == 0.0 <==> amount == 0.0 || pct == 0.0
    ensures amount >= 0.0 && 0.0 <= pct <= 100.0 ==> 0.0 <= p <= amount
  {
    var p := amount * (pct / 100.0);
    PercentFacts(amount, pct, p);
    p
  }

  lemma {:induction false} PercentFacts(amount: real, pct: real, p: real)
    requires p == amount * (pct / 100.0)
    ensures p == 0.0 <==> amount == 0.0 || pct == 0.0
    ensures amount >= 0.0 && 0.0 <= pct <= 100.0 ==> 0.0 <= p <= amount
  {
    var f := pct / 100.0;
    assert f == 0.0 <==> pct == 0.0;
    if amount != 0.0 && f != 0.0 {
      assert amount * f / amount == f;
    }
    if amount >= 0.0 && 0.0 <= pct <= 100.0 {
      assert 0.0 <= f <= 1.0;
      ProductNonNegative(amount, f);
      ProductNonNegative(amount, 1.0 - f);
      assert amount * (1.0 - f) == amount - amount * f;
    }
  }

  /**
   * The discount actually taken: none below the minimum order, otherwise the
   * uncapped discount limited by the cap, where an absent or zero maximum is
   * no cap.
   */
  function AppliedDiscount(gross: real, order: OrderCols): (d: real)
    ensures d <= UncappedDiscount(gross, order)
    ensures gross < MinOrder(order) ==> d == 0.0
    ensures CapOf(order).NoCap? ==> d == UncappedDiscount(gross, order)
    ensures CapOf(order).Capped? && gross >= MinOrder(order) ==>
      d <= CapOf(order).limit && (d == UncappedDiscount(gross, order) || d == CapOf(order).limit)
  {
    if gross >= MinOrder(order) then ApplyCap(UncappedDiscount(gross, order), CapOf(order)) else 0.0
  }

  // ---------------------------------------------------------------------------
  // Allocation
  // ---------------------------------------------------------------------------

  /** A line's subtotal less its share of the discount plus its share of the fee. */
  function FinalPrice(l: Line, gross: real, discount: real, fee: real): real
    requires gross != 0.0
  {
    Adjusted(Subtotal(l), gross, discount, fee)
  }

  /** An amount less its share of the discount plus its share of the fee, shares taken against `gross`. */
  function Adjusted(amount: real, gross: real, discount: real, fee: real): real
    requires gross != 0.0
  {
    var share := amount / gross;
    amount - discount * share + fee * share
  }

  /** `participant_orders.map(...)`: each line paired with its final price. */
  function Allocate(lines: seq<Line>, gross: real, discount: real, fee: real): (priced: seq<PricedLine>)
    requires gross != 0.0
    ensures |priced| == |lines|
  {
    if lines == [] then []
    else
      var last := lines[|lines| - 1];
      Allocate(lines[..|lines| - 1], gross, discount, fee) + [PricedLine(last, FinalPrice(last, gross, discount, fee))]
  }

  /** Each line keeps its place and is paired with its own final price. */
  lemma {:induction false} AllocatePrices(lines: seq<Line>, gross: real, discount: real, fee: real)
    requires gross != 0.0
    ensures forall i :: 0 <= i < |lines| ==>
      Allocate(lines, gross, discount, fee)[i] == PricedLine(lines[i], FinalPrice(lines[i], gross, discount, fee))
  {
    if lines != [] {
      var prefix := lines[..|lines| - 1];
      AllocatePrices(prefix, gross, discount, fee);
      var priced := Allocate(lines, gross, discount, fee);
      forall i | 0 <= i < |lines|
        ensures priced[i] == PricedLine(lines[i], FinalPrice(lines[i], gross, discount, fee))
      {
        if i < |prefix| {
          assert priced[i] == Allocate(prefix, gross, discount, fee)[i];
          assert lines[i] == prefix[i];
        }
      }
    }
  }

  /** The sum of the final prices. */
  function SumFinal(priced: seq<PricedLine>): real {
    if priced == [] then 0.0
    else SumFinal(priced[..|priced| - 1]) + priced[|priced| - 1].finalPrice
  }

  /** An amount adjusted against `g` is its proportion of `g - d + f`. */
  lemma {:induction false} AdjustedIsProportion(amount: real, g: real, d: real, f: real)
    requires g != 0.0
    ensures Adjusted(amount, g, d, f) == amount / g * (g - d + f)
  {
    var q := amount / g;
    assert q * g == amount;
    assert q * (g - d + f) == q * g - q * d + q * f;
  }

  /** The whole, adjusted against itself, bears the whole discount and the whole fee. */
  lemma {:induction false} AdjustedWhole(g: real, d: real, f: real)
    requires g != 0.0
    ensures Adjusted(g, g, d, f) == g - d + f
  {
    assert g / g == 1.0;
  }

  /** The factor `(gross - discount + fee) / gross` that turns a subtotal into a final price. */
  function Ratio(gross: real, discount: real, fee: real): real
    requires gross != 0.0
  {
    (gross - discount + fee) / gross
  }

  /** Allocating one more line adds its subtotal times the ratio to the sum, and its subtotal to the gross. */
  lemma {:induction false} AllocateLast(lines: seq<Line>, gross: real, discount: real, fee: real)
    requires gross != 0.0 && lines != []
    ensures var prefix, last := lines[..|lines| - 1], lines[|lines| - 1];
      && SumFinal(Allocate(lines, gross, discount, fee))
         == SumFinal(Allocate(prefix, gross, discount, fee)) + Subtotal(last) * Ratio(gross, discount, fee)
      && Gross(lines) == Gross(prefix) + Subtotal(last)
  {
    var priced := Allocate(lines, gross, discount, fee);
    assert priced[..|priced| - 1] == Allocate(lines[..|lines| - 1], gross, discount, fee);
    var sub := Subtotal(lines[|lines| - 1]);
    AdjustedIsProportion(sub, gross, discount, fee);
    assert sub / gross * (gross - discount + fee) == sub * Ratio(gross, discount, fee);
  }

  /** The allocated prices add up to the lines' gross total times the ratio. */
  lemma {:induction false} AllocateSum(lines: seq<Line>, gross: real, discount: real, fee: real)
    requires gross != 0.0
    ensures SumFinal(Allocate(lines, gross, discount, fee)) == Gross(lines) * Ratio(gross, discount, fee)
    decreases |lines|
  {
    if lines != [] {
      var prefix, last := lines[..|lines| - 1], lines[|lines| - 1];
      var r := Ratio(gross, discount, fee);
      AllocateSum(prefix, gross, discount, fee);
      AllocateLast(lines, gross, discount, fee);
      var a, p, s := SumFinal(Allocate(prefix, gross, discount, fee)), Gross(prefix), Subtotal(last);
      Distribute(p, s, r);
      assert SumFinal(Allocate(lines, gross, discount, fee)) == a + s * r;
      assert a == p * r;
      assert Gross(lines) == p + s;
    }
  }

  lemma {:induction false} Distribute(p: real, s: real, r: real)
    ensures (p + s) * r == p * r + s * r
  {
  }

  // ---------------------------------------------------------------------------
  // Rollups
  // ---------------------------------------------------------------------------

  /** The item names of the lines, in order. */
  function ItemNames(lines: seq<Line>): (names: seq<string>)
    ensures |names| == |lines|
  {
    if lines == [] then [] else ItemNames(lines[..|lines| - 1]) + [ItemOf(lines[|lines| - 1])]
  }

  /** The total quantity ordered of item `name`. */
  function QuantityFor(lines: seq<Line>, name: string): int {
    if lines == [] then 0
    else
      var last := lines[|lines| - 1];
      QuantityFor(lines[..|lines| - 1], name) + (if ItemOf(last) == name then QuantityOf(last) else 0)
  }

  /** The total quantity of all lines. */
  function TotalQuantity(lines: seq<Line>): int {
    if lines == [] then 0 else TotalQuantity(lines[..|lines| - 1]) + QuantityOf(lines[|lines| - 1])
  }

  function QuantityWeight(q: int): real { q as real }

  /** One step of `summaryByMenu`: add the line's quantity to its item's running sum, starting from 0. */
  function AddQuantity(m: OM.OrderedMap<string, int>, l: Line): (r: OM.OrderedMap<string, int>)
    ensures OM.Distinct(OM.Keys(m)) ==> OM.Distinct(OM.Keys(r))
  {
    var q := OM.Get(m, ItemOf(l)).GetOr(0) + QuantityOf(l);
    if OM.Distinct(OM.Keys(m)) then OM.SetKeysDistinct(m, ItemOf(l), q); OM.Set(m, ItemOf(l), q)
    else OM.Set(m, ItemOf(l), q)
  }

  /** `summaryByMenu`: a `Map` from item name to the running sum of its quantities; no name is a key twice. */
  function MenuRollup(lines: seq<Line>): (m: OM.OrderedMap<string, int>)
    ensures OM.Distinct(OM.Keys(m))
  {
    if lines == [] then [] else AddQuantity(MenuRollup(lines[..|lines| - 1]), lines[|lines| - 1])
  }

  /** A step adds the line's quantity to its item's entry, creating the entry if need be, and to the total. */
  lemma {:induction false} AddQuantityStep(m: OM.OrderedMap<string, int>, l: Line)
    ensures OM.Keys(AddQuantity(m, l)) == if ItemOf(l) in OM.Keys(m) then OM.Keys(m) else OM.Keys(m) + [ItemOf(l)]
    ensures forall name :: OM.Get(AddQuantity(m, l), name)
                           == if name == ItemOf(l) then Some(OM.Get(m, name).GetOr(0) + QuantityOf(l)) else OM.Get(m, name)
    ensures OM.SumBy(AddQuantity(m, l), QuantityWeight) == OM.SumBy(m, QuantityWeight) + QuantityOf(l) as real
  {
    var q := OM.Get(m, ItemOf(l)).GetOr(0) + QuantityOf(l);
    OM.SetKeys(m, ItemOf(l), q);
    OM.SetSum(m, ItemOf(l), q, QuantityWeight);
  }

  lemma {:induction false} QuantityForAbsent(lines: seq<Line>, name: string)
    requires name !in ItemNames(lines)
    ensures QuantityFor(lines, name) == 0
  {
    if lines != [] {
      var prefix := lines[..|lines| - 1];
      assert ItemNames(lines) == ItemNames(prefix) + [ItemOf(lines[|lines| - 1])];
      QuantityForAbsent(prefix, name);
    }
  }

  /** `summaryByMenu` has one key per distinct item name, in the order the names first occur. */
  lemma {:induction false} MenuRollupKeys(lines: seq<Line>)
    ensures OM.Keys(MenuRollup(lines)) == OM.FirstSeen(ItemNames(lines))
  {
    if lines != [] {
      var prefix := lines[..|lines| - 1];
      var last := lines[|lines| - 1];
      MenuRollupKeys(prefix);
      AddQuantityStep(MenuRollup(prefix), last);
      assert ItemNames(lines) == ItemNames(prefix) + [ItemOf(last)];
      assert ItemNames(lines)[..|lines| - 1] == ItemNames(prefix);
    }
  }

  /** `summaryByMenu` holds, for each item name that occurs, the sum of that item's quantities, and nothing else. */
  lemma {:induction false} MenuRollupGet(lines: seq<Line>)
    ensures forall name :: OM.Get(MenuRollup(lines), name)
                           == if name in ItemNames(lines) then Some(QuantityFor(lines, name)) else None
  {
    if lines != [] {
      var prefix := lines[..|lines| - 1];
      var last := lines[|lines| - 1];
      MenuRollupGet(prefix);
      AddQuantityStep(MenuRollup(prefix), last);
      assert ItemNames(lines) == ItemNames(prefix) + [ItemOf(last)];
      if ItemOf(last) !in ItemNames(prefix) {
        QuantityForAbsent(prefix, ItemOf(last));
      }
    }
  }

  /** The quantities in `summaryByMenu` add up to the total quantity ordered. */
  lemma {:induction false} MenuRollupSum(lines: seq<Line>)
    ensures OM.SumBy(MenuRollup(lines), QuantityWeight) == TotalQuantity(lines) as real
  {
    if lines != [] {
      var prefix := lines[..|lines| - 1];
      MenuRollupSum(prefix);
      AddQuantityStep(MenuRollup(prefix), lines[|lines| - 1]);
    }
  }

  /** The user ids of the priced lines, in order. */
  function UserIds(priced: seq<PricedLine>): (ids: seq<UserId>)
    ensures |ids| == |priced|
    ensures forall i :: 0 <= i < |priced| ==> ids[i] == UserOf(priced[i].line)
  {
    if priced == [] then [] else UserIds(priced[..|priced| - 1]) + [UserOf(priced[|priced| - 1].line)]
  }

  /** The sum of user `u`'s final prices. */
  function UserSpend(priced: seq<PricedLine>, u: UserId): real {
    if priced == [] then 0.0
    else
      var last := priced[|priced| - 1];
      UserSpend(priced[..|priced| - 1], u) + (if UserOf(last.line) == u then last.finalPrice else 0.0)
  }

  /** The display name taken from user `u`'s first line. */
  function FirstName(priced: seq<PricedLine>, u: UserId): string
    requires u in UserIds(priced)
  {
    DisplayName(priced[OM.FirstIndex(UserIds(priced), u)].line.profile)
  }

  function PriceWeight(t: UserTotal): real { t.finalPrice }

  /**
   * One step of `summaryByUser`: add the line's final price to its user's
   * running total; a new entry takes its name from this line.
   */
  function AddPrice(m: OM.OrderedMap<UserId, UserTotal>, p: PricedLine): (r: OM.OrderedMap<UserId, UserTotal>)
    ensures OM.Distinct(OM.Keys(m)) ==> OM.Distinct(OM.Keys(r))
  {
    var current := OM.Get(m, UserOf(p.line)).GetOr(UserTotal(DisplayName(p.line.profile), 0.0));
    var t := UserTotal(current.userName, current.finalPrice + p.finalPrice);
    if OM.Distinct(OM.Keys(m)) then OM.SetKeysDistinct(m, UserOf(p.line), t); OM.Set(m, UserOf(p.line), t)
    else OM.Set(m, UserOf(p.line), t)
  }

  /**
   * `summaryByUser`: a `Map` from user id to the name of the user's first
   * line and the running total; no user is a key twice.
   */
  function UserRollup(priced: seq<PricedLine>): (m: OM.OrderedMap<UserId, UserTotal>)
    ensures OM.Distinct(OM.Keys(m))
  {
    if priced == [] then [] else AddPrice(UserRollup(priced[..|priced| - 1]), priced[|priced| - 1])
  }

  /** A step adds the line's final price to its user's entry, creating it if need be, and to the total. */
  lemma {:induction false} AddPriceStep(m: OM.OrderedMap<UserId, UserTotal>, p: PricedLine)
    ensures var u := UserOf(p.line);
      OM.Keys(AddPrice(m, p)) == if u in OM.Keys(m) then OM.Keys(m) else OM.Keys(m) + [u]
    ensures var u := UserOf(p.line);
      OM.Get(AddPrice(m, p), u)
      == Some(match OM.Get(m, u)
              case Some(t) => UserTotal(t.userName, t.finalPrice + p.finalPrice)
              case None => UserTotal(DisplayName(p.line.profile), p.finalPrice))
    ensures forall v :: v != UserOf(p.line) ==> OM.Get(AddPrice(m, p), v) == OM.Get(m, v)
    ensures OM.SumBy(AddPrice(m, p), PriceWeight) == OM.SumBy(m, PriceWeight) + p.finalPrice
  {
    var u := UserOf(p.line);
    var current := OM.Get(m, u).GetOr(UserTotal(DisplayName(p.line.profile), 0.0));
    var t := UserTotal(current.userName, current.finalPrice + p.finalPrice);
    OM.SetKeys(m, u, t);
    OM.SetSum(m, u, t, PriceWeight);
  }

  lemma {:induction false} UserSpendAbsent(priced: seq<PricedLine>, u: UserId)
    requires u !in UserIds(priced)
    ensures UserSpend(priced, u) == 0.0
  {
    if priced != [] {
      var prefix := priced[..|priced| - 1];
      assert UserIds(priced) == UserIds(prefix) + [UserOf(priced[|priced| - 1].line)];
      UserSpendAbsent(prefix, u);
    }
  }

  /** `summaryByUser` has one key per distinct user, in the order the users first occur. */
  lemma {:induction false} UserRollupKeys(priced: seq<PricedLine>)
    ensures OM.Keys(UserRollup(priced)) == OM.FirstSeen(UserIds(priced))
  {
    if priced != [] {
      var prefix := priced[..|priced| - 1];
      UserRollupKeys(prefix);
      AddPriceStep(UserRollup(prefix), priced[|priced| - 1]);
      assert UserIds(priced)[..|priced| - 1] == UserIds(prefix);
    }
  }

  /**
   * `summaryByUser` holds, for each user that occurs, the display name of
   * the user's first line and the sum of the user's final prices, and
   * nothing else.
   */
  lemma {:induction false} UserRollupGet(priced: seq<PricedLine>)
    ensures forall u :: OM.Get(UserRollup(priced), u)
                        == if u in UserIds(priced) then Some(UserTotal(FirstName(priced, u), UserSpend(priced, u)))
                           else None
  {
    forall u
      ensures OM.Get(UserRollup(priced), u)
              == if u in UserIds(priced) then Some(UserTotal(FirstName(priced, u), UserSpend(priced, u))) else None
    {
      UserRollupGetAt(priced, u);
    }
  }

  /** `UserRollupGet` for one user `v`, by induction on the lines. */
  lemma {:induction false} UserRollupGetAt(priced: seq<PricedLine>, v: UserId)
    ensures OM.Get(UserRollup(priced), v)
            == if v in UserIds(priced) then Some(UserTotal(FirstName(priced, v), UserSpend(priced, v))) else None
  {
    if priced != [] {
      var prefix := priced[..|priced| - 1];
      var last := priced[|priced| - 1];
      var u := UserOf(last.line);
      UserRollupGetAt(prefix, v);
      AddPriceStep(UserRollup(prefix), last);
      assert UserIds(priced) == UserIds(prefix) + [u];
      if v in UserIds(priced) {
        OM.FirstIndexAppend(UserIds(prefix), u, v);
        if v == u && u !in UserIds(prefix) {
          UserSpendAbsent(prefix, u);
        }
      }
    }
  }

  /** The totals in `summaryByUser` add up to the sum of all final prices. */
  lemma {:induction false} UserRollupSum(priced: seq<PricedLine>)
    ensures OM.SumBy(UserRollup(priced), PriceWeight) == SumFinal(priced)
  {
    if priced != [] {
      var prefix := priced[..|priced| - 1];
      UserRollupSum(prefix);
      AddPriceStep(UserRollup(prefix), priced[|priced| - 1]);
    }
  }

  // ---------------------------------------------------------------------------
  // The summary
  // ---------------------------------------------------------------------------

  /**
   * `calculateOrderSummary`. An empty list short-circuits to the default
   * summary; any other list divides by its gross total, which must not be 0.
   */
  function CalculateOrderSummary(order: OrderCols, lines: seq<Line>): (s: OrderSummary)
    requires lines == [] || Gross(lines) != 0.0
    ensures s.grossTotal == Gross(lines) && s.additionalFees == FeeOf(order)
    ensures |s.pricedLines| == |lines|
    ensures lines != [] ==> s.netTotal == s.grossTotal - s.discount && s.grandTotal == s.netTotal + s.additionalFees
    ensures lines == [] ==> s.grandTotal == 0.0 && s.discount == 0.0 && s.byMenu == [] && s.byUser == []
  {
    if lines == [] then
      OrderSummary(0.0, 0.0, 0.0, FeeOf(order), 0.0, [], 0.0, [], [])
    else
      var gross := Gross(lines);
      var discount := AppliedDiscount(gross, order);
      var net := gross - discount;
      var fee := FeeOf(order);
      var priced := Allocate(lines, gross, discount, fee);
      OrderSummary(gross, net, discount, fee, net + fee, priced,
                   UncappedDiscount(gross, order), MenuRollup(lines), UserRollup(priced))
  }

  /** The summary of a non-empty list prices its lines against its own gross total, discount and fee. */
  lemma {:induction false} SummaryFields(order: OrderCols, lines: seq<Line>)
    requires lines != [] && Gross(lines) != 0.0
    ensures var s := CalculateOrderSummary(order, lines);
      && s.grossTotal != 0.0 && |s.pricedLines| == |lines|
      && s.grandTotal == s.grossTotal - s.discount + s.additionalFees
      && s.pricedLines == Allocate(lines, s.grossTotal, s.discount, s.additionalFees)
  {
  }

  /** With no line items every amount is 0 except the fee, the grand total included, and both rollups are empty. */
  lemma {:induction false} EmptyOrderSummary(order: OrderCols)
    ensures var s := CalculateOrderSummary(order, []);
      && s.grossTotal == 0.0 && s.netTotal == 0.0 && s.discount == 0.0 && s.uncappedDiscount == 0.0
      && s.grandTotal == 0.0 && s.additionalFees == FeeOf(order)
      && s.pricedLines == [] && s.byMenu == [] && s.byUser == []
  {
  }

  /** The grand total is net plus fee exactly when there are lines or the fee is 0: an empty order drops its fee. */
  lemma {:induction false} SummaryTotals(order: OrderCols, lines: seq<Line>)
    requires lines == [] || Gross(lines) != 0.0
    ensures var s := CalculateOrderSummary(order, lines);
      s.grandTotal == s.netTotal + s.additionalFees <==> lines != [] || FeeOf(order) == 0.0
  {
  }

  /**
   * Below the minimum order there is no discount; otherwise the uncapped
   * discount is the percentage of the gross and the applied one is that,
   * limited by the cap, where an absent or zero maximum is no cap.
   */
  lemma {:induction false} SummaryDiscount(order: OrderCols, lines: seq<Line>)
    requires lines != [] && Gross(lines) != 0.0
    ensures var s := CalculateOrderSummary(order, lines);
      && s.discount <= s.uncappedDiscount
      && (s.grossTotal < MinOrder(order) ==> s.discount == 0.0 && s.uncappedDiscount == 0.0)
      && (s.grossTotal >= MinOrder(order) ==> s.uncappedDiscount == s.grossTotal * Percentage(order) / 100.0)
      && (CapOf(order).NoCap? ==> s.discount == s.uncappedDiscount)
      && (CapOf(order).Capped? && s.grossTotal >= MinOrder(order) ==>
            s.discount <= CapOf(order).limit
            && (s.discount == s.uncappedDiscount || s.discount == CapOf(order).limit))
  {
  }

  /** `part / whole * total`: the share of `total` that `part` is of `whole`. */
  function Share(part: real, whole: real, total: real): real
    requires whole != 0.0
  {
    part / whole * total
  }

  /** In a summary whose lines are allocated against its own totals, each line pays its subtotal's share of the grand total. */
  lemma {:induction false} AllocatedPrice(lines: seq<Line>, s: OrderSummary, i: nat)
    requires s.grossTotal != 0.0 && i < |lines|
    requires s.grandTotal == s.grossTotal - s.discount + s.additionalFees
    requires s.pricedLines == Allocate(lines, s.grossTotal, s.discount, s.additionalFees)
    ensures s.pricedLines[i] == PricedLine(lines[i], Share(Subtotal(lines[i]), s.grossTotal, s.grandTotal))
  {
    AllocatePrices(lines, s.grossTotal, s.discount, s.additionalFees);
    AdjustedIsProportion(Subtotal(lines[i]), s.grossTotal, s.discount, s.additionalFees);
  }

  /** Each line keeps its place and pays its subtotal's share of the grand total. */
  lemma {:induction false} FinalPriceIsShareOfGrand(order: OrderCols, lines: seq<Line>, i: nat)
    requires lines != [] && Gross(lines) != 0.0 && i < |lines|
    ensures var s := CalculateOrderSummary(order, lines);
      s.pricedLines[i] == PricedLine(lines[i], Share(Subtotal(lines[i]), s.grossTotal, s.grandTotal))
  {
    SummaryFields(order, lines);
    AllocatedPrice(lines, CalculateOrderSummary(order, lines), i);
  }

  /** The final prices add up to the grand total. */
  lemma {:induction false} FinalPricesSumToGrand(order: OrderCols, lines: seq<Line>)
    requires lines != [] && Gross(lines) != 0.0
    ensures var s := CalculateOrderSummary(order, lines);
      SumFinal(s.pricedLines) == s.grandTotal
  {
    var s := CalculateOrderSummary(order, lines);
    var g := Gross(lines);
    AllocateSum(lines, g, s.discount, s.additionalFees);
    AdjustedWhole(g, s.discount, s.additionalFees);
  }

  /** `summaryByMenu`: one entry per distinct item, first-seen order, summed quantities preserving the total. */
  lemma {:induction false} SummaryByMenu(order: OrderCols, lines: seq<Line>)
    requires lines == [] || Gross(lines) != 0.0
    ensures var s := CalculateOrderSummary(order, lines);
      && OM.Keys(s.byMenu) == OM.FirstSeen(ItemNames(lines))
      && (forall name :: name in ItemNames(lines) ==> OM.Get(s.byMenu, name) == Some(QuantityFor(lines, name)))
      && OM.SumBy(s.byMenu, QuantityWeight) == TotalQuantity(lines) as real
  {
    MenuRollupKeys(lines);
    MenuRollupGet(lines);
    MenuRollupSum(lines);
  }

  /** `summaryByUser`: one entry per distinct user, first-seen order, first line's name, totals adding up to the grand total. */
  lemma {:induction false} SummaryByUser(order: OrderCols, lines: seq<Line>)
    requires lines != [] && Gross(lines) != 0.0
    ensures var s := CalculateOrderSummary(order, lines);
      && OM.Keys(s.byUser) == OM.FirstSeen(UserIds(s.pricedLines))
      && (forall u :: u in UserIds(s.pricedLines) ==>
            OM.Get(s.byUser, u) == Some(UserTotal(FirstName(s.pricedLines, u), UserSpend(s.pricedLines, u))))
      && OM.SumBy(s.byUser, PriceWeight) == s.grandTotal
  {
    var s := CalculateOrderSummary(order, lines);
    UserRollupKeys(s.pricedLines);
    UserRollupGet(s.pricedLines);
    UserRollupSum(s.pricedLines);
    FinalPricesSumToGrand(order, lines);
  }
}
