# Group order: the order summary, the order tables and the new-order form

This project is a Dafny model of the core of a group-ordering web app. One
person opens an order for a store, with a deadline, a menu and pricing rules
(a delivery fee, a discount percentage with an optional cap and a minimum
order). Participants then add line items, and the app splits the bill.

The model covers three parts of the app:

- **The order summary** (`calculation.dfy`, module `Calculation`), modelled
  on `calculateOrderSummary`. It computes:
  - the gross total;
  - the discount, which applies from a minimum order on, as a percentage,
    with an optional cap;
  - the net and grand totals;
  - each line's final price, which carries its pro-rata share of the
    discount and of the fee;
  - two rollups: quantity per menu item, and final price per user.

  The calculation is pure, so the model is a function plus lemmas about it.
  Money is exact `real`. Each `reduce` is a recursion on the last element.
  The JavaScript `Map` used by the rollups is `OrderedMap` (`ordered_map.dfy`):
  an association list that keeps its keys in insertion order.
- **The order service** (`orders.dfy`, module `Orders`, and `table.dfy`).
  The database tables `orders`, `participant_orders` and `order_menu_items`
  are in-memory tables of rows with primary keys. The class `OrderService`
  holds the three tables and the next free key. Each service method changes
  them as its queries do. Every method is specified by a function on the old
  tables (`AddParticipant`, `ChangeQuantity`, `Delete`, `SetPaymentStatus`,
  `SetOrderStatus`, `NewOrderRow`/`MenuRows`), and lemmas prove what those
  functions keep and change. The class invariant `Valid` says that no two
  rows of a table share a key and that every key lies below the next free
  key, so every key the service hands out is fresh.
- **The "new order" page** (`create_order.dfy`, module `CreateOrder`). It
  covers:
  - the future-date validator, which truncates now to the minute;
  - the hours-and-minutes countdown under the deadline field;
  - the validators of every form control;
  - adding and removing menu rows;
  - the submit handler.

  The component is a class whose fields are the form's controls, the
  `pastDate` error the deadline control holds, and the countdown message.
  Angular runs a control's validators when its value changes and stores the
  result; `onSubmit` reads that stored status and does not re-run
  `futureDateValidator`. The model keeps this: `EditDeadline` validates
  against the clock at the time of the edit, and `OnSubmit` reads the stored
  flag. A deadline that was in the future when it was entered therefore
  still passes when the form is submitted after it has gone by
  (`DeadlineStatusGoesStale` gives one such pair of times).

Times are integer milliseconds since the epoch. The clock is a parameter
(`now`), and so is the logged-in user (`currentUser: Option<UserId>`).

Three details of `calculateOrderSummary` are modelled as written:

- Only an empty (or missing) list of line items short-circuits to the
  default summary. A non-empty list with a gross total of 0 divides 0 by 0,
  which gives NaN in JavaScript. The model therefore requires
  `lines == [] || Gross(lines) != 0.0` and does not model a summary for that
  case.
- The default summary for an empty list has a grand total of 0 but carries
  the fee as the additional fee. So `grand == net + fee` fails for an empty
  order with a fee (`SummaryTotals` states exactly when it holds).
- `max_discount || Infinity` treats an explicit 0 exactly like an absent
  value: as no cap, not as a cap of 0 (`CapOf`).

Two details of `addParticipantOrder` are modelled as written:

- A repeated submission adds `quantity || 1`, so a quantity of 0 adds 1.
- A first submission inserts the given quantity unchanged, even when it is 0.

## Model

Source paths are relative to the repository root.

| member | source | states |
|---|---|---|
| Calculation.DisplayName | frontend/my-group-order-app-ui/src/app/core/services/calculation.service.ts:90 | the name shown is the profile's full name when it is present and non-empty, and exactly 'Tidak diketahui' when the profile is missing or its name is empty; it is never empty |
| Calculation.GrossNonNegative | frontend/my-group-order-app-ui/src/app/core/services/calculation.service.ts:43 | with non-negative prices and quantities the gross total is non-negative, and it is 0 exactly when every line's price × quantity is 0 |
| Calculation.CapOf | frontend/my-group-order-app-ui/src/app/core/services/calculation.service.ts:50 | `max_discount \|\| Infinity`: there is no cap exactly when the maximum is absent or 0, otherwise the cap is the maximum |
| Calculation.UncappedDiscount | frontend/my-group-order-app-ui/src/app/core/services/calculation.service.ts:46-52 | the uncapped discount is 0 exactly when the gross is below the minimum order, the gross is 0 or the percentage is 0; with a non-negative gross and a percentage from 0 to 100 it lies between 0 and the gross |
| Calculation.AppliedDiscount | frontend/my-group-order-app-ui/src/app/core/services/calculation.service.ts:46-52 | the applied discount never exceeds the uncapped one; it is 0 below the minimum order; without a cap it equals the uncapped one; with a cap (from the minimum order on) it is at most the cap and equals either the uncapped discount or the cap |
| Calculation.CalculateOrderSummary | frontend/my-group-order-app-ui/src/app/core/services/calculation.service.ts:25-111 | the gross total is the sum of price × quantity and the additional fee is `fee \|\| 0`; one priced line per line item; with lines, net = gross − discount and grand = net + fee; with no lines the grand total and the discount are 0 and both rollups are empty |
| Calculation.EmptyOrderSummary | frontend/my-group-order-app-ui/src/app/core/services/calculation.service.ts:26-40 | with no line items every amount is 0, the grand total included, except the additional fee, which is `fee \|\| 0`; the priced lines and both rollups are empty |
| Calculation.SummaryTotals | frontend/my-group-order-app-ui/src/app/core/services/calculation.service.ts:26-59 | grand = net + fee holds exactly when there are line items or the fee is 0: an empty order does not charge its fee |
| Calculation.SummaryDiscount | frontend/my-group-order-app-ui/src/app/core/services/calculation.service.ts:46-52 | below the minimum order both discounts are 0; from it on the uncapped discount is gross × pct / 100 and the applied one is the uncapped one limited by the cap (equal to it without a cap); the applied discount never exceeds the uncapped one |
| Calculation.Allocate | frontend/my-group-order-app-ui/src/app/core/services/calculation.service.ts:62-75 | one priced line per input line |
| Calculation.AllocatePrices | frontend/my-group-order-app-ui/src/app/core/services/calculation.service.ts:62-75 | the priced list keeps the input order, and entry i is line i paired with its subtotal less its share of the discount plus its share of the fee |
| Calculation.AdjustedIsProportion | frontend/my-group-order-app-ui/src/app/core/services/calculation.service.ts:66-72 | sub − discount·sub/gross + fee·sub/gross equals sub/gross · (gross − discount + fee) |
| Calculation.AdjustedWhole | frontend/my-group-order-app-ui/src/app/core/services/calculation.service.ts:66-72 | the whole gross, adjusted against itself, bears the whole discount and the whole fee |
| Calculation.AllocateLast | frontend/my-group-order-app-ui/src/app/core/services/calculation.service.ts:62-75 | pricing one more line adds its subtotal times (gross − discount + fee)/gross to the sum of final prices |
| Calculation.AllocateSum | frontend/my-group-order-app-ui/src/app/core/services/calculation.service.ts:62-75 | the final prices of any lines add up to their gross total times (gross − discount + fee)/gross |
| Calculation.AllocatedPrice | frontend/my-group-order-app-ui/src/app/core/services/calculation.service.ts:62-75 | in a summary whose lines are priced against its own gross, discount and fee, line i pays subtotal / gross × grand total |
| Calculation.FinalPriceIsShareOfGrand | frontend/my-group-order-app-ui/src/app/core/services/calculation.service.ts:62-75 | in the summary, entry i is line i with the final price subtotal / grossTotal × grandTotal |
| Calculation.FinalPricesSumToGrand | frontend/my-group-order-app-ui/src/app/core/services/calculation.service.ts:55-75 | the final prices add up to the grand total, exactly |
| Calculation.AddQuantityStep | frontend/my-group-order-app-ui/src/app/core/services/calculation.service.ts:79-83 | one fold step adds the line's quantity to its item's entry (starting from 0), creates the key at the end only if it is new, leaves every other key alone and raises the total by the quantity |
| Calculation.MenuRollup | frontend/my-group-order-app-ui/src/app/core/services/calculation.service.ts:78-85 | the `Map` built by the `summaryByMenu` fold never holds an item name twice |
| Calculation.MenuRollupKeys | frontend/my-group-order-app-ui/src/app/core/services/calculation.service.ts:78-85 | `summaryByMenu` has one entry per distinct item name, in the order the names first occur |
| Calculation.MenuRollupGet | frontend/my-group-order-app-ui/src/app/core/services/calculation.service.ts:78-85 | each item name that occurs maps to the sum of its lines' quantities, and no other name has an entry |
| Calculation.MenuRollupSum | frontend/my-group-order-app-ui/src/app/core/services/calculation.service.ts:78-85 | the quantities of `summaryByMenu` add up to the total quantity ordered |
| Calculation.SummaryByMenu | frontend/my-group-order-app-ui/src/app/core/services/calculation.service.ts:77-85 | the summary's menu rollup has first-seen keys, per-item summed quantities and the total quantity |
| Calculation.AddPriceStep | frontend/my-group-order-app-ui/src/app/core/services/calculation.service.ts:89-96 | one fold step adds the line's final price to its user's entry; a new entry takes the line's display name and goes last; other users are untouched; the total rises by the final price |
| Calculation.UserRollup | frontend/my-group-order-app-ui/src/app/core/services/calculation.service.ts:88-98 | the `Map` built by the `summaryByUser` fold never holds a user id twice |
| Calculation.UserRollupKeys | frontend/my-group-order-app-ui/src/app/core/services/calculation.service.ts:88-98 | `summaryByUser` has one entry per distinct user id, in the order the users first occur |
| Calculation.UserRollupGetAt | frontend/my-group-order-app-ui/src/app/core/services/calculation.service.ts:88-98 | a user who occurs maps to the display name of their first line and the sum of their final prices; any other user has no entry |
| Calculation.UserRollupGet | frontend/my-group-order-app-ui/src/app/core/services/calculation.service.ts:88-98 | the same, for every user at once |
| Calculation.UserRollupSum | frontend/my-group-order-app-ui/src/app/core/services/calculation.service.ts:88-98 | the user totals add up to the sum of the final prices |
| Calculation.SummaryByUser | frontend/my-group-order-app-ui/src/app/core/services/calculation.service.ts:87-98 | the summary's user rollup has first-seen keys, first-line names and per-user sums, and its totals add up to the grand total |
| OrderedMap.Set | frontend/my-group-order-app-ui/src/app/core/services/calculation.service.ts:81 | `Map.set` makes the key find the new value and leaves every other key's value alone |
| OrderedMap.SetKeys | frontend/my-group-order-app-ui/src/app/core/services/calculation.service.ts:81 | `Map.set` keeps a present key in its place and appends a new key at the end |
| OrderedMap.SetKeysDistinct | frontend/my-group-order-app-ui/src/app/core/services/calculation.service.ts:81 | `Map.set` never duplicates a key |
| OrderedMap.SetSum | frontend/my-group-order-app-ui/src/app/core/services/calculation.service.ts:81 | `Map.set` changes the sum of the values by the new value minus the value it replaces |
| OrderedMap.FirstSeen | frontend/my-group-order-app-ui/src/app/core/services/calculation.service.ts:78-85 | the reference order of a `Map`'s keys: each distinct element once, ordered by first occurrence |
| Table.Lookup | frontend/my-group-order-app-ui/src/app/core/services/order.service.ts:106-107 | a lookup by primary key finds columns exactly for the keys in the table, and the row it finds is in the table |
| Table.LookupRow | frontend/my-group-order-app-ui/src/app/core/services/order.service.ts:106-107 | under unique keys, looking up a row's key finds that row |
| Table.Update | frontend/my-group-order-app-ui/src/app/core/services/order.service.ts:146-148 | `update(...).eq('id', id)` rewrites exactly the rows with that key and keeps the order and the other rows |
| Table.UpdateLookup | frontend/my-group-order-app-ui/src/app/core/services/order.service.ts:146-148 | an update keeps the set of keys, rewrites what the key finds and leaves what every other key finds alone |
| Table.Delete | frontend/my-group-order-app-ui/src/app/core/services/order.service.ts:221-224 | `delete().eq('id', id)` keeps exactly the rows with another key, and unique keys stay unique |
| Table.DeleteLookup | frontend/my-group-order-app-ui/src/app/core/services/order.service.ts:221-224 | after a delete the key is gone and every other key finds what it found before |
| Table.IdsOfAppend | frontend/my-group-order-app-ui/src/app/core/services/order.service.ts:160-162 | an insert adds the new rows' keys, and disjoint unique keys stay unique |
| Table.AppendFresh | frontend/my-group-order-app-ui/src/app/core/services/order.service.ts:183-207 | rows whose keys come from a fresh range keep the keys unique and below the new bound |
| Table.Select | frontend/my-group-order-app-ui/src/app/core/services/order.service.ts:129-135 | `select()` with filters returns exactly the rows that match, no more rows than the table, with keys that stay unique |
| Orders.AddParticipant | frontend/my-group-order-app-ui/src/app/core/services/order.service.ts:129-170 | the upsert fails, with the `maybeSingle` error, exactly when more than one row exists for the (order, user, item) slot |
| Orders.AddParticipantMerges | frontend/my-group-order-app-ui/src/app/core/services/order.service.ts:143-156 | with one row in the slot, the result raises that row's quantity by `quantity \|\| 1` and adds no row |
| Orders.AddedQuantity | frontend/my-group-order-app-ui/src/app/core/services/order.service.ts:144 | `quantity \|\| 1` is never 0: a quantity of 0 adds 1 and any other quantity is added as it is |
| Orders.MergeSetsQuantity | frontend/my-group-order-app-ui/src/app/core/services/order.service.ts:144-148 | the merge keeps the keys and the length, changes only the merged row's quantity and leaves every other row alone |
| Orders.AddParticipantInserts | frontend/my-group-order-app-ui/src/app/core/services/order.service.ts:158-170 | with no row in the slot, the result appends exactly one new row under a fresh key and keeps every old row |
| Orders.UpdateKeepsSlots | frontend/my-group-order-app-ui/src/app/core/services/order.service.ts:145-148 | changing columns other than the slot's keeps at most one row per slot |
| Orders.InsertKeepsSlots | frontend/my-group-order-app-ui/src/app/core/services/order.service.ts:158-162 | inserting into an empty slot keeps at most one row per slot |
| Orders.AddParticipantKeepsOnePerSlot | frontend/my-group-order-app-ui/src/app/core/services/order.service.ts:128-170 | `addParticipantOrder` preserves "at most one row per (order, user, item)" |
| Orders.ChangeQuantity | frontend/my-group-order-app-ui/src/app/core/services/order.service.ts:341-349 | a quantity ≤ 0 is exactly a delete of that key; any other quantity changes only that row's quantity; unique keys and one row per slot are preserved |
| Orders.DeleteKeepsAtMostOnePerSlot | frontend/my-group-order-app-ui/src/app/core/services/order.service.ts:221-224 | deleting preserves one row per slot |
| Orders.SetPaymentStatus | frontend/my-group-order-app-ui/src/app/core/services/order.service.ts:364-367 | only the row with that key changes, and only its payment status; keys and slots are preserved |
| Orders.Toggled | frontend/my-group-order-app-ui/src/app/features/orders/order-detail/order-detail.component.ts:193 | the toggle always asks for the other status: PAID exactly when the row is UNPAID |
| Orders.SetOrderStatus | frontend/my-group-order-app-ui/src/app/core/services/order.service.ts:240-243 | the order with that key gets the new status, whatever it was; nothing else changes |
| Orders.NewOrderRow | frontend/my-group-order-app-ui/src/app/core/services/order.service.ts:183-191 | the inserted order carries the form's fields, status OPEN and `created_by` = the current user |
| Orders.MenuRows | frontend/my-group-order-app-ui/src/app/core/services/order.service.ts:199-207 | one menu row per form entry, in order, each stamped with the new order's id |
| Orders.MenuRowsFresh | frontend/my-group-order-app-ui/src/app/core/services/order.service.ts:204-207 | the inserted menu rows take distinct keys from a fresh range |
| Orders.InsertDesc | frontend/my-group-order-app-ui/src/app/core/services/order.service.ts:332 | inserting into a list sorted newest first keeps it sorted and adds exactly that element |
| Orders.SortDesc | frontend/my-group-order-app-ui/src/app/core/services/order.service.ts:332 | the sort by descending key returns a sorted permutation of its input |
| Orders.SortKeepsMembers | frontend/my-group-order-app-ui/src/app/core/services/order.service.ts:332 | sorting neither adds nor drops an order |
| Orders.SortKeepsIdsUnique | frontend/my-group-order-app-ui/src/app/core/services/order.service.ts:332 | sorting keeps one order per id |
| Orders.InsertKeepsIdsUnique | frontend/my-group-order-app-ui/src/app/core/services/order.service.ts:332 | inserting an order with a new id keeps one order per id |
| Orders.ById | frontend/my-group-order-app-ui/src/app/core/services/order.service.ts:329 | `new Map(orders.map(o => [o.id, o]))` has distinct keys, each mapping to an order of the list with that id, and a key for every order |
| Orders.Deduplicated | frontend/my-group-order-app-ui/src/app/core/services/order.service.ts:329 | the map's values come from the list, hold one order per id and cover every id of the list |
| Orders.DeduplicatedKeeps | frontend/my-group-order-app-ui/src/app/core/services/order.service.ts:328-329 | for rows of one table, removing duplicates keeps exactly the rows that were there |
| Orders.OrderIdsOf | frontend/my-group-order-app-ui/src/app/core/services/order.service.ts:309 | the order id of every line item, in order |
| Orders.ParticipatedIds | frontend/my-group-order-app-ui/src/app/core/services/order.service.ts:298-309 | the collected order ids are exactly the orders the user has a line item in |
| Orders.ClosedOrderSelected | frontend/my-group-order-app-ui/src/app/core/services/order.service.ts:284-329 | a closed or canceled order is in the merged result exactly when the user created it or took part in it |
| Orders.ClosedOrdersSelected | frontend/my-group-order-app-ui/src/app/core/services/order.service.ts:284-329 | the merged, deduplicated result holds only closed or canceled orders, one per id, and exactly those the user created or took part in |
| Orders.OrderService.constructor | frontend/my-group-order-app-ui/src/app/core/services/order.service.ts:55-59 | the service starts with empty tables and its invariant |
| Orders.OrderService.AddParticipantOrder | frontend/my-group-order-app-ui/src/app/core/services/order.service.ts:123-171 | the new table is the upsert's result or, on the lookup error, the old one; the other tables are unchanged; one row per slot is preserved; the key counter advances by one only when a row is inserted |
| Orders.OrderService.CreateOrder | frontend/my-group-order-app-ui/src/app/core/services/order.service.ts:173-216 | without a user it fails with "not logged in" and changes nothing, the key counter included; otherwise it appends the OPEN order created by the user under a fresh key and its menu rows stamped with that key, and the counter moves past every key used |
| Orders.OrderService.DeleteParticipantOrder | frontend/my-group-order-app-ui/src/app/core/services/order.service.ts:218-234 | the line items become the delete of that key; the other tables are unchanged |
| Orders.OrderService.UpdateParticipantOrder | frontend/my-group-order-app-ui/src/app/core/services/order.service.ts:337-359 | the line items become `ChangeQuantity` of the old ones; a quantity ≤ 0 deletes the row |
| Orders.OrderService.UpdatePaymentStatus | frontend/my-group-order-app-ui/src/app/core/services/order.service.ts:361-377 | the line items become `SetPaymentStatus` of the old ones |
| Orders.OrderService.CloseOrder | frontend/my-group-order-app-ui/src/app/core/services/order.service.ts:237-252 | the order's status becomes CLOSED, with no check of the prior status; the other tables and the key counter are unchanged |
| Orders.OrderService.CancelOrder | frontend/my-group-order-app-ui/src/app/core/services/order.service.ts:255-270 | the order's status becomes CANCELED, with no check of the prior status; the other tables and the key counter are unchanged |
| Orders.OrderService.GetActiveOrders | frontend/my-group-order-app-ui/src/app/core/services/order.service.ts:65-84 | exactly the OPEN orders whose deadline is after now, newest first, one per id |
| Orders.OrderService.GetClosedOrdersForUser | frontend/my-group-order-app-ui/src/app/core/services/order.service.ts:272-335 | nothing without a user; otherwise exactly the closed or canceled orders the user created or took part in, one per id, latest deadline first |
| CreateOrder.MinuteStart | frontend/my-group-order-app-ui/src/app/features/orders/create-order/create-order.component.ts:12-14 | `setSeconds(0, 0)` gives a whole minute at most now and less than a minute before it |
| CreateOrder.MinuteStartUnique | frontend/my-group-order-app-ui/src/app/features/orders/create-order/create-order.component.ts:12-14 | that whole minute is the only one with this property |
| CreateOrder.PastDate | frontend/my-group-order-app-ui/src/app/features/orders/create-order/create-order.component.ts:10-20 | `futureDateValidator` only flags a selected time before now, and always flags one at least a minute before now; an empty field is never flagged |
| CreateOrder.PastDateIsEarlierMinute | frontend/my-group-order-app-ui/src/app/features/orders/create-order/create-order.component.ts:10-20 | the validator reports `pastDate` exactly when the selected time falls in an earlier minute than now |
| CreateOrder.DeadlineValid | frontend/my-group-order-app-ui/src/app/features/orders/create-order/create-order.component.ts:41 | the deadline control, validated at now, is valid exactly when a deadline is set and its minute is not earlier than now's |
| CreateOrder.DeadlineStatusGoesStale | frontend/my-group-order-app-ui/src/app/features/orders/create-order/create-order.component.ts:105-109 | a deadline that passes the validator when entered can fail it two minutes later, when it is submitted |
| CreateOrder.Split | frontend/my-group-order-app-ui/src/app/features/orders/create-order/create-order.component.ts:75-76 | for a positive difference, hours ≥ 0, 0 ≤ minutes < 60 and hours·3600000 + minutes·60000 ≤ diff < that + 60000 |
| CreateOrder.SplitUnique | frontend/my-group-order-app-ui/src/app/features/orders/create-order/create-order.component.ts:75-76 | the hours and minutes shown are the only pair with those bounds |
| CreateOrder.Message | frontend/my-group-order-app-ui/src/app/features/orders/create-order/create-order.component.ts:60-79 | a countdown is only shown for a set deadline whose control holds no error and that lies after now, and it brackets the time left to the minute |
| CreateOrder.MessageShown | frontend/my-group-order-app-ui/src/app/features/orders/create-order/create-order.component.ts:54-79 | when the deadline was validated with the same clock, a countdown is shown exactly when a deadline is set and lies after now |
| CreateOrder.Submitted | frontend/my-group-order-app-ui/src/app/features/orders/create-order/create-order.component.ts:113 | the order form handed to the service carries every field of the form: title, store, deadline, menu rows and the four amounts |
| CreateOrder.MenuItemValid | frontend/my-group-order-app-ui/src/app/features/orders/create-order/create-order.component.ts:82-86 | a valid menu row has a price of at least 0, so the empty row `createMenuItem` builds is never valid |
| CreateOrder.FormValid | frontend/my-group-order-app-ui/src/app/features/orders/create-order/create-order.component.ts:38-51 | a valid form has a deadline and is never the form as first built |
| CreateOrder.ValidFormDiscountWithinGross | frontend/my-group-order-app-ui/src/app/features/orders/create-order/create-order.component.ts:47-50 | the field bounds make every order created from a form whose controls are valid take a discount between 0 and the gross, and a fee of at least 0, whatever the clock |
| CreateOrder.SpliceStart | frontend/my-group-order-app-ui/src/app/features/orders/create-order/create-order.component.ts:101 | the removal position: an index in range is used as is, a negative one counts from the end, and the result is clamped to the list |
| CreateOrder.RemoveAt | frontend/my-group-order-app-ui/src/app/features/orders/create-order/create-order.component.ts:100-102 | `removeAt` takes out one row when the list is not empty and the index is below its length, none for an index past the end, and never a row that was not there |
| CreateOrder.RemoveAtDropsRow | frontend/my-group-order-app-ui/src/app/features/orders/create-order/create-order.component.ts:100-102 | removing row i drops exactly that row and keeps the others in order |
| CreateOrder.RemoveAtPastEnd | frontend/my-group-order-app-ui/src/app/features/orders/create-order/create-order.component.ts:100-102 | an index past the last row removes nothing |
| CreateOrder.RemoveUndoesAdd | frontend/my-group-order-app-ui/src/app/features/orders/create-order/create-order.component.ts:94-102 | removing the row just added, by its position or as index −1, restores the rows |
| CreateOrder.CreateOrderComponent.constructor | frontend/my-group-order-app-ui/src/app/features/orders/create-order/create-order.component.ts:37-51 | the form starts with empty texts, one empty menu row, 0 in the four amounts, no `pastDate` error and no message |
| CreateOrder.CreateOrderComponent.EditDeadline | frontend/my-group-order-app-ui/src/app/features/orders/create-order/create-order.component.ts:41-56 | a deadline edit stores the validator's result at the edit time and sets the countdown to the hours and minutes left to the new deadline under that result, shown exactly when the deadline lies after that time; nothing else changes |
| CreateOrder.CreateOrderComponent.UpdateTimeUntilClose | frontend/my-group-order-app-ui/src/app/features/orders/create-order/create-order.component.ts:60-79 | the message becomes the countdown for the deadline under its stored status, and nothing else changes |
| CreateOrder.CreateOrderComponent.AddMenuItem | frontend/my-group-order-app-ui/src/app/features/orders/create-order/create-order.component.ts:95-97 | exactly one empty row is appended; nothing else changes |
| CreateOrder.CreateOrderComponent.RemoveMenuItem | frontend/my-group-order-app-ui/src/app/features/orders/create-order/create-order.component.ts:100-102 | the rows become `RemoveAt` of the old rows; nothing else changes |
| CreateOrder.CreateOrderComponent.OnSubmit | frontend/my-group-order-app-ui/src/app/features/orders/create-order/create-order.component.ts:105-119 | validity is the controls' stored status, the deadline's as of its last edit; an invalid form is marked touched and never reaches the service; a valid one creates the order through the service or reports its error; the line items are never touched |

## Left out

- Network I/O. The Supabase client, the `!this.supabase` guards, console logging and database failures other than `maybeSingle`'s are not modelled. Every other query is modelled as succeeding.
- Database-generated keys. Keys are natural numbers from a counter in the service, not UUIDs.
- Database defaults. A new line item is stored as UNPAID, and an order's `created_at` is the `now` passed to `CreateOrder`.
- `getOrderById` (`_fetchOrderById`): a single lookup by key with its joins. Only the lookup is modelled (`Table.Lookup`); the joins are not.
- The joins `profiles(...)` and `participant_orders(...)` in the select lists. The summary receives the lines with their profiles as a parameter.
- Orders.OrderService.CreateOrder: does not model the partial state left when the menu insert fails after the order insert. The model has no failing inserts.
- Calculation.CalculateOrderSummary: it requires a non-zero gross total for a non-empty list. The source divides by the gross total, so 0 gives NaN prices; floating-point NaN and rounding are not modelled.
- Floating point. Money is exact `real`, quantities are `int`, and the sum identities hold exactly where JavaScript doubles only approximate them.
- `x || d` on the optional amounts (`fee`, `discount_percentage`, `max_discount`, `min_order_for_discount`) is modelled as "absent gives d". An explicit 0 gives d as well, which is 0 for all but `max_discount` (see `CapOf`). A NaN value, which JavaScript also replaces, does not exist in the model. The quantity in `quantity || 1` is an `int`; there a 0 gives 1 (`AddedQuantity`).
- Date parsing and local time. `new Date(string)` and `setSeconds` in the local time zone are replaced by integer milliseconds. Truncation to the minute is done in UTC, which matches local time for every whole-minute zone offset.
- The countdown text. The message is the pair (hours, minutes), not the formatted string `(Akan tutup dalam ~H jam M menit)`.
- CreateOrder.CreateOrderComponent.UpdateTimeUntilClose: reads the deadline field instead of taking the emitted value as a parameter. The subscription passes the field's new value, so the two are the same.
- Edits to the other controls. Their validators do not read the clock, so their status is always the one `ControlsValid` computes from the current value; only the deadline keeps a stored status.
- The validator and the countdown use one clock value per call, where the source reads `new Date()` separately in each.
- Angular plumbing: `ngOnDestroy`, the `valueChanges` subscription, the router, `alert`, and `FormBuilder` internals. The form is a class with one field per control.
- Realtime updates and the rest of the order page. Only the payment toggle's rule is modelled (`Orders.Toggled`).
