/**
 * The "new order" page (`CreateOrderComponent`): the validators of its form,
 * the countdown shown under the deadline field, the editable list of menu
 * rows and the submit handler that hands the form to the order service.
 * Times are milliseconds since the epoch and the clock is a parameter.
 */
module CreateOrder {
  import opened Wrappers
  import opened Table
  import opened Orders
  import Calculation

  const MinuteMs: int := 60000
  const HourMs: int := 3600000

  // ---------------------------------------------------------------------------
  // The deadline validator
  // ---------------------------------------------------------------------------

  /** `now.setSeconds(0, 0)`: the start of the minute `now` falls in. */
  function MinuteStart(now: int): (m: int)
    ensures m <= now < m + MinuteMs
    ensures m % MinuteMs == 0
  {
    now - now % MinuteMs
  }

  /** The start of the minute is the only multiple of a minute within the minute before `now`. */
  lemma {:induction false} MinuteStartUnique(now: int, m: int)
    requires m % MinuteMs == 0 && m <= now < m + MinuteMs
    ensures m == MinuteStart(now)
  {
    var s := MinuteStart(now);
    var a, b := m / MinuteMs, s / MinuteMs;
    assert m == a * MinuteMs && s == b * MinuteMs;
    NextMinute(a, b);
    NextMinute(b, a);
  }

  /** Two different multiples of a minute lie at least a minute apart. */
  lemma {:induction false} NextMinute(a: int, b: int)
    ensures a < b ==> a * MinuteMs + MinuteMs <= b * MinuteMs
  {
    assert MinuteMs == 60000;
  }

  /**
   * `futureDateValidator`: the error `pastDate` when the selected time lies
   * before the current minute. An empty field parses to an invalid date,
   * which compares false, so it raises no `pastDate`.
   */
  predicate PastDate(selected: Option<int>, now: int): (past: bool)
    ensures past ==> selected.Some? && selected.value < now
    ensures selected.Some? && selected.value + MinuteMs <= now ==> past
  {
    selected.Some? && selected.value < MinuteStart(now)
  }

  /** The validator flags exactly the times that fall in an earlier minute than now. */
  lemma {:induction false} PastDateIsEarlierMinute(selected: int, now: int)
    ensures PastDate(Some(selected), now) <==> selected / MinuteMs < now / MinuteMs
  {
    var q, p := now / MinuteMs, selected / MinuteMs;
    assert MinuteStart(now) == q * MinuteMs;
    assert p * MinuteMs <= selected < p * MinuteMs + MinuteMs;
    NextMinute(p, q);
    NextMinute(q, p);
  }

  // ---------------------------------------------------------------------------
  // The countdown
  // ---------------------------------------------------------------------------

  /** The whole hours and the whole minutes left of `~H jam M menit`. */
  datatype Countdown = Countdown(hours: int, minutes: int)

  /** `Math.floor(diff / 3600000)` and `Math.floor((diff % 3600000) / 60000)` for a positive `diff`. */
  function Split(diff: int): (c: Countdown)
    requires diff > 0
    ensures c.hours >= 0 && 0 <= c.minutes < 60
    ensures c.hours * HourMs + c.minutes * MinuteMs <= diff < c.hours * HourMs + (c.minutes + 1) * MinuteMs
  {
    var rest := diff % HourMs;
    assert diff == diff / HourMs * HourMs + rest;
    assert rest == rest / MinuteMs * MinuteMs + rest % MinuteMs;
    Countdown(diff / HourMs, rest / MinuteMs)
  }

  /** The hours and minutes shown are the only ones that bracket the time left to the minute. */
  lemma {:induction false} SplitUnique(diff: int, c: Countdown)
    requires diff > 0 && c.hours >= 0 && 0 <= c.minutes < 60
    requires c.hours * HourMs + c.minutes * MinuteMs <= diff < c.hours * HourMs + (c.minutes + 1) * MinuteMs
    ensures c == Split(diff)
  {
    var s := Split(diff);
    var x, y := c.hours * 60 + c.minutes, s.hours * 60 + s.minutes;
    assert x * MinuteMs <= diff < x * MinuteMs + MinuteMs;
    assert y * MinuteMs <= diff < y * MinuteMs + MinuteMs;
    NextMinute(x, y);
    NextMinute(y, x);
    assert x == y;
    assert c.hours == x / 60 && s.hours == y / 60;
  }

  /**
   * The message `updateTimeUntilClose` leaves, given whether the deadline
   * control holds the `pastDate` error: none for an empty or invalid deadline
   * or one that is not after now, otherwise the countdown to it.
   */
  function Message(deadline: Option<int>, pastDate: bool, now: int): (m: Option<Countdown>)
    ensures m.Some? ==> DeadlineControlValid(deadline, pastDate) && deadline.value > now
    ensures m.Some? ==>
      m.value.hours * HourMs + m.value.minutes * MinuteMs <= deadline.value - now
      < m.value.hours * HourMs + (m.value.minutes + 1) * MinuteMs
  {
    if !DeadlineControlValid(deadline, pastDate) then None
    else if deadline.value - now <= 0 then None
    else Some(Split(deadline.value - now))
  }

  /**
   * When the deadline was validated with the same clock, a countdown is shown
   * exactly when a deadline is set after now: the validator never hides one.
   */
  lemma {:induction false} MessageShown(deadline: Option<int>, now: int)
    ensures Message(deadline, PastDate(deadline, now), now).Some? <==> deadline.Some? && deadline.value > now
  {
    if deadline.Some? && deadline.value > now {
      assert MinuteStart(now) <= now;
      assert DeadlineControlValid(deadline, PastDate(deadline, now));
    }
  }

  /**
   * The stored `pastDate` error goes stale: a deadline five seconds into the
   * minute after the one it was entered in passes the validator, and two
   * minutes later the same value would fail it, yet nothing re-runs the
   * validator before the form is submitted.
   */
  lemma {:induction false} DeadlineStatusGoesStale()
    ensures !PastDate(Some(605000), 600000) && PastDate(Some(605000), 727000)
    ensures DeadlineControlValid(Some(605000), PastDate(Some(605000), 600000))
    ensures !DeadlineValid(Some(605000), 727000)
  {
    assert MinuteStart(600000) == 600000;
    assert MinuteStart(727000) == 720000;
  }

  // ---------------------------------------------------------------------------
  // The form
  // ---------------------------------------------------------------------------

  /** The value of the order form; the number fields may be left empty. */
  datatype FormValue = FormValue(
    title: string,
    storeName: string,
    deadline: Option<int>,
    menuItems: seq<MenuItem>,
    serviceAndDeliveryFee: Option<real>,
    discountPercentage: Option<real>,
    maxDiscount: Option<real>,
    minOrderForDiscount: Option<real>)

  /** `Validators.required` on a text field. */
  predicate Filled(s: string) { s != "" }

  /** `Validators.min(m)`: an empty number passes, a present one is compared. */
  predicate AtLeast(v: Option<real>, m: real) { v.None? || v.value >= m }

  /** `Validators.max(m)`: an empty number passes, a present one is compared. */
  predicate AtMost(v: Option<real>, m: real) { v.None? || v.value <= m }

  /** A menu row: a name is required, and a price that is at least 0. */
  predicate MenuItemValid(item: MenuItem): (ok: bool)
    ensures ok ==> item.price.Some? && item.price.value >= 0.0
    ensures ok ==> item != EmptyMenuItem
  {
    Filled(item.name) && item.price.Some? && AtLeast(item.price, 0.0)
  }

  /**
   * The status of the deadline control: required, and free of the `pastDate`
   * error that `futureDateValidator` stored when the control last changed.
   */
  predicate DeadlineControlValid(deadline: Option<int>, pastDate: bool) {
    deadline.Some? && !pastDate
  }

  /** The deadline control's status when its validator runs with the clock at `now`. */
  predicate DeadlineValid(deadline: Option<int>, now: int): (ok: bool)
    ensures ok <==> deadline.Some? && deadline.value / MinuteMs >= now / MinuteMs
  {
    if deadline.Some? then
      PastDateIsEarlierMinute(deadline.value, now);
      DeadlineControlValid(deadline, PastDate(deadline, now))
    else false
  }

  /** The validators of every control except the deadline; none of them reads the clock. */
  predicate ControlsValid(v: FormValue) {
    && Filled(v.title) && Filled(v.storeName)
    && (forall i :: 0 <= i < |v.menuItems| ==> MenuItemValid(v.menuItems[i]))
    && v.serviceAndDeliveryFee.Some? && AtLeast(v.serviceAndDeliveryFee, 0.0)
    && AtLeast(v.discountPercentage, 0.0) && AtMost(v.discountPercentage, 100.0)
    && AtLeast(v.maxDiscount, 0.0)
    && AtLeast(v.minOrderForDiscount, 0.0)
  }

  /**
   * `orderForm.valid`: every control passes, where the deadline's `pastDate`
   * error is the one stored at its last change.
   */
  predicate FormValid(v: FormValue, pastDate: bool): (ok: bool)
    ensures ok ==> v.deadline.Some? && v != InitialForm
  {
    ControlsValid(v) && DeadlineControlValid(v.deadline, pastDate)
  }

  /** The empty menu row `createMenuItem` builds. */
  const EmptyMenuItem := MenuItem("", None)

  /** The form as `ngOnInit` builds it: empty texts, one empty menu row, zero for the four amounts. */
  const InitialForm := FormValue("", "", None, [EmptyMenuItem], Some(0.0), Some(0.0), Some(0.0), Some(0.0))

  /** The order form `createOrder` receives from a form whose deadline is set. */
  function Submitted(v: FormValue): (f: OrderForm)
    requires v.deadline.Some?
    ensures f.title == v.title && f.storeName == v.storeName
    ensures f.deadline == v.deadline.value && f.menuItems == v.menuItems
    ensures f.serviceAndDeliveryFee == v.serviceAndDeliveryFee && f.discountPercentage == v.discountPercentage
    ensures f.maxDiscount == v.maxDiscount && f.minOrderForDiscount == v.minOrderForDiscount
  {
    OrderForm(v.title, v.storeName, v.deadline.value, v.menuItems, v.serviceAndDeliveryFee,
              v.discountPercentage, v.maxDiscount, v.minOrderForDiscount)
  }

  /**
   * The bounds on the form keep the pricing rules sensible: for any
   * non-negative gross, the order created from a form whose controls other
   * than the deadline are valid takes a discount between 0 and the gross, and
   * a fee of at least 0.
   */
  lemma {:induction false} ValidFormDiscountWithinGross(v: FormValue, now: int, id: Id, user: UserId, gross: real)
    requires ControlsValid(v) && v.deadline.Some? && gross >= 0.0
    ensures var o := NewOrderRow(id, Submitted(v), user, now).cols;
      && 0.0 <= Calculation.AppliedDiscount(gross, o) <= gross
      && Calculation.FeeOf(o) >= 0.0
  {
    var o := NewOrderRow(id, Submitted(v), user, now).cols;
    assert o.discountPercentage == v.discountPercentage && o.maxDiscount == v.maxDiscount;
    assert o.serviceAndDeliveryFee == v.serviceAndDeliveryFee;
    match Calculation.CapOf(o)
    case Capped(limit) => assert limit >= 0.0;
    case NoCap =>
  }

  // ---------------------------------------------------------------------------
  // The menu rows
  // ---------------------------------------------------------------------------

  /** Where `splice(index, 1)` removes: a negative index counts from the end, and the start is clamped to the list. */
  function SpliceStart(index: int, len: nat): (k: nat)
    ensures k <= len
    ensures 0 <= index < len ==> k == index
    ensures index < 0 && len + index >= 0 ==> k == len + index
  {
    if index < 0 then (if len + index < 0 then 0 else len + index)
    else if index > len then len else index
  }

  /** `menu_items.removeAt(index)`: at most one row goes, and only a row that was there. */
  function RemoveAt(items: seq<MenuItem>, index: int): (r: seq<MenuItem>)
    ensures 0 < |items| && index < |items| ==> |r| == |items| - 1
    ensures index >= |items| ==> r == items
    ensures multiset(r) <= multiset(items)
  {
    var k := SpliceStart(index, |items|);
    if k < |items| then
      assert items == items[..k] + [items[k]] + items[k + 1..];
      items[..k] + items[k + 1..]
    else items
  }

  /** Removing row `i` drops exactly that row and keeps the others in order. */
  lemma {:induction false} RemoveAtDropsRow(items: seq<MenuItem>, i: int)
    requires 0 <= i < |items|
    ensures var r := RemoveAt(items, i);
      && |r| == |items| - 1
      && (forall j :: 0 <= j < i ==> r[j] == items[j])
      && (forall j :: i <= j < |r| ==> r[j] == items[j + 1])
      && multiset(r) + multiset{items[i]} == multiset(items)
  {
    assert items == items[..i] + [items[i]] + items[i + 1..];
  }

  /** An index past the last row removes nothing. */
  lemma {:induction false} RemoveAtPastEnd(items: seq<MenuItem>, i: int)
    requires i >= |items|
    ensures RemoveAt(items, i) == items
  {
  }

  /** Removing the row just added, by position or as the last one, gives back the rows before. */
  lemma {:induction false} RemoveUndoesAdd(items: seq<MenuItem>, x: MenuItem)
    ensures RemoveAt(items + [x], |items|) == items
    ensures RemoveAt(items + [x], -1) == items
  {
    assert (items + [x])[..|items|] == items;
  }

  // ---------------------------------------------------------------------------
  // The component
  // ---------------------------------------------------------------------------

  /** What a submit leads to: a refused form, a created order, or the service's error. */
  datatype SubmitOutcome = Refused | Created(order: Order) | Failed(error: Error)

  class CreateOrderComponent {
    var title: string
    var storeName: string
    var deadline: Option<int>
    /** The deadline control's `pastDate` error, as `futureDateValidator` left it at the control's last change. */
    var pastDate: bool
    var menuItems: seq<MenuItem>
    var serviceAndDeliveryFee: Option<real>
    var discountPercentage: Option<real>
    var maxDiscount: Option<real>
    var minOrderForDiscount: Option<real>
    /** Set by `markAllAsTouched`, so that the template shows every error. */
    var touched: bool
    var timeUntilCloseMessage: Option<Countdown>

    /** The form's current value. */
    function Value(): FormValue
      reads this
    {
      FormValue(title, storeName, deadline, menuItems, serviceAndDeliveryFee,
                discountPercentage, maxDiscount, minOrderForDiscount)
    }

    /**
     * `ngOnInit`: the form with its initial values and no message. The empty
     * deadline parses to an invalid date, so it carries no `pastDate` error.
     */
    constructor ()
      ensures Value() == InitialForm && !touched && timeUntilCloseMessage == None
      ensures !pastDate
    {
      title, storeName, deadline := "", "", None;
      pastDate := false;
      menuItems := [EmptyMenuItem];
      serviceAndDeliveryFee, discountPercentage := Some(0.0), Some(0.0);
      maxDiscount, minOrderForDiscount := Some(0.0), Some(0.0);
      touched := false;
      timeUntilCloseMessage := None;
    }

    /**
     * The user sets the deadline field at time `now`: the control's validators
     * run with that clock and store their result, then the `valueChanges`
     * subscription refreshes the countdown.
     */
    method EditDeadline(value: Option<int>, now: int)
      modifies this
      ensures Value() == old(Value()).(deadline := value) && touched == old(touched)
      ensures pastDate == PastDate(value, now)
      ensures DeadlineControlValid(deadline, pastDate) <==> DeadlineValid(value, now)
      ensures timeUntilCloseMessage == Message(value, PastDate(value, now), now)
      ensures timeUntilCloseMessage.Some? <==> value.Some? && value.value > now
    {
      deadline := value;
      pastDate := PastDate(value, now);
      UpdateTimeUntilClose(now);
      MessageShown(value, now);
    }

    /**
     * `updateTimeUntilClose`: no message for an empty deadline or one whose
     * control holds an error, none when it is not after `now`, otherwise the
     * whole hours and minutes left.
     */
    method UpdateTimeUntilClose(now: int)
      modifies this
      ensures timeUntilCloseMessage == Message(deadline, pastDate, now)
      ensures Value() == old(Value()) && touched == old(touched) && pastDate == old(pastDate)
    {
      if deadline.None? || !DeadlineControlValid(deadline, pastDate) {
        timeUntilCloseMessage := None;
        return;
      }
      var diffMs := deadline.value - now;
      if diffMs <= 0 {
        timeUntilCloseMessage := None;
        return;
      }
      var diffHours := diffMs / HourMs;
      var diffMins := (diffMs % HourMs) / MinuteMs;
      timeUntilCloseMessage := Some(Countdown(diffHours, diffMins));
    }

    /** `addMenuItem`: one more empty row at the end. */
    method AddMenuItem()
      modifies this
      ensures menuItems == old(menuItems) + [EmptyMenuItem]
      ensures Value() == old(Value()).(menuItems := menuItems)
      ensures touched == old(touched) && timeUntilCloseMessage == old(timeUntilCloseMessage)
      ensures pastDate == old(pastDate)
    {
      menuItems := menuItems + [EmptyMenuItem];
    }

    /** `removeMenuItem(index)`. */
    method RemoveMenuItem(index: int)
      modifies this
      ensures menuItems == RemoveAt(old(menuItems), index)
      ensures Value() == old(Value()).(menuItems := menuItems)
      ensures touched == old(touched) && timeUntilCloseMessage == old(timeUntilCloseMessage)
      ensures pastDate == old(pastDate)
    {
      menuItems := RemoveAt(menuItems, index);
    }

    /**
     * `onSubmit`: an invalid form is only marked as touched and never reaches
     * the service; a valid one is handed to `createOrder`. Validity is the
     * status the controls hold; the deadline's was computed when it was last
     * edited, and submitting does not re-run its validator.
     */
    method OnSubmit(service: OrderService, currentUser: Option<UserId>, now: int) returns (outcome: SubmitOutcome)
      requires service.Valid()
      modifies this, service
      ensures service.Valid()
      ensures Value() == old(Value()) && pastDate == old(pastDate)
      ensures timeUntilCloseMessage == old(timeUntilCloseMessage)
      ensures service.participantOrders == old(service.participantOrders)
      ensures !FormValid(Value(), pastDate) ==>
        && outcome == Refused && touched
        && service.orders == old(service.orders) && service.menuItems == old(service.menuItems)
        && service.participantOrders == old(service.participantOrders) && service.nextId == old(service.nextId)
      ensures FormValid(Value(), pastDate) && currentUser.None? ==>
        && outcome == Failed(NotLoggedIn) && touched == old(touched)
        && service.orders == old(service.orders) && service.menuItems == old(service.menuItems)
        && service.nextId == old(service.nextId)
      ensures FormValid(Value(), pastDate) && currentUser.Some? ==>
        && touched == old(touched)
        && outcome == Created(NewOrderRow(old(service.nextId), Submitted(Value()), currentUser.value, now))
        && service.orders == old(service.orders) + [outcome.order]
        && service.menuItems
           == old(service.menuItems) + MenuRows(menuItems, outcome.order.id, old(service.nextId) + 1)
        && service.nextId == old(service.nextId) + 1 + |menuItems|
    {
      if !FormValid(Value(), pastDate) {
        touched := true;
        return Refused;
      }
      var r := service.CreateOrder(currentUser, Submitted(Value()), now);
      match r
      case Success(o) => outcome := Created(o);
      case Failure(e) => outcome := Failed(e);
    }
  }
}
