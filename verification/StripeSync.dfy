/**
 `applyEvent` (`sync.ts`): mirroring one Stripe event into the billing tables, one database call
 at a time, where any call may fail and the delivery is then retried from the start.
 */
module StripeSync {
  import opened Wrappers

  // ----- tables -----

  datatype Product = Product(
    active: bool, name: Option<string>, description: Option<string>, metadata: map<string, string>)

  datatype Price = Price(product: Option<string>, active: bool, unitAmount: Option<int>, currency: Option<string>,
                         interval: Option<string>, intervalCount: int, trialDays: Option<int>,
                         metadata: map<string, string>)

  datatype Subscription = Subscription(tenant: string, status: string, price: Option<string>, quantity: int,
                                       cancelAtPeriodEnd: bool, periodEnd: Option<int>, trialEnd: Option<int>)

  /** A tenant row: the columns the webhook writes, and the rest. */
  datatype Tenant = Tenant(planTier: string, keyQuota: int, customer: Option<string>, subscription: Option<string>,
                           status: Option<string>, periodEnd: Option<int>, trialEndsAt: Option<int>, rest: string)

  datatype Tables = Tables(products: map<string, Product>, prices: map<string, Price>,
                           subscriptions: map<string, Subscription>, tenants: map<string, Tenant>,
                           planTiers: map<string, int>)

  /** `tenants.stripe_customer_id` is unique. */
  predicate UniqueCustomers(db: Tables) {
    forall s, t :: s in db.tenants && t in db.tenants && s != t && db.tenants[s].customer.Some? ==>
      db.tenants[s].customer != db.tenants[t].customer
  }

  // ----- events -----

  datatype ProductObject = ProductObject(id: string, active: Option<bool>, name: Option<string>,
                                         description: Option<string>, metadata: Option<map<string, string>>)

  datatype PriceObject = PriceObject(id: string, product: string, active: Option<bool>, unitAmount: Option<int>,
                                     currency: Option<string>, interval: Option<string>, intervalCount: Option<int>,
                                     trialDays: Option<int>, metadata: Option<map<string, string>>)

  /** First line item of a subscription: its price id, the price's tier and the quantity. */
  datatype Item = Item(price: Option<string>, tier: Option<string>, quantity: Option<int>)

  datatype SubscriptionObject = SubscriptionObject(id: string, status: string, customer: Option<string>,
                                                   metadataTenant: Option<string>, item: Option<Item>,
                                                   cancelAtPeriodEnd: Option<bool>, periodEnd: Option<int>,
                                                   trialEnd: Option<int>)

  datatype Event =
    | ProductEvent(product: ProductObject, deleted: bool)
    | PriceEvent(price: PriceObject, deleted: bool)
    | SubscriptionEvent(sub: SubscriptionObject)
    | CheckoutCompleted(tenant: Option<string>, customer: Option<string>)
    | OtherEvent

  function GetOr<T>(x: Option<T>, default: T): T {
    if x.Some? then x.value else default
  }

  /** JavaScript truth of a nullable string. */
  function Truthy(x: Option<string>): Option<string> {
    if x.Some? && x.value != "" then x else None
  }

  /** JavaScript truth of a nullable epoch time: zero counts as absent. */
  function Epoch(x: Option<int>): Option<int> {
    if x.Some? && x.value != 0 then x else None
  }

  // ----- one database call at a time -----

  /** How far an application of an event has come, with what its lookups returned. */
  datatype Cursor =
    | AtStart
    | Resolved(tenant: string)
    | Mirrored(tenant: string)
    | Tiered(tenant: string, plan: Option<(string, int)>)
    | Finished

  function Rank(c: Cursor): nat {
    match c
    case AtStart => 4
    case Resolved(_) => 3
    case Mirrored(_) => 2
    case Tiered(_, _) => 1
    case Finished => 0
  }

  /** The lookup `tenants.stripe_customer_id = customer`, at most one row. */
  function TenantOfCustomer(db: Tables, customer: string): (r: Option<string>)
    requires UniqueCustomers(db)
    ensures r.Some? ==> r.value in db.tenants && db.tenants[r.value].customer == Some(customer)
    ensures r.None? ==> forall t :: t in db.tenants ==> db.tenants[t].customer != Some(customer)
  {
    if exists t :: t in db.tenants && db.tenants[t].customer == Some(customer) then
      var t :| t in db.tenants && db.tenants[t].customer == Some(customer);
      Some(t)
    else None
  }

  /** The tenant a subscription event belongs to: its metadata, else its customer, else nobody. */
  function ResolveTenant(db: Tables, o: SubscriptionObject): Option<string>
    requires UniqueCustomers(db)
  {
    if Truthy(o.metadataTenant).Some? then o.metadataTenant
    else if Truthy(o.customer).Some? then Truthy(TenantOfCustomer(db, o.customer.value))
    else None
  }

  function SubscriptionRow(o: SubscriptionObject, tenant: string): Subscription {
    Subscription(tenant, o.status,
                 if o.item.Some? then o.item.value.price else None,
                 if o.item.Some? then GetOr(o.item.value.quantity, 1) else 1,
                 GetOr(o.cancelAtPeriodEnd, false), Epoch(o.periodEnd), Epoch(o.trialEnd))
  }

  function PatchedTenant(t: Tenant, o: SubscriptionObject, plan: Option<(string, int)>): Tenant {
    var patched := t.(status := Some(o.status), subscription := Some(o.id),
                      periodEnd := Epoch(o.periodEnd), trialEndsAt := Epoch(o.trialEnd));
    if plan.Some? then patched.(planTier := plan.value.0, keyQuota := plan.value.1) else patched
  }

  function TierLookup(db: Tables, o: SubscriptionObject): Option<(string, int)> {
    var tier := if o.item.Some? then Truthy(o.item.value.tier) else None;
    if tier.Some? && tier.value in db.planTiers then Some((tier.value, db.planTiers[tier.value])) else None
  }

  /**
   The next database call of `applyEvent`. `Err` is a constraint the database enforces: a
   missing referenced product, price or tenant, or a second tenant for one customer.
   */
  function Advance(db: Tables, e: Event, c: Cursor): Result<(Tables, Cursor), ()>
    requires UniqueCustomers(db) && c != Finished
  {
    match e
    case ProductEvent(o, deleted) =>
      Ok((db.(products := db.products[o.id := Product(if deleted then false else GetOr(o.active, true), o.name,
                                                       o.description, GetOr(o.metadata, map[]))]), Finished))
    case PriceEvent(o, deleted) =>
      if o.product !in db.products then Err(())
      else Ok((db.(prices := db.prices[o.id := Price(Some(o.product), if deleted then false else GetOr(o.active, true),
                                                     o.unitAmount, o.currency, o.interval, GetOr(o.intervalCount, 1),
                                                     o.trialDays, GetOr(o.metadata, map[]))]), Finished))
    case CheckoutCompleted(tenant, customer) =>
      if Truthy(tenant).None? || Truthy(customer).None? || tenant.value !in db.tenants then Ok((db, Finished))
      else if exists t :: t in db.tenants && t != tenant.value && db.tenants[t].customer == customer then Err(())
      else Ok((db.(tenants := db.tenants[tenant.value := db.tenants[tenant.value].(customer := customer)]), Finished))
    case OtherEvent => Ok((db, Finished))
    case SubscriptionEvent(o) =>
      match c
      case Resolved(t) =>
        var row := SubscriptionRow(o, t);
        if t !in db.tenants || (row.price.Some? && row.price.value !in db.prices) then Err(())
        else Ok((db.(subscriptions := db.subscriptions[o.id := row]), Mirrored(t)))
      case Mirrored(t) => Ok((db, Tiered(t, TierLookup(db, o))))
      case Tiered(t, plan) =>
        if t !in db.tenants then Ok((db, Finished))
        else Ok((db.(tenants := db.tenants[t := PatchedTenant(db.tenants[t], o, plan)]), Finished))
      case AtStart =>
        var t := ResolveTenant(db, o);
        if t.None? then Ok((db, Finished)) else Ok((db, Resolved(t.value)))
  }

  lemma AdvanceKeepsCustomersUnique(db: Tables, e: Event, c: Cursor)
    requires UniqueCustomers(db) && c != Finished && Advance(db, e, c).Ok?
    ensures UniqueCustomers(Advance(db, e, c).value.0)
    ensures Rank(Advance(db, e, c).value.1) < Rank(c)
  {
  }

  /** Run the event to its end from a cursor; `Err` when the database refuses a write. */
  function Complete(db: Tables, e: Event, c: Cursor): Result<Tables, ()>
    requires UniqueCustomers(db)
    decreases Rank(c)
  {
    if c == Finished then Ok(db)
    else match Advance(db, e, c)
      case Err(_) => Err(())
      case Ok((db', c')) =>
        AdvanceKeepsCustomersUnique(db, e, c);
        Complete(db', e, c')
  }

  /** The state and cursor after `n` calls of one application. */
  function After(db: Tables, e: Event, n: nat): (r: Result<(Tables, Cursor), ()>)
    requires UniqueCustomers(db)
    ensures r.Ok? ==> UniqueCustomers(r.value.0)
  {
    if n == 0 then Ok((db, AtStart))
    else match After(db, e, n - 1)
      case Err(_) => Err(())
      case Ok((d, c)) =>
        if c == Finished then Ok((d, c))
        else
          var next := Advance(d, e, c);
          if next.Ok? then AdvanceKeepsCustomersUnique(d, e, c); next else next
  }

  // ----- what an interrupted application leaves behind is harmless -----

  /**
   `db` is what an application of `e` to `s` has produced so far: nothing, the mirrored
   subscription, or everything.
   */
  ghost predicate Underway(s: Tables, db: Tables, e: Event)
    requires UniqueCustomers(s)
  {
    || db == s
    || Complete(s, e, AtStart) == Ok(db)
    || (e.SubscriptionEvent? && ResolveTenant(s, e.sub).Some?
        && var t := ResolveTenant(s, e.sub).value;
           Advance(s, e, Resolved(t)) == Ok((db, Mirrored(t))))
  }

  /**
   The cursor's captured lookups are those of an application started from `s`, and the
   subscription is mirrored once the cursor says so.
   */
  ghost predicate OnCourse(s: Tables, db: Tables, e: Event, c: Cursor)
    requires UniqueCustomers(s)
  {
    match c
    case AtStart => true
    case Finished => true
    case Resolved(t) => e.SubscriptionEvent? && ResolveTenant(s, e.sub) == Some(t)
    case Mirrored(t) => MirroredIn(s, db, e, t)
    case Tiered(t, plan) => MirroredIn(s, db, e, t) && plan == TierLookup(s, e.sub)
  }

  ghost predicate MirroredIn(s: Tables, db: Tables, e: Event, t: string)
    requires UniqueCustomers(s)
  {
    && e.SubscriptionEvent? && ResolveTenant(s, e.sub) == Some(t) && Advance(s, e, Resolved(t)).Ok?
    && e.sub.id in db.subscriptions && db.subscriptions[e.sub.id] == SubscriptionRow(e.sub, t)
  }

  /** The whole effect of a subscription event whose tenant resolves and whose write is accepted. */
  lemma SubscriptionOutcome(s: Tables, e: Event, t: string)
    requires UniqueCustomers(s) && e.SubscriptionEvent? && ResolveTenant(s, e.sub) == Some(t)
    ensures Complete(s, e, AtStart) ==
            if Advance(s, e, Resolved(t)).Err? then Err(())
            else
              var mirrored := s.(subscriptions := s.subscriptions[e.sub.id := SubscriptionRow(e.sub, t)]);
              Ok(mirrored.(tenants := s.tenants[t := PatchedTenant(s.tenants[t], e.sub, TierLookup(s, e.sub))]))
  {
    assert Advance(s, e, AtStart) == Ok((s, Resolved(t)));
    if Advance(s, e, Resolved(t)).Ok? {
      var mirrored := s.(subscriptions := s.subscriptions[e.sub.id := SubscriptionRow(e.sub, t)]);
      var plan := TierLookup(s, e.sub);
      var patched := mirrored.(tenants := s.tenants[t := PatchedTenant(s.tenants[t], e.sub, plan)]);
      assert Advance(s, e, Resolved(t)) == Ok((mirrored, Mirrored(t)));
      assert Advance(mirrored, e, Mirrored(t)) == Ok((mirrored, Tiered(t, plan)));
      assert Advance(mirrored, e, Tiered(t, plan)) == Ok((patched, Finished));
      assert Complete(patched, e, Finished) == Ok(patched);
      assert Complete(mirrored, e, Tiered(t, plan)) == Ok(patched);
      assert Complete(mirrored, e, Mirrored(t)) == Ok(patched);
      assert Complete(s, e, Resolved(t)) == Ok(patched);
    }
  }

  /** Customers keep their tenants while an event is under way, so its lookups repeat. */
  lemma LookupsRepeat(s: Tables, db: Tables, e: Event)
    requires UniqueCustomers(s) && Underway(s, db, e)
    ensures UniqueCustomers(db)
    ensures db.planTiers == s.planTiers && db.tenants.Keys == s.tenants.Keys
    ensures e.SubscriptionEvent? ==>
              db.prices == s.prices && forall t :: t in s.tenants ==> db.tenants[t].customer == s.tenants[t].customer
  {
    if db != s && Complete(s, e, AtStart) == Ok(db) {
      if e.SubscriptionEvent? && ResolveTenant(s, e.sub).Some? {
        SubscriptionOutcome(s, e, ResolveTenant(s, e.sub).value);
      } else {
        AdvanceKeepsCustomersUnique(s, e, AtStart);
      }
    }
  }

  lemma SameResolution(s: Tables, db: Tables, o: SubscriptionObject)
    requires UniqueCustomers(s) && UniqueCustomers(db) && db.tenants.Keys == s.tenants.Keys
    requires forall t :: t in s.tenants ==> db.tenants[t].customer == s.tenants[t].customer
    ensures ResolveTenant(db, o) == ResolveTenant(s, o)
  {
  }

  /**
   One call of an application of `e` keeps the tables under way from `s`, whatever earlier or
   concurrent applications of the same event left behind.
   */
  lemma AdvanceStaysUnderway(s: Tables, db: Tables, e: Event, c: Cursor)
    requires UniqueCustomers(s) && Underway(s, db, e) && OnCourse(s, db, e, c) && c != Finished
    ensures UniqueCustomers(db)
    ensures Advance(db, e, c).Ok? ==>
              var (db', c') := Advance(db, e, c).value;
              && Underway(s, db', e) && OnCourse(s, db', e, c')
              && (c' == Finished ==> Complete(s, e, AtStart) == Ok(db'))
    ensures Advance(db, e, c).Err? ==> Complete(s, e, AtStart).Err?
  {
    LookupsRepeat(s, db, e);
    if e.SubscriptionEvent? {
      SameResolution(s, db, e.sub);
      if ResolveTenant(s, e.sub).Some? {
        SubscriptionStaysUnderway(s, db, e, c, ResolveTenant(s, e.sub).value);
      }
    } else {
      SingleWriteStaysUnderway(s, db, e);
    }
  }

  /** A subscription event passes through three states of the tables. */
  lemma SubscriptionStaysUnderway(s: Tables, db: Tables, e: Event, c: Cursor, t: string)
    requires UniqueCustomers(s) && UniqueCustomers(db) && Underway(s, db, e) && OnCourse(s, db, e, c) && c != Finished
    requires e.SubscriptionEvent? && ResolveTenant(s, e.sub) == Some(t) && ResolveTenant(db, e.sub) == Some(t)
    requires db.planTiers == s.planTiers && db.tenants.Keys == s.tenants.Keys && db.prices == s.prices
    ensures Advance(db, e, c).Ok? ==>
              var (db', c') := Advance(db, e, c).value;
              && Underway(s, db', e) && OnCourse(s, db', e, c')
              && (c' == Finished ==> Complete(s, e, AtStart) == Ok(db'))
    ensures Advance(db, e, c).Err? ==> Complete(s, e, AtStart).Err?
  {
    SubscriptionOutcome(s, e, t);
    var row := SubscriptionRow(e.sub, t);
    var mirrored := s.(subscriptions := s.subscriptions[e.sub.id := row]);
    if Advance(s, e, Resolved(t)).Ok? {
      var patched := mirrored.(tenants := s.tenants[t := PatchedTenant(s.tenants[t], e.sub, TierLookup(s, e.sub))]);
      assert db == s || db == mirrored || db == patched;
      if c.Resolved? {
        assert db.subscriptions[e.sub.id := row] == mirrored.subscriptions;
      }
      if c.Mirrored? || c.Tiered? {
        assert db == s ==> s.subscriptions == mirrored.subscriptions;
      }
      if c.Tiered? {
        assert db.tenants[t := PatchedTenant(db.tenants[t], e.sub, c.plan)] == patched.tenants;
      }
    }
  }

  lemma SingleWriteStaysUnderway(s: Tables, db: Tables, e: Event)
    requires UniqueCustomers(s) && UniqueCustomers(db) && Underway(s, db, e) && !e.SubscriptionEvent?
    ensures Advance(db, e, AtStart).Ok? ==> Complete(s, e, AtStart) == Ok(Advance(db, e, AtStart).value.0)
    ensures Advance(db, e, AtStart).Ok? ==> Advance(db, e, AtStart).value.1 == Finished
    ensures Advance(db, e, AtStart).Err? ==> Complete(s, e, AtStart).Err?
  {
    var first := Advance(s, e, AtStart);
    if first.Ok? {
      AdvanceKeepsCustomersUnique(s, e, AtStart);
      assert Complete(s, e, AtStart) == Ok(first.value.0);
      if db != s {
        RepeatedWriteIsNoChange(s, e);
      }
    }
  }

  lemma RepeatedWriteIsNoChange(s: Tables, e: Event)
    requires UniqueCustomers(s) && !e.SubscriptionEvent? && Advance(s, e, AtStart).Ok?
    ensures var d := Advance(s, e, AtStart).value.0;
            UniqueCustomers(d) && Advance(d, e, AtStart) == Ok((d, Finished))
  {
    AdvanceKeepsCustomersUnique(s, e, AtStart);
    var d := Advance(s, e, AtStart).value.0;
    if e.CheckoutCompleted? {
      RepeatedBackfillIsNoChange(s, e, d);
    } else if e.ProductEvent? {
      assert Advance(d, e, AtStart).value.0.products == d.products;
    } else if e.PriceEvent? {
      assert Advance(d, e, AtStart).value.0.prices == d.prices;
    }
  }

  lemma RepeatedBackfillIsNoChange(s: Tables, e: Event, d: Tables)
    requires UniqueCustomers(s) && UniqueCustomers(d) && e.CheckoutCompleted?
    requires Advance(s, e, AtStart) == Ok((d, Finished))
    ensures Advance(d, e, AtStart) == Ok((d, Finished))
  {
    if Truthy(e.tenant).Some? && Truthy(e.customer).Some? && e.tenant.value in s.tenants {
      var t := e.tenant.value;
      assert d.tenants[t].customer == e.customer;
      assert d.tenants[t := d.tenants[t].(customer := e.customer)] == d.tenants;
    }
  }

  lemma {:induction false} AfterIsUnderway(s: Tables, e: Event, n: nat)
    requires UniqueCustomers(s) && After(s, e, n).Ok?
    ensures Underway(s, After(s, e, n).value.0, e) && OnCourse(s, After(s, e, n).value.0, e, After(s, e, n).value.1)
    ensures After(s, e, n).value.1 == Finished ==> Complete(s, e, AtStart) == Ok(After(s, e, n).value.0)
  {
    if n > 0 {
      AfterIsUnderway(s, e, n - 1);
      var (db, c) := After(s, e, n - 1).value;
      if c != Finished {
        AdvanceStaysUnderway(s, db, e, c);
      }
    }
  }

  lemma {:induction false} CompleteFromUnderway(s: Tables, db: Tables, e: Event, c: Cursor)
    requires UniqueCustomers(s) && Underway(s, db, e) && OnCourse(s, db, e, c) && c != Finished
    ensures UniqueCustomers(db) && Complete(db, e, c) == Complete(s, e, AtStart)
    decreases Rank(c)
  {
    AdvanceStaysUnderway(s, db, e, c);
    if Advance(db, e, c).Ok? {
      var (db', c') := Advance(db, e, c).value;
      AdvanceKeepsCustomersUnique(db, e, c);
      if c' != Finished {
        CompleteFromUnderway(s, db', e, c');
      }
    } else {
      assert Complete(s, e, AtStart).error == ();
    }
  }

  /**
   However many calls of a first application took effect before it failed, applying the event
   again from the start ends exactly as one clean application would have.
   */
  lemma RetryEqualsCleanApplication(s: Tables, e: Event, n: nat)
    requires UniqueCustomers(s) && After(s, e, n).Ok?
    ensures Complete(After(s, e, n).value.0, e, AtStart) == Complete(s, e, AtStart)
  {
    AfterIsUnderway(s, e, n);
    CompleteFromUnderway(s, After(s, e, n).value.0, e, AtStart);
  }

  /** Applying an event twice equals applying it once. */
  lemma ApplyingTwiceIsOnce(s: Tables, e: Event)
    requires UniqueCustomers(s) && Complete(s, e, AtStart).Ok?
    ensures UniqueCustomers(Complete(s, e, AtStart).value)
    ensures Complete(Complete(s, e, AtStart).value, e, AtStart) == Complete(s, e, AtStart)
  {
    CompleteFromUnderway(s, Complete(s, e, AtStart).value, e, AtStart);
  }

  // ----- what an event may touch -----

  /** The tenant an event's writes are about, if any. */
  function TargetTenant(s: Tables, e: Event): Option<string>
    requires UniqueCustomers(s)
  {
    match e
    case SubscriptionEvent(o) => ResolveTenant(s, o)
    case CheckoutCompleted(tenant, customer) => if Truthy(customer).Some? then Truthy(tenant) else None
    case _ => None
  }

  /** The billing columns aside, a tenant row never changes; only a checkout changes its customer. */
  predicate SameButBilling(a: Tenant, b: Tenant) {
    a.rest == b.rest && a.customer == b.customer
  }

  /** From `s` to `d`, nothing changed but what `e` is about. */
  ghost predicate TouchesOnlyItsOwn(s: Tables, d: Tables, e: Event)
    requires UniqueCustomers(s)
  {
    && d.planTiers == s.planTiers && d.tenants.Keys == s.tenants.Keys
    && (forall t :: t in s.tenants && Some(t) != TargetTenant(s, e) ==> d.tenants[t] == s.tenants[t])
    && (e.SubscriptionEvent? ==> forall t :: t in s.tenants ==> SameButBilling(s.tenants[t], d.tenants[t]))
    && (e.CheckoutCompleted? ==> forall t :: t in s.tenants ==>
          d.tenants[t] == s.tenants[t].(customer := d.tenants[t].customer))
    && d.products == (if e.ProductEvent? && e.product.id in d.products
                      then s.products[e.product.id := d.products[e.product.id]] else s.products)
    && d.prices == (if e.PriceEvent? && e.price.id in d.prices
                    then s.prices[e.price.id := d.prices[e.price.id]] else s.prices)
    && d.subscriptions == (if e.SubscriptionEvent? && e.sub.id in d.subscriptions
                           then s.subscriptions[e.sub.id := d.subscriptions[e.sub.id]] else s.subscriptions)
  }

  lemma SubscriptionTouchesOnlyItsOwn(s: Tables, e: Event)
    requires UniqueCustomers(s) && Complete(s, e, AtStart).Ok? && e.SubscriptionEvent?
    ensures TouchesOnlyItsOwn(s, Complete(s, e, AtStart).value, e)
  {
    var t := ResolveTenant(s, e.sub);
    if t.Some? {
      SubscriptionOutcome(s, e, t.value);
    }
    hide ResolveTenant, TierLookup, SubscriptionRow;
  }

  /** Every other event is settled by one call. */
  lemma SingleWriteCompletes(s: Tables, e: Event)
    requires UniqueCustomers(s) && !e.SubscriptionEvent? && Complete(s, e, AtStart).Ok?
    ensures Advance(s, e, AtStart) == Ok((Complete(s, e, AtStart).value, Finished))
  {
  }

  lemma SingleWriteTouchesOnlyItsOwn(s: Tables, e: Event, d: Tables)
    requires UniqueCustomers(s) && !e.SubscriptionEvent? && Advance(s, e, AtStart) == Ok((d, Finished))
    ensures TouchesOnlyItsOwn(s, d, e)
    ensures e.ProductEvent? && e.deleted ==> e.product.id in d.products && !d.products[e.product.id].active
    ensures e.PriceEvent? && e.deleted ==> e.price.id in d.prices && !d.prices[e.price.id].active
  {
    hide UniqueCustomers;
  }

  /**
   No event touches another tenant's row, another object's mirror row or the plan table; a deleted
   product or price ends up inactive whatever else the event says.
   */
  lemma EventTouchesOnlyItsOwn(s: Tables, e: Event)
    requires UniqueCustomers(s) && Complete(s, e, AtStart).Ok?
    ensures var d := Complete(s, e, AtStart).value;
            && TouchesOnlyItsOwn(s, d, e)
            && (e.ProductEvent? && e.deleted ==> e.product.id in d.products && !d.products[e.product.id].active)
            && (e.PriceEvent? && e.deleted ==> e.price.id in d.prices && !d.prices[e.price.id].active)
  {
    hide Complete, Advance, TouchesOnlyItsOwn;
    if e.SubscriptionEvent? {
      SubscriptionTouchesOnlyItsOwn(s, e);
    } else {
      SingleWriteCompletes(s, e);
      SingleWriteTouchesOnlyItsOwn(s, e, Complete(s, e, AtStart).value);
    }
  }

  // ----- what an event writes, column by column -----

  /** The subscription is for tenant `t`: the one its metadata names, and without one the customer's. */
  ghost predicate IsFor(s: Tables, o: SubscriptionObject, t: string) {
    t != "" &&
    if o.metadataTenant.Some? && o.metadataTenant.value != "" then t == o.metadataTenant.value
    else o.customer.Some? && o.customer.value != "" && t in s.tenants && s.tenants[t].customer == o.customer
  }

  lemma ResolvesToItsTenant(s: Tables, o: SubscriptionObject, t: string)
    requires UniqueCustomers(s)
    ensures ResolveTenant(s, o) == Some(t) <==> IsFor(s, o, t)
  {
  }

  /** The mirrored row: absent quantity counts one, absent flags are false, and time zero is no time. */
  ghost predicate MirroredAs(row: Subscription, o: SubscriptionObject, t: string) {
    && row.tenant == t
    && row.status == o.status
    && row.price == (if o.item.Some? then o.item.value.price else None)
    && row.quantity == (if o.item.Some? && o.item.value.quantity.Some? then o.item.value.quantity.value else 1)
    && (row.cancelAtPeriodEnd <==> o.cancelAtPeriodEnd == Some(true))
    && row.periodEnd == (if o.periodEnd == Some(0) then None else o.periodEnd)
    && row.trialEnd == (if o.trialEnd == Some(0) then None else o.trialEnd)
  }

  /** The patched tenant: its billing state is the subscription's, its plan that of the item's tier, if known. */
  ghost predicate PatchedAs(before: Tenant, after: Tenant, o: SubscriptionObject, plans: map<string, int>) {
    var tier := if o.item.Some? && o.item.value.tier.Some? then o.item.value.tier.value else "";
    && after.status == Some(o.status)
    && after.subscription == Some(o.id)
    && after.periodEnd == (if o.periodEnd == Some(0) then None else o.periodEnd)
    && after.trialEndsAt == (if o.trialEnd == Some(0) then None else o.trialEnd)
    && after.planTier == (if tier != "" && tier in plans then tier else before.planTier)
    && after.keyQuota == (if tier != "" && tier in plans then plans[tier] else before.keyQuota)
    && after.customer == before.customer && after.rest == before.rest
  }

  /**
   What a subscription event does. Without a tenant it does nothing; for its tenant it is refused
   exactly when that tenant or the item's price is unknown, and otherwise it mirrors the
   subscription and patches the tenant.
   */
  lemma SubscriptionWrites(s: Tables, e: Event)
    requires UniqueCustomers(s) && e.SubscriptionEvent?
    ensures (forall t :: !IsFor(s, e.sub, t)) ==> Complete(s, e, AtStart) == Ok(s)
    ensures forall t :: IsFor(s, e.sub, t) ==>
              var r := Complete(s, e, AtStart);
              && (r.Err? <==>
                  t !in s.tenants
                  || (e.sub.item.Some? && e.sub.item.value.price.Some? && e.sub.item.value.price.value !in s.prices))
              && (r.Ok? ==>
                  && e.sub.id in r.value.subscriptions && MirroredAs(r.value.subscriptions[e.sub.id], e.sub, t)
                  && t in r.value.tenants && PatchedAs(s.tenants[t], r.value.tenants[t], e.sub, s.planTiers))
  {
    var o := e.sub;
    forall t ensures ResolveTenant(s, o) == Some(t) <==> IsFor(s, o, t) {
      ResolvesToItsTenant(s, o, t);
    }
    hide IsFor, ResolveTenant, MirroredAs, PatchedAs;
    if ResolveTenant(s, o).None? {
      assert Advance(s, e, AtStart) == Ok((s, Finished));
      assert Complete(s, e, Finished) == Ok(s);
    } else {
      var t := ResolveTenant(s, o).value;
      hide Complete;
      SubscriptionOutcome(s, e, t);
      RowIsMirrored(o, t);
      if t in s.tenants {
        TenantIsPatched(s, s.tenants[t], o);
      }
    }
  }

  lemma RowIsMirrored(o: SubscriptionObject, t: string)
    ensures MirroredAs(SubscriptionRow(o, t), o, t)
  {
  }

  lemma TenantIsPatched(s: Tables, before: Tenant, o: SubscriptionObject)
    ensures PatchedAs(before, PatchedTenant(before, o, TierLookup(s, o)), o, s.planTiers)
  {
  }

  /** A product is mirrored as sent; it is active unless it is deleted or says it is not. */
  lemma ProductWrites(s: Tables, e: Event)
    requires UniqueCustomers(s) && e.ProductEvent?
    ensures var r := Complete(s, e, AtStart);
            && r.Ok? && e.product.id in r.value.products
            && var row := r.value.products[e.product.id];
               && (row.active <==> !e.deleted && e.product.active != Some(false))
               && row.name == e.product.name && row.description == e.product.description
               && row.metadata == (if e.product.metadata.Some? then e.product.metadata.value else map[])
  {
  }

  /** A price is refused exactly without its product, and else mirrored as sent; the interval count defaults to one. */
  lemma PriceWrites(s: Tables, e: Event)
    requires UniqueCustomers(s) && e.PriceEvent?
    ensures var r := Complete(s, e, AtStart);
            && (r.Err? <==> e.price.product !in s.products)
            && (r.Ok? ==>
                && e.price.id in r.value.prices
                && var row := r.value.prices[e.price.id];
                   && row.product == Some(e.price.product)
                   && (row.active <==> !e.deleted && e.price.active != Some(false))
                   && row.unitAmount == e.price.unitAmount && row.currency == e.price.currency
                   && row.interval == e.price.interval && row.trialDays == e.price.trialDays
                   && row.intervalCount == (if e.price.intervalCount.Some? then e.price.intervalCount.value else 1)
                   && row.metadata == (if e.price.metadata.Some? then e.price.metadata.value else map[]))
  {
    hide UniqueCustomers;
  }

  /**
   A completed checkout gives its tenant the customer. It is refused exactly when another tenant
   has that customer, and does nothing without both names or for an unknown tenant.
   */
  lemma CheckoutWrites(s: Tables, e: Event)
    requires UniqueCustomers(s) && e.CheckoutCompleted?
    ensures var r := Complete(s, e, AtStart);
            if e.tenant.Some? && e.tenant.value != "" && e.customer.Some? && e.customer.value != ""
               && e.tenant.value in s.tenants
            then
              && (r.Err? <==> exists t :: t in s.tenants && t != e.tenant.value && s.tenants[t].customer == e.customer)
              && (r.Ok? ==> e.tenant.value in r.value.tenants && r.value.tenants[e.tenant.value].customer == e.customer)
            else r == Ok(s)
  {
    hide UniqueCustomers;
  }

  lemma OtherEventsWriteNothing(s: Tables, e: Event)
    requires UniqueCustomers(s) && e.OtherEvent?
    ensures Complete(s, e, AtStart) == Ok(s)
  {
  }

  // ----- the code, call by call -----

  /**
   The calls an application makes: customer lookup, mirroring, tier lookup and tenant patch of a
   subscription, each if it comes to it, and the one write of any other handled event.
   */
  predicate MakesCall(s: Tables, e: Event, i: nat)
    requires UniqueCustomers(s)
  {
    match e
    case SubscriptionEvent(o) =>
      if i == 0 then Truthy(o.metadataTenant).None? && Truthy(o.customer).Some?
      else
        ResolveTenant(s, o).Some?
        && (i == 1 || i == 3 || (i == 2 && o.item.Some? && Truthy(o.item.value.tier).Some?))
    case CheckoutCompleted(tenant, customer) => i == 0 && Truthy(tenant).Some? && Truthy(customer).Some?
    case OtherEvent => false
    case _ => i == 0
  }

  /** No call that the application comes to fails for reasons of its own. */
  ghost predicate CallsGoThrough(s: Tables, e: Event, fault: nat -> bool)
    requires UniqueCustomers(s)
  {
    forall i: nat :: MakesCall(s, e, i) ==> !fault(i)
  }

  class Database {
    var tables: Tables

    constructor (tables: Tables)
      ensures this.tables == tables
    {
      this.tables := tables;
    }

    /**
     `applyEvent`: true if it returned, false if it threw. `fault(i)` says whether the `i`-th
     database call fails for reasons of its own. It returns exactly when no call it makes fails
     and the database refuses no write, and then the whole event has been applied; a throw
     leaves the effect of some number of its calls.
     */
    method ApplyEvent(e: Event, fault: nat -> bool) returns (ok: bool)
      requires UniqueCustomers(tables)
      modifies this
      ensures UniqueCustomers(tables)
      ensures ok ==> Complete(old(tables), e, AtStart) == Ok(tables)
      ensures !ok ==> exists n :: After(old(tables), e, n).Ok? && After(old(tables), e, n).value.0 == tables
      ensures ok <==> Complete(old(tables), e, AtStart).Ok? && CallsGoThrough(old(tables), e, fault)
    {
      ghost var s := tables;
      assert After(s, e, 0).value.0 == s;
      match e
      case SubscriptionEvent(o) =>
        var tenant := Truthy(o.metadataTenant);
        if tenant.None? && Truthy(o.customer).Some? {
          if fault(0) { assert MakesCall(s, e, 0); return false; }
          tenant := Truthy(TenantOfCustomer(tables, o.customer.value));
        }
        assert tenant == ResolveTenant(s, o);
        if tenant.None? { return true; }
        var t := tenant.value;
        assert After(s, e, 1) == Ok((s, Resolved(t)));
        SubscriptionOutcome(s, e, t);

        var row := SubscriptionRow(o, t);
        assert MakesCall(s, e, 1) && MakesCall(s, e, 3);
        if fault(1) || t !in tables.tenants || (row.price.Some? && row.price.value !in tables.prices) {
          return false;
        }
        tables := tables.(subscriptions := tables.subscriptions[o.id := row]);
        assert After(s, e, 2) == Ok((tables, Mirrored(t)));

        var tier := if o.item.Some? then Truthy(o.item.value.tier) else None;
        var plan: Option<(string, int)> := None;
        if tier.Some? {
          if fault(2) { assert MakesCall(s, e, 2); return false; }
          if tier.value in tables.planTiers {
            plan := Some((tier.value, tables.planTiers[tier.value]));
          }
        }
        if fault(3) { return false; }
        tables := tables.(tenants := tables.tenants[t := PatchedTenant(tables.tenants[t], o, plan)]);
        return true;
      case CheckoutCompleted(tenant, customer) =>
        AdvanceKeepsCustomersUniqueIfOk(s, e);
        if Truthy(tenant).Some? && Truthy(customer).Some? {
          ok := Write(e, fault(0));
          return ok;
        }
        return true;
      case OtherEvent => return true;
      case _ =>
        AdvanceKeepsCustomersUniqueIfOk(s, e);
        ok := Write(e, fault(0));
        return ok;
    }

    /** The one write of an event that is no subscription: refused by the database, failing, or done. */
    method Write(e: Event, fault: bool) returns (ok: bool)
      requires UniqueCustomers(tables) && !e.SubscriptionEvent?
      modifies this
      ensures ok <==> !fault && Advance(old(tables), e, AtStart).Ok?
      ensures tables == if ok then Advance(old(tables), e, AtStart).value.0 else old(tables)
    {
      var next := Advance(tables, e, AtStart);
      ok := !fault && next.Ok?;
      if ok {
        tables := next.value.0;
      }
    }
  }

  lemma AdvanceKeepsCustomersUniqueIfOk(s: Tables, e: Event)
    requires UniqueCustomers(s)
    ensures Advance(s, e, AtStart).Ok? ==> UniqueCustomers(Advance(s, e, AtStart).value.0)
  {
    if Advance(s, e, AtStart).Ok? {
      AdvanceKeepsCustomersUnique(s, e, AtStart);
    }
  }
}
