/** Credit allocation for completed Stripe checkout sessions. */
module Stripe {
  import opened Foundations
  import opened Ledger
  import opened Sums

  /** client_reference_id: absent or empty, not a UUID, or a user. */
  datatype ClientReference = Absent | Malformed | User(user: Uuid)

  datatype Session = Session(id: string, client: ClientReference, sku: Option<string>)

  datatype Delivery = Delivery(session: Session, at: int)

  /** The credit packages, in millionths of a credit. */
  function CreditMap(sku: string): Option<int> {
    if sku == "cred10" then Some(100_000_000)
    else if sku == "cred50" then Some(550_000_000)
    else None
  }

  function CreditsOf(s: Session): Option<int> {
    if s.sku.Some? then CreditMap(s.sku.value) else None
  }

  /** A session that credits somebody. */
  predicate Valid(s: Session) {
    s.client.User? && CreditsOf(s).Some?
  }

  predicate Grants(s: Session, user: Uuid) {
    s.client == User(user) && CreditsOf(s).Some?
  }

  function Amount(s: Session): int {
    match CreditsOf(s)
    case Some(credits) => credits
    case None => 0
  }

  /** What one delivery does to the ledger. */
  function Deliver(entries: seq<Entry>, d: Delivery): seq<Entry> {
    if Valid(d.session) then
      Apply(entries, Call(CREDIT, d.session.client.user, CreditsOf(d.session).value, STRIPE, d.session.id, d.at)).0
    else entries
  }

  /** Missing references and unknown packages are acknowledged without effect; a malformed reference raises. */
  method HandleCheckoutCompleted(ledger: CreditLedger, d: Delivery) returns (result: Result<()>)
    requires ledger.Valid()
    modifies ledger
    ensures ledger.Valid()
    ensures ledger.entries == Deliver(old(ledger.entries), d)
    ensures result.Err? <==> d.session.client.Malformed? && CreditsOf(d.session).Some?
  {
    var s := d.session;
    if s.client.Absent? {
      return Ok(());
    }
    var credits := CreditsOf(s);
    if credits == None {
      return Ok(());
    }
    if s.client.Malformed? {
      return Err(ValueError);
    }
    var entry := ledger.AllocateCredits(s.client.user, credits.value, STRIPE, s.id, d.at);
    return Ok(());
  }

  // ---------------------------------------------------------------------------------------------
  // Sequences of deliveries, with any other ledger calls in between
  // ---------------------------------------------------------------------------------------------

  datatype Activity = Checkout(delivery: Delivery) | Other(call: Call)

  function Do(entries: seq<Entry>, a: Activity): seq<Entry> {
    match a
    case Checkout(d) => Deliver(entries, d)
    case Other(call) => Apply(entries, call).0
  }

  function DoAll(entries: seq<Entry>, activities: seq<Activity>): seq<Entry> {
    if activities == [] then entries
    else Do(DoAll(entries, activities[..|activities| - 1]), activities[|activities| - 1])
  }

  ghost predicate Timely(entries: seq<Entry>, a: Activity) {
    match a
    case Checkout(d) => d.session.client.User? ==> ClockAdvanced(entries, d.session.client.user, d.at)
    case Other(call) => ClockAdvanced(entries, call.user, call.at)
  }

  ghost predicate IsActivityRun(entries: seq<Entry>, activities: seq<Activity>) {
    activities == [] ||
    (var init := activities[..|activities| - 1];
     IsActivityRun(entries, init) && Timely(DoAll(entries, init), activities[|activities| - 1]))
  }

  ghost function Delivered(activities: seq<Activity>): set<Session> {
    set k | 0 <= k < |activities| && activities[k].Checkout? :: activities[k].delivery.session
  }

  /** Deliveries of one checkout session repeat the same session. */
  ghost predicate Consistent(sessions: set<Session>) {
    forall s, t :: s in sessions && t in sessions && s.id == t.id ==> s == t
  }

  /** No other call credits under this key. */
  ghost predicate OthersAvoid(activities: seq<Activity>, id: string) {
    forall k :: 0 <= k < |activities| && activities[k].Other? ==>
      activities[k].call.direction == DEBIT || activities[k].call.reference != id
  }

  /** The keys of sessions are used for sessions only. */
  ghost predicate KeysReserved(activities: seq<Activity>) {
    forall s :: s in Delivered(activities) ==> OthersAvoid(activities, s.id)
  }

  /** The delivered sessions that grant a user credits and were not in the ledger before. */
  ghost function Granted(entries: seq<Entry>, activities: seq<Activity>, user: Uuid): set<Session> {
    set s | s in Delivered(activities) && Grants(s, user) && FindKey(entries, s.id, CREDIT) == None
  }

  /** What the other calls have moved on a user's account. */
  function OthersNet(entries: seq<Entry>, activities: seq<Activity>, user: Uuid): int {
    if activities == [] then 0
    else
      var init, last := activities[..|activities| - 1], activities[|activities| - 1];
      var before := DoAll(entries, init);
      OthersNet(entries, init, user) + if last.Other? then Net(Do(before, last), user) - Net(before, user) else 0
  }

  lemma DeliveredGrows(activities: seq<Activity>)
    requires activities != []
    ensures var init, last := activities[..|activities| - 1], activities[|activities| - 1];
      Delivered(activities) == Delivered(init) + if last.Checkout? then {last.delivery.session} else {}
  {
  }

  ghost predicate Known(entries: seq<Entry>, activities: seq<Activity>, id: string) {
    FindKey(entries, id, CREDIT).Some? || exists s :: s in Delivered(activities) && s.id == id && Valid(s)
  }

  lemma KeyAfter(entries: seq<Entry>, a: Activity, id: string)
    requires a.Other? ==> a.call.direction == DEBIT || a.call.reference != id
    ensures FindKey(Do(entries, a), id, CREDIT).Some? <==>
      FindKey(entries, id, CREDIT).Some? || (a.Checkout? && a.delivery.session.id == id && Valid(a.delivery.session))
  {
  }

  /** The ledger holds a credit under a session id exactly when it did before or a valid delivery carried it. */
  lemma {:induction false} KeysAfterDeliveries(entries: seq<Entry>, activities: seq<Activity>, id: string)
    requires OthersAvoid(activities, id)
    ensures FindKey(DoAll(entries, activities), id, CREDIT).Some? <==> Known(entries, activities, id)
    decreases |activities|
  {
    if activities != [] {
      var init := activities[..|activities| - 1];
      KeysAfterDeliveries(entries, init, id);
      KeyAfter(DoAll(entries, init), activities[|activities| - 1], id);
      DeliveredGrows(activities);
    }
  }

  lemma RowAfter(entries: seq<Entry>, a: Activity, id: string)
    requires FindKey(entries, id, CREDIT) == None && FindKey(Do(entries, a), id, CREDIT).Some?
    requires a.Other? ==> a.call.direction == DEBIT || a.call.reference != id
    ensures a.Checkout? && IsRowOf(FindKey(Do(entries, a), id, CREDIT).value, a.delivery.session)
  {
  }

  /** A row that credits a session to its user, as a Stripe payment. */
  ghost predicate IsRowOf(e: Entry, s: Session) {
    Valid(s) && s.client == User(e.user) && e.reference == s.id && e.amount == Amount(s) && e.source == STRIPE
  }

  /** The row under a session id credits a delivered session with that id to its user. */
  lemma {:induction false} RowCreditsItsSession(entries: seq<Entry>, activities: seq<Activity>, id: string)
    requires OthersAvoid(activities, id) && FindKey(entries, id, CREDIT) == None
    requires FindKey(DoAll(entries, activities), id, CREDIT).Some?
    ensures exists s :: s in Delivered(activities) && IsRowOf(FindKey(DoAll(entries, activities), id, CREDIT).value, s)
    decreases |activities|
  {
    var init, last := activities[..|activities| - 1], activities[|activities| - 1];
    DeliveredGrows(activities);
    if FindKey(DoAll(entries, init), id, CREDIT) == None {
      RowAfter(DoAll(entries, init), last, id);
    } else {
      RowCreditsItsSession(entries, init, id);
      RowStays(DoAll(entries, init), last, id);
    }
  }

  lemma RowStays(entries: seq<Entry>, a: Activity, id: string)
    requires FindKey(entries, id, CREDIT).Some?
    ensures FindKey(Do(entries, a), id, CREDIT) == FindKey(entries, id, CREDIT)
  {
  }

  lemma {:induction false} ActivitiesConserve(entries: seq<Entry>, activities: seq<Activity>)
    requires Conserved(entries) && IsActivityRun(entries, activities)
    ensures Conserved(DoAll(entries, activities))
    decreases |activities|
  {
    if activities != [] {
      var init := activities[..|activities| - 1];
      ActivitiesConserve(entries, init);
      match activities[|activities| - 1]
      case Other(call) => ApplyConserves(DoAll(entries, init), call);
      case Checkout(d) =>
        if Valid(d.session) {
          ApplyConserves(DoAll(entries, init),
                         Call(CREDIT, d.session.client.user, CreditsOf(d.session).value, STRIPE, d.session.id, d.at));
        }
    }
  }

  lemma NetAfterDelivery(entries: seq<Entry>, d: Delivery, user: Uuid)
    ensures Net(Deliver(entries, d), user) == Net(entries, user) +
      if Grants(d.session, user) && FindKey(entries, d.session.id, CREDIT) == None then Amount(d.session) else 0
  {
  }

  lemma OneMoreGrant(entries: seq<Entry>, activities: seq<Activity>, user: Uuid)
    requires activities != [] && activities[|activities| - 1].Checkout? && Consistent(Delivered(activities))
    ensures var s, init := activities[|activities| - 1].delivery.session, activities[..|activities| - 1];
      var isNew := Grants(s, user) && !Known(entries, init, s.id);
      && (isNew ==> s !in Granted(entries, init, user))
      && Granted(entries, activities, user) == Granted(entries, init, user) + if isNew then {s} else {}
  {
    DeliveredGrows(activities);
  }

  /** One more delivery: the credits counted so far grow as the ledger does. */
  lemma OneMoreDelivery(entries: seq<Entry>, activities: seq<Activity>, user: Uuid)
    requires activities != [] && activities[|activities| - 1].Checkout?
    requires Consistent(Delivered(activities)) && KeysReserved(activities)
    ensures var init := activities[..|activities| - 1];
      Net(DoAll(entries, activities), user) - Net(DoAll(entries, init), user)
      == SumOver(Granted(entries, activities, user), Amount) - SumOver(Granted(entries, init, user), Amount)
  {
    var d, init := activities[|activities| - 1].delivery, activities[..|activities| - 1];
    assert d.session in Delivered(activities);
    OneMoreGrant(entries, activities, user);
    PutIn(Granted(entries, init, user), Amount, d.session);
    KeysAfterDeliveries(entries, init, d.session.id);
    NetAfterDelivery(DoAll(entries, init), d, user);
    assert Granted(entries, init, user) + {} == Granted(entries, init, user);
  }

  lemma {:induction false} NetCountsSessionsOnce(entries: seq<Entry>, activities: seq<Activity>, user: Uuid)
    requires Consistent(Delivered(activities)) && KeysReserved(activities)
    ensures Net(DoAll(entries, activities), user)
         == Net(entries, user) + SumOver(Granted(entries, activities, user), Amount) + OthersNet(entries, activities, user)
    decreases |activities|
  {
    if activities == [] {
      assert Granted(entries, activities, user) == {};
    } else {
      var init := activities[..|activities| - 1];
      DeliveredGrows(activities);
      NetCountsSessionsOnce(entries, init, user);
      if activities[|activities| - 1].Checkout? {
        OneMoreDelivery(entries, activities, user);
      } else {
        assert Granted(entries, activities, user) == Granted(entries, init, user);
      }
    }
  }

  /**
   * Each user ends with what they had, plus the credits of the distinct sessions that are theirs, however
   * often and in whatever order Stripe delivers them, plus what other calls moved meanwhile.
   */
  lemma BalanceCountsSessionsOnce(entries: seq<Entry>, activities: seq<Activity>, user: Uuid)
    requires Conserved(entries) && IsActivityRun(entries, activities)
    requires Consistent(Delivered(activities)) && KeysReserved(activities)
    ensures Balance(DoAll(entries, activities), user)
         == Balance(entries, user) + SumOver(Granted(entries, activities, user), Amount)
            + OthersNet(entries, activities, user)
  {
    NetCountsSessionsOnce(entries, activities, user);
    ActivitiesConserve(entries, activities);
    BalanceIsNet(entries, user);
    BalanceIsNet(DoAll(entries, activities), user);
  }

  /** The distinct sessions of one package that are a user's and were not in the ledger before. */
  ghost function Bought(entries: seq<Entry>, activities: seq<Activity>, user: Uuid, sku: string): set<Session> {
    set s | s in Delivered(activities) && s.client == User(user) && s.sku == Some(sku)
      && FindKey(entries, s.id, CREDIT) == None
  }

  lemma {:induction false} SumOfPackages(sessions: set<Session>, tens: set<Session>, fifties: set<Session>)
    requires sessions == tens + fifties
    requires forall s :: s in tens ==> s.sku == Some("cred10")
    requires forall s :: s in fifties ==> s.sku == Some("cred50")
    ensures SumOver(sessions, Amount) == 100_000_000 * |tens| + 550_000_000 * |fifties|
    decreases sessions
  {
    if sessions != {} {
      var s :| s in sessions;
      TakeOut(sessions, Amount, s);
      SumOfPackages(sessions - {s}, tens - {s}, fifties - {s});
    }
  }

  lemma GrantsExactly(s: Session, user: Uuid)
    ensures Grants(s, user) <==> s.client == User(user) && (s.sku == Some("cred10") || s.sku == Some("cred50"))
  {
  }

  lemma GrantedIsBought(entries: seq<Entry>, activities: seq<Activity>, user: Uuid)
    ensures Granted(entries, activities, user) ==
      Bought(entries, activities, user, "cred10") + Bought(entries, activities, user, "cred50")
  {
    forall s: Session {
      GrantsExactly(s, user);
    }
  }

  /** In packages: 100 credits for each distinct cred10 session of the user, 550 for each cred50, for others none. */
  lemma BalanceCountsPackages(entries: seq<Entry>, activities: seq<Activity>, user: Uuid)
    requires Conserved(entries) && IsActivityRun(entries, activities)
    requires Consistent(Delivered(activities)) && KeysReserved(activities)
    ensures Balance(DoAll(entries, activities), user)
         == Balance(entries, user) + 100_000_000 * |Bought(entries, activities, user, "cred10")|
            + 550_000_000 * |Bought(entries, activities, user, "cred50")| + OthersNet(entries, activities, user)
  {
    BalanceCountsSessionsOnce(entries, activities, user);
    GrantedIsBought(entries, activities, user);
    SumOfPackages(Granted(entries, activities, user), Bought(entries, activities, user, "cred10"),
                  Bought(entries, activities, user, "cred50"));
  }

  /**
   * Confluence: what deliveries add to a balance depends only on the set of sessions delivered; without
   * other calls in between, so do the final balances.
   */
  lemma OrderAndRepetitionDoNotMatter(entries: seq<Entry>, one: seq<Activity>, two: seq<Activity>, user: Uuid)
    requires Conserved(entries) && IsActivityRun(entries, one) && IsActivityRun(entries, two)
    requires Delivered(one) == Delivered(two) && Consistent(Delivered(one)) && KeysReserved(one) && KeysReserved(two)
    ensures Balance(DoAll(entries, one), user) - OthersNet(entries, one, user)
         == Balance(DoAll(entries, two), user) - OthersNet(entries, two, user)
    ensures (forall a :: a in one + two ==> a.Checkout?) ==>
      Balance(DoAll(entries, one), user) == Balance(DoAll(entries, two), user)
  {
    BalanceCountsSessionsOnce(entries, one, user);
    BalanceCountsSessionsOnce(entries, two, user);
    assert Granted(entries, one, user) == Granted(entries, two, user);
    if forall a :: a in one + two ==> a.Checkout? {
      OthersMoveNothing(entries, one, user);
      OthersMoveNothing(entries, two, user);
    }
  }

  lemma {:induction false} OthersMoveNothing(entries: seq<Entry>, activities: seq<Activity>, user: Uuid)
    requires forall a :: a in activities ==> a.Checkout?
    ensures OthersNet(entries, activities, user) == 0
    decreases |activities|
  {
    if activities != [] {
      OthersMoveNothing(entries, activities[..|activities| - 1], user);
      assert activities[|activities| - 1] in activities;
    }
  }
}
