/** Sums over finite sets and sequences. */
module Sums {

  ghost function SumOver<T(!new)>(s: set<T>, f: T -> int): int {
    if s == {} then 0 else
      var x :| x in s;
      f(x) + SumOver(s - {x}, f)
  }

  /** Any element may be taken out first. */
  lemma {:induction false} TakeOut<T(!new)>(s: set<T>, f: T -> int, x: T)
    requires x in s
    ensures SumOver(s, f) == f(x) + SumOver(s - {x}, f)
    decreases s
  {
    var y :| y in s && SumOver(s, f) == f(y) + SumOver(s - {y}, f);
    if y != x {
      TakeOut(s - {y}, f, x);
      TakeOut(s - {x}, f, y);
      assert s - {y} - {x} == s - {x} - {y};
    }
  }

  lemma {:induction false} SumOfAgreeing<T(!new)>(s: set<T>, f: T -> int, g: T -> int)
    requires forall x :: x in s ==> f(x) == g(x)
    ensures SumOver(s, f) == SumOver(s, g)
  {
    if s != {} {
      var x :| x in s;
      TakeOut(s, f, x);
      TakeOut(s, g, x);
      SumOfAgreeing(s - {x}, f, g);
    }
  }

  lemma PutIn<T(!new)>(s: set<T>, f: T -> int, x: T)
    ensures x !in s ==> SumOver(s + {x}, f) == f(x) + SumOver(s, f)
    ensures x in s ==> SumOver(s + {x}, f) == SumOver(s, f)
  {
    if x in s {
      assert s + {x} == s;
    } else {
      TakeOut(s + {x}, f, x);
      assert s + {x} - {x} == s;
    }
  }
}

/** The credit ledger: an append-only table with running balances and idempotency keys. */
module Ledger {
  import opened Foundations

  type Uuid = s: string | |s| == 36 witness seq(36, _ => '0')

  datatype TransactionDirection = CREDIT | DEBIT

  datatype TransactionSource = STRIPE | USAGE | ADJUSTMENT | REFUND

  /** Money is counted in millionths of a credit. */
  datatype Entry = Entry(
    user: Uuid,
    amount: int,
    direction: TransactionDirection,
    source: TransactionSource,
    reference: string,
    balanceAfter: int,
    createdAt: int)

  datatype Call = Call(
    direction: TransactionDirection, user: Uuid, amount: int, source: TransactionSource, reference: string, at: int)

  function Signed(e: Entry): int {
    if e.direction == CREDIT then e.amount else -e.amount
  }

  /** Credits minus debits of a user. */
  function Net(entries: seq<Entry>, user: Uuid): int {
    if entries == [] then 0
    else
      var last := entries[|entries| - 1];
      Net(entries[..|entries| - 1], user) + if last.user == user then Signed(last) else 0
  }

  /** SELECT by the idempotency key (reference_id, direction). */
  function FindKey(entries: seq<Entry>, reference: string, direction: TransactionDirection): Option<Entry> {
    if entries == [] then None
    else
      var last := entries[|entries| - 1];
      if last.reference == reference && last.direction == direction then Some(last)
      else FindKey(entries[..|entries| - 1], reference, direction)
  }

  /** SELECT ... WHERE user_id = user ORDER BY created_at DESC LIMIT 1. */
  function Latest(entries: seq<Entry>, user: Uuid): Option<Entry> {
    if entries == [] then None
    else
      var last, before := entries[|entries| - 1], Latest(entries[..|entries| - 1], user);
      if last.user == user && (before == None || before.value.createdAt <= last.createdAt) then Some(last) else before
  }

  function Balance(entries: seq<Entry>, user: Uuid): int {
    match Latest(entries, user)
    case None => 0
    case Some(e) => e.balanceAfter
  }

  function NewEntry(c: Call, balance: int): Entry {
    Entry(c.user, c.amount, c.direction, c.source, c.reference, balance, c.at)
  }

  /** The balance that a call would leave. */
  function BalanceAfter(c: Call, balance: int): int {
    if c.direction == CREDIT then balance + c.amount else balance - c.amount
  }

  /** One serialised call of allocate_credits or deduct_credits: the new table and what the caller gets. */
  function Apply(entries: seq<Entry>, c: Call): (seq<Entry>, Result<Entry>) {
    if c.amount <= 0 then (entries, Err(ValueError))
    else
      match FindKey(entries, c.reference, c.direction)
      case Some(e) => (entries, Ok(e))
      case None =>
        var balance := Balance(entries, c.user);
        if c.direction == DEBIT && balance - c.amount < 0 then
          (entries, Err(InsufficientCredits(c.amount, balance)))
        else
          var e := NewEntry(c, BalanceAfter(c, balance));
          (entries + [e], Ok(e))
  }

  // ---------------------------------------------------------------------------------------------
  // The service
  // ---------------------------------------------------------------------------------------------

  ghost predicate UniqueKeys(entries: seq<Entry>) {
    forall i, j :: 0 <= i < j < |entries| ==>
      entries[i].reference != entries[j].reference || entries[i].direction != entries[j].direction
  }

  ghost predicate NonNegative(entries: seq<Entry>) {
    forall k :: 0 <= k < |entries| ==> entries[k].balanceAfter >= 0
  }

  lemma {:induction false} FindKeyFinds(entries: seq<Entry>, reference: string, direction: TransactionDirection)
    ensures var found := FindKey(entries, reference, direction);
      && (found.Some? ==> found.value in entries && found.value.reference == reference && found.value.direction == direction)
      && (found == None ==> forall e :: e in entries ==> e.reference != reference || e.direction != direction)
  {
    if entries != [] {
      FindKeyFinds(entries[..|entries| - 1], reference, direction);
      assert entries == entries[..|entries| - 1] + [entries[|entries| - 1]];
    }
  }

  lemma {:induction false} LatestIsLatest(entries: seq<Entry>, user: Uuid)
    ensures var latest := Latest(entries, user);
      && (latest == None ==> forall e :: e in entries ==> e.user != user)
      && (latest.Some? ==> IsLatest(entries, user, latest.value))
  {
    if entries != [] {
      LatestIsLatest(entries[..|entries| - 1], user);
      assert entries == entries[..|entries| - 1] + [entries[|entries| - 1]];
    }
  }

  /** Any row that the ordered query may return. */
  ghost predicate IsLatest(entries: seq<Entry>, user: Uuid, e: Entry) {
    e in entries && e.user == user && forall f :: f in entries && f.user == user ==> f.createdAt <= e.createdAt
  }

  class CreditLedger {
    var entries: seq<Entry>

    /** The unique and check constraints of the table. */
    ghost predicate Valid()
      reads this
    {
      UniqueKeys(entries) && NonNegative(entries)
    }

    constructor ()
      ensures Valid() && entries == []
    {
      entries := [];
    }

    /** INSERT: false stands for the IntegrityError of a violated constraint. */
    method Flush(e: Entry) returns (ok: bool)
      requires Valid()
      modifies this
      ensures Valid()
      ensures ok <==> FindKey(old(entries), e.reference, e.direction) == None && e.balanceAfter >= 0
      ensures entries == if ok then old(entries) + [e] else old(entries)
    {
      FindKeyFinds(entries, e.reference, e.direction);
      if FindKey(entries, e.reference, e.direction) != None || e.balanceAfter < 0 {
        return false;
      }
      entries := entries + [e];
      return true;
    }

    method AllocateCredits(user: Uuid, amount: int, source: TransactionSource, reference: string, at: int)
      returns (result: Result<Entry>)
      requires Valid()
      modifies this
      ensures Valid()
      ensures (entries, result) == Apply(old(entries), Call(CREDIT, user, amount, source, reference, at))
    {
      if amount <= 0 {
        return Err(ValueError);
      }
      var existing := FindKey(entries, reference, CREDIT);
      if existing.Some? {
        return Ok(existing.value);
      }
      LatestIsLatest(entries, user);
      var currentBalance := Balance(entries, user);
      var entry := Entry(user, amount, CREDIT, source, reference, currentBalance + amount, at);
      var ok := Flush(entry);
      if !ok {
        existing := FindKey(entries, reference, CREDIT);
        match existing {
          case Some(e) => return Ok(e);
          case None => return Err(NotFound);
        }
      }
      return Ok(entry);
    }

    method DeductCredits(user: Uuid, amount: int, source: TransactionSource, reference: string, at: int)
      returns (result: Result<Entry>)
      requires Valid()
      modifies this
      ensures Valid()
      ensures (entries, result) == Apply(old(entries), Call(DEBIT, user, amount, source, reference, at))
    {
      if amount <= 0 {
        return Err(ValueError);
      }
      var existing := FindKey(entries, reference, DEBIT);
      if existing.Some? {
        return Ok(existing.value);
      }
      var currentBalance := Balance(entries, user);
      var newBalance := currentBalance - amount;
      if newBalance < 0 {
        return Err(InsufficientCredits(amount, currentBalance));
      }
      var entry := Entry(user, amount, DEBIT, source, reference, newBalance, at);
      var ok := Flush(entry);
      if !ok {
        existing := FindKey(entries, reference, DEBIT);
        match existing {
          case Some(e) => return Ok(e);
          case None => return Err(NotFound);
        }
      }
      return Ok(entry);
    }
  }

  // ---------------------------------------------------------------------------------------------
  // Conservation over runs
  // ---------------------------------------------------------------------------------------------

  /** The clock has moved since the user's last entry. */
  ghost predicate ClockAdvanced(entries: seq<Entry>, user: Uuid, at: int) {
    forall e :: e in entries && e.user == user ==> e.createdAt < at
  }

  /** Every row carries the conserved balance of its user at the time it was written. */
  ghost predicate Conserved(entries: seq<Entry>) {
    entries == [] ||
    (var last, before := entries[|entries| - 1], entries[..|entries| - 1];
     && Conserved(before)
     && last.amount > 0
     && last.balanceAfter == Net(before, last.user) + Signed(last) >= 0
     && FindKey(before, last.reference, last.direction) == None
     && ClockAdvanced(before, last.user, last.createdAt))
  }

  /** The stored balance is credits minus debits, and never negative. */
  lemma {:induction false} BalanceIsNet(entries: seq<Entry>, user: Uuid)
    requires Conserved(entries)
    ensures Balance(entries, user) == Net(entries, user) >= 0
  {
    if entries != [] {
      var before := entries[..|entries| - 1];
      BalanceIsNet(before, user);
      LatestIsLatest(before, user);
    }
  }

  lemma NetOfAppend(entries: seq<Entry>, e: Entry, user: Uuid)
    ensures Net(entries + [e], user) == Net(entries, user) + if e.user == user then Signed(e) else 0
  {
  }

  lemma BalanceOfAppend(entries: seq<Entry>, e: Entry, user: Uuid)
    requires ClockAdvanced(entries, e.user, e.createdAt)
    ensures Balance(entries + [e], user) == if e.user == user then e.balanceAfter else Balance(entries, user)
  {
    assert (entries + [e])[..|entries|] == entries;
    LatestIsLatest(entries, user);
  }

  lemma AppendConserves(entries: seq<Entry>, c: Call)
    requires Conserved(entries) && ClockAdvanced(entries, c.user, c.at) && c.amount > 0
    requires FindKey(entries, c.reference, c.direction) == None
    requires BalanceAfter(c, Balance(entries, c.user)) >= 0
    ensures Conserved(entries + [NewEntry(c, BalanceAfter(c, Balance(entries, c.user)))])
  {
    BalanceIsNet(entries, c.user);
    var after := entries + [NewEntry(c, BalanceAfter(c, Balance(entries, c.user)))];
    assert after[..|entries|] == entries;
  }

  lemma {:induction false} LatestIsUnique(entries: seq<Entry>, user: Uuid, e: Entry)
    requires Conserved(entries) && IsLatest(entries, user, e)
    ensures Latest(entries, user) == Some(e)
  {
    var before, last := entries[..|entries| - 1], entries[|entries| - 1];
    assert entries == before + [last];
    LatestIsLatest(before, user);
    if last.user != user {
      LatestIsUnique(before, user, e);
    }
  }

  /** Every answer of the balance query is credits minus debits. */
  ghost predicate AnswersRight(entries: seq<Entry>) {
    forall e: Entry :: IsLatest(entries, e.user, e) ==> e.balanceAfter == Net(entries, e.user)
  }

  /** The balance query has been right since the table was empty. */
  ghost predicate AlwaysRight(entries: seq<Entry>) {
    forall k :: 0 <= k <= |entries| ==> AnswersRight(entries[..k])
  }

  ghost predicate Positive(entries: seq<Entry>) {
    forall e :: e in entries ==> e.amount > 0
  }

  lemma ConservedAnswersRight(entries: seq<Entry>)
    requires Conserved(entries)
    ensures AnswersRight(entries)
  {
    forall e: Entry | IsLatest(entries, e.user, e) ensures e.balanceAfter == Net(entries, e.user) {
      LatestIsUnique(entries, e.user, e);
      BalanceIsNet(entries, e.user);
    }
  }

  /** One more row: the answers stay right exactly when it adds to the user's net under a later timestamp. */
  lemma AppendIsRightExactly(entries: seq<Entry>, e: Entry)
    requires Conserved(entries) && e.amount > 0
    ensures AnswersRight(entries + [e]) <==>
      e.balanceAfter == Net(entries, e.user) + Signed(e) && ClockAdvanced(entries, e.user, e.createdAt)
  {
    var after := entries + [e];
    NetOfAppend(entries, e, e.user);
    if ClockAdvanced(entries, e.user, e.createdAt) {
      assert IsLatest(after, e.user, e);
      forall f: Entry | IsLatest(after, f.user, f) ensures f == e || (f.user != e.user && IsLatest(entries, f.user, f)) {
        assert e in after;
      }
      ConservedAnswersRight(entries);
      forall f: Entry | IsLatest(after, f.user, f) && f != e ensures f.balanceAfter == Net(after, f.user) {
        NetOfAppend(entries, e, f.user);
      }
    } else {
      LatestIsLatest(entries, e.user);
      BalanceIsNet(entries, e.user);
      var f := Latest(entries, e.user).value;
      assert IsLatest(after, f.user, f);
    }
  }

  lemma AlwaysRightOfAppend(entries: seq<Entry>)
    requires entries != []
    ensures AlwaysRight(entries) <==> AlwaysRight(entries[..|entries| - 1]) && AnswersRight(entries)
  {
    var before := entries[..|entries| - 1];
    assert entries[..|entries|] == entries;
    if AlwaysRight(entries) {
      forall k | 0 <= k <= |before| ensures AnswersRight(before[..k]) {
        assert before[..k] == entries[..k];
      }
    }
    if AlwaysRight(before) && AnswersRight(entries) {
      forall k | 0 <= k <= |entries| ensures AnswersRight(entries[..k]) {
        assert k < |entries| ==> before[..k] == entries[..k];
      }
    }
  }

  lemma {:induction false} ConservesIfAlwaysRight(entries: seq<Entry>)
    requires UniqueKeys(entries) && NonNegative(entries) && Positive(entries)
    ensures Conserved(entries) <==> AlwaysRight(entries)
  {
    if entries != [] {
      var before, last := entries[..|entries| - 1], entries[|entries| - 1];
      assert entries == before + [last];
      ConservesIfAlwaysRight(before);
      AlwaysRightOfAppend(entries);
      NewKeyIsFree(entries);
      if Conserved(before) {
        AppendIsRightExactly(before, last);
      }
    }
  }

  lemma {:induction false} ConservedIsValid(entries: seq<Entry>)
    requires Conserved(entries)
    ensures UniqueKeys(entries) && NonNegative(entries)
  {
    if entries != [] {
      var last, before := entries[|entries| - 1], entries[..|entries| - 1];
      ConservedIsValid(before);
      FindKeyFinds(before, last.reference, last.direction);
      forall i | 0 <= i < |before|
        ensures entries[i].reference != last.reference || entries[i].direction != last.direction
      {
        assert before[i] in before;
      }
    }
  }

  lemma {:induction false} ConservedIsPositive(entries: seq<Entry>)
    requires Conserved(entries)
    ensures Positive(entries)
  {
    if entries != [] {
      var before, last := entries[..|entries| - 1], entries[|entries| - 1];
      ConservedIsPositive(before);
      assert entries == before + [last];
    }
  }

  /**
   * What conservation means to a caller: the table keeps its constraints, only positive amounts were booked,
   * and the balance query has never given a wrong answer.
   */
  lemma ConservedIsAlwaysRight(entries: seq<Entry>)
    ensures Conserved(entries) <==>
      UniqueKeys(entries) && NonNegative(entries) && Positive(entries) && AlwaysRight(entries)
  {
    if Conserved(entries) {
      ConservedIsValid(entries);
      ConservedIsPositive(entries);
    }
    if UniqueKeys(entries) && NonNegative(entries) && Positive(entries) {
      ConservesIfAlwaysRight(entries);
    }
  }

  lemma NewKeyIsFree(entries: seq<Entry>)
    requires entries != [] && UniqueKeys(entries)
    ensures var last := entries[|entries| - 1]; FindKey(entries[..|entries| - 1], last.reference, last.direction) == None
  {
    var last := entries[|entries| - 1];
    FindKeyFinds(entries[..|entries| - 1], last.reference, last.direction);
  }

  /** One call: conservation is kept, the caller's balance moves by the amount or not at all, no other moves. */
  lemma ApplyConserves(entries: seq<Entry>, c: Call)
    requires Conserved(entries) && ClockAdvanced(entries, c.user, c.at)
    ensures var (after, result) := Apply(entries, c);
      && Conserved(after) && entries <= after
      && (forall u: Uuid :: u != c.user ==> Balance(after, u) == Balance(entries, u))
      && (result.Err? ==> after == entries)
      && (after != entries ==> Balance(after, c.user) == BalanceAfter(c, Balance(entries, c.user)))
  {
    var (after, result) := Apply(entries, c);
    if after != entries {
      BalanceIsNet(entries, c.user);
      AppendConserves(entries, c);
      forall u: Uuid {
        BalanceOfAppend(entries, NewEntry(c, BalanceAfter(c, Balance(entries, c.user))), u);
      }
    }
  }

  /** A debit is refused exactly when its key is new and it exceeds credits minus debits. */
  lemma RefusedIffBeyondNet(entries: seq<Entry>, c: Call)
    requires Conserved(entries) && c.direction == DEBIT && c.amount > 0
    ensures Apply(entries, c).1.Err? <==> FindKey(entries, c.reference, DEBIT) == None && Net(entries, c.user) < c.amount
    ensures Apply(entries, c).1.Err? ==> Apply(entries, c) == (entries, Err(InsufficientCredits(c.amount, Net(entries, c.user))))
  {
    BalanceIsNet(entries, c.user);
  }

  /** A row says what its call said. */
  ghost predicate Records(e: Entry, c: Call) {
    && e.user == c.user && e.amount == c.amount && e.direction == c.direction
    && e.source == c.source && e.reference == c.reference && e.createdAt == c.at
  }

  /**
   * Every outcome of a call: a bad amount raises; a used key answers with its row; a debit beyond the net
   * raises and says by how much; anything else books a row of its own on top of the net.
   */
  lemma OutcomeExactly(entries: seq<Entry>, c: Call)
    requires Conserved(entries)
    ensures var (after, result) := Apply(entries, c);
      var mine := Under(entries, c.reference, c.direction);
      if c.amount <= 0 then after == entries && result == Err(ValueError)
      else if mine != [] then after == entries && result == Ok(mine[0])
      else if c.direction == DEBIT && Net(entries, c.user) < c.amount then
        after == entries && result == Err(InsufficientCredits(c.amount, Net(entries, c.user)))
      else
        result.Ok? && after == entries + [result.value] && Records(result.value, c)
        && result.value.balanceAfter ==
             Net(entries, c.user) + (if c.direction == CREDIT then c.amount else -c.amount)
  {
    BalanceIsNet(entries, c.user);
    ConservedIsValid(entries);
    UnderIsFound(entries, c.reference, c.direction);
  }

  ghost predicate IsRun(entries: seq<Entry>, calls: seq<Call>)
    decreases |calls|
  {
    calls == [] ||
    (ClockAdvanced(entries, calls[0].user, calls[0].at) && IsRun(Apply(entries, calls[0]).0, calls[1..]))
  }

  function Run(entries: seq<Entry>, calls: seq<Call>): seq<Entry>
    decreases |calls|
  {
    if calls == [] then entries else Run(Apply(entries, calls[0]).0, calls[1..])
  }

  /** Over every run each user's balance is credits minus debits, never negative; entries are never changed. */
  lemma {:induction false} RunsConserve(entries: seq<Entry>, calls: seq<Call>, user: Uuid)
    requires Conserved(entries) && IsRun(entries, calls)
    ensures var after := Run(entries, calls);
      && Conserved(after) && entries <= after
      && Balance(after, user) == Net(after, user) >= 0
      && ((forall k :: 0 <= k < |calls| ==> calls[k].user != user) ==> Balance(after, user) == Balance(entries, user))
    decreases |calls|
  {
    if calls == [] {
      BalanceIsNet(entries, user);
    } else {
      ApplyConserves(entries, calls[0]);
      RunsConserve(Apply(entries, calls[0]).0, calls[1..], user);
      if forall k :: 0 <= k < |calls| ==> calls[k].user != user {
        forall k | 0 <= k < |calls[1..]| ensures calls[1..][k].user != user {
          assert calls[1..][k] == calls[k + 1];
        }
      }
    }
  }

  lemma AppendKeepsKeys(entries: seq<Entry>, e: Entry)
    requires UniqueKeys(entries) && FindKey(entries, e.reference, e.direction) == None
    ensures UniqueKeys(entries + [e])
    ensures forall reference, direction :: FindKey(entries, reference, direction).Some? ==>
      FindKey(entries + [e], reference, direction) == FindKey(entries, reference, direction)
    ensures FindKey(entries + [e], e.reference, e.direction) == Some(e)
  {
    FindKeyFinds(entries, e.reference, e.direction);
    assert (entries + [e])[..|entries|] == entries;
    forall i | 0 <= i < |entries| ensures entries[i].reference != e.reference || entries[i].direction != e.direction {
      assert entries[i] in entries;
    }
  }

  /** Calls of any kind, at any times: keys stay unique and rows stay. */
  lemma ApplyKeepsKeys(entries: seq<Entry>, c: Call)
    requires UniqueKeys(entries)
    ensures UniqueKeys(Apply(entries, c).0) && entries <= Apply(entries, c).0
  {
    if Apply(entries, c).0 != entries {
      AppendKeepsKeys(entries, NewEntry(c, BalanceAfter(c, Balance(entries, c.user))));
    }
  }

  lemma {:induction false} RunKeepsKeys(entries: seq<Entry>, calls: seq<Call>)
    requires UniqueKeys(entries)
    ensures UniqueKeys(Run(entries, calls)) && entries <= Run(entries, calls)
    decreases |calls|
  {
    if calls != [] {
      ApplyKeepsKeys(entries, calls[0]);
      RunKeepsKeys(Apply(entries, calls[0]).0, calls[1..]);
    }
  }

  /** All rows under a key. */
  function Under(entries: seq<Entry>, reference: string, direction: TransactionDirection): seq<Entry> {
    if entries == [] then []
    else
      var before, last := Under(entries[..|entries| - 1], reference, direction), entries[|entries| - 1];
      if last.reference == reference && last.direction == direction then before + [last] else before
  }

  /** The unique constraint: a lookup sees all there is under a key. */
  lemma {:induction false} UnderIsFound(entries: seq<Entry>, reference: string, direction: TransactionDirection)
    requires UniqueKeys(entries)
    ensures Under(entries, reference, direction) ==
      match FindKey(entries, reference, direction) case None => [] case Some(e) => [e]
  {
    if entries != [] {
      UnderIsFound(entries[..|entries| - 1], reference, direction);
      NewKeyIsFree(entries);
    }
  }

  lemma {:induction false} FindKeyOfExtension(entries: seq<Entry>, after: seq<Entry>, reference: string, direction: TransactionDirection)
    requires entries <= after && UniqueKeys(after)
    requires FindKey(entries, reference, direction).Some?
    ensures FindKey(after, reference, direction) == FindKey(entries, reference, direction)
    decreases |after|
  {
    if |after| == |entries| {
      assert after == entries;
    } else {
      FindKeyFinds(entries, reference, direction);
      var e := FindKey(entries, reference, direction).value;
      var i :| 0 <= i < |entries| && entries[i] == e;
      assert after[i] == e;
      FindKeyOfExtension(entries, after[..|after| - 1], reference, direction);
    }
  }

  lemma ResultHasKey(entries: seq<Entry>, c: Call)
    requires Apply(entries, c).1.Ok?
    ensures FindKey(Apply(entries, c).0, c.reference, c.direction) == Some(Apply(entries, c).1.value)
  {
  }

  /**
   * Idempotence: once a key is used, every later call with it, after any calls at any times and whatever its
   * user and amount, returns the first entry and leaves the table alone.
   */
  lemma UsedKeyReturnsTheEntry(entries: seq<Entry>, first: Call, between: seq<Call>, again: Call)
    requires UniqueKeys(entries) && Apply(entries, first).1.Ok?
    requires again.reference == first.reference && again.direction == first.direction && again.amount > 0
    ensures var after := Run(Apply(entries, first).0, between);
            Apply(after, again) == (after, Apply(entries, first).1)
  {
    var (once, result) := Apply(entries, first);
    var after := Run(once, between);
    ApplyKeepsKeys(entries, first);
    RunKeepsKeys(once, between);
    ResultHasKey(entries, first);
    FindKeyOfExtension(once, after, first.reference, first.direction);
  }

  /** Over every run each new row records one of the calls. */
  lemma {:induction false} RowsRecordCalls(entries: seq<Entry>, calls: seq<Call>, e: Entry)
    requires e in Run(entries, calls) && e !in entries
    ensures exists c :: c in calls && Records(e, c)
    decreases |calls|
  {
    var after := Apply(entries, calls[0]).0;
    if e in after {
      assert Records(e, calls[0]);
    } else {
      RowsRecordCalls(after, calls[1..], e);
      var c :| c in calls[1..] && Records(e, c);
      assert c in calls;
    }
  }

  /**
   * Why the clock must move: a row appended for a user makes every answer of the balance query right
   * exactly when its timestamp is later than all the user's earlier ones.
   */
  lemma BalanceNeedsAdvancingClock(entries: seq<Entry>, c: Call)
    requires Conserved(entries)
    requires Apply(entries, c).0 != entries
    ensures ClockAdvanced(entries, c.user, c.at) <==>
      forall e :: IsLatest(Apply(entries, c).0, c.user, e) ==> e.balanceAfter == Net(Apply(entries, c).0, c.user)
  {
    var after := Apply(entries, c).0;
    BalanceIsNet(entries, c.user);
    LatestIsLatest(entries, c.user);
    var e := NewEntry(c, BalanceAfter(c, Balance(entries, c.user)));
    assert after == entries + [e];
    NetOfAppend(entries, e, c.user);
    if !ClockAdvanced(entries, c.user, c.at) {
      var f := Latest(entries, c.user).value;
      assert IsLatest(after, c.user, f);
      assert f.balanceAfter == Net(entries, c.user) != Net(after, c.user);
    } else {
      forall g | IsLatest(after, c.user, g) ensures g.balanceAfter == Net(after, c.user) {
        assert e in after && g !in entries;
      }
    }
  }
}
