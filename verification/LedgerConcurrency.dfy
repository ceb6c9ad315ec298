/**
 * Any number of ledger calls at once: each call is a process that checks its key, reads a balance and
 * flushes, in separate steps that interleave freely. A flush is one atomic insert and commit.
 */
module LedgerConcurrency {
  import opened Foundations
  import opened Ledger

  datatype Phase =
    | Started
    | KeyIsFree
    | Computed(balance: int)
    | Conflict
    | Returned(entry: Entry)
    | Raised(error: Error)

  datatype Process = Process(call: Call, phase: Phase)

  datatype State = State(table: seq<Entry>, processes: map<nat, Process>)

  const EMPTY := State([], map[])

  function Advance(s: State, p: nat, phase: Phase): State
    requires p in s.processes
  {
    s.(processes := s.processes[p := s.processes[p].(phase := phase)])
  }

  ghost predicate Begin(s: State, s': State, p: nat) {
    p !in s.processes && p in s'.processes &&
    var call := s'.processes[p].call;
    s' == s.(processes := s.processes[p := Process(call, Started)])
  }

  ghost predicate CheckKey(s: State, s': State, p: nat) {
    && p in s.processes && s.processes[p].phase == Started
    && var c := s.processes[p].call;
       s' == Advance(s, p,
         if c.amount <= 0 then Raised(ValueError)
         else match FindKey(s.table, c.reference, c.direction)
              case Some(e) => Returned(e)
              case None => KeyIsFree)
  }

  /** The balance read is that of any row the ordered query may return, or zero without rows. */
  ghost predicate ReadBalance(s: State, s': State, p: nat, balance: int) {
    && p in s.processes && s.processes[p].phase == KeyIsFree
    && var c := s.processes[p].call;
       && ((exists e :: IsLatest(s.table, c.user, e) && balance == e.balanceAfter)
           || ((forall e :: e in s.table ==> e.user != c.user) && balance == 0))
       && s' == Advance(s, p,
            if c.direction == DEBIT && balance - c.amount < 0 then Raised(InsufficientCredits(c.amount, balance))
            else Computed(BalanceAfter(c, balance)))
  }

  /** The insert checks the unique key and the sign; a violation raises and rolls back. */
  ghost predicate Flush(s: State, s': State, p: nat) {
    && p in s.processes && s.processes[p].phase.Computed?
    && var c := s.processes[p].call;
       var e := NewEntry(c, s.processes[p].phase.balance);
       s' == if FindKey(s.table, c.reference, c.direction) == None && e.balanceAfter >= 0
             then Advance(s.(table := s.table + [e]), p, Returned(e))
             else Advance(s, p, Conflict)
  }

  /** The handler of IntegrityError reads the entry that won; without one it would raise. */
  ghost predicate Reread(s: State, s': State, p: nat) {
    && p in s.processes && s.processes[p].phase == Conflict
    && var c := s.processes[p].call;
       s' == Advance(s, p, match FindKey(s.table, c.reference, c.direction)
                           case Some(e) => Returned(e)
                           case None => Raised(NotFound))
  }

  ghost predicate StepOf(s: State, s': State, p: nat) {
    || Begin(s, s', p)
    || CheckKey(s, s', p)
    || (exists balance :: ReadBalance(s, s', p, balance))
    || Flush(s, s', p)
    || Reread(s, s', p)
  }

  ghost predicate Next(s: State, s': State) {
    exists p :: StepOf(s, s', p)
  }

  // ---------------------------------------------------------------------------------------------
  // The invariant
  // ---------------------------------------------------------------------------------------------

  ghost predicate ProcessSound(table: seq<Entry>, process: Process) {
    var c := process.call;
    match process.phase
    case Started => true
    case KeyIsFree => c.amount > 0
    case Computed(balance) => c.amount > 0 && balance >= 0
    case Conflict => FindKey(table, c.reference, c.direction).Some?
    case Returned(e) => FindKey(table, c.reference, c.direction) == Some(e)
    case Raised(error) => Justified(c, error)
  }

  /** The only errors: a bad amount, or a debit of more than the balance it read. */
  ghost predicate Justified(c: Call, error: Error) {
    match error
    case ValueError => c.amount <= 0
    case InsufficientCredits(requested, available) =>
      c.direction == DEBIT && requested == c.amount > available >= 0
    case _ => false
  }

  ghost predicate Invariant(s: State) {
    && UniqueKeys(s.table) && NonNegative(s.table) && Positive(s.table)
    && forall p :: p in s.processes ==> ProcessSound(s.table, s.processes[p])
  }

  lemma ReadIsNonNegative(s: State, s': State, p: nat, balance: int)
    requires Invariant(s) && ReadBalance(s, s', p, balance)
    ensures balance >= 0
  {
  }

  lemma FlushKeepsInvariant(s: State, s': State, p: nat)
    requires Invariant(s) && Flush(s, s', p)
    ensures Invariant(s')
  {
    var c := s.processes[p].call;
    var e := NewEntry(c, s.processes[p].phase.balance);
    assert ProcessSound(s.table, s.processes[p]);
    if FindKey(s.table, c.reference, c.direction) == None {
      AppendKeepsKeys(s.table, e);
      forall q | q in s'.processes ensures ProcessSound(s'.table, s'.processes[q]) {
        assert q in s.processes;
        assert ProcessSound(s.table, s.processes[q]);
      }
    }
  }

  lemma NextKeepsInvariant(s: State, s': State)
    requires Invariant(s) && Next(s, s')
    ensures Invariant(s') && s.table <= s'.table
  {
    var p :| StepOf(s, s', p);
    if Flush(s, s', p) {
      FlushKeepsInvariant(s, s', p);
    } else if balance :| ReadBalance(s, s', p, balance) {
      ReadIsNonNegative(s, s', p, balance);
      assert ProcessSound(s.table, s.processes[p]);
    } else if Reread(s, s', p) {
      assert ProcessSound(s.table, s.processes[p]);
    }
  }

  // ---------------------------------------------------------------------------------------------
  // Executions
  // ---------------------------------------------------------------------------------------------

  ghost predicate IsExecution(states: seq<State>) {
    |states| > 0 && states[0] == EMPTY && forall k :: 0 < k < |states| ==> Next(states[k - 1], states[k])
  }

  lemma {:induction false} ExecutionsKeepInvariant(states: seq<State>, k: nat)
    requires IsExecution(states) && k < |states|
    ensures Invariant(states[k])
  {
    if k > 0 {
      ExecutionsKeepInvariant(states, k - 1);
      NextKeepsInvariant(states[k - 1], states[k]);
    }
  }

  lemma {:induction false} TablesGrow(states: seq<State>, j: nat, k: nat)
    requires IsExecution(states) && j <= k < |states|
    ensures states[j].table <= states[k].table
    decreases k
  {
    if j < k {
      TablesGrow(states, j, k - 1);
      ExecutionsKeepInvariant(states, k - 1);
      NextKeepsInvariant(states[k - 1], states[k]);
    }
  }

  /**
   * However the steps interleave: keys stay unique and balances non-negative; no call is left without the
   * winner of its key; and two calls with one key that return, at whatever times, return the same entry.
   */
  lemma InterleavingsAreIdempotent(states: seq<State>, j: nat, p: nat, k: nat, q: nat)
    requires IsExecution(states) && j <= k < |states|
    requires p in states[j].processes && q in states[k].processes
    requires states[j].processes[p].phase.Returned? && states[k].processes[q].phase.Returned?
    requires states[j].processes[p].call.reference == states[k].processes[q].call.reference
    requires states[j].processes[p].call.direction == states[k].processes[q].call.direction
    ensures states[j].processes[p].phase.entry == states[k].processes[q].phase.entry
    ensures states[k].processes[q].phase.entry in states[k].table
    ensures UniqueKeys(states[k].table) && NonNegative(states[k].table)
  {
    ExecutionsKeepInvariant(states, j);
    ExecutionsKeepInvariant(states, k);
    TablesGrow(states, j, k);
    var c := states[j].processes[p].call;
    assert ProcessSound(states[j].table, states[j].processes[p]);
    assert ProcessSound(states[k].table, states[k].processes[q]);
    FindKeyOfExtension(states[j].table, states[k].table, c.reference, c.direction);
    FindKeyFinds(states[k].table, c.reference, c.direction);
  }

  /** The only errors a call can end with are a bad amount and a debit beyond the balance it read. */
  lemma ConflictsAlwaysResolve(states: seq<State>, k: nat, p: nat)
    requires IsExecution(states) && k < |states| && p in states[k].processes
    requires states[k].processes[p].phase.Raised?
    ensures Justified(states[k].processes[p].call, states[k].processes[p].phase.error)
  {
    ExecutionsKeepInvariant(states, k);
    assert ProcessSound(states[k].table, states[k].processes[p]);
  }

  // ---------------------------------------------------------------------------------------------
  // Which executions conserve
  // ---------------------------------------------------------------------------------------------

  ghost function Last(states: seq<State>): State
    requires |states| > 0
  {
    states[|states| - 1]
  }

  /** A flush that gets its row into the table. */
  ghost predicate Inserts(s: State, s': State, p: nat) {
    Flush(s, s', p) && s'.table != s.table
  }

  lemma InsertedRow(s: State, s': State, p: nat)
    requires Inserts(s, s', p)
    ensures var c, balance := s.processes[p].call, s.processes[p].phase.balance;
      FindKey(s.table, c.reference, c.direction) == None && balance >= 0 && s'.table == s.table + [NewEntry(c, balance)]
  {
  }

  /**
   * One insert: a balance query that was always right stays right exactly when the row adds to the user's
   * net under a later timestamp.
   */
  lemma InsertConservesExactly(s: State, s': State, p: nat)
    requires Invariant(s) && AlwaysRight(s.table) && Inserts(s, s', p)
    ensures var c := s.processes[p].call;
      AlwaysRight(s'.table) <==>
        s.processes[p].phase.balance == BalanceAfter(c, Net(s.table, c.user)) && ClockAdvanced(s.table, c.user, c.at)
  {
    var c, balance := s.processes[p].call, s.processes[p].phase.balance;
    assert ProcessSound(s.table, s.processes[p]);
    InsertedRow(s, s', p);
    ConservedIsAlwaysRight(s.table);
    AppendIsRightExactly(s.table, NewEntry(c, balance));
    AlwaysRightOfAppend(s'.table);
    assert s'.table[..|s.table|] == s.table;
  }

  /** The state in which a process that has computed its balance read it. */
  ghost function ReadState(states: seq<State>, k: nat, p: nat): State
    requires k < |states|
    decreases k
  {
    if k == 0 || (p in states[k].processes && states[k].processes[p].phase == KeyIsFree) then states[k]
    else ReadState(states, k - 1, p)
  }

  lemma AlwaysRightPrefix(before: seq<Entry>, after: seq<Entry>)
    requires before <= after && AlwaysRight(after)
    ensures AlwaysRight(before) && AnswersRight(before)
  {
    forall k | 0 <= k <= |before| ensures AnswersRight(before[..k]) {
      assert before[..k] == after[..k];
    }
    assert before[..|before|] == before;
  }

  /** A computed balance is an old one, or was read in this very step. */
  lemma ComputedByRead(s: State, s': State, p: nat)
    requires Next(s, s') && p in s'.processes && s'.processes[p].phase.Computed?
    ensures p in s.processes && s.processes[p].call == s'.processes[p].call
    ensures s.processes[p] != s'.processes[p] ==> exists balance :: ReadBalance(s, s', p, balance)
  {
    var q :| StepOf(s, s', q);
    if Flush(s, s', q) {
    } else if balance :| ReadBalance(s, s', q, balance) {
    } else if Begin(s, s', q) {
    }
  }

  /** While the answers are right, what a call computed is its amount on top of the net it read. */
  lemma {:induction false} ComputedFromNet(states: seq<State>, k: nat, p: nat)
    requires IsExecution(states) && k < |states| && AlwaysRight(states[k].table)
    requires p in states[k].processes && states[k].processes[p].phase.Computed?
    ensures var c := states[k].processes[p].call;
      states[k].processes[p].phase.balance == BalanceAfter(c, Net(ReadState(states, k, p).table, c.user))
    decreases k
  {
    var s, s' := states[k - 1], states[k];
    TablesGrow(states, k - 1, k);
    AlwaysRightPrefix(s.table, s'.table);
    ComputedByRead(s, s', p);
    if s.processes[p] == s'.processes[p] {
      ComputedFromNet(states, k - 1, p);
    } else {
      var balance :| ReadBalance(s, s', p, balance);
      ReadIsNet(s.table, s.processes[p].call.user, balance);
      assert ReadState(states, k - 1, p) == s;
    }
  }

  lemma {:induction false} NetWithoutRows(table: seq<Entry>, user: Uuid)
    requires forall e :: e in table ==> e.user != user
    ensures Net(table, user) == 0
  {
    if table != [] {
      assert table[|table| - 1] in table;
      NetWithoutRows(table[..|table| - 1], user);
    }
  }

  lemma ReadIsNet(table: seq<Entry>, user: Uuid, balance: int)
    requires AnswersRight(table)
    requires (exists e :: IsLatest(table, user, e) && balance == e.balanceAfter)
          || ((forall e :: e in table ==> e.user != user) && balance == 0)
    ensures balance == Net(table, user)
  {
    if e :| IsLatest(table, user, e) && balance == e.balanceAfter {
      assert IsLatest(table, e.user, e);
    } else {
      NetWithoutRows(table, user);
    }
  }

  /**
   * If the step after state k is the insert of process p: nobody moved the user's net between the call's
   * read and now, and the row is later than the user's others.
   */
  ghost predicate Undisturbed(states: seq<State>, k: nat, p: nat)
    requires k + 1 < |states|
  {
    var s := states[k];
    Inserts(s, states[k + 1], p) ==>
      var c := s.processes[p].call;
      Net(s.table, c.user) == Net(ReadState(states, k, p).table, c.user) && ClockAdvanced(s.table, c.user, c.at)
  }

  ghost predicate AllUndisturbed(states: seq<State>, n: nat)
    requires n < |states|
  {
    forall k, p :: 0 <= k < n ==> Undisturbed(states, k, p)
  }

  lemma StepConservesExactly(states: seq<State>, k: nat)
    requires IsExecution(states) && k + 1 < |states| && AlwaysRight(states[k].table)
    ensures AlwaysRight(states[k + 1].table) <==> forall p :: Undisturbed(states, k, p)
  {
    var s, s' := states[k], states[k + 1];
    ExecutionsKeepInvariant(states, k);
    forall p | Inserts(s, s', p) ensures AlwaysRight(s'.table) <==> Undisturbed(states, k, p) {
      ComputedFromNet(states, k, p);
      InsertConservesExactly(s, s', p);
    }
    var q :| StepOf(s, s', q);
    assert s'.table == s.table || Inserts(s, s', q);
  }

  lemma {:induction false} ConservesUpTo(states: seq<State>, n: nat)
    requires IsExecution(states) && n < |states|
    ensures AlwaysRight(states[n].table) <==> AllUndisturbed(states, n)
  {
    if n > 0 {
      ConservesUpTo(states, n - 1);
      if AllUndisturbed(states, n - 1) {
        StepConservesExactly(states, n - 1);
      } else {
        TablesGrow(states, n - 1, n);
        if AlwaysRight(states[n].table) {
          AlwaysRightPrefix(states[n - 1].table, states[n].table);
        }
      }
    }
  }

  /**
   * Conservation, exactly: however the steps of an execution interleave, the balance query has always
   * answered with credits minus debits if and only if each insert finds the net that its call has read, and
   * a later clock.
   */
  lemma ConservesExactly(states: seq<State>)
    requires IsExecution(states)
    ensures AlwaysRight(Last(states).table) <==> AllUndisturbed(states, |states| - 1)
    ensures AlwaysRight(Last(states).table) <==> Conserved(Last(states).table)
  {
    ConservesUpTo(states, |states| - 1);
    ExecutionsKeepInvariant(states, |states| - 1);
    ConservedIsAlwaysRight(Last(states).table);
  }

  // ---------------------------------------------------------------------------------------------
  // What interleaving loses
  // ---------------------------------------------------------------------------------------------

  /** Process p is ready to insert a credit whose balance was computed from an empty history. */
  ghost predicate Waiting(s: State, p: nat, c: Call) {
    p in s.processes && s.processes[p] == Process(c, Computed(c.amount))
  }

  lemma Extend(states: seq<State>, s: State)
    requires IsExecution(states) && Next(Last(states), s)
    ensures IsExecution(states + [s])
  {
  }

  /** A credit checks its key and reads a balance while the table is empty. */
  lemma WalkToFlush(states: seq<State>, p: nat, c: Call) returns (longer: seq<State>)
    requires IsExecution(states) && Last(states).table == [] && p !in Last(states).processes
    requires c.direction == CREDIT && c.amount > 0
    ensures IsExecution(longer)
    ensures var s := Last(states);
            Last(longer) == s.(processes := s.processes[p := Process(c, Computed(c.amount))])
  {
    var s := Last(states);
    var s1 := s.(processes := s.processes[p := Process(c, Started)]);
    assert StepOf(s, s1, p);
    Extend(states, s1);
    var s2 := Advance(s1, p, KeyIsFree);
    assert CheckKey(s1, s2, p) && StepOf(s1, s2, p);
    Extend(states + [s1], s2);
    var s3 := Advance(s2, p, Computed(c.amount));
    assert ReadBalance(s2, s3, p, 0) && StepOf(s2, s3, p);
    longer := states + [s1] + [s2];
    Extend(longer, s3);
    longer := longer + [s3];
  }

  lemma FlushWaiting(states: seq<State>, p: nat, c: Call) returns (longer: seq<State>)
    requires IsExecution(states) && Waiting(Last(states), p, c) && c.amount > 0
    requires FindKey(Last(states).table, c.reference, c.direction) == None
    ensures IsExecution(longer)
    ensures Last(longer).table == Last(states).table + [NewEntry(c, c.amount)]
    ensures forall q, d :: q != p && Waiting(Last(states), q, d) ==> Waiting(Last(longer), q, d)
  {
    var s, e := Last(states), NewEntry(c, c.amount);
    var s' := Advance(s.(table := s.table + [e]), p, Returned(e));
    assert Flush(s, s', p) && StepOf(s, s', p);
    Extend(states, s');
    longer := states + [s'];
  }

  lemma TwoRacedRows(e: Entry, f: Entry)
    requires e.direction == CREDIT && f.direction == CREDIT && f.user == e.user && f.reference != e.reference
    requires e.createdAt < f.createdAt
    ensures FindKey([e], f.reference, f.direction) == None
    ensures Net([e, f], e.user) == e.amount + f.amount && Balance([e, f], e.user) == f.balanceAfter
  {
    var none: seq<Entry> := [];
    assert [e, f][..1] == [e] && [e][..0] == none;
    assert Net(none, e.user) == 0 && Net([e], e.user) == e.amount;
    assert Latest(none, e.user) == None && Latest([e], e.user) == Some(e);
    assert FindKey(none, f.reference, f.direction) == None;
    assert Latest([e, f], e.user) == Some(f);
  }

  /**
   * A run that does not conserve: two first credits of one user, with different keys, can both be granted,
   * and the stored balance then misses one of them.
   */
  lemma FirstCreditsCanRace(c: Call, d: Call) returns (states: seq<State>)
    requires c.direction == CREDIT && d.direction == CREDIT && c.user == d.user && c.amount > 0 && d.amount > 0
    requires c.reference != d.reference && c.at < d.at
    ensures IsExecution(states)
    ensures var table := Last(states).table;
            Net(table, c.user) == c.amount + d.amount && Balance(table, c.user) == d.amount
  {
    TwoRacedRows(NewEntry(c, c.amount), NewEntry(d, d.amount));
    states := WalkToFlush([EMPTY], 0, c);
    states := WalkToFlush(states, 1, d);
    assert Waiting(Last(states), 0, c) && Waiting(Last(states), 1, d);
    states := FlushWaiting(states, 0, c);
    assert Last(states).table == [NewEntry(c, c.amount)];
    states := FlushWaiting(states, 1, d);
    assert Last(states).table == [NewEntry(c, c.amount), NewEntry(d, d.amount)];
  }
}
