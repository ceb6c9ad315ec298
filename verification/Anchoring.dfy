/**
 * The bundler: fetching unanchored entries, submitting their Merkle root to the chain, saving the anchor
 * record, and regenerating proofs from the database later. The first module holds the database as a value
 * and the steps of the bundler, interleaved with inserts; the second the classes that perform them.
 */
module AnchorSteps {
  import opened Foundations
  import opened MerkleLevels
  import opened MerkleTrees
  import opened MerkleBinding
  import opened HashInputs

  datatype Record = Record(root: Bytes, txHash: string, blockNumber: int, entryCount: nat)

  datatype Database = Database(entries: seq<Entry>, records: map<nat, Record>)

  function Leaves(entries: seq<Entry>): (leaves: seq<string>)
    ensures |leaves| == |entries|
  {
    seq(|entries|, k requires 0 <= k < |entries| => entries[k].HashInput())
  }

  function Ids(entries: seq<Entry>): (ids: seq<nat>)
    ensures |ids| == |entries|
  {
    seq(|entries|, k requires 0 <= k < |entries| => entries[k].id)
  }

  /** In primary-key order, without duplicates. */
  ghost predicate IdOrdered(entries: seq<Entry>) {
    forall i, j :: 0 <= i < j < |entries| ==> entries[i].id < entries[j].id
  }

  /** The rows with a given anchor_id, NULL included, in table order. */
  function WithAnchor(entries: seq<Entry>, anchor: Option<nat>): seq<Entry> {
    if entries == [] then []
    else if entries[0].anchor == anchor then [entries[0]] + WithAnchor(entries[1..], anchor)
    else WithAnchor(entries[1..], anchor)
  }

  /** SELECT ... WHERE anchor_id = record ORDER BY id. */
  function Linked(entries: seq<Entry>, record: nat): seq<Entry> {
    WithAnchor(entries, Some(record))
  }

  /** UPDATE ... SET anchor_id = record WHERE id IN ids. */
  function Link(entries: seq<Entry>, ids: seq<nat>, record: nat): (linked: seq<Entry>)
    ensures |linked| == |entries|
  {
    seq(|entries|, k requires 0 <= k < |entries| =>
      if entries[k].id in ids then entries[k].(anchor := Some(record)) else entries[k])
  }

  ghost predicate DistinctIds(entries: seq<Entry>) {
    forall i, j :: 0 <= i < j < |entries| ==> entries[i].id != entries[j].id
  }

  /** What fetch_unanchored promises: unanchored rows of the table, in some order. */
  ghost predicate IsFetch(entries: seq<Entry>, batch: seq<Entry>) {
    (forall e :: e in batch ==> e in entries && e.anchor == None) && DistinctIds(batch)
  }

  /** The rows as they were before they were linked. */
  function Unlinked(entries: seq<Entry>): (unlinked: seq<Entry>)
    ensures |unlinked| == |entries|
  {
    seq(|entries|, k requires 0 <= k < |entries| => entries[k].(anchor := None))
  }

  // ---------------------------------------------------------------------------------------------
  // Lists in id order
  // ---------------------------------------------------------------------------------------------

  lemma {:induction false} WithAnchorElements(entries: seq<Entry>, anchor: Option<nat>)
    ensures forall e :: e in WithAnchor(entries, anchor) <==> e in entries && e.anchor == anchor
  {
    if entries != [] {
      WithAnchorElements(entries[1..], anchor);
      assert entries == [entries[0]] + entries[1..];
    }
  }

  lemma {:induction false} WithAnchorKeepsOrder(entries: seq<Entry>, anchor: Option<nat>)
    requires IdOrdered(entries)
    ensures IdOrdered(WithAnchor(entries, anchor))
  {
    if entries != [] {
      WithAnchorKeepsOrder(entries[1..], anchor);
      WithAnchorElements(entries[1..], anchor);
      var rest, all := WithAnchor(entries[1..], anchor), WithAnchor(entries, anchor);
      forall i, j | 0 <= i < j < |all| ensures all[i].id < all[j].id {
        if entries[0].anchor == anchor {
          assert all[j] == rest[j - 1] && all[j] in rest;
        }
      }
    }
  }

  lemma {:induction false} WithAnchorOfConcat(s: seq<Entry>, t: seq<Entry>, anchor: Option<nat>)
    ensures WithAnchor(s + t, anchor) == WithAnchor(s, anchor) + WithAnchor(t, anchor)
  {
    if s == [] {
      assert s + t == t;
    } else {
      WithAnchorOfConcat(s[1..], t, anchor);
      var a, b := WithAnchor(s[1..], anchor), WithAnchor(t, anchor);
      assert (s + t)[0] == s[0] && (s + t)[1..] == s[1..] + t;
      assert [s[0]] + a + b == [s[0]] + (a + b);
    }
  }

  /** A set of ids has one ordered listing. */
  lemma {:induction false} OrderedListingIsUnique(s: seq<Entry>, t: seq<Entry>)
    requires IdOrdered(s) && IdOrdered(t)
    requires forall n :: n in Ids(s) <==> n in Ids(t)
    ensures Ids(s) == Ids(t)
    decreases |s|
  {
    assert s != [] ==> Ids(s)[0] in Ids(s);
    assert t != [] ==> Ids(t)[0] in Ids(t);
    if s != [] && t != [] {
      var s', t' := s[1..], t[1..];
      forall n ensures n in Ids(s') <==> n in Ids(t') {
        TailIds(s, n);
        TailIds(t, n);
      }
      OrderedListingIsUnique(s', t');
      assert Ids(s) == [s[0].id] + Ids(s') && Ids(t) == [t[0].id] + Ids(t');
    }
  }

  lemma TailIds(s: seq<Entry>, n: nat)
    requires s != [] && IdOrdered(s)
    ensures n in Ids(s[1..]) <==> n in Ids(s) && n != s[0].id
  {
    assert forall k :: 0 <= k < |s| - 1 ==> Ids(s[1..])[k] == Ids(s)[k + 1];
    if n in Ids(s) && n != s[0].id {
      var k :| 0 <= k < |s| && Ids(s)[k] == n;
      assert Ids(s[1..])[k - 1] == n;
    }
  }

  /** Rows of one table with equal id lists have equal leaves. */
  lemma SameIdsSameLeaves(entries: seq<Entry>, s: seq<Entry>, t: seq<Entry>)
    requires IdOrdered(entries) && Ids(s) == Ids(t)
    requires forall e :: e in s ==> exists f :: f in entries && e == f.(anchor := e.anchor)
    requires forall e :: e in t ==> exists f :: f in entries && e == f.(anchor := e.anchor)
    ensures Leaves(s) == Leaves(t)
  {
    forall k | 0 <= k < |s| ensures Leaves(s)[k] == Leaves(t)[k] {
      assert s[k] in s && t[k] in t;
      var f :| f in entries && s[k] == f.(anchor := s[k].anchor);
      var g :| g in entries && t[k] == g.(anchor := t[k].anchor);
      assert Ids(s)[k] == Ids(t)[k];
      assert f.id == g.id;
      assert f == g;
    }
  }

  // ---------------------------------------------------------------------------------------------
  // Steps
  // ---------------------------------------------------------------------------------------------

  /** Where the one bundler stands: between its awaits other tasks may insert entries. */
  datatype Phase = Idle | Fetched(batch: seq<Entry>) | Submitted(batch: seq<Entry>, record: Record)

  /** What the contract received, and the receipt it gave. */
  datatype Submission = Submission(root: Bytes, entryCount: nat, txHash: string, blockNumber: int)

  /**
   * The chain log lists the submissions, saved in the database or not; for every saved record its batch is
   * remembered in the order in which it was fetched.
   */
  datatype State = State(db: Database, phase: Phase, chain: seq<Submission>, saved: map<nat, seq<Entry>>)

  datatype Event =
    | Insert(entry: Entry, position: nat)
    | Fetch(batch: seq<Entry>)
    | ChainFails
    | ChainSucceeds(txHash: string, blockNumber: int)
    | SaveFails
    | SaveSucceeds(recordId: nat)

  const EMPTY := State(Database([], map[]), Idle, [], map[])

  /** Primary key and the unique transaction hash. */
  predicate CanSave(db: Database, recordId: nat, record: Record) {
    recordId !in db.records && forall r <- db.records.Keys :: db.records[r].txHash != record.txHash
  }

  function Save(db: Database, batch: seq<Entry>, recordId: nat, record: Record): Database {
    Database(Link(db.entries, Ids(batch), recordId), db.records[recordId := record])
  }

  function AnchorRecord(h: Hash, batch: seq<Entry>, txHash: string, blockNumber: int): Record
    requires |batch| > 0
  {
    Record(TreeRoot(h, Leaves(batch)), txHash, blockNumber, |batch|)
  }

  /** Which events can happen. The repository may list the rows it fetches in any order. */
  ghost predicate Enabled(s: State, e: Event) {
    match e
    case Insert(entry, position) =>
      && entry.anchor == None && position <= |s.db.entries|
      && IdOrdered(s.db.entries[..position] + [entry] + s.db.entries[position..])
    case Fetch(batch) => s.phase.Idle? && IsFetch(s.db.entries, batch)
    case ChainFails => s.phase.Fetched?
    case ChainSucceeds(_, _) => s.phase.Fetched? && |s.phase.batch| > 0
    case SaveFails => s.phase.Submitted?
    case SaveSucceeds(recordId) => s.phase.Submitted? && CanSave(s.db, recordId, s.phase.record)
  }

  /** Failures drop the batch: its entries stay unanchored and are fetched again. */
  ghost function Step(h: Hash, s: State, e: Event): State
    requires Enabled(s, e)
  {
    match e
    case Insert(entry, position) =>
      s.(db := s.db.(entries := s.db.entries[..position] + [entry] + s.db.entries[position..]))
    case Fetch(batch) => if batch == [] then s else s.(phase := Fetched(batch))
    case ChainFails => s.(phase := Idle)
    case ChainSucceeds(txHash, blockNumber) =>
      var batch := s.phase.batch;
      s.(phase := Submitted(batch, AnchorRecord(h, batch, txHash, blockNumber)),
         chain := s.chain + [Submission(TreeRoot(h, Leaves(batch)), |batch|, txHash, blockNumber)])
    case SaveFails => s.(phase := Idle)
    case SaveSucceeds(recordId) =>
      State(Save(s.db, s.phase.batch, recordId, s.phase.record), Idle, s.chain, s.saved[recordId := s.phase.batch])
  }

  // ---------------------------------------------------------------------------------------------
  // The invariant
  // ---------------------------------------------------------------------------------------------

  /** A record commits to exactly the entries linked to it, in id order. */
  ghost predicate RecordSound(h: Hash, entries: seq<Entry>, recordId: nat, record: Record) {
    var batch := Linked(entries, recordId);
    |batch| == record.entryCount > 0 && record.root == TreeRoot(h, Leaves(batch))
  }

  ghost predicate DatabaseSound(h: Hash, db: Database) {
    && IdOrdered(db.entries)
    && (forall e :: e in db.entries && e.anchor.Some? ==> e.anchor.value in db.records)
    && (forall r :: r in db.records ==> RecordSound(h, db.entries, r, db.records[r]))
    && HashesDiffer(db.records)
  }

  /** A record was made from a listing, in some order, of exactly the entries linked to it. */
  ghost predicate MadeFrom(h: Hash, entries: seq<Entry>, recordId: nat, record: Record, batch: seq<Entry>) {
    && |batch| > 0 && DistinctIds(batch)
    && record.root == TreeRoot(h, Leaves(batch)) && record.entryCount == |batch|
    && forall e :: e in batch <==> e in Unlinked(Linked(entries, recordId))
  }

  ghost predicate HashesDiffer(records: map<nat, Record>) {
    forall r, q :: r in records && q in records && r != q ==> records[r].txHash != records[q].txHash
  }

  /** The record says what was submitted and what the receipt said. */
  ghost predicate Logged(chain: seq<Submission>, record: Record) {
    Submission(record.root, record.entryCount, record.txHash, record.blockNumber) in chain
  }

  ghost predicate Invariant(h: Hash, s: State) {
    && IdOrdered(s.db.entries) && s.saved.Keys == s.db.records.Keys && HashesDiffer(s.db.records)
    && (forall e :: e in s.db.entries && e.anchor.Some? ==> e.anchor.value in s.db.records)
    && (forall r :: r in s.db.records ==> MadeFrom(h, s.db.entries, r, s.db.records[r], s.saved[r]))
    && (forall r :: r in s.db.records ==> Logged(s.chain, s.db.records[r]))
    && (!s.phase.Idle? ==> |s.phase.batch| > 0 && IsFetch(s.db.entries, s.phase.batch))
    && (s.phase.Submitted? ==>
        && s.phase.record.root == TreeRoot(h, Leaves(s.phase.batch)) && s.phase.record.entryCount == |s.phase.batch|
        && Logged(s.chain, s.phase.record))
  }

  lemma InsertKeepsLinked(entries: seq<Entry>, entry: Entry, position: nat, record: nat)
    requires position <= |entries| && entry.anchor == None
    ensures Linked(entries[..position] + [entry] + entries[position..], record) == Linked(entries, record)
  {
    var a, b := entries[..position], entries[position..];
    assert entries == a + b;
    WithAnchorOfConcat(a, b, Some(record));
    WithAnchorOfConcat(a + [entry], b, Some(record));
    WithAnchorOfConcat(a, [entry], Some(record));
    assert [entry][1..] == [];
  }

  lemma LinkKeepsOrder(entries: seq<Entry>, ids: seq<nat>, record: nat)
    requires IdOrdered(entries)
    ensures IdOrdered(Link(entries, ids, record))
  {
  }

  lemma {:induction false} LinkKeepsOthers(entries: seq<Entry>, ids: seq<nat>, record: nat, other: nat)
    requires other != record
    requires forall e :: e in entries && e.id in ids ==> e.anchor == None
    ensures Linked(Link(entries, ids, record), other) == Linked(entries, other)
  {
    if entries != [] {
      LinkKeepsOthers(entries[1..], ids, record, other);
      assert Link(entries, ids, record)[1..] == Link(entries[1..], ids, record);
      assert entries[0] in entries;
    }
  }

  lemma FetchedById(entries: seq<Entry>, batch: seq<Entry>, e: Entry)
    requires IdOrdered(entries) && IsFetch(entries, batch)
    requires e in entries && e.id in Ids(batch)
    ensures e in batch && e.anchor == None
  {
    var k :| 0 <= k < |batch| && Ids(batch)[k] == e.id;
    assert batch[k] in batch && batch[k].id == e.id;
  }

  lemma SaveKeepsSound(h: Hash, db: Database, batch: seq<Entry>, recordId: nat, record: Record)
    requires DatabaseSound(h, db) && CanSave(db, recordId, record)
    requires |batch| > 0 && IsFetch(db.entries, batch) && IdOrdered(batch)
    requires record.root == TreeRoot(h, Leaves(batch)) && record.entryCount == |batch|
    ensures DatabaseSound(h, Save(db, batch, recordId, record))
  {
    var db' := Save(db, batch, recordId, record);
    LinkKeepsOrder(db.entries, Ids(batch), recordId);
    forall e | e in db'.entries && e.anchor.Some? ensures e.anchor.value in db'.records {
      var i :| 0 <= i < |db'.entries| && db'.entries[i] == e;
      assert db.entries[i] in db.entries;
    }
    forall r | r in db'.records ensures RecordSound(h, db'.entries, r, db'.records[r]) {
      if r != recordId {
        forall e | e in db.entries && e.id in Ids(batch) ensures e.anchor == None {
          FetchedById(db.entries, batch, e);
        }
        LinkKeepsOthers(db.entries, Ids(batch), recordId, r);
        assert RecordSound(h, db.entries, r, db.records[r]);
      } else {
        forall e {
          LinkedIsTheBatch(db.entries, batch, recordId, e);
        }
        RecordedRootNeedsIdOrder(h, db'.entries, recordId, record, batch);
      }
    }
  }

  lemma UnlinkedElements(entries: seq<Entry>, e: Entry)
    ensures e in Unlinked(entries) <==> exists f :: f in entries && e == f.(anchor := None)
  {
    if e in Unlinked(entries) {
      var k :| 0 <= k < |entries| && Unlinked(entries)[k] == e;
      assert entries[k] in entries;
    }
    if f :| f in entries && e == f.(anchor := None) {
      var k :| 0 <= k < |entries| && entries[k] == f;
      assert Unlinked(entries)[k] == e;
    }
  }

  /** Whatever the order of the batch, saving links exactly its rows to the new record. */
  lemma LinkedIsTheBatch(entries: seq<Entry>, batch: seq<Entry>, record: nat, e: Entry)
    requires IdOrdered(entries) && IsFetch(entries, batch)
    requires forall e :: e in entries ==> e.anchor != Some(record)
    ensures e in batch <==> e in Unlinked(Linked(Link(entries, Ids(batch), record), record))
  {
    var linked := Link(entries, Ids(batch), record);
    var listed := Linked(linked, record);
    WithAnchorElements(linked, Some(record));
    UnlinkedElements(listed, e);
    if e in batch {
      var k :| 0 <= k < |batch| && batch[k] == e;
      assert Ids(batch)[k] == e.id;
      var i :| 0 <= i < |entries| && entries[i] == e;
      assert linked[i] in linked && linked[i] == e.(anchor := Some(record));
    }
    if f :| f in listed && e == f.(anchor := None) {
      var i :| 0 <= i < |linked| && linked[i] == f;
      assert entries[i] in entries && entries[i].id in Ids(batch);
      FetchedById(entries, batch, entries[i]);
    }
  }

  lemma InsertKeepsInvariant(h: Hash, s: State, entry: Entry, position: nat)
    requires Invariant(h, s) && Enabled(s, Insert(entry, position))
    ensures Invariant(h, Step(h, s, Insert(entry, position)))
  {
    var s' := Step(h, s, Insert(entry, position));
    assert forall e :: e in s'.db.entries <==> e in s.db.entries || e == entry by {
      assert s.db.entries == s.db.entries[..position] + s.db.entries[position..];
    }
    forall r | r in s'.db.records ensures MadeFrom(h, s'.db.entries, r, s'.db.records[r], s'.saved[r]) {
      assert MadeFrom(h, s.db.entries, r, s.db.records[r], s.saved[r]);
      InsertKeepsLinked(s.db.entries, entry, position, r);
    }
  }

  lemma SaveKeepsRecords(h: Hash, s: State, recordId: nat, r: nat)
    requires Invariant(h, s) && Enabled(s, SaveSucceeds(recordId)) && (r == recordId || r in s.db.records)
    ensures var s' := Step(h, s, SaveSucceeds(recordId));
      MadeFrom(h, s'.db.entries, r, s'.db.records[r], s'.saved[r])
  {
    var batch := s.phase.batch;
    if r == recordId {
      forall e {
        LinkedIsTheBatch(s.db.entries, batch, recordId, e);
      }
    } else {
      forall e | e in s.db.entries && e.id in Ids(batch) ensures e.anchor == None {
        FetchedById(s.db.entries, batch, e);
      }
      LinkKeepsOthers(s.db.entries, Ids(batch), recordId, r);
      assert MadeFrom(h, s.db.entries, r, s.db.records[r], s.saved[r]);
    }
  }

  lemma SaveKeepsInvariant(h: Hash, s: State, recordId: nat)
    requires Invariant(h, s) && Enabled(s, SaveSucceeds(recordId))
    ensures Invariant(h, Step(h, s, SaveSucceeds(recordId)))
  {
    var s' := Step(h, s, SaveSucceeds(recordId));
    LinkKeepsOrder(s.db.entries, Ids(s.phase.batch), recordId);
    forall e | e in s'.db.entries && e.anchor.Some? ensures e.anchor.value in s'.db.records {
      var i :| 0 <= i < |s'.db.entries| && s'.db.entries[i] == e;
      assert s.db.entries[i] in s.db.entries;
    }
    forall r | r in s'.db.records ensures MadeFrom(h, s'.db.entries, r, s'.db.records[r], s'.saved[r]) {
      SaveKeepsRecords(h, s, recordId, r);
    }
  }

  lemma StepKeepsInvariant(h: Hash, s: State, e: Event)
    requires Invariant(h, s) && Enabled(s, e)
    ensures Invariant(h, Step(h, s, e))
  {
    match e
    case Insert(entry, position) => InsertKeepsInvariant(h, s, entry, position);
    case SaveSucceeds(recordId) => SaveKeepsInvariant(h, s, recordId);
    case Fetch(batch) =>
    case ChainFails =>
    case ChainSucceeds(_, _) =>
    case SaveFails =>
  }

  // ---------------------------------------------------------------------------------------------
  // Runs
  // ---------------------------------------------------------------------------------------------

  ghost predicate IsRun(h: Hash, s: State, events: seq<Event>)
    decreases |events|
  {
    events == [] || (Enabled(s, events[0]) && IsRun(h, Step(h, s, events[0]), events[1..]))
  }

  ghost function After(h: Hash, s: State, events: seq<Event>): State
    requires IsRun(h, s, events)
    decreases |events|
  {
    if events == [] then s else After(h, Step(h, s, events[0]), events[1..])
  }

  /** Over every run each saved record was made from exactly the entries linked to it. */
  lemma {:induction false} RunsKeepInvariant(h: Hash, s: State, events: seq<Event>)
    requires Invariant(h, s) && IsRun(h, s, events)
    ensures Invariant(h, After(h, s, events))
    decreases |events|
  {
    if events != [] {
      StepKeepsInvariant(h, s, events[0]);
      RunsKeepInvariant(h, Step(h, s, events[0]), events[1..]);
    }
  }

  /** Nothing is lost: rows stay, their hashed columns stay, and a link once set stays. */
  ghost predicate Extends(db: Database, db': Database) {
    && (forall e :: e in db.entries ==>
        exists f :: f in db'.entries && e == f.(anchor := e.anchor) && (e.anchor.Some? ==> f == e))
    && (forall r :: r in db.records ==> r in db'.records && db'.records[r] == db.records[r])
  }

  lemma SaveExtends(db: Database, batch: seq<Entry>, recordId: nat, record: Record)
    requires IdOrdered(db.entries) && CanSave(db, recordId, record) && IsFetch(db.entries, batch)
    ensures Extends(db, Save(db, batch, recordId, record))
  {
    var db' := Save(db, batch, recordId, record);
    forall x | x in db.entries
      ensures exists f :: f in db'.entries && x == f.(anchor := x.anchor) && (x.anchor.Some? ==> f == x)
    {
      var i :| 0 <= i < |db.entries| && db.entries[i] == x;
      assert db'.entries[i] in db'.entries;
      if x.id in Ids(batch) {
        FetchedById(db.entries, batch, x);
      }
    }
  }

  lemma StepExtends(h: Hash, s: State, e: Event)
    requires Invariant(h, s) && Enabled(s, e)
    ensures Extends(s.db, Step(h, s, e).db)
  {
    match e
    case SaveSucceeds(recordId) => SaveExtends(s.db, s.phase.batch, recordId, s.phase.record);
    case Insert(entry, position) =>
      assert s.db.entries == s.db.entries[..position] + s.db.entries[position..];
    case Fetch(_) =>
    case ChainFails =>
    case ChainSucceeds(_, _) =>
    case SaveFails =>
  }

  lemma ExtendsTransitive(a: Database, b: Database, c: Database)
    requires Extends(a, b) && Extends(b, c)
    ensures Extends(a, c)
  {
  }

  lemma {:induction false} RunsExtend(h: Hash, s: State, events: seq<Event>)
    requires Invariant(h, s) && IsRun(h, s, events)
    ensures Extends(s.db, After(h, s, events).db)
    decreases |events|
  {
    if events != [] {
      var s' := Step(h, s, events[0]);
      StepKeepsInvariant(h, s, events[0]);
      StepExtends(h, s, events[0]);
      RunsExtend(h, s', events[1..]);
      ExtendsTransitive(s.db, s'.db, After(h, s', events[1..]).db);
    }
  }

  // ---------------------------------------------------------------------------------------------
  // Proofs regenerated from the database
  // ---------------------------------------------------------------------------------------------

  function IndexOf(entries: seq<Entry>, id: nat): (i: nat)
    ensures i <= |entries|
    ensures i < |entries| ==> entries[i].id == id
    ensures forall k :: 0 <= k < i ==> entries[k].id != id
  {
    if entries == [] || entries[0].id == id then 0 else 1 + IndexOf(entries[1..], id)
  }

  /** The service's get_proof: position by id, tree over all leaves, proof for the position. */
  function ServiceProof(h: Hash, id: nat, all: seq<Entry>): Result<MerkleProof> {
    var i := IndexOf(all, id);
    if i == |all| then Err(ValueError) else Ok(ProofOf(h, Leaves(all), i))
  }

  datatype ProofResponse = ProofResponse(
    entryId: nat, root: Bytes, proofHashes: seq<Bytes>, directions: seq<Direction>, txHash: string, blockNumber: int)

  /** GET /ledger/{entry_id}/proof. The root is the recorded one, the path is recomputed. */
  function GetEntryProof(h: Hash, db: Database, entryId: nat): Result<ProofResponse> {
    var i := IndexOf(db.entries, entryId);
    if i == |db.entries| then Err(NotFound)
    else if db.entries[i].anchor == None then Err(NotFound)
    else if db.entries[i].anchor.value !in db.records then Err(NotFound)
    else
      var recordId := db.entries[i].anchor.value;
      var record := db.records[recordId];
      match ServiceProof(h, entryId, Linked(db.entries, recordId))
      case Err(e) => Err(e)
      case Ok(proof) =>
        Ok(ProofResponse(entryId, record.root, proof.proofHashes, proof.directions, record.txHash, record.blockNumber))
  }

  ghost predicate VerifiesAgainst(h: Hash, e: Entry, p: ProofResponse) {
    var leaf := e.HashInput();
    Verdict(h, MerkleProof(leaf, HashLeaf(h, leaf), p.proofHashes, p.directions, p.root)) == Ok(true)
  }

  lemma PositionOf(entries: seq<Entry>, e: Entry)
    requires IdOrdered(entries) && e in entries
    ensures IndexOf(entries, e.id) < |entries| && entries[IndexOf(entries, e.id)] == e
  {
  }

  /** The proof the service issues for a linked entry verifies against the root over the linked rows. */
  lemma LinkedEntryProof(h: Hash, db: Database, e: Entry, recordId: nat)
    requires IdOrdered(db.entries) && e in db.entries && e.anchor == Some(recordId)
    ensures var batch := Linked(db.entries, recordId);
            var proof := ServiceProof(h, e.id, batch);
            && |batch| > 0 && proof.Ok? && proof.value.leaf == e.HashInput()
            && proof.value.leafHash == HashLeaf(h, e.HashInput())
            && proof.value.root == TreeRoot(h, Leaves(batch)) && Verdict(h, proof.value) == Ok(true)
  {
    var batch := Linked(db.entries, recordId);
    WithAnchorElements(db.entries, Some(recordId));
    WithAnchorKeepsOrder(db.entries, Some(recordId));
    PositionOf(batch, e);
    IssuedProofsVerify(h, Leaves(batch), IndexOf(batch, e.id));
  }

  /**
   * An unknown or unanchored entry has no proof. An anchored one gets a proof that carries what its record holds, and
   * the proof verifies exactly if the recorded root is the one over the linked rows in id order.
   */
  lemma ProofVerifiesExactly(h: Hash, db: Database, e: Entry)
    requires IdOrdered(db.entries) && e in db.entries
    requires e.anchor.Some? ==> e.anchor.value in db.records
    ensures forall id :: id !in Ids(db.entries) ==> GetEntryProof(h, db, id) == Err(NotFound)
    ensures e.anchor == None ==> GetEntryProof(h, db, e.id) == Err(NotFound)
    ensures e.anchor.Some? ==>
      && GetEntryProof(h, db, e.id).Ok?
      && (var p, record := GetEntryProof(h, db, e.id).value, db.records[e.anchor.value];
          && p.entryId == e.id && p.root == record.root
          && p.txHash == record.txHash && p.blockNumber == record.blockNumber
          && |Linked(db.entries, e.anchor.value)| > 0
          && (VerifiesAgainst(h, e, p) <==> record.root == TreeRoot(h, Leaves(Linked(db.entries, e.anchor.value)))))
  {
    PositionOf(db.entries, e);
    forall id | id !in Ids(db.entries) ensures IndexOf(db.entries, id) == |db.entries| {
      assert forall k :: 0 <= k < |db.entries| ==> Ids(db.entries)[k] == db.entries[k].id;
    }
    if e.anchor.Some? {
      LinkedEntryProof(h, db, e, e.anchor.value);
    }
  }

  /** In a sound database every anchored entry's proof verifies. */
  lemma AnchoredEntriesHaveValidProofs(h: Hash, db: Database, e: Entry)
    requires DatabaseSound(h, db)
    requires e in db.entries && e.anchor.Some?
    ensures GetEntryProof(h, db, e.id).Ok? && VerifiesAgainst(h, e, GetEntryProof(h, db, e.id).value)
  {
    assert RecordSound(h, db.entries, e.anchor.value, db.records[e.anchor.value]);
    ProofVerifiesExactly(h, db, e);
  }

  // ---------------------------------------------------------------------------------------------
  // The order of a batch
  // ---------------------------------------------------------------------------------------------

  lemma LeavesAreDistinct(batch: seq<Entry>)
    requires DistinctIds(batch)
    ensures Distinct(Leaves(batch))
  {
    forall i, j | 0 <= i < j < |batch| ensures Leaves(batch)[i] != Leaves(batch)[j] {
      if Leaves(batch)[i] == Leaves(batch)[j] {
        HashInputFixesId(batch[i], batch[j]);
      }
    }
  }

  lemma IdsOfElements(s: seq<Entry>, t: seq<Entry>, n: nat)
    requires forall e :: e in s ==> e in t
    requires n in Ids(s)
    ensures n in Ids(t)
  {
    var k :| 0 <= k < |s| && Ids(s)[k] == n;
    assert s[k] in s;
    var j :| 0 <= j < |t| && t[j] == s[k];
    assert Ids(t)[j] == n;
  }

  lemma {:induction false} NoLongerThan(s: seq<Entry>, t: seq<Entry>)
    requires DistinctIds(s) && forall e :: e in s ==> e in t
    ensures |s| <= |t|
    decreases |s|
  {
    if s != [] {
      assert s[0] in s;
      var k :| 0 <= k < |t| && t[k] == s[0];
      var rest := t[..k] + t[k + 1..];
      forall e | e in s[1..] ensures e in rest {
        assert e in s && e.id != s[0].id;
        var j :| 0 <= j < |t| && t[j] == e;
        assert e == if j < k then rest[j] else rest[j - 1];
      }
      NoLongerThan(s[1..], rest);
    }
  }

  lemma SameLeavesSameOrder(batch: seq<Entry>, listed: seq<Entry>)
    requires Leaves(batch) == Leaves(listed) && IdOrdered(listed)
    ensures IdOrdered(batch)
  {
    assert |Leaves(batch)| == |batch| && |Leaves(listed)| == |listed|;
    forall k | 0 <= k < |batch| ensures batch[k].id == listed[k].id {
      assert Leaves(batch)[k] == Leaves(listed)[k];
      HashInputFixesId(batch[k], listed[k]);
    }
  }

  /** Two listings of the same rows, one of them in id order, have one root exactly if the other is, too. */
  lemma RootFixesOrder(h: Hash, batch: seq<Entry>, listed: seq<Entry>)
    requires |batch| > 0 && IdOrdered(listed) && DistinctIds(batch)
    requires forall e :: e in batch <==> e in listed
    ensures |batch| == |listed|
    ensures IdOrdered(batch) ==> TreeRoot(h, Leaves(batch)) == TreeRoot(h, Leaves(listed))
    ensures TreeRoot(h, Leaves(batch)) == TreeRoot(h, Leaves(listed)) ==>
      IdOrdered(batch) || Collision(h, TreeInputs(h, Leaves(batch)), TreeInputs(h, Leaves(listed)))
  {
    NoLongerThan(batch, listed);
    NoLongerThan(listed, batch);
    if IdOrdered(batch) {
      forall n ensures n in Ids(batch) <==> n in Ids(listed) {
        if n in Ids(batch) {
          IdsOfElements(batch, listed, n);
        }
        if n in Ids(listed) {
          IdsOfElements(listed, batch, n);
        }
      }
      OrderedListingIsUnique(batch, listed);
      SameIdsSameLeaves(listed, batch, listed);
    } else if TreeRoot(h, Leaves(batch)) == TreeRoot(h, Leaves(listed)) {
      RootBinding(h, Leaves(batch), Leaves(listed));
      if Leaves(batch) == Leaves(listed) {
        SameLeavesSameOrder(batch, listed);
      }
    }
  }

  lemma UnlinkedKeepsLeaves(listed: seq<Entry>)
    requires IdOrdered(listed)
    ensures IdOrdered(Unlinked(listed)) && Leaves(Unlinked(listed)) == Leaves(listed)
  {
    forall k | 0 <= k < |listed| ensures Leaves(Unlinked(listed))[k] == Leaves(listed)[k] {
      assert Unlinked(listed)[k].HashInput() == listed[k].HashInput();
    }
  }

  /** A record agrees with its rows in id order exactly if its batch was fetched in id order, or a collision. */
  lemma RecordedRootNeedsIdOrder(h: Hash, entries: seq<Entry>, recordId: nat, record: Record, batch: seq<Entry>)
    requires IdOrdered(entries) && MadeFrom(h, entries, recordId, record, batch)
    ensures IdOrdered(batch) ==> RecordSound(h, entries, recordId, record)
    ensures RecordSound(h, entries, recordId, record) ==>
      IdOrdered(batch) || Collision(h, TreeInputs(h, Leaves(batch)), TreeInputs(h, Leaves(Linked(entries, recordId))))
    ensures |Linked(entries, recordId)| == |batch|
  {
    var listed := Linked(entries, recordId);
    WithAnchorKeepsOrder(entries, Some(recordId));
    UnlinkedKeepsLeaves(listed);
    RootFixesOrder(h, batch, Unlinked(listed));
  }

  /**
   * The repository interface does not ask for an order. Over any run, with fetches in any order: every
   * anchored entry gets a proof, with root, transaction and block of one submission of its batch, and the
   * proof verifies exactly if that batch was fetched in id order (or a collision is exhibited).
   */
  lemma ProofNeedsIdOrder(h: Hash, events: seq<Event>, e: Entry)
    requires IsRun(h, EMPTY, events)
    requires e in After(h, EMPTY, events).db.entries && e.anchor.Some?
    ensures var s, r := After(h, EMPTY, events), e.anchor.value;
      && r in s.saved && GetEntryProof(h, s.db, e.id).Ok?
      && var batch, p := s.saved[r], GetEntryProof(h, s.db, e.id).value;
      && Submission(p.root, |batch|, p.txHash, p.blockNumber) in s.chain
      && (IdOrdered(batch) ==> VerifiesAgainst(h, e, p))
      && (VerifiesAgainst(h, e, p) ==>
          IdOrdered(batch) || Collision(h, TreeInputs(h, Leaves(batch)), TreeInputs(h, Leaves(Linked(s.db.entries, r)))))
  {
    RunsKeepInvariant(h, EMPTY, events);
    var s, r := After(h, EMPTY, events), e.anchor.value;
    assert MadeFrom(h, s.db.entries, r, s.db.records[r], s.saved[r]);
    ProofVerifiesExactly(h, s.db, e);
    RecordedRootNeedsIdOrder(h, s.db.entries, r, s.db.records[r], s.saved[r]);
  }

  ghost predicate FetchesInIdOrder(events: seq<Event>) {
    forall k :: 0 <= k < |events| && events[k].Fetch? ==> IdOrdered(events[k].batch)
  }

  ghost predicate BatchesInIdOrder(s: State) {
    && (forall r :: r in s.saved ==> IdOrdered(s.saved[r]))
    && (!s.phase.Idle? ==> IdOrdered(s.phase.batch))
  }

  lemma {:induction false} RunsKeepIdOrder(h: Hash, s: State, events: seq<Event>)
    requires BatchesInIdOrder(s) && IsRun(h, s, events) && FetchesInIdOrder(events)
    ensures BatchesInIdOrder(After(h, s, events))
    decreases |events|
  {
    if events != [] {
      RunsKeepIdOrder(h, Step(h, s, events[0]), events[1..]);
    }
  }

  /** With fetches in id order each record commits to exactly its linked entries, in id order. */
  lemma OrderedRunsAreSound(h: Hash, events: seq<Event>)
    requires IsRun(h, EMPTY, events) && FetchesInIdOrder(events)
    ensures DatabaseSound(h, After(h, EMPTY, events).db)
  {
    var s := After(h, EMPTY, events);
    RunsKeepInvariant(h, EMPTY, events);
    RunsKeepIdOrder(h, EMPTY, events);
    forall r | r in s.db.records ensures RecordSound(h, s.db.entries, r, s.db.records[r]) {
      RecordedRootNeedsIdOrder(h, s.db.entries, r, s.db.records[r], s.saved[r]);
    }
  }

  /** End to end: after any run with fetches in id order, every anchored entry's regenerated proof verifies. */
  lemma BundlerEndToEnd(h: Hash, events: seq<Event>, e: Entry)
    requires IsRun(h, EMPTY, events) && FetchesInIdOrder(events)
    requires e in After(h, EMPTY, events).db.entries && e.anchor.Some?
    ensures var s := After(h, EMPTY, events);
            && GetEntryProof(h, s.db, e.id).Ok?
            && VerifiesAgainst(h, e, GetEntryProof(h, s.db, e.id).value)
            && var p, linked := GetEntryProof(h, s.db, e.id).value, Linked(s.db.entries, e.anchor.value);
               Submission(p.root, |linked|, p.txHash, p.blockNumber) in s.chain
  {
    RunsKeepIdOrder(h, EMPTY, events);
    ProofNeedsIdOrder(h, events, e);
    RunsKeepInvariant(h, EMPTY, events);
    var s, r := After(h, EMPTY, events), e.anchor.value;
    RecordedRootNeedsIdOrder(h, s.db.entries, r, s.db.records[r], s.saved[r]);
  }

  lemma {:induction false} TakeStep(h: Hash, events: seq<Event>, s: State, t: State, e: Event) returns (longer: seq<Event>)
    requires IsRun(h, s, events) && After(h, s, events) == t && Enabled(t, e)
    ensures IsRun(h, s, longer) && After(h, s, longer) == Step(h, t, e)
    ensures longer == events + [e]
    decreases |events|
  {
    longer := events + [e];
    if events == [] {
      assert [e][1..] == [];
    } else {
      var rest := TakeStep(h, events[1..], Step(h, s, events[0]), t, e);
      assert longer[0] == events[0] && longer[1..] == rest;
    }
  }

  lemma {:induction false} Fresh(used: set<nat>) returns (n: nat)
    ensures forall k :: k in used ==> k < n
    decreases used
  {
    n := 0;
    if used != {} {
      var k :| k in used;
      var m := Fresh(used - {k});
      n := if m <= k then k + 1 else m;
      assert forall x :: x in used ==> x == k || x in used - {k};
    }
  }

  /** A record id and a transaction hash that no record has. */
  lemma FreshRecord(db: Database) returns (recordId: nat, txHash: string)
    ensures recordId !in db.records && forall r :: r in db.records ==> db.records[r].txHash != txHash
  {
    recordId := Fresh(db.records.Keys);
    var lengths := set r | r in db.records :: |db.records[r].txHash|;
    var n := Fresh(lengths);
    txHash := seq(n, _ => '0');
    forall r | r in db.records ensures |db.records[r].txHash| in lengths {
    }
  }

  /** A cycle under way can always fail, and after a failure another can begin. */
  lemma FailToIdle(h: Hash, events: seq<Event>, s: State) returns (longer: seq<Event>)
    requires IsRun(h, EMPTY, events) && After(h, EMPTY, events) == s
    ensures IsRun(h, EMPTY, longer) && events <= longer && After(h, EMPTY, longer) == s.(phase := Idle)
  {
    match s.phase
    case Idle => longer := events;
    case Fetched(_) => longer := TakeStep(h, events, EMPTY, s, ChainFails);
    case Submitted(_, _) => longer := TakeStep(h, events, EMPTY, s, SaveFails);
  }

  lemma SaveLinks(entries: seq<Entry>, e: Entry, record: nat)
    requires e in entries
    ensures e.(anchor := Some(record)) in Link(entries, Ids([e]), record)
  {
    var i :| 0 <= i < |entries| && entries[i] == e;
    assert Ids([e])[0] == e.id;
    assert Link(entries, Ids([e]), record)[i] == e.(anchor := Some(record));
  }

  /** Failures lose nothing: after any run every unanchored entry can still be anchored. */
  lemma UnanchoredCanBeAnchored(h: Hash, events: seq<Event>, e: Entry) returns (longer: seq<Event>, recordId: nat)
    requires IsRun(h, EMPTY, events)
    requires e in After(h, EMPTY, events).db.entries && e.anchor == None
    ensures IsRun(h, EMPTY, longer) && events <= longer
    ensures e.(anchor := Some(recordId)) in After(h, EMPTY, longer).db.entries
  {
    var s := After(h, EMPTY, events);
    longer := FailToIdle(h, events, s);
    var txHash: string;
    recordId, txHash := FreshRecord(s.db);
    var s1 := s.(phase := Idle);
    longer := TakeStep(h, longer, EMPTY, s1, Fetch([e]));
    var s2 := s1.(phase := Fetched([e]));
    longer := TakeStep(h, longer, EMPTY, s2, ChainSucceeds(txHash, 0));
    var s3 := Step(h, s2, ChainSucceeds(txHash, 0));
    longer := TakeStep(h, longer, EMPTY, s3, SaveSucceeds(recordId));
    SaveLinks(s.db.entries, e, recordId);
  }

  lemma SaveLinksBoth(e: Entry, f: Entry)
    ensures Link([e, f], Ids([f, e]), 0) == [e.(anchor := Some(0)), f.(anchor := Some(0))]
  {
    assert Ids([f, e])[0] == f.id && Ids([f, e])[1] == e.id;
  }

  lemma LinkedBoth(e: Entry, f: Entry)
    requires e.anchor == Some(0) && f.anchor == Some(0)
    ensures Linked([e, f], 0) == [e, f]
  {
    WithAnchorOfConcat([e], [f], Some(0));
    assert [e] + [f] == [e, f];
    forall x: Entry | x.anchor == Some(0) ensures Linked([x], 0) == [x] {
      assert [x][1..] == [];
    }
  }

  lemma BackwardRun(h: Hash, e: Entry, f: Entry) returns (events: seq<Event>)
    requires e.id < f.id && e.anchor == None && f.anchor == None
    ensures IsRun(h, EMPTY, events)
    ensures var record := AnchorRecord(h, [f, e], "0", 0);
      After(h, EMPTY, events) ==
        State(Database([e.(anchor := Some(0)), f.(anchor := Some(0))], map[0 := record]), Idle,
              [Submission(record.root, 2, "0", 0)], map[0 := [f, e]])
  {
    var batch, record := [f, e], AnchorRecord(h, [f, e], "0", 0);
    events := TakeStep(h, [], EMPTY, EMPTY, Insert(e, 0));
    var s1 := State(Database([e], map[]), Idle, [], map[]);
    events := TakeStep(h, events, EMPTY, s1, Insert(f, 1));
    var s2 := s1.(db := Database([e, f], map[]));
    events := TakeStep(h, events, EMPTY, s2, Fetch(batch));
    var s3 := s2.(phase := Fetched(batch));
    events := TakeStep(h, events, EMPTY, s3, ChainSucceeds("0", 0));
    var s4 := s3.(phase := Submitted(batch, record), chain := [Submission(record.root, 2, "0", 0)]);
    SaveLinksBoth(e, f);
    events := TakeStep(h, events, EMPTY, s4, SaveSucceeds(0));
  }

  /** Two rows fetched backwards: both are anchored, and neither proof ever verifies without a collision. */
  lemma BackwardFetchBreaksProofs(h: Hash, e: Entry, f: Entry) returns (events: seq<Event>)
    requires e.id < f.id && e.anchor == None && f.anchor == None
    ensures IsRun(h, EMPTY, events)
    ensures var entries := [e.(anchor := Some(0)), f.(anchor := Some(0))];
      && After(h, EMPTY, events).db.entries == entries
      && forall x :: x in entries ==>
        && GetEntryProof(h, After(h, EMPTY, events).db, x.id).Ok?
        && (VerifiesAgainst(h, x, GetEntryProof(h, After(h, EMPTY, events).db, x.id).value) ==>
            Collision(h, TreeInputs(h, Leaves([f, e])), TreeInputs(h, Leaves(entries))))
  {
    events := BackwardRun(h, e, f);
    var entries := [e.(anchor := Some(0)), f.(anchor := Some(0))];
    LinkedBoth(entries[0], entries[1]);
    assert !IdOrdered([f, e]) by {
      assert [f, e][1].id < [f, e][0].id;
    }
    forall x | x in entries
      ensures GetEntryProof(h, After(h, EMPTY, events).db, x.id).Ok?
      ensures VerifiesAgainst(h, x, GetEntryProof(h, After(h, EMPTY, events).db, x.id).value) ==>
        Collision(h, TreeInputs(h, Leaves([f, e])), TreeInputs(h, Leaves(entries)))
    {
      ProofNeedsIdOrder(h, events, x);
    }
  }

  /** No hashed column changed, and no row was swapped, added or removed. */
  ghost predicate SameRows(anchored: seq<Entry>, now: seq<Entry>) {
    |now| == |anchored| && forall k :: 0 <= k < |now| ==> now[k] == anchored[k].(anchor := now[k].anchor)
  }

  lemma LeavesFixRows(anchored: seq<Entry>, now: seq<Entry>)
    requires Leaves(anchored) == Leaves(now)
    ensures |anchored| == |now|
    ensures SameRows(anchored, now) <==> forall k :: 0 <= k < |now| ==> SameColons(anchored[k], now[k])
  {
    assert |anchored| == |Leaves(anchored)| == |Leaves(now)| == |now|;
    forall k | 0 <= k < |now|
      ensures now[k] == anchored[k].(anchor := now[k].anchor) <==> SameColons(anchored[k], now[k])
    {
      assert Leaves(now)[k] == Leaves(anchored)[k];
      HashInputFixesColumns(anchored[k], now[k]);
    }
  }

  /**
   * Tamper evidence, the purpose of anchoring: rows that still give a record's root and count are the rows
   * anchored, exactly if their amounts and timestamps hold as many colons as before.
   */
  lemma AnchorRevealsTampering(h: Hash, anchored: seq<Entry>, now: seq<Entry>)
    requires |anchored| > 0 && |now| == |anchored|
    requires TreeRoot(h, Leaves(now)) == TreeRoot(h, Leaves(anchored))
    ensures (SameRows(anchored, now) <==> forall k :: 0 <= k < |now| ==> SameColons(anchored[k], now[k]))
         || Collision(h, TreeInputs(h, Leaves(now)), TreeInputs(h, Leaves(anchored)))
  {
    RootBinding(h, Leaves(now), Leaves(anchored));
    if Leaves(now) == Leaves(anchored) {
      LeavesFixRows(anchored, now);
    }
  }

  /**
   * Even without the recorded count: among lists of rows with distinct ids, as the source writes them, the
   * root alone fixes how many rows there are, their order and every hashed column, unless the rows of one
   * list stand for hashed pairs of the other.
   */
  lemma RootAloneRevealsTampering(h: Hash, anchored: seq<Entry>, now: seq<Entry>, stampColons: nat)
    requires |anchored| > 0 && |now| > 0 && DistinctIds(anchored) && DistinctIds(now)
    requires forall e :: e in anchored + now ==> Regular(e, stampColons)
    requires TreeRoot(h, Leaves(now)) == TreeRoot(h, Leaves(anchored))
    ensures SameRows(anchored, now)
         || StandForPairs(h, Leaves(now), Leaves(anchored)) || StandForPairs(h, Leaves(anchored), Leaves(now))
         || Collision(h, TreeInputs(h, Leaves(now)), TreeInputs(h, Leaves(anchored)))
  {
    LeavesAreDistinct(anchored);
    LeavesAreDistinct(now);
    RootBindingDistinct(h, Leaves(now), Leaves(anchored));
    if Leaves(now) == Leaves(anchored) {
      LeavesFixRows(anchored, now);
      forall k | 0 <= k < |now| ensures SameColons(anchored[k], now[k]) {
        assert now[k] in anchored + now && anchored[k] in anchored + now;
        assert Regular(now[k], stampColons) && Regular(anchored[k], stampColons);
      }
    }
  }
}

/** The classes: the repository contract kept in id order, the service, and one cycle of the loop. */
module Bundler {
  import opened Foundations
  import opened MerkleTrees
  import opened HashInputs
  import opened AnchorSteps

  /** SELECT ... WHERE anchor_id IS NULL ORDER BY id. */
  function Unanchored(entries: seq<Entry>): seq<Entry> {
    WithAnchor(entries, None)
  }

  function Prefix<T>(s: seq<T>, limit: nat): seq<T> {
    if |s| <= limit then s else s[..limit]
  }

  /** The next batch: the first unanchored entries in id order. */
  function NextBatch(entries: seq<Entry>, limit: nat): seq<Entry> {
    Prefix(Unanchored(entries), limit)
  }

  lemma NextBatchIsFetch(entries: seq<Entry>, limit: nat)
    requires IdOrdered(entries)
    ensures IsFetch(entries, NextBatch(entries, limit)) && IdOrdered(NextBatch(entries, limit))
  {
    WithAnchorElements(entries, None);
    WithAnchorKeepsOrder(entries, None);
  }

  class Repository {
    var entries: seq<Entry>
    var records: map<nat, Record>

    constructor ()
      ensures entries == [] && records == map[]
    {
      entries, records := [], map[];
    }

    function Contents(): Database
      reads this
    {
      Database(entries, records)
    }

    method FetchUnanchored(limit: nat) returns (batch: seq<Entry>)
      ensures batch == NextBatch(entries, limit)
    {
      batch := [];
      var k := 0;
      assert entries[..0] + entries[0..] == entries;
      while k < |entries| && |batch| < limit
        invariant k <= |entries| && |batch| <= limit
        invariant batch == Unanchored(entries[..k])
        decreases |entries| - k
      {
        WithAnchorOfConcat(entries[..k], [entries[k]], None);
        assert entries[..k + 1] == entries[..k] + [entries[k]];
        assert [entries[k]][1..] == [];
        if entries[k].anchor == None {
          batch := batch + [entries[k]];
        }
        k := k + 1;
      }
      WithAnchorOfConcat(entries[..k], entries[k..], None);
      assert entries == entries[..k] + entries[k..];
    }

    /** One transaction: the record is stored and every listed entry linked, or nothing happens. */
    method SaveAnchor(recordId: nat, record: Record, ids: seq<nat>) returns (saved: bool)
      modifies this
      ensures saved == CanSave(old(Contents()), recordId, record)
      ensures saved ==> Contents() == Database(Link(old(entries), ids, recordId), old(records)[recordId := record])
      ensures !saved ==> Contents() == old(Contents())
    {
      if !CanSave(Contents(), recordId, record) {
        return false;
      }
      var linked := [];
      for k := 0 to |entries|
        invariant linked == Link(entries, ids, recordId)[..k]
      {
        var e := entries[k];
        linked := linked + [if e.id in ids then e.(anchor := Some(recordId)) else e];
      }
      entries := linked;
      records := records[recordId := record];
      return true;
    }
  }

  datatype Receipt = Receipt(txHash: string, blockNumber: int)

  /** The chain client raises (None) or returns a receipt; what reached the contract is logged. */
  class AnchoringService {
    const h: Hash
    var chain: seq<Submission>

    constructor (h: Hash)
      ensures this.h == h && chain == []
    {
      this.h, chain := h, [];
    }

    method AnchorBatch(entries: seq<Entry>, receipt: Option<Receipt>) returns (record: Result<Record>)
      modifies this`chain
      ensures entries == [] || receipt == None ==> record.Err? && chain == old(chain)
      ensures entries != [] && receipt.Some? ==>
        && record == Ok(Record(TreeRoot(h, Leaves(entries)), receipt.value.txHash, receipt.value.blockNumber, |entries|))
        && chain == old(chain) +
             [Submission(TreeRoot(h, Leaves(entries)), |entries|, receipt.value.txHash, receipt.value.blockNumber)]
    {
      if entries == [] {
        return Err(ValueError);
      }
      var tree := new MerkleTree(h, Leaves(entries));
      var root := tree.GetRoot();
      match receipt {
        case None => return Err(ServiceUnavailable);
        case Some(r) =>
          chain := chain + [Submission(root, |entries|, r.txHash, r.blockNumber)];
          return Ok(Record(root, r.txHash, r.blockNumber, |entries|));
      }
    }
  }

  /** What one cycle does to the database, given how the chain and the transaction behave. */
  function Cycle(h: Hash, db: Database, limit: nat, receipt: Option<Receipt>, recordId: nat): Database {
    var batch := NextBatch(db.entries, limit);
    if batch == [] || receipt == None then db
    else
      var record := AnchorRecord(h, batch, receipt.value.txHash, receipt.value.blockNumber);
      if CanSave(db, recordId, record) then Save(db, batch, recordId, record) else db
  }

  method RunOnce(service: AnchoringService, repo: Repository, limit: nat, receipt: Option<Receipt>, recordId: nat)
    modifies service`chain, repo
    ensures repo.Contents() == Cycle(service.h, old(repo.Contents()), limit, receipt, recordId)
    ensures var batch := NextBatch(old(repo.entries), limit);
      service.chain ==
        if batch == [] || receipt == None then old(service.chain)
        else old(service.chain) + [Submission(TreeRoot(service.h, Leaves(batch)), |batch|,
                                              receipt.value.txHash, receipt.value.blockNumber)]
  {
    var entries := repo.FetchUnanchored(limit);
    if entries == [] {
      return;
    }
    var record := service.AnchorBatch(entries, receipt);
    match record {
      case Err(_) => return;
      case Ok(r) => var saved := repo.SaveAnchor(recordId, r, Ids(entries));
    }
  }

  /** A cycle is a run of the interleaved bundler, so it keeps the database sound and extends it. */
  lemma CycleIsSoundAndExtends(h: Hash, db: Database, limit: nat, receipt: Option<Receipt>, recordId: nat)
    requires DatabaseSound(h, db)
    ensures var db' := Cycle(h, db, limit, receipt, recordId); DatabaseSound(h, db') && Extends(db, db')
  {
    var batch := NextBatch(db.entries, limit);
    NextBatchIsFetch(db.entries, limit);
    if batch != [] && receipt.Some? {
      var record := AnchorRecord(h, batch, receipt.value.txHash, receipt.value.blockNumber);
      if CanSave(db, recordId, record) {
        SaveKeepsSound(h, db, batch, recordId, record);
        SaveExtends(db, batch, recordId, record);
      }
    }
  }

  // ---------------------------------------------------------------------------------------------
  // Progress
  // ---------------------------------------------------------------------------------------------

  lemma AbsentIdLinksNothing(entries: seq<Entry>, id: nat, ids: seq<nat>, record: nat)
    requires forall e :: e in entries ==> e.id != id
    ensures Link(entries, [id] + ids, record) == Link(entries, ids, record)
  {
  }

  lemma LinkTail(entries: seq<Entry>, ids: seq<nat>, record: nat)
    requires entries != []
    ensures Link(entries, ids, record)[1..] == Link(entries[1..], ids, record)
  {
  }

  /** Linking the first n unanchored entries leaves exactly the others unanchored, in the same order. */
  lemma {:induction false} LinkRemovesFirst(entries: seq<Entry>, n: nat, record: nat)
    requires IdOrdered(entries) && n <= |Unanchored(entries)|
    ensures Unanchored(Link(entries, Ids(Unanchored(entries)[..n]), record)) == Unanchored(entries)[n..]
    decreases |entries|
  {
    var ids := Ids(Unanchored(entries)[..n]);
    if n == 0 {
      assert Link(entries, ids, record) == entries;
    } else {
      LinkTail(entries, ids, record);
      if entries[0].anchor == None {
        LinkRemovesHead(entries, n, record);
      } else {
        assert Unanchored(entries) == Unanchored(entries[1..]);
        LinkRemovesFirst(entries[1..], n, record);
      }
    }
  }

  lemma LinkHead(entries: seq<Entry>, n: nat, record: nat)
    requires IdOrdered(entries) && entries != [] && entries[0].anchor == None && 0 < n <= |Unanchored(entries)|
    ensures var tail := entries[1..];
      && n - 1 <= |Unanchored(tail)|
      && Unanchored(Link(entries, Ids(Unanchored(entries)[..n]), record))
         == Unanchored(Link(tail, Ids(Unanchored(tail)[..n - 1]), record))
      && Unanchored(entries)[n..] == Unanchored(tail)[n - 1..]
  {
    var head, tail := entries[0], entries[1..];
    var ids, rest := Ids(Unanchored(entries)[..n]), Ids(Unanchored(tail)[..n - 1]);
    assert Unanchored(entries) == [head] + Unanchored(tail);
    assert ids == [head.id] + rest;
    LinkTail(entries, ids, record);
    AbsentIdLinksNothing(tail, head.id, rest, record);
    assert Link(entries, ids, record)[0].anchor == Some(record);
  }

  lemma {:induction false} LinkRemovesHead(entries: seq<Entry>, n: nat, record: nat)
    requires IdOrdered(entries) && 0 < n <= |Unanchored(entries)| && entries != [] && entries[0].anchor == None
    ensures Unanchored(Link(entries, Ids(Unanchored(entries)[..n]), record)) == Unanchored(entries)[n..]
    decreases |entries|, 0
  {
    LinkHead(entries, n, record);
    LinkRemovesFirst(entries[1..], n - 1, record);
  }

  datatype Outcome = Outcome(receipt: Receipt, recordId: nat)

  /** Cycles in which the chain accepts the root and the transaction commits. */
  ghost predicate AllSucceed(h: Hash, db: Database, limit: nat, outcomes: seq<Outcome>)
    decreases |outcomes|
  {
    outcomes == [] ||
    (var o, batch := outcomes[0], NextBatch(db.entries, limit);
     && (batch != [] ==>
         CanSave(db, o.recordId, AnchorRecord(h, batch, o.receipt.txHash, o.receipt.blockNumber)))
     && AllSucceed(h, Cycle(h, db, limit, Some(o.receipt), o.recordId), limit, outcomes[1..]))
  }

  ghost function Cycles(h: Hash, db: Database, limit: nat, outcomes: seq<Outcome>): Database
    decreases |outcomes|
  {
    if outcomes == [] then db
    else
      var o := outcomes[0];
      Cycles(h, Cycle(h, db, limit, Some(o.receipt), o.recordId), limit, outcomes[1..])
  }

  lemma SuccessfulCycle(h: Hash, db: Database, limit: nat, o: Outcome)
    requires IdOrdered(db.entries)
    requires var batch := NextBatch(db.entries, limit);
      batch != [] ==> CanSave(db, o.recordId, AnchorRecord(h, batch, o.receipt.txHash, o.receipt.blockNumber))
    ensures var db' := Cycle(h, db, limit, Some(o.receipt), o.recordId);
      && IdOrdered(db'.entries)
      && Unanchored(db'.entries) == Unanchored(db.entries)[|NextBatch(db.entries, limit)|..]
  {
    var open, batch := Unanchored(db.entries), NextBatch(db.entries, limit);
    if batch != [] {
      assert batch == open[..|batch|];
      LinkRemovesFirst(db.entries, |batch|, o.recordId);
      LinkKeepsOrder(db.entries, Ids(batch), o.recordId);
    }
  }

  /** How many of n waiting entries are left after k batches. */
  function Left(n: nat, k: nat, limit: nat): nat {
    if n <= k * limit then 0 else n - k * limit
  }

  lemma LeftAfterOneMore(n: nat, k: nat, limit: nat)
    ensures Left(n, k + 1, limit) == Left(if n <= limit then 0 else n - limit, k, limit)
  {
  }

  /** One batch per cycle: k successful cycles anchor min(n, k * limit) of n waiting entries. */
  lemma {:induction false} SuccessfulCyclesDrain(h: Hash, db: Database, limit: nat, outcomes: seq<Outcome>)
    requires IdOrdered(db.entries) && AllSucceed(h, db, limit, outcomes)
    ensures |Unanchored(Cycles(h, db, limit, outcomes).entries)|
         == Left(|Unanchored(db.entries)|, |outcomes|, limit)
    decreases |outcomes|
  {
    if outcomes != [] {
      var o := outcomes[0];
      SuccessfulCycle(h, db, limit, o);
      SuccessfulCyclesDrain(h, Cycle(h, db, limit, Some(o.receipt), o.recordId), limit, outcomes[1..]);
      LeftAfterOneMore(|Unanchored(db.entries)|, |outcomes| - 1, limit);
    } else {
      assert 0 * limit == 0;
    }
  }
}
