/** The exactly-once write of the surrounding systems, statement by statement.

    Any number of attempts run at once, each on its own connection: read the key; perform the
    write's rows; insert the key; commit. What an attempt has written stays its own until it
    commits. The database is trusted for READ COMMITTED reads, for making an insert wait on an
    uncommitted duplicate key, for row locks (`FOR UPDATE` against itself and against the shared
    lock a foreign key takes) and for holding every lock to the end of its transaction. */
module CoreSimStore {
  import opened CoreSimTables

  /** Where one attempt stands. A tentative write carries the inputs it drew and its response. */
  datatype Phase =
    | Reading
    | Performing
    | Tentative(id: Uuid, now: int, response: Response)
    | KeyInserted(id: Uuid, now: int, response: Response)
    | Rereading
    | Answered(answer: Answer)
    | Raised
    | Lost

  /** One call of the store; `earlier` are the attempts already answered when it began, kept only to
      state that the serial order respects real time. */
  datatype Attempt = Attempt(key: Key, operation: Operation, earlier: set<nat>, phase: Phase)

  datatype System = System(tables: Tables, attempts: seq<Attempt>)

  datatype Event =
    | Begin(key: Key, operation: Operation)
    | Remember(i: nat)
    | PerformRows(i: nat, id: Uuid, now: int)
    | InsertKey(i: nat)
    | Commit(i: nat)
    | Reread(i: nat)
    | Crash(i: nat)

  function Start(policies: set<string>): System {
    System(Seeded(policies), [])
  }

  ghost predicate Holding(a: Attempt) {
    a.phase.Tentative? || a.phase.KeyInserted?
  }

  ghost predicate Finished(a: Attempt) {
    a.phase.Answered? || a.phase.Raised? || a.phase.Lost?
  }

  /** Two writes whose locks on one claim's row exclude each other. */
  predicate Excludes(a: Operation, b: Operation) {
    && !a.CreateClaim? && !b.CreateClaim?
    && a.claimId == b.claimId
    && (a.RecordStatus? || b.RecordStatus?)
  }

  ghost predicate RowBlocked(s: System, i: nat)
    requires i < |s.attempts|
  {
    exists j :: 0 <= j < |s.attempts| && j != i && Holding(s.attempts[j])
      && Excludes(s.attempts[i].operation, s.attempts[j].operation)
  }

  ghost predicate KeyBlocked(s: System, i: nat)
    requires i < |s.attempts|
  {
    && s.attempts[i].key !in s.tables.keys
    && exists j :: 0 <= j < |s.attempts| && j != i && s.attempts[j].phase.KeyInserted?
         && s.attempts[j].key == s.attempts[i].key
  }

  /** An identifier no committed row and no uncommitted one carries. */
  ghost predicate Drawable(s: System, id: Uuid) {
    && Unused(s.tables, id)
    && forall j :: 0 <= j < |s.attempts| && Holding(s.attempts[j]) ==> s.attempts[j].phase.id != id
  }

  ghost predicate Enabled(s: System, e: Event) {
    match e
    case Begin(_, _) => true
    case Remember(i) => i < |s.attempts| && s.attempts[i].phase.Reading?
    case PerformRows(i, id, now) =>
      && i < |s.attempts| && s.attempts[i].phase.Performing? && Drawable(s, id)
      && (RowBlocked(s, i) ==> Perform(s.tables, s.attempts[i].operation, id, now).Refused?)
    case InsertKey(i) => i < |s.attempts| && s.attempts[i].phase.Tentative? && !KeyBlocked(s, i)
    case Commit(i) => i < |s.attempts| && s.attempts[i].phase.KeyInserted?
    case Reread(i) => i < |s.attempts| && s.attempts[i].phase.Rereading?
    case Crash(i) => i < |s.attempts| && !Finished(s.attempts[i])
  }

  function AnsweredBy(attempts: seq<Attempt>): set<nat> {
    set i | 0 <= i < |attempts| && attempts[i].phase.Answered?
  }

  function At(s: System, i: nat, phase: Phase): System
    requires i < |s.attempts|
  {
    s.(attempts := s.attempts[i := s.attempts[i].(phase := phase)])
  }

  function Committed(t: Tables, a: Attempt): Tables
    requires a.phase.KeyInserted?
  {
    WithKey(Written(t, a.phase.response), a.key, a.operation, a.phase.response)
  }

  function Step(s: System, e: Event): System
    requires Enabled(s, e)
  {
    match e
    case Begin(key, operation) =>
      s.(attempts := s.attempts + [Attempt(key, operation, AnsweredBy(s.attempts), Reading)])
    case Remember(i) =>
      var a := s.attempts[i];
      if a.key in s.tables.keys then At(s, i, Answered(Replayed(s.tables.keys[a.key], a.operation)))
      else At(s, i, Performing)
    case PerformRows(i, id, now) =>
      (match Perform(s.tables, s.attempts[i].operation, id, now)
       case Refused(refusal) => At(s, i, Answered(Refused(refusal)))
       case Replied(response) => At(s, i, Tentative(id, now, response)))
    case InsertKey(i) =>
      var a := s.attempts[i];
      if a.key in s.tables.keys then At(s, i, Rereading)
      else At(s, i, KeyInserted(a.phase.id, a.phase.now, a.phase.response))
    case Commit(i) =>
      At(s.(tables := Committed(s.tables, s.attempts[i])), i, Answered(Replied(s.attempts[i].phase.response)))
    case Reread(i) =>
      var a := s.attempts[i];
      if a.key in s.tables.keys then At(s, i, Answered(Replayed(s.tables.keys[a.key], a.operation)))
      else At(s, i, Raised)
    case Crash(i) => At(s, i, Lost)
  }

  ghost predicate Possible(s: System, es: seq<Event>)
    decreases |es|
  {
    es == [] || (Enabled(s, es[0]) && Possible(Step(s, es[0]), es[1..]))
  }

  ghost function Execute(s: System, es: seq<Event>): System
    requires Possible(s, es)
    decreases |es|
  {
    if es == [] then s else Execute(Step(s, es[0]), es[1..])
  }

  // ---------------------------------------------------------------- the invariant

  /** A tentative write is still what performing it on the committed rows would answer. */
  ghost predicate Current(s: System, i: nat)
    requires i < |s.attempts|
  {
    var a := s.attempts[i];
    Holding(a) ==>
      && Perform(s.tables, a.operation, a.phase.id, a.phase.now) == Replied(a.phase.response)
      && Unused(s.tables, a.phase.id)
  }

  /** Uncommitted work of two attempts never meets: not in a row, a key or an identifier. */
  ghost predicate Apart(s: System, i: nat, j: nat)
    requires i < |s.attempts| && j < |s.attempts|
  {
    var a, b := s.attempts[i], s.attempts[j];
    i != j && Holding(a) && Holding(b) ==>
      && !Excludes(a.operation, b.operation)
      && a.phase.id != b.phase.id
      && (a.phase.KeyInserted? && b.phase.KeyInserted? ==> a.key != b.key)
  }

  /** What an attempt's phase says about the committed keys. */
  ghost predicate KeyedRight(s: System, i: nat)
    requires i < |s.attempts|
  {
    var a := s.attempts[i];
    match a.phase
    case KeyInserted(_, _, _) => a.key !in s.tables.keys
    case Rereading => a.key in s.tables.keys
    case Raised => false
    case Answered(Replied(response)) =>
      a.key in s.tables.keys
      && s.tables.keys[a.key] == Remembered(RequestFingerprint(a.operation), response)
    case Answered(Refused(IdempotencyKeyReuse)) =>
      a.key in s.tables.keys
      && s.tables.keys[a.key].fingerprint != RequestFingerprint(a.operation)
    case _ => true
  }

  ghost predicate Inv(s: System) {
    && (forall i :: 0 <= i < |s.attempts| ==> Current(s, i) && KeyedRight(s, i))
    && (forall i, j :: 0 <= i < |s.attempts| && 0 <= j < |s.attempts| ==> Apart(s, i, j))
    && Accounted(s.tables)
  }

  /** The call the atomic store would see for an attempt that commits. */
  function CallOf(s: System, i: nat): Call
    requires i < |s.attempts| && s.attempts[i].phase.KeyInserted?
  {
    var a := s.attempts[i];
    Call(i, a.key, a.operation, a.phase.id, a.phase.now)
  }

  lemma CommitIsOnce(s: System, i: nat)
    requires Inv(s) && i < |s.attempts| && s.attempts[i].phase.KeyInserted?
    ensures DrawsFresh(s.tables, CallOf(s, i)) && Writes(s.tables, CallOf(s, i))
    ensures Once(s.tables, CallOf(s, i))
         == (Step(s, Commit(i)).tables, Replied(s.attempts[i].phase.response))
  {
    assert Current(s, i) && KeyedRight(s, i);
  }

  /** Two writes whose locks do not exclude each other commute: committing one leaves the other's
      tentative answer what it was. */
  lemma WriteKeepsPerform(t: Tables, call: Call, operation: Operation, id: Uuid, now: int)
    requires Writes(t, call) && Unused(t, id) && id != call.id
    requires Perform(t, operation, id, now).Replied? && !Excludes(operation, call.operation)
    ensures Perform(Once(t, call).0, operation, id, now) == Perform(t, operation, id, now)
    ensures Unused(Once(t, call).0, id)
  {
  }

  lemma CommitKeepsCurrent(s: System, i: nat, j: nat)
    requires i < |s.attempts| && s.attempts[i].phase.KeyInserted? && j < |s.attempts| && j != i
    requires Current(s, i) && Current(s, j) && KeyedRight(s, i) && KeyedRight(s, j)
    requires Apart(s, i, j) && Apart(s, j, i)
    ensures Current(Step(s, Commit(i)), j) && KeyedRight(Step(s, Commit(i)), j)
  {
    var a := s.attempts[j];
    if Holding(a) {
      WriteKeepsPerform(s.tables, CallOf(s, i), a.operation, a.phase.id, a.phase.now);
    }
  }

  lemma CommitKeepsInv(s: System, i: nat)
    requires Inv(s) && i < |s.attempts| && s.attempts[i].phase.KeyInserted?
    ensures Inv(Step(s, Commit(i)))
  {
    var u := Step(s, Commit(i));
    CommitIsOnce(s, i);
    OnceAccounts(s.tables, CallOf(s, i));
    forall j | 0 <= j < |u.attempts| ensures Current(u, j) && KeyedRight(u, j) {
      assert Current(s, j) && KeyedRight(s, j) && Apart(s, i, j) && Apart(s, j, i);
      if j != i {
        CommitKeepsCurrent(s, i, j);
      }
    }
    forall j, k | 0 <= j < |u.attempts| && 0 <= k < |u.attempts| ensures Apart(u, j, k) {
      assert Apart(s, j, k);
    }
  }

  /** A step that leaves the tables alone keeps the invariant once its own attempt is in order. */
  lemma LocalKeepsInv(s: System, i: nat, phase: Phase)
    requires Inv(s) && i < |s.attempts|
    requires Current(At(s, i, phase), i) && KeyedRight(At(s, i, phase), i)
    requires forall j :: 0 <= j < |s.attempts| ==> Apart(At(s, i, phase), i, j) && Apart(At(s, i, phase), j, i)
    ensures Inv(At(s, i, phase))
  {
    var u := At(s, i, phase);
    forall j | 0 <= j < |u.attempts| ensures Current(u, j) && KeyedRight(u, j) {
      assert Current(s, j) && KeyedRight(s, j);
    }
    forall j, k | 0 <= j < |u.attempts| && 0 <= k < |u.attempts| ensures Apart(u, j, k) {
      if j != i && k != i {
        assert Apart(s, j, k);
      }
    }
  }

  lemma PerformKeepsInv(s: System, i: nat, id: Uuid, now: int)
    requires Inv(s) && Enabled(s, PerformRows(i, id, now))
    ensures Inv(Step(s, PerformRows(i, id, now)))
  {
    var u := Step(s, PerformRows(i, id, now));
    forall j | 0 <= j < |s.attempts| ensures Apart(u, i, j) && Apart(u, j, i) {
      assert RowBlocked(s, i) || !Holding(s.attempts[j]) || j == i
        || !Excludes(s.attempts[i].operation, s.attempts[j].operation);
    }
    LocalKeepsInv(s, i, u.attempts[i].phase);
  }

  lemma InsertKeepsInv(s: System, i: nat)
    requires Inv(s) && Enabled(s, InsertKey(i))
    ensures Inv(Step(s, InsertKey(i)))
  {
    var u := Step(s, InsertKey(i));
    assert Current(s, i);
    forall j | 0 <= j < |s.attempts| ensures Apart(u, i, j) && Apart(u, j, i) {
      assert Apart(s, i, j) && Apart(s, j, i);
    }
    LocalKeepsInv(s, i, u.attempts[i].phase);
  }

  lemma StepKeepsInv(s: System, e: Event)
    requires Inv(s) && Enabled(s, e)
    ensures Inv(Step(s, e))
  {
    match e {
      case Begin(_, _) =>
        var u := Step(s, e);
        forall j | 0 <= j < |s.attempts| ensures Current(u, j) && KeyedRight(u, j) {
          assert Current(s, j) && KeyedRight(s, j);
        }
        forall j, k | 0 <= j < |s.attempts| && 0 <= k < |s.attempts| ensures Apart(u, j, k) {
          assert Apart(s, j, k);
        }
      case Remember(i) => LocalKeepsInv(s, i, Step(s, e).attempts[i].phase);
      case PerformRows(i, id, now) => PerformKeepsInv(s, i, id, now);
      case InsertKey(i) => InsertKeepsInv(s, i);
      case Commit(i) => CommitKeepsInv(s, i);
      case Reread(i) =>
        assert KeyedRight(s, i);
        LocalKeepsInv(s, i, Step(s, e).attempts[i].phase);
      case Crash(i) => LocalKeepsInv(s, i, Lost);
    }
  }

  lemma {:induction false} ExecuteKeepsInv(s: System, es: seq<Event>)
    requires Inv(s) && Possible(s, es)
    ensures Inv(Execute(s, es))
    decreases |es|
  {
    if es != [] {
      StepKeepsInv(s, es[0]);
      ExecuteKeepsInv(Step(s, es[0]), es[1..]);
    }
  }
}
