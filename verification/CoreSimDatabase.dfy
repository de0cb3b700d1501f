/** The store itself: tables updated in place, one statement of one attempt at a time.

    A method is one statement (or one commit) of one connection; a caller that interleaves them
    freely is a run of `CoreSimStore`. */
module CoreSimDatabase {
  import opened CoreSimTables
  import opened CoreSimStore

  class PostgresCoreSim {
    var policies: set<string>
    var claims: map<Uuid, Claim>
    var documents: map<Uuid, Document>
    var parties: map<Uuid, Party>
    var keys: map<Key, Remembered>
    var attempts: seq<Attempt>

    function View(): System
      reads this
    {
      System(Tables(policies, claims, documents, parties, keys), attempts)
    }

    ghost predicate Valid()
      reads this
    {
      Inv(View())
    }

    constructor (seed: set<string>)
      ensures Valid() && View() == Start(seed)
    {
      policies := seed;
      claims, documents, parties, keys, attempts := map[], map[], map[], map[], [];
    }

    method Connect(key: Key, operation: Operation) returns (i: nat)
      requires Valid()
      modifies this
      ensures Valid() && i == |old(attempts)| && View() == Step(old(View()), Begin(key, operation))
    {
      hide Inv;
      StepKeepsInv(View(), Begin(key, operation));
      i := |attempts|;
      attempts := attempts + [Attempt(key, operation, AnsweredBy(attempts), Reading)];
    }

    /** Reads the key before the write, and again after a unique violation was rolled back. */
    method RememberKey(i: nat)
      requires Valid() && (Enabled(View(), Remember(i)) || Enabled(View(), Reread(i)))
      modifies this
      ensures Valid()
      ensures View() == Step(old(View()), if old(attempts[i].phase.Reading?) then Remember(i) else Reread(i))
    {
      hide Inv;
      ghost var event := if attempts[i].phase.Reading? then Remember(i) else Reread(i);
      StepKeepsInv(View(), event);
      var attempt := attempts[i];
      var phase;
      if attempt.key in keys {
        phase := Answered(Replayed(keys[attempt.key], attempt.operation));
      } else if attempt.phase.Reading? {
        phase := Performing;
      } else {
        phase := Raised;
      }
      attempts := attempts[i := attempt.(phase := phase)];
    }

    /** Writes the rows inside the transaction, or refuses and leaves it with nothing written. */
    method PerformWrite(i: nat, id: Uuid, now: int)
      requires Valid() && Enabled(View(), PerformRows(i, id, now))
      modifies this
      ensures Valid() && View() == Step(old(View()), PerformRows(i, id, now))
    {
      hide Inv;
      StepKeepsInv(View(), PerformRows(i, id, now));
      var answer := Perform(View().tables, attempts[i].operation, id, now);
      if answer.Replied? {
        attempts := attempts[i := attempts[i].(phase := Tentative(id, now, answer.response))];
      } else {
        attempts := attempts[i := attempts[i].(phase := Answered(answer))];
      }
    }

    /** Inserts the key; a committed duplicate is a unique violation, and rolls everything back. */
    method InsertIdempotencyKey(i: nat)
      requires Valid() && Enabled(View(), InsertKey(i))
      modifies this
      ensures Valid() && View() == Step(old(View()), InsertKey(i))
    {
      hide Inv;
      StepKeepsInv(View(), InsertKey(i));
      var attempt := attempts[i];
      if attempt.key in keys {
        attempts := attempts[i := attempt.(phase := Rereading)];
      } else {
        var inserted := KeyInserted(attempt.phase.id, attempt.phase.now, attempt.phase.response);
        attempts := attempts[i := attempt.(phase := inserted)];
      }
    }

    /** The rows, the key and the response become visible together. */
    method CommitTransaction(i: nat)
      requires Valid() && Enabled(View(), Commit(i))
      modifies this
      ensures Valid() && View() == Step(old(View()), Commit(i))
    {
      hide Inv;
      StepKeepsInv(View(), Commit(i));
      var attempt := attempts[i];
      match attempt.phase.response {
        case ClaimHeld(id, claim) => claims := claims[id := claim];
        case DocumentHeld(id, document) => documents := documents[id := document];
        case PartyHeld(id, party) => parties := parties[id := party];
      }
      keys := keys[attempt.key := Remembered(RequestFingerprint(attempt.operation), attempt.phase.response)];
      attempts := attempts[i := attempt.(phase := Answered(Replied(attempt.phase.response)))];
    }

    /** A connection that dies before its commit takes its tentative rows with it. */
    method Abort(i: nat)
      requires Valid() && Enabled(View(), Crash(i))
      modifies this
      ensures Valid() && View() == Step(old(View()), Crash(i))
    {
      hide Inv;
      StepKeepsInv(View(), Crash(i));
      attempts := attempts[i := attempts[i].(phase := Lost)];
    }
  }
}
