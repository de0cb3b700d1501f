/** Which entry a verification names, and what it says is wrong there, for each way of tampering with a log. */
module AuditFindings {
  import opened Options
  import opened Audit

  /** Only one answer is right, and the first broken entry decides it. */
  lemma OneFinding(digest: Digest, entries: seq<Entry>, i: nat, problem: Problem, found: ChainVerification)
    requires Finds(digest, entries, found)
    requires i < |entries| && FirstBroken(digest, entries, i, Broken(entries[i].sequence, problem))
    ensures found == Broken(entries[i].sequence, problem)
  {
    assert !Verifies(digest, entries);
    var j :| 0 <= j < |entries| && FirstBroken(digest, entries, j, found);
    FirstHasNoneBefore(digest, entries, i, Broken(entries[i].sequence, problem));
    FirstHasNoneBefore(digest, entries, j, found);
  }

  lemma FirstHasNoneBefore(digest: Digest, entries: seq<Entry>, i: nat, found: ChainVerification)
    requires i < |entries| && found.Broken? && FirstBroken(digest, entries, i, found)
    ensures forall j :: 0 <= j < i ==> ProblemAt(digest, entries, j) == None
  {
    PrefixProblems(digest, entries, i);
    forall j | 0 <= j < i ensures ProblemAt(digest, entries, j) == None {
      assert ProblemAt(digest, entries[..i], j) == None;
    }
  }

  /** What is named of the first broken entry: that it starts the log and links to nothing, that its number does not
      rise, that it does not link to the one before it, and only of an entry that does link, that it was altered. */
  lemma WhatIsNamed(digest: Digest, entries: seq<Entry>, i: nat, found: ChainVerification)
    requires i < |entries| && found.Broken? && FirstBroken(digest, entries, i, found)
    ensures found.sequence == entries[i].sequence
    ensures match found.problem
            case PredecessorMissing => i == 0 && entries[0].prevHash != GENESIS
            case OutOfOrder(after) => i > 0 && after == entries[i - 1].sequence && entries[i].sequence <= after
            case MissingOrMoved(after) =>
              && i > 0 && after == entries[i - 1].sequence && entries[i].sequence > after
              && entries[i].prevHash != entries[i - 1].hash
            case Altered =>
              && (i == 0 ==> entries[0].prevHash == GENESIS)
              && (i > 0 ==> entries[i].sequence > entries[i - 1].sequence
                            && entries[i].prevHash == entries[i - 1].hash)
              && entries[i].hash != digest(entries[i].Covered())
  {
  }

  lemma {:induction false} NumbersRise(digest: Digest, log: seq<Entry>, i: nat, j: nat)
    requires Verifies(digest, log) && i < j < |log|
    ensures log[i].sequence < log[j].sequence
    decreases j
  {
    assert ProblemAt(digest, log, j) == None;
    if i + 1 < j {
      NumbersRise(digest, log, i, j - 1);
    }
  }

  /** The part of a tampered log before the tampering is in order. */
  lemma KeptPart(digest: Digest, log: seq<Entry>, entries: seq<Entry>, n: nat)
    requires Verifies(digest, log) && n <= |log| && n <= |entries| && entries[..n] == log[..n]
    ensures Verifies(digest, entries[..n])
  {
    PrefixesVerify(digest, log, n);
  }

  /** Entries taken out: the first one after the gap is named, as missing its predecessor if the gap is at the
      start of the log, and otherwise as out of place behind the entry before the gap. */
  lemma RemovalIsNamed(digest: Digest, log: seq<Entry>, i: nat, j: nat, found: ChainVerification)
    requires CollisionFree(digest) && Verifies(digest, log) && i < j < |log|
    requires Finds(digest, log[..i] + log[j..], found)
    ensures found == Broken(log[j].sequence,
                            if i == 0 then PredecessorMissing else MissingOrMoved(log[i - 1].sequence))
  {
    var entries := log[..i] + log[j..];
    assert entries[i] == log[j];
    KeptPart(digest, log, entries, i);
    assert ProblemAt(digest, log, j) == None && ProblemAt(digest, log, j - 1) == None;
    assert log[j].prevHash == log[j - 1].hash;
    if i == 0 {
      OneFinding(digest, entries, 0, PredecessorMissing, found);
    } else {
      if log[j - 1].hash == log[i - 1].hash {
        HashesDiffer(digest, log, j - 1, i - 1);
      }
      NumbersRise(digest, log, i - 1, j);
      OneFinding(digest, entries, i, MissingOrMoved(log[i - 1].sequence), found);
    }
  }

  /** An earlier entry put in again: it is named as out of order behind the entry it was put after. */
  lemma RepetitionIsNamed(digest: Digest, log: seq<Entry>, k: nat, j: nat, found: ChainVerification)
    requires Verifies(digest, log) && k < j <= |log|
    requires Finds(digest, log[..j] + [log[k]] + log[j..], found)
    ensures found == Broken(log[k].sequence, OutOfOrder(log[j - 1].sequence))
  {
    var entries := log[..j] + [log[k]] + log[j..];
    KeptPart(digest, log, entries, j);
    if k < j - 1 {
      NumbersRise(digest, log, k, j - 1);
    }
    OneFinding(digest, entries, j, OutOfOrder(log[j - 1].sequence), found);
  }

  /** A later entry moved to the front of an earlier one is named for the link that does not reach it. */
  lemma MoveIsNamed(digest: Digest, log: seq<Entry>, j: nat, k: nat, found: ChainVerification)
    requires CollisionFree(digest) && Verifies(digest, log) && j < k < |log|
    requires Finds(digest, log[..j] + [log[k]] + log[j..k] + log[k + 1..], found)
    ensures found == Broken(log[k].sequence,
                            if j == 0 then PredecessorMissing else MissingOrMoved(log[j - 1].sequence))
  {
    var entries := log[..j] + [log[k]] + log[j..k] + log[k + 1..];
    KeptPart(digest, log, entries, j);
    assert ProblemAt(digest, log, k) == None && ProblemAt(digest, log, k - 1) == None;
    if j == 0 {
      OneFinding(digest, entries, 0, PredecessorMissing, found);
    } else {
      if log[k - 1].hash == log[j - 1].hash {
        HashesDiffer(digest, log, k - 1, j - 1);
      }
      NumbersRise(digest, log, j - 1, k);
      OneFinding(digest, entries, j, MissingOrMoved(log[j - 1].sequence), found);
    }
  }

  /** An entry whose content was changed in place: it is named as altered. Hashed again, it passes, and the next
      one is named, whose link it broke. */
  lemma EditIsNamed(digest: Digest, log: seq<Entry>, i: nat, content: Content, found: ChainVerification)
    requires CollisionFree(digest) && Verifies(digest, log) && i < |log| && content != log[i].content
    requires Finds(digest, log[i := log[i].(content := content)], found)
    ensures found == Broken(log[i].sequence, Altered)
  {
    var entries := log[i := log[i].(content := content)];
    KeptPart(digest, log, entries, i);
    assert ProblemAt(digest, log, i) == None;
    assert entries[i].Covered() != log[i].Covered();
    OneFinding(digest, entries, i, Altered, found);
  }

  lemma RehashedEditIsNamed(digest: Digest, log: seq<Entry>, i: nat, forged: Entry, found: ChainVerification)
    requires CollisionFree(digest) && Verifies(digest, log) && i + 1 < |log| && forged.content != log[i].content
    requires forged.sequence == log[i].sequence && forged.prevHash == log[i].prevHash
    requires forged.hash == digest(forged.Covered())
    requires Finds(digest, log[i := forged], found)
    ensures found == Broken(log[i + 1].sequence, MissingOrMoved(log[i].sequence))
  {
    var entries := log[i := forged];
    assert ProblemAt(digest, log, i) == None && ProblemAt(digest, log, i + 1) == None;
    assert forged.Covered() != log[i].Covered();
    forall j | 0 <= j <= i ensures ProblemAt(digest, entries, j) == None {
      assert ProblemAt(digest, log, j) == None;
    }
    PrefixProblems(digest, entries, i + 1);
    OneFinding(digest, entries, i + 1, MissingOrMoved(log[i].sequence), found);
  }
}
