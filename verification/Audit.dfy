/** The hash-chained audit log: what an append links on, and what verifying a chain can detect.

    A digest is a function of everything an entry holds but its own hash. It is a parameter here:
    all that is assumed of it is that it has no collisions and never answers the genesis hash. */
module Audit {
  import opened Options
  import opened CoreSimTables

  type Hash = string
  type RunId = string

  datatype Actor = Agent | System | Human

  datatype Check = Check(name: string, passed: bool, detail: string)

  datatype DocumentVerdicts = DocumentVerdicts(filename: string, mediaType: string, verdicts: seq<Check>)

  /** The part of an entry its writer chooses; position and links are not in it. */
  datatype Content = Content(
    claimId: Uuid,
    runId: RunId,
    node: string,
    actor: Actor,
    status: ClaimStatus,
    guardVerdicts: seq<DocumentVerdicts>,
    experiment: string,
    variant: string,
    traceId: string,
    recordedAt: int)

  /** The input of a digest: content, position, and the link backwards. */
  datatype Sealed = Sealed(content: Content, sequence: int, prevHash: Hash)

  datatype Entry = Entry(content: Content, sequence: int, prevHash: Hash, hash: Hash) {
    function Covered(): Sealed {
      Sealed(content, sequence, prevHash)
    }
  }

  type Digest = Sealed -> Hash

  const GENESIS: Hash := "0000000000000000000000000000000000000000000000000000000000000000"

  ghost predicate CollisionFree(digest: Digest) {
    && (forall a, b :: digest(a) == digest(b) ==> a == b)
    && (forall a :: digest(a) != GENESIS)
  }

  /** Position and link of an append, from the last entry if there is one. */
  function Continues(last: Option<Entry>): (int, Hash) {
    match last
    case None => (1, GENESIS)
    case Some(entry) => (entry.sequence + 1, entry.hash)
  }

  function Last(chain: seq<Entry>): Option<Entry> {
    if chain == [] then None else Some(chain[|chain| - 1])
  }

  function Append(digest: Digest, prevHash: Hash, sequence: int, content: Content): Entry {
    Entry(content, sequence, prevHash, digest(Sealed(content, sequence, prevHash)))
  }

  function Appended(digest: Digest, chain: seq<Entry>, content: Content): seq<Entry> {
    var (sequence, prevHash) := Continues(Last(chain));
    chain + [Append(digest, prevHash, sequence, content)]
  }

  /** The log an honest writer leaves: one append after another from the empty chain. */
  function HonestChain(digest: Digest, contents: seq<Content>): seq<Entry> {
    if contents == [] then []
    else Appended(digest, HonestChain(digest, contents[..|contents| - 1]), contents[|contents| - 1])
  }

  // ---------------------------------------------------------------- verification

  datatype Problem = PredecessorMissing | OutOfOrder(after: int) | MissingOrMoved(after: int) | Altered

  datatype ChainVerification = Intact | Broken(sequence: int, problem: Problem)

  /** What is wrong with the i-th entry, given the entry stored before it, if anything is. */
  function ProblemAt(digest: Digest, entries: seq<Entry>, i: nat): Option<Problem>
    requires i < |entries|
  {
    var entry := entries[i];
    if i == 0 && entry.prevHash != GENESIS then Some(PredecessorMissing)
    else if i > 0 && entry.sequence <= entries[i - 1].sequence then Some(OutOfOrder(entries[i - 1].sequence))
    else if i > 0 && entry.prevHash != entries[i - 1].hash then Some(MissingOrMoved(entries[i - 1].sequence))
    else if digest(entry.Covered()) != entry.hash then Some(Altered)
    else None
  }

  ghost predicate Verifies(digest: Digest, entries: seq<Entry>) {
    forall i :: 0 <= i < |entries| ==> ProblemAt(digest, entries, i) == None
  }

  ghost predicate FirstBroken(digest: Digest, entries: seq<Entry>, i: nat, found: ChainVerification)
    requires i < |entries| && found.Broken?
  {
    && Verifies(digest, entries[..i])
    && ProblemAt(digest, entries, i) == Some(found.problem)
    && found.sequence == entries[i].sequence
  }

  /** What a verification has to find: nothing, or the first entry that breaks the chain and how. */
  ghost predicate Finds(digest: Digest, entries: seq<Entry>, found: ChainVerification) {
    && (found == Intact <==> Verifies(digest, entries))
    && (found.Broken? ==> exists i :: 0 <= i < |entries| && FirstBroken(digest, entries, i, found))
  }

  /** Walks the chain once and names the first entry that breaks it, and how. */
  method Verify(digest: Digest, entries: seq<Entry>) returns (found: ChainVerification)
    ensures Finds(digest, entries, found)
  {
    var previous: Option<Entry> := None;
    for i := 0 to |entries|
      invariant previous == Last(entries[..i])
      invariant Verifies(digest, entries[..i])
    {
      var entry := entries[i];
      assert entries[..i + 1] == entries[..i] + [entry];
      PrefixProblems(digest, entries, i);
      PrefixProblems(digest, entries, i + 1);
      assert i > 0 ==> previous == Some(entries[i - 1]);
      ghost var problem := ProblemAt(digest, entries, i);
      assert problem.Some? ==> FirstBroken(digest, entries, i, Broken(entry.sequence, problem.value));
      if previous == None {
        if entry.prevHash != GENESIS {
          return Broken(entry.sequence, PredecessorMissing);
        }
      } else if entry.sequence <= previous.value.sequence {
        return Broken(entry.sequence, OutOfOrder(previous.value.sequence));
      } else if entry.prevHash != previous.value.hash {
        return Broken(entry.sequence, MissingOrMoved(previous.value.sequence));
      }
      if digest(entry.Covered()) != entry.hash {
        return Broken(entry.sequence, Altered);
      }
      previous := Some(entry);
    }
    assert entries[..|entries|] == entries;
    found := Intact;
  }

  lemma PrefixProblems(digest: Digest, entries: seq<Entry>, n: nat)
    requires n <= |entries|
    ensures forall i :: 0 <= i < n ==> ProblemAt(digest, entries[..n], i) == ProblemAt(digest, entries, i)
  {
  }

  /** Every prefix of an intact chain is intact: cutting the end is the one removal that stays quiet. */
  lemma PrefixesVerify(digest: Digest, entries: seq<Entry>, n: nat)
    requires Verifies(digest, entries) && n <= |entries|
    ensures Verifies(digest, entries[..n])
  {
    PrefixProblems(digest, entries, n);
  }

  /** An append onto an intact chain leaves it intact, one longer. */
  lemma AppendVerifies(digest: Digest, log: seq<Entry>, content: Content)
    requires Verifies(digest, log)
    ensures Verifies(digest, Appended(digest, log, content))
  {
    var longer := Appended(digest, log, content);
    assert longer[..|log|] == log;
    PrefixProblems(digest, longer, |log|);
    forall i | 0 <= i < |longer| ensures ProblemAt(digest, longer, i) == None {
      if i < |log| {
        assert ProblemAt(digest, log, i) == None;
      }
    }
  }

  /** An honest append keeps an intact chain intact and numbers it 1, 2, 3, ... */
  lemma {:induction false} HonestChainVerifies(digest: Digest, contents: seq<Content>)
    ensures var chain := HonestChain(digest, contents);
            && Verifies(digest, chain) && |chain| == |contents|
            && forall i :: 0 <= i < |chain| ==> chain[i].sequence == i + 1 && chain[i].content == contents[i]
  {
    if contents != [] {
      var n := |contents| - 1;
      HonestChainVerifies(digest, contents[..n]);
      AppendVerifies(digest, HonestChain(digest, contents[..n]), contents[n]);
    }
  }

  // ---------------------------------------------------------------- what tampering cannot do

  /** Two intact chains that end in the same hash are the same chain, lengths included: the head hash
      alone pins the whole log. */
  lemma {:induction false} HeadPinsTheLog(digest: Digest, a: seq<Entry>, b: seq<Entry>)
    requires CollisionFree(digest) && Verifies(digest, a) && Verifies(digest, b)
    requires a != [] && b != [] && a[|a| - 1].hash == b[|b| - 1].hash
    ensures a == b
    decreases |a|
  {
    var m, n := |a| - 1, |b| - 1;
    assert ProblemAt(digest, a, m) == None && ProblemAt(digest, b, n) == None;
    assert a[m].Covered() == b[n].Covered();
    assert a[m] == b[n];
    if m > 0 {
      assert ProblemAt(digest, a, m - 1) == None;
    }
    if n > 0 {
      assert ProblemAt(digest, b, n - 1) == None;
    }
    if m > 0 && n > 0 {
      PrefixesVerify(digest, a, m);
      PrefixesVerify(digest, b, n);
      HeadPinsTheLog(digest, a[..m], b[..n]);
    }
    assert a == a[..m] + [a[m]] && b == b[..n] + [b[n]];
  }

  /** An intact chain never carries the same hash twice. */
  lemma HashesDiffer(digest: Digest, chain: seq<Entry>, i: nat, j: nat)
    requires CollisionFree(digest) && Verifies(digest, chain) && i < |chain| && j < |chain|
    requires chain[i].hash == chain[j].hash
    ensures i == j
  {
    PrefixesVerify(digest, chain, i + 1);
    PrefixesVerify(digest, chain, j + 1);
    HeadPinsTheLog(digest, chain[..i + 1], chain[..j + 1]);
    assert |chain[..i + 1]| == |chain[..j + 1]|;
  }

  /** Whatever intact sequence can be made of a log's own entries, in any order and with any
      repetition, is a prefix of that log: every removal but cutting the end, every move and every
      duplication is detected. */
  lemma OnlyPrefixesVerify(digest: Digest, log: seq<Entry>, found: seq<Entry>)
    requires CollisionFree(digest) && Verifies(digest, log)
    requires forall entry :: entry in found ==> entry in log
    ensures Verifies(digest, found) <==> found <= log
  {
    if found <= log {
      PrefixesVerify(digest, log, |found|);
      assert log[..|found|] == found;
    } else if Verifies(digest, found) {
      assert found[|found| - 1] in found;
      var n :| 0 <= n < |log| && log[n] == found[|found| - 1];
      PrefixesVerify(digest, log, n + 1);
      HeadPinsTheLog(digest, found, log[..n + 1]);
      assert false;
    }
  }

  /** One entry replaced by any other: unless it is the last one, and was re-hashed and re-linked as an
      append would have been, the chain no longer verifies. */
  lemma SingleEditDetected(digest: Digest, log: seq<Entry>, i: nat, forged: Entry)
    requires CollisionFree(digest) && Verifies(digest, log) && i < |log| && forged != log[i]
    ensures Verifies(digest, log[i := forged]) <==>
      && i == |log| - 1
      && forged.hash == digest(forged.Covered())
      && forged.prevHash == log[i].prevHash
      && (i > 0 ==> forged.sequence > log[i - 1].sequence)
  {
    var edited := log[i := forged];
    assert ProblemAt(digest, log, i) == None;
    forall j | 0 <= j < |log| && j != i && j != i + 1
      ensures ProblemAt(digest, edited, j) == ProblemAt(digest, log, j)
    {
    }
    if i + 1 < |log| {
      assert ProblemAt(digest, log, i + 1) == None;
      if forged.hash == log[i].hash {
        assert forged.Covered() != log[i].Covered();
        assert ProblemAt(digest, edited, i).Some?;
      } else {
        assert ProblemAt(digest, edited, i + 1).Some?;
      }
    } else if Verifies(digest, edited) {
      assert ProblemAt(digest, edited, i) == None;
    }
  }
}
