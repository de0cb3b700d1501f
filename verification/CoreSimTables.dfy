/** The tables of claims, documents, parties and keys, and the atomic form of a write: one key, one write.

    The tables are the committed rows of `core-sim`. `Once` is a write of the in-memory
    double that stands in for Postgres: read the key, replay it or perform the write, and remember the answer, all
    at one instant. `CoreSimStore` is the protocol that has to look like it under concurrency. */
module CoreSimTables {

  // Identifiers (uuid4) and instants are inputs; what is assumed of an identifier is freshness.
  type Uuid = nat
  type Key = string

  datatype ClaimStatus = Received | Triaged

  datatype Transition = Transition(status: ClaimStatus, recordedAt: int)

  datatype Claim = Claim(
    policyNumber: string,
    incidentDate: int,
    amountCents: int,
    status: ClaimStatus,
    history: seq<Transition>)

  datatype Document = Document(claimId: Uuid, documentType: string, filename: string, attachedAt: int)

  datatype PartyRole = Policyholder | Claimant | Driver | Witness | Other

  datatype Party = Party(claimId: Uuid, role: PartyRole, recordedAt: int)

  /** The four writes, each with the arguments a caller gives. */
  datatype Operation =
    | CreateClaim(policyNumber: string, incidentDate: int, amountCents: int)
    | RecordStatus(claimId: Uuid, status: ClaimStatus)
    | AttachDocument(claimId: Uuid, documentType: string, filename: string)
    | RecordParty(claimId: Uuid, role: PartyRole)

  /** The digest of a request, kept symbolically: equal digests are digests of equal requests. */
  datatype Fingerprint = Sha256(canonical: Operation)

  function RequestFingerprint(operation: Operation): Fingerprint {
    Sha256(operation)
  }

  /** What a write answers with: the row it wrote, whole, under the row's identifier. */
  datatype Response =
    | ClaimHeld(id: Uuid, claim: Claim)
    | DocumentHeld(id: Uuid, document: Document)
    | PartyHeld(id: Uuid, party: Party)

  datatype Remembered = Remembered(fingerprint: Fingerprint, response: Response)

  datatype Refusal = PolicyNotFound | ClaimNotFound | IdempotencyKeyReuse

  datatype Answer = Replied(response: Response) | Refused(refusal: Refusal)

  datatype Tables = Tables(
    policies: set<string>,
    claims: map<Uuid, Claim>,
    documents: map<Uuid, Document>,
    parties: map<Uuid, Party>,
    keys: map<Key, Remembered>)

  /** A database the service has just applied its schema to: the seeded policies and nothing else. */
  function Seeded(policies: set<string>): Tables {
    Tables(policies, map[], map[], map[], map[])
  }

  function Advanced(claim: Claim, status: ClaimStatus, now: int): Claim {
    claim.(status := status, history := claim.history + [Transition(status, now)])
  }

  /** What `perform` answers against the rows it can see, without storing anything yet. */
  function Perform(t: Tables, operation: Operation, id: Uuid, now: int): Answer {
    match operation
    case CreateClaim(policy, incident, amount) =>
      if policy !in t.policies then Refused(PolicyNotFound)
      else Replied(ClaimHeld(id, Claim(policy, incident, amount, Received, [Transition(Received, now)])))
    case RecordStatus(claimId, status) =>
      if claimId !in t.claims then Refused(ClaimNotFound)
      else Replied(ClaimHeld(claimId, Advanced(t.claims[claimId], status, now)))
    case AttachDocument(claimId, documentType, filename) =>
      if claimId !in t.claims then Refused(ClaimNotFound)
      else Replied(DocumentHeld(id, Document(claimId, documentType, filename, now)))
    case RecordParty(claimId, role) =>
      if claimId !in t.claims then Refused(ClaimNotFound)
      else Replied(PartyHeld(id, Party(claimId, role, now)))
  }

  /** The tables once a write's row is in them. */
  function Written(t: Tables, response: Response): Tables {
    match response
    case ClaimHeld(id, claim) => t.(claims := t.claims[id := claim])
    case DocumentHeld(id, document) => t.(documents := t.documents[id := document])
    case PartyHeld(id, party) => t.(parties := t.parties[id := party])
  }

  function WithKey(t: Tables, key: Key, operation: Operation, response: Response): Tables {
    t.(keys := t.keys[key := Remembered(RequestFingerprint(operation), response)])
  }

  /** The answer a remembered key gives: its first response, or the refusal of another request. */
  function Replayed(remembered: Remembered, operation: Operation): Answer {
    if remembered.fingerprint != RequestFingerprint(operation) then Refused(IdempotencyKeyReuse)
    else Replied(remembered.response)
  }

  /** One call of the atomic store: who made it, what it asked, and the inputs the write drew. */
  datatype Call = Call(attempt: nat, key: Key, operation: Operation, id: Uuid, now: int)

  function Once(t: Tables, call: Call): (Tables, Answer) {
    if call.key in t.keys then
      (t, Replayed(t.keys[call.key], call.operation))
    else
      match Perform(t, call.operation, call.id, call.now)
      case Refused(refusal) => (t, Refused(refusal))
      case Replied(response) =>
        (WithKey(Written(t, response), call.key, call.operation, response), Replied(response))
  }

  /** The dictionary-backed store of the unit tests, which performs every write at one instant. */
  class InMemoryCoreSim {
    var policies: set<string>
    var claims: map<Uuid, Claim>
    var documents: map<Uuid, Document>
    var parties: map<Uuid, Party>
    var remembered: map<Key, Remembered>

    function View(): Tables
      reads this
    {
      Tables(policies, claims, documents, parties, remembered)
    }

    constructor (seed: set<string>)
      ensures View() == Seeded(seed)
    {
      policies := seed;
      claims, documents, parties, remembered := map[], map[], map[], map[];
    }

    method RunOnce(call: Call) returns (answer: Answer)
      modifies this
      ensures (View(), answer) == Once(old(View()), call)
    {
      if call.key in remembered {
        var first := remembered[call.key];
        if first.fingerprint != RequestFingerprint(call.operation) {
          return Refused(IdempotencyKeyReuse);
        }
        return Replied(first.response);
      }
      answer := Perform(View(), call.operation, call.id, call.now);
      match answer {
        case Refused(_) =>
          return;
        case Replied(ClaimHeld(id, claim)) =>
          claims := claims[id := claim];
        case Replied(DocumentHeld(id, document)) =>
          documents := documents[id := document];
        case Replied(PartyHeld(id, party)) =>
          parties := parties[id := party];
      }
      remembered :=
        remembered[call.key := Remembered(RequestFingerprint(call.operation), answer.response)];
    }
  }

  // ---------------------------------------------------------------- serial runs

  function Run(t: Tables, calls: seq<Call>): Tables
    decreases |calls|
  {
    if calls == [] then t else Run(Once(t, calls[0]).0, calls[1..])
  }

  /** What the n-th call of a serial run is answered. */
  function AnswerAt(t: Tables, calls: seq<Call>, n: nat): Answer
    requires n < |calls|
  {
    Once(Run(t, calls[..n]), calls[n]).1
  }

  lemma {:induction false} RunConcat(t: Tables, a: seq<Call>, b: seq<Call>)
    ensures Run(t, a + b) == Run(Run(t, a), b)
    decreases |a|
  {
    if a == [] {
      assert a + b == b;
    } else {
      assert (a + b)[1..] == a[1..] + b;
      RunConcat(Once(t, a[0]).0, a[1..], b);
    }
  }

  lemma RunSnoc(t: Tables, a: seq<Call>, call: Call)
    ensures Run(t, a + [call]) == Once(Run(t, a), call).0
  {
    RunConcat(t, a, [call]);
    assert Run(Run(t, a), [call]) == Run(Once(Run(t, a), call).0, []);
  }

  // ---------------------------------------------------------------- growth

  /** What was submitted of a claim, which no later write touches. */
  ghost predicate Submitted(claim: Claim, policy: string, incident: int, amount: int) {
    claim.policyNumber == policy && claim.incidentDate == incident && claim.amountCents == amount
  }

  /** What no committed step may undo: rows and keys stay, a claim says what was submitted, and its history is
      only appended to. */
  ghost predicate Grows(t: Tables, u: Tables) {
    && t.policies == u.policies
    && (forall c :: c in t.claims ==> c in u.claims && GrowsTo(t.claims[c], u.claims[c]))
    && (forall d :: d in t.documents ==> d in u.documents && u.documents[d] == t.documents[d])
    && (forall p :: p in t.parties ==> p in u.parties && u.parties[p] == t.parties[p])
    && (forall k :: k in t.keys ==> k in u.keys && u.keys[k] == t.keys[k])
  }

  ghost predicate GrowsTo(was: Claim, claim: Claim) {
    && Submitted(claim, was.policyNumber, was.incidentDate, was.amountCents)
    && was.history <= claim.history
  }

  ghost predicate Unused(t: Tables, id: Uuid) {
    id !in t.claims && id !in t.documents && id !in t.parties
  }

  ghost function SomeUnused(t: Tables): (id: Uuid)
    ensures Unused(t, id)
  {
    UnusedExists(t);
    var id: Uuid :| Unused(t, id);
    id
  }

  lemma UnusedExists(t: Tables)
    ensures exists id: Uuid :: Unused(t, id)
  {
    var bound := Above(t.claims.Keys + t.documents.Keys + t.parties.Keys);
    assert Unused(t, bound);
  }

  lemma {:induction false} Above(ids: set<nat>) returns (bound: nat)
    ensures forall id :: id in ids ==> id < bound
  {
    if ids == {} {
      bound := 0;
    } else {
      var id :| id in ids;
      var rest := Above(ids - {id});
      bound := if id < rest then rest else id + 1;
      assert ids == (ids - {id}) + {id};
    }
  }

  /** A call that writes draws an identifier no row carries; the others draw nothing that matters. */
  ghost predicate DrawsFresh(t: Tables, call: Call) {
    call.key !in t.keys && Perform(t, call.operation, call.id, call.now).Replied? ==> Unused(t, call.id)
  }

  ghost predicate AllDrawFresh(t: Tables, calls: seq<Call>) {
    forall n :: 0 <= n < |calls| ==> DrawsFresh(Run(t, calls[..n]), calls[n])
  }

  lemma WrittenGrows(t: Tables, operation: Operation, id: Uuid, now: int)
    requires Perform(t, operation, id, now).Replied? && Unused(t, id)
    ensures Grows(t, Written(t, Perform(t, operation, id, now).response))
  {
    if operation.RecordStatus? {
      var claim := t.claims[operation.claimId];
      assert claim.history <= Advanced(claim, operation.status, now).history;
    }
  }

  lemma OnceGrows(t: Tables, call: Call)
    requires DrawsFresh(t, call)
    ensures Grows(t, Once(t, call).0)
  {
    var answer := Perform(t, call.operation, call.id, call.now);
    if call.key !in t.keys && answer.Replied? {
      WrittenGrows(t, call.operation, call.id, call.now);
      hide Perform;
    }
  }

  lemma {:induction false} RunGrows(t: Tables, calls: seq<Call>, m: nat, n: nat)
    requires m <= n <= |calls| && AllDrawFresh(t, calls)
    ensures Grows(Run(t, calls[..m]), Run(t, calls[..n]))
    decreases n
  {
    if m < n {
      RunGrows(t, calls, m, n - 1);
      assert calls[..n] == calls[..n - 1] + [calls[n - 1]];
      RunSnoc(t, calls[..n - 1], calls[n - 1]);
      OnceGrows(Run(t, calls[..n - 1]), calls[n - 1]);
    }
  }

  // ---------------------------------------------------------------- what the keys account for

  /** The committed keys that recorded a status of this claim. */
  function StatusKeys(t: Tables, claimId: Uuid): set<Key> {
    set k | k in t.keys && t.keys[k].fingerprint.canonical.RecordStatus?
            && t.keys[k].fingerprint.canonical.claimId == claimId
  }

  /** The committed keys whose write created this claim. */
  function CreateKeys(t: Tables, claimId: Uuid): set<Key> {
    set k | k in t.keys && t.keys[k].fingerprint.canonical.CreateClaim?
            && t.keys[k].response.id == claimId
  }

  /** Nothing is lost and nothing is doubled: a claim was created by exactly one key, carries the
      first transition and one more per status key, and stands where the last transition put it. */
  ghost predicate AccountedClaim(t: Tables, c: Uuid)
    requires c in t.claims
  {
    var claim := t.claims[c];
    && claim.history != []
    && claim.history[0].status == Received
    && claim.status == claim.history[|claim.history| - 1].status
    && |claim.history| == 1 + |StatusKeys(t, c)|
    && |CreateKeys(t, c)| == 1
  }

  /** The other way round: the response a key remembers is the row its own request asked for, at the
      length the claim's history had when that write was committed. */
  ghost predicate TraceableKey(t: Tables, k: Key)
    requires k in t.keys
  {
    var response := t.keys[k].response;
    match t.keys[k].fingerprint.canonical
    case CreateClaim(policy, incident, amount) =>
      && response.ClaimHeld? && response.id in t.claims
      && Submitted(response.claim, policy, incident, amount)
      && Submitted(t.claims[response.id], policy, incident, amount)
      && response.claim.status == Received
      && |response.claim.history| == 1
      && response.claim.history <= t.claims[response.id].history
    case RecordStatus(claimId, status) =>
      && response.ClaimHeld? && response.id == claimId && claimId in t.claims
      && response.claim.status == status
      && |response.claim.history| > 1
      && response.claim.history[|response.claim.history| - 1].status == status
      && response.claim.history <= t.claims[claimId].history
    case AttachDocument(claimId, documentType, filename) =>
      && response.DocumentHeld? && response.id in t.documents
      && t.documents[response.id] == response.document
      && response.document == Document(claimId, documentType, filename, response.document.attachedAt)
      && claimId in t.claims
    case RecordParty(claimId, role) =>
      && response.PartyHeld? && response.id in t.parties
      && t.parties[response.id] == response.party
      && response.party == Party(claimId, role, response.party.recordedAt)
      && claimId in t.claims
  }

  /** Two status keys of one claim account for two different transitions of its history. */
  ghost predicate SeparateTransitions(t: Tables, k: Key, l: Key)
    requires k in t.keys && l in t.keys && TraceableKey(t, k) && TraceableKey(t, l)
  {
    var a, b := t.keys[k], t.keys[l];
    a.fingerprint.canonical.RecordStatus? && b.fingerprint.canonical.RecordStatus?
    && a.response.id == b.response.id && k != l
    ==> |a.response.claim.history| != |b.response.claim.history|
  }

  /** Every claim is against a seeded policy, and every document and party is of a claim in the tables. */
  ghost predicate Referenced(t: Tables) {
    && (forall c :: c in t.claims ==> t.claims[c].policyNumber in t.policies)
    && (forall d :: d in t.documents ==> t.documents[d].claimId in t.claims)
    && (forall p :: p in t.parties ==> t.parties[p].claimId in t.claims)
  }

  ghost predicate Accounted(t: Tables) {
    && Referenced(t)
    && (forall c :: c in t.claims ==> AccountedClaim(t, c))
    && (forall k :: k in t.keys ==> TraceableKey(t, k))
    && (forall k, l :: k in t.keys && l in t.keys ==> SeparateTransitions(t, k, l))
  }

  lemma OnceAccounts(t: Tables, call: Call)
    requires Accounted(t) && DrawsFresh(t, call)
    ensures Accounted(Once(t, call).0)
  {
    OnceKeepsReferences(t, call);
    hide Referenced;
    if call.key !in t.keys && Perform(t, call.operation, call.id, call.now).Replied? {
      var u := Once(t, call).0;
      forall c | c in u.claims ensures AccountedClaim(u, c) {
        if c in t.claims {
          WriteKeepsClaim(t, call, c);
        } else {
          WriteAddsClaim(t, call, c);
        }
      }
      forall k | k in u.keys ensures TraceableKey(u, k) {
        WriteTracesKey(t, call, k);
      }
      forall k, l | k in u.keys && l in u.keys ensures SeparateTransitions(u, k, l) {
        WriteSeparates(t, call, k, l);
      }
    }
  }

  lemma OnceKeepsReferences(t: Tables, call: Call)
    requires Referenced(t) && DrawsFresh(t, call)
    ensures Referenced(Once(t, call).0)
  {
  }

  /** A call that finds its key new and its operation performable, with an identifier no row has. */
  ghost predicate Writes(t: Tables, call: Call) {
    call.key !in t.keys && Perform(t, call.operation, call.id, call.now).Replied? && Unused(t, call.id)
  }

  lemma WriteKeepsClaim(t: Tables, call: Call, c: Uuid)
    requires Writes(t, call) && c in t.claims && AccountedClaim(t, c)
    ensures c in Once(t, call).0.claims && AccountedClaim(Once(t, call).0, c)
  {
    WriteKeepsKeysOf(t, call, c);
    WriteKeepsHistory(t, call, c);
    hide Once, Writes, StatusKeys, CreateKeys;
  }

  /** A write adds its key to the status keys of the claim it moves, and changes no other. */
  lemma WriteKeepsKeysOf(t: Tables, call: Call, c: Uuid)
    requires Writes(t, call) && c in t.claims
    ensures var u := Once(t, call).0;
            && CreateKeys(u, c) == CreateKeys(t, c)
            && |StatusKeys(u, c)| == |StatusKeys(t, c)| + if Moves(call, c) then 1 else 0
  {
    WriteAddsKey(t, call);
    var remembered := Remembered(RequestFingerprint(call.operation),
                                 Perform(t, call.operation, call.id, call.now).response);
    hide Once, Perform, StatusKeys, CreateKeys;
    StatusKeysAfter(t, Once(t, call).0, call.key, remembered, c);
    CreateKeysAfter(t, Once(t, call).0, call.key, remembered, c);
  }

  lemma StatusKeysAfter(t: Tables, u: Tables, key: Key, remembered: Remembered, c: Uuid)
    requires key !in t.keys && u.keys == t.keys[key := remembered]
    ensures var operation := remembered.fingerprint.canonical;
            |StatusKeys(u, c)| == |StatusKeys(t,
                                              c)| + if operation.RecordStatus? && operation.claimId == c then 1 else 0
  {
    var operation, before, after := remembered.fingerprint.canonical, StatusKeys(t, c), StatusKeys(u, c);
    var moves := operation.RecordStatus? && operation.claimId == c;
    forall k ensures k in after <==> k in before || (k == key && moves) {
    }
    assert key !in before;
    hide StatusKeys;
    if moves {
      assert after == before + {key};
    } else {
      assert after == before;
    }
  }

  lemma CreateKeysAfter(t: Tables, u: Tables, key: Key, remembered: Remembered, c: Uuid)
    requires key !in t.keys && u.keys == t.keys[key := remembered]
    requires remembered.fingerprint.canonical.CreateClaim? ==> remembered.response.id != c
    ensures CreateKeys(u, c) == CreateKeys(t, c)
  {
  }

  lemma WriteAddsKey(t: Tables, call: Call)
    requires Writes(t, call)
    ensures var response := Perform(t, call.operation, call.id, call.now).response;
            && call.key !in t.keys
            && Once(t, call).0.keys == t.keys[call.key := Remembered(RequestFingerprint(call.operation), response)]
            && (call.operation.CreateClaim? ==> response.id !in t.claims)
  {
  }

  predicate Moves(call: Call, c: Uuid) {
    call.operation.RecordStatus? && call.operation.claimId == c
  }

  lemma WriteKeepsHistory(t: Tables, call: Call, c: Uuid)
    requires Writes(t, call) && c in t.claims
    ensures var u := Once(t, call).0;
            && c in u.claims
            && u.claims[c] == if Moves(call, c) then Advanced(t.claims[c], call.operation.status, call.now)
                              else t.claims[c]
  {
  }

  lemma WriteAddsClaim(t: Tables, call: Call, c: Uuid)
    requires Writes(t, call) && c !in t.claims && c in Once(t, call).0.claims
    requires forall k :: k in t.keys ==> TraceableKey(t, k)
    ensures AccountedClaim(Once(t, call).0, c)
  {
    var u := Once(t, call).0;
    forall k | k in t.keys ensures k !in StatusKeys(u, c) && k !in CreateKeys(u, c) {
      assert TraceableKey(t, k);
    }
    assert StatusKeys(u, c) == {};
    assert CreateKeys(u, c) == {call.key};
  }

  lemma WriteTracesKey(t: Tables, call: Call, k: Key)
    requires Writes(t, call) && k in Once(t, call).0.keys
    requires k in t.keys ==> TraceableKey(t, k)
    requires call.operation.RecordStatus? ==> AccountedClaim(t, call.operation.claimId)
    ensures TraceableKey(Once(t, call).0, k)
  {
    if k == call.key {
      WrittenKeyIsTraceable(t, call);
    } else {
      OldKeyStaysTraceable(t, call, k);
    }
  }

  lemma WrittenKeyIsTraceable(t: Tables, call: Call)
    requires Writes(t, call)
    requires call.operation.RecordStatus? ==> AccountedClaim(t, call.operation.claimId)
    ensures call.key in Once(t, call).0.keys && TraceableKey(Once(t, call).0, call.key)
  {
  }

  lemma OldKeyStaysTraceable(t: Tables, call: Call, k: Key)
    requires Writes(t, call) && k in t.keys && k != call.key && TraceableKey(t, k)
    ensures k in Once(t, call).0.keys && TraceableKey(Once(t, call).0, k)
  {
    var u := Once(t, call).0;
    OnceGrows(t, call);
    assert u.keys[k] == t.keys[k];
    hide Once, Perform;
  }

  lemma WriteSeparates(t: Tables, call: Call, k: Key, l: Key)
    requires Writes(t, call) && k in Once(t, call).0.keys && l in Once(t, call).0.keys
    requires k in t.keys ==> TraceableKey(t, k)
    requires l in t.keys ==> TraceableKey(t, l)
    requires k in t.keys && l in t.keys ==> SeparateTransitions(t, k, l)
    requires TraceableKey(Once(t, call).0, k) && TraceableKey(Once(t, call).0, l)
    ensures SeparateTransitions(Once(t, call).0, k, l)
  {
  }

  lemma {:induction false} RunAccounts(t: Tables, calls: seq<Call>, n: nat)
    requires Accounted(t) && AllDrawFresh(t, calls) && n <= |calls|
    ensures Accounted(Run(t, calls[..n]))
  {
    hide Accounted, Once;
    if n == 0 {
      assert calls[..0] == [];
    } else {
      RunAccounts(t, calls, n - 1);
      assert calls[..n] == calls[..n - 1] + [calls[n - 1]];
      RunSnoc(t, calls[..n - 1], calls[n - 1]);
      OnceAccounts(Run(t, calls[..n - 1]), calls[n - 1]);
    }
  }
}
