/** What every reachable state of the sync protocol satisfies, one conjunct per part of the state. */
module SyncInvariants {
  import opened Wrappers
  import opened SyncLog
  import opened ReplicaStore
  import opened SyncProtocol

  function Own(recorded: set<Change>, d: nat): set<Change> {
    set c | c in recorded && c.revision.device == d
  }

  /** Everything a device knows about: what it was sent and what it recorded itself. */
  function Known(recorded: set<Change>, d: nat, r: Replica): set<Change> {
    Elements(r.received) + Own(recorded, d)
  }

  /** The upload a phase is working on. */
  function UploadOf(p: Phase): Option<Envelope> {
    match p
    case Idle => None
    case Preparing(_) => None
    case Exchanging(_, upload, _, _) => upload
    case Writing(_, upload, _, _, _, _, _) => upload
    case Replied(_, upload, _, _, _) => upload
    case Applied(_, upload, _) => upload
    case RoundDone(_, _) => None
  }

  // ----- Parts -----

  ghost predicate DocumentOk(vault: nat, log: seq<Envelope>, document: Document) {
    && document.format == OBJECT_STORE_FORMAT && document.version == OBJECT_STORE_VERSION && document.vault == vault
    && document.envelopes <= log
  }

  ghost predicate ObjectOk(s: State) {
    && (s.resource.Stored? ==> s.resource.tag in s.tags && s.tags[s.resource.tag] == s.resource.file)
    && (forall t :: t in s.tags && s.tags[t].Some? ==> DocumentOk(s.vault, Log(s), s.tags[t].value))
    && (s.provider == WebDav && s.resource.Stored? ==> s.resource.file.Some?)
    && DistinctIds(Log(s))
    && |Log(s)| <= MAX_REMOTE_CHANGES_PER_PAGE + 1
    && LogIssued(Log(s), s.issued)
  }

  ghost predicate LogIssued(log: seq<Envelope>, issued: map<nat, Envelope>) {
    forall e :: e in log ==> e.id in issued && issued[e.id] == e
  }

  function Front(write: WriteRequest): seq<Envelope>
    requires write.document.envelopes != []
  {
    write.document.envelopes[..|write.document.envelopes| - 1]
  }

  function Last(write: WriteRequest): Envelope
    requires write.document.envelopes != []
  {
    write.document.envelopes[|write.document.envelopes| - 1]
  }

  /** A sent write appends one issued envelope to a past version of the log, the one its tag names. */
  ghost predicate WriteOk(s: State, write: WriteRequest) {
    && write.document.envelopes != []
    && write.document == Document(OBJECT_STORE_FORMAT, OBJECT_STORE_VERSION, s.vault, write.document.envelopes)
    && Front(write) <= Log(s)
    && |Front(write)| <= MAX_REMOTE_CHANGES_PER_PAGE
    && !HasId(Front(write), Last(write).id)
    && Last(write).id in s.issued && s.issued[Last(write).id] == Last(write)
    && (write.expected.Some? ==>
          write.expected.value in s.tags && EnvelopesOf(s.tags[write.expected.value]) == Front(write))
  }

  ghost predicate WritesOk(s: State) {
    && (forall w :: w in s.sent ==> WriteOk(s, w))
    && (forall w :: w in s.stored ==> w in s.sent && w.document.envelopes <= Log(s))
  }

  ghost predicate EnvelopeOk(vault: nat, recorded: set<Change>, id: nat, e: Envelope) {
    && e.id == id && OpenEnvelope(vault, e) == Ok(e.ciphertext.batch.changes)
    && forall c :: c in e.ciphertext.batch.changes ==> c in Own(recorded, e.ciphertext.device)
  }

  ghost predicate EnvelopesOk(vault: nat, recorded: set<Change>, issued: map<nat, Envelope>) {
    forall id :: id in issued ==> EnvelopeOk(vault, recorded, id, issued[id])
  }

  ghost predicate RecordedOk(recorded: set<Change>) {
    && RevisionsName(recorded)
    && (forall a, b :: a in recorded && b in recorded && a.id == b.id ==> a == b)
  }

  ghost predicate PendingOk(issued: map<nat, Envelope>, d: nat, p: PendingUpload) {
    && p.envelope.id in issued && issued[p.envelope.id] == p.envelope
    && p.envelope.ciphertext.device == d
    && p.changeIds == ChangeIds(p.envelope.ciphertext.batch.changes)
  }

  ghost predicate ReplicaOk(log: seq<Envelope>, issued: map<nat, Envelope>, recorded: set<Change>, d: nat, r: Replica) {
    && r.cursor <= |log| && r.received == ChangesOf(log[..r.cursor])
    && HoldsWinners(r.entities, Known(recorded, d, r))
    && (forall c :: c in Known(recorded, d, r) ==> c.revision.millis <= r.clock)
    && (forall c :: c in r.outbox ==> c in Own(recorded, d))
    && (forall c :: c in Own(recorded, d) ==> c in r.outbox || Covered(r.received, c))
    && (r.pending.Some? ==> PendingOk(issued, d, r.pending.value))
  }

  /** The reply is what the reference transport answers on the version of the log that had `base`
      envelopes, a version that was current during this call. */
  ghost predicate ReplyOk(log: seq<Envelope>, r: Replica, upload: Option<Envelope>, since: nat, base: nat, response: Response) {
    && since <= base <= response.cursor <= |log|
    && r.cursor <= base
    && AtomicExchange(log[..base], Request(Some(r.cursor), upload)) == Ok((log[..response.cursor], response))
    && (upload.Some? ==> upload.value in log[..response.cursor])
  }

  ghost predicate WritingOk(log: seq<Envelope>, sent: set<WriteRequest>, r: Replica, p: Phase)
    requires p.Writing?
  {
    && p.write in sent && p.write.document.envelopes != []
    && p.since <= p.base && p.base == |Front(p.write)| && r.cursor <= p.base
    && p.upload == Some(Last(p.write))
    && p.response == Response(|p.write.document.envelopes|, p.write.document.envelopes[r.cursor..], false)
  }

  ghost predicate PhaseOk(log: seq<Envelope>, sent: set<WriteRequest>, r: Replica, p: Phase) {
    && (UploadOf(p).Some? ==> r.pending.Some? && r.pending.value.envelope == UploadOf(p).value)
    && (match p
        case Idle => true
        case Preparing(_) => true
        case Exchanging(_, _, since, _) => since <= |log|
        case Writing(_, _, _, _, _, _, _) => WritingOk(log, sent, r, p)
        case Replied(_, upload, since, base, response) => ReplyOk(log, r, upload, since, base, response)
        case Applied(_, upload, seen) =>
          r.cursor == seen <= |log| && (upload.Some? ==> upload.value in log[..seen])
        case RoundDone(_, seen) => r.cursor == seen <= |log|)
  }

  ghost predicate ReplicasOk(log: seq<Envelope>, issued: map<nat, Envelope>, recorded: set<Change>, replicas: map<nat, Replica>) {
    forall d :: d in replicas ==> ReplicaOk(log, issued, recorded, d, replicas[d])
  }

  ghost predicate PhasesOk(log: seq<Envelope>, sent: set<WriteRequest>, replicas: map<nat, Replica>, phases: map<nat, Phase>) {
    && replicas.Keys == phases.Keys
    && forall d :: d in replicas ==> PhaseOk(log, sent, replicas[d], phases[d])
  }

  ghost predicate Inv(s: State) {
    && ObjectOk(s) && WritesOk(s) && EnvelopesOk(s.vault, s.recorded, s.issued) && RecordedOk(s.recorded)
    && ReplicasOk(Log(s), s.issued, s.recorded, s.replicas) && PhasesOk(Log(s), s.sent, s.replicas, s.phases)
  }

  lemma InitInv(s: State)
    requires Init(s)
    ensures Inv(s)
  {
    assert Log(s) == [];
    forall d | d in s.replicas ensures ReplicaOk(Log(s), s.issued, s.recorded, d, s.replicas[d]) {
      assert Known(s.recorded, d, s.replicas[d]) == {};
    }
  }

  // ----- Frames -----

  /** Growing the log or the set of issued envelopes disturbs no device. */
  lemma ReplicaKept(log: seq<Envelope>, log': seq<Envelope>, issued: map<nat, Envelope>, issued': map<nat, Envelope>,
                    recorded: set<Change>, recorded': set<Change>, d: nat, r: Replica)
    requires ReplicaOk(log, issued, recorded, d, r)
    requires log <= log'
    requires forall id :: id in issued ==> id in issued' && issued'[id] == issued[id]
    requires Own(recorded, d) == Own(recorded', d)
    ensures ReplicaOk(log', issued', recorded', d, r)
  {
    assert log[..r.cursor] == log'[..r.cursor];
    assert Known(recorded, d, r) == Known(recorded', d, r);
  }

  lemma PhaseKept(log: seq<Envelope>, log': seq<Envelope>, sent: set<WriteRequest>, sent': set<WriteRequest>, r: Replica, p: Phase)
    requires PhaseOk(log, sent, r, p)
    requires log <= log' && sent <= sent'
    ensures PhaseOk(log', sent', r, p)
  {
    if p.Replied? {
      assert log[..p.base] == log'[..p.base];
      assert log[..p.response.cursor] == log'[..p.response.cursor];
    } else if p.Applied? {
      assert log[..p.seen] == log'[..p.seen];
    }
  }

  /** Replacing one device's storage, with a larger log and more issued envelopes, keeps every replica right. */
  lemma ReplicasKept(log: seq<Envelope>, log': seq<Envelope>, issued: map<nat, Envelope>, issued': map<nat, Envelope>,
                     recorded: set<Change>, recorded': set<Change>, replicas: map<nat, Replica>, d: nat, r: Replica)
    requires ReplicasOk(log, issued, recorded, replicas)
    requires log <= log'
    requires forall id :: id in issued ==> id in issued' && issued'[id] == issued[id]
    requires forall x :: x in replicas && x != d ==> Own(recorded, x) == Own(recorded', x)
    requires ReplicaOk(log', issued', recorded', d, r)
    ensures ReplicasOk(log', issued', recorded', replicas[d := r])
  {
    forall x | x in replicas && x != d ensures ReplicaOk(log', issued', recorded', x, replicas[x]) {
      ReplicaKept(log, log', issued, issued', recorded, recorded', x, replicas[x]);
    }
  }

  lemma PhasesKept(log: seq<Envelope>, log': seq<Envelope>, sent: set<WriteRequest>, sent': set<WriteRequest>,
                   replicas: map<nat, Replica>, phases: map<nat, Phase>, d: nat, r: Replica, p: Phase)
    requires PhasesOk(log, sent, replicas, phases)
    requires log <= log' && sent <= sent'
    requires d in replicas && PhaseOk(log', sent', r, p)
    ensures PhasesOk(log', sent', replicas[d := r], phases[d := p])
  {
    forall x | x in replicas && x != d ensures PhaseOk(log', sent', replicas[x], phases[x]) {
      PhaseKept(log, log', sent, sent', replicas[x], phases[x]);
    }
  }

  /** Steps that leave the object alone keep it right, whatever else is issued, recorded or sent. */
  lemma ObjectKept(s: State, s': State)
    requires ObjectOk(s) && WritesOk(s)
    requires s' == s.(replicas := s'.replicas, phases := s'.phases, sent := s'.sent, issued := s'.issued, recorded := s'.recorded)
    requires forall id :: id in s.issued ==> id in s'.issued && s'.issued[id] == s.issued[id]
    requires s.sent <= s'.sent && forall w :: w in s'.sent && w !in s.sent ==> WriteOk(s, w)
    ensures ObjectOk(s') && WritesOk(s')
  {
    assert Log(s') == Log(s);
    forall w | w in s'.sent ensures WriteOk(s', w) {
      assert WriteOk(s, w);
    }
  }

  /** A step that moves one device and leaves the object, the issued envelopes and the recorded changes alone. */
  lemma LocalStepInv(s: State, s': State, d: nat, r: Replica, p: Phase, sent: set<WriteRequest>)
    requires Inv(s) && HasDevice(s, d)
    requires s' == s.(replicas := s.replicas[d := r], phases := s.phases[d := p], sent := sent)
    requires s.sent <= sent && forall w :: w in sent && w !in s.sent ==> WriteOk(s, w)
    requires ReplicaOk(Log(s), s.issued, s.recorded, d, r)
    requires PhaseOk(Log(s), sent, r, p)
    ensures Inv(s')
  {
    ObjectKept(s, s');
    ReplicasKept(Log(s), Log(s), s.issued, s.issued, s.recorded, s.recorded, s.replicas, d, r);
    PhasesKept(Log(s), Log(s), s.sent, sent, s.replicas, s.phases, d, r, p);
  }

  /** A step that only changes one device's phase, perhaps by sending a write. */
  lemma PhaseStepInv(s: State, s': State, d: nat, p: Phase, sent: set<WriteRequest>)
    requires Inv(s) && HasDevice(s, d)
    requires s' == s.(phases := s.phases[d := p], sent := sent)
    requires s.sent <= sent && forall w :: w in sent && w !in s.sent ==> WriteOk(s, w)
    requires PhaseOk(Log(s), sent, s.replicas[d], p)
    ensures Inv(s')
  {
    hide ReplicaOk, WriteOk;
    ObjectKept(s, s');
    assert s.replicas[d := s.replicas[d]] == s.replicas;
    PhasesKept(Log(s), Log(s), s.sent, sent, s.replicas, s.phases, d, s.replicas[d], p);
  }
}
