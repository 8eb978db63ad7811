/** Every step of the sync protocol keeps the invariant. The lemmas named after a step show what it does to
    the one device it moves; `StepInv` puts them together. */
module SyncSteps {
  import opened Wrappers
  import opened SyncLog
  import opened ReplicaStore
  import opened SyncProtocol
  import opened SyncInvariants

  lemma OutboxIsBehind(log: seq<Envelope>, issued: map<nat, Envelope>, recorded: set<Change>, d: nat, r: Replica)
    requires ReplicaOk(log, issued, recorded, d, r)
    ensures OutboxBehind(r)
  {
    forall c | c in r.outbox ensures c.entity in r.entities && AtMost(c.revision, r.entities[c.entity].revision) {
      assert c in Known(recorded, d, r);
    }
  }

  /** Every change in the log was recorded by the device that its envelope names, and every envelope opens. */
  lemma LogIsRecorded(vault: nat, part: seq<Envelope>, issued: map<nat, Envelope>, recorded: set<Change>)
    requires LogIssued(part, issued) && EnvelopesOk(vault, recorded, issued)
    ensures Elements(ChangesOf(part)) <= recorded
    ensures forall e :: e in part ==> OpenEnvelope(vault, e).Ok?
  {
    forall c | c in ChangesOf(part) ensures c in recorded {
      ChangesOfMember(part, c);
      var e :| e in part && c in e.ciphertext.batch.changes;
      assert EnvelopeOk(vault, recorded, e.id, issued[e.id]);
    }
    forall e | e in part ensures OpenEnvelope(vault, e).Ok? {
      assert EnvelopeOk(vault, recorded, e.id, issued[e.id]);
    }
  }

  // ----- Local edits -----

  lemma EditReplica(log: seq<Envelope>, issued: map<nat, Envelope>, recorded: set<Change>, d: nat, r: Replica,
                    id: nat, entity: nat, body: nat, now: nat)
    requires ReplicaOk(log, issued, recorded, d, r)
    ensures var (r', change) := RecordLocal(r, d, id, entity, body, now);
            && ReplicaOk(log, issued, recorded + {change}, d, r')
            && (forall c :: c in Own(recorded, d) ==> Before(c.revision, change.revision))
  {
    var known := Known(recorded, d, r);
    OutboxIsBehind(log, issued, recorded, d, r);
    RecordLocalMeaning(r, known, d, id, entity, body, now);
    var (r', change) := RecordLocal(r, d, id, entity, body, now);
    assert Own(recorded + {change}, d) == Own(recorded, d) + {change};
    assert Known(recorded + {change}, d, r') == known + {change};
    forall c | c in Own(recorded + {change}, d) ensures c in r'.outbox || Covered(r'.received, c) {
      assert r'.outbox[|r.outbox|] == change;
      assert c != change ==> c in Own(recorded, d);
    }
  }

  lemma EditRecorded(recorded: set<Change>, d: nat, change: Change)
    requires RecordedOk(recorded) && change.revision.device == d
    requires forall c :: c in recorded ==> c.id != change.id
    requires forall c :: c in Own(recorded, d) ==> Before(c.revision, change.revision)
    ensures RecordedOk(recorded + {change})
  {
    assert forall a :: a in recorded && a.revision.device == d ==> a in Own(recorded, d);
  }

  lemma EnvelopesKept(vault: nat, recorded: set<Change>, change: Change, issued: map<nat, Envelope>)
    requires EnvelopesOk(vault, recorded, issued)
    ensures EnvelopesOk(vault, recorded + {change}, issued)
  {
    forall i | i in issued ensures EnvelopeOk(vault, recorded + {change}, i, issued[i]) {
      assert EnvelopeOk(vault, recorded, i, issued[i]);
    }
  }

  lemma EditInv(s: State, s': State, d: nat, id: nat, entity: nat, body: nat, now: nat)
    requires Inv(s) && Edit(s, s', d, id, entity, body, now)
    ensures Inv(s')
  {
    var (r', change) := RecordLocal(s.replicas[d], d, id, entity, body, now);
    EditReplica(Log(s), s.issued, s.recorded, d, s.replicas[d], id, entity, body, now);
    EditedInv(s, s', d, r', change);
  }

  lemma EditedInv(s: State, s': State, d: nat, r': Replica, change: Change)
    requires Inv(s) && HasDevice(s, d) && change.revision.device == d
    requires s' == s.(replicas := s.replicas[d := r'], recorded := s.recorded + {change})
    requires forall c :: c in s.recorded ==> c.id != change.id
    requires forall c :: c in Own(s.recorded, d) ==> Before(c.revision, change.revision)
    requires ReplicaOk(Log(s), s.issued, s.recorded + {change}, d, r')
    requires r'.cursor == s.replicas[d].cursor && r'.pending == s.replicas[d].pending
    ensures Inv(s')
  {
    hide ReplicaOk, PhaseOk, WriteOk;
    EditedHistory(s, s', d, change);
    EditDevices(s, d, r', change);
    assert s.phases == s.phases[d := s.phases[d]];
  }

  lemma EditedHistory(s: State, s': State, d: nat, change: Change)
    requires ObjectOk(s) && WritesOk(s) && EnvelopesOk(s.vault, s.recorded, s.issued) && RecordedOk(s.recorded)
    requires change.revision.device == d
    requires s' == s.(replicas := s'.replicas, recorded := s.recorded + {change})
    requires forall c :: c in s.recorded ==> c.id != change.id
    requires forall c :: c in Own(s.recorded, d) ==> Before(c.revision, change.revision)
    ensures ObjectOk(s') && WritesOk(s') && EnvelopesOk(s'.vault, s'.recorded, s'.issued) && RecordedOk(s'.recorded)
    ensures Log(s') == Log(s)
  {
    EditRecorded(s.recorded, d, change);
    EnvelopesKept(s.vault, s.recorded, change, s.issued);
    ObjectKept(s, s');
  }

  lemma EditDevices(s: State, d: nat, r': Replica, change: Change)
    requires HasDevice(s, d) && change.revision.device == d
    requires ReplicasOk(Log(s), s.issued, s.recorded, s.replicas) && PhasesOk(Log(s), s.sent, s.replicas, s.phases)
    requires ReplicaOk(Log(s), s.issued, s.recorded + {change}, d, r')
    requires r'.cursor == s.replicas[d].cursor && r'.pending == s.replicas[d].pending
    ensures ReplicasOk(Log(s), s.issued, s.recorded + {change}, s.replicas[d := r'])
    ensures PhasesOk(Log(s), s.sent, s.replicas[d := r'], s.phases[d := s.phases[d]])
  {
    forall x | x != d ensures Own(s.recorded, x) == Own(s.recorded + {change}, x) {}
    ReplicasKept(Log(s), Log(s), s.issued, s.issued, s.recorded, s.recorded + {change}, s.replicas, d, r');
    EditPhases(s, d, r');
  }

  lemma EditPhases(s: State, d: nat, r': Replica)
    requires HasDevice(s, d) && PhasesOk(Log(s), s.sent, s.replicas, s.phases)
    requires r'.cursor == s.replicas[d].cursor && r'.pending == s.replicas[d].pending
    ensures PhasesOk(Log(s), s.sent, s.replicas[d := r'], s.phases[d := s.phases[d]])
  {
    assert PhaseOk(Log(s), s.sent, s.replicas[d], s.phases[d]);
    PhasesKept(Log(s), Log(s), s.sent, s.sent, s.replicas, s.phases, d, r', s.phases[d]);
  }

  // ----- Preparing an upload -----

  lemma SealedOk(s: State, d: nat, id: nat, count: nat)
    requires HasDevice(s, d) && ReplicaOk(Log(s), s.issued, s.recorded, d, s.replicas[d])
    requires count <= |s.replicas[d].outbox| && id !in s.issued
    ensures var r := s.replicas[d];
            var batch := r.outbox[..count];
            var envelope := Seal(s.vault, d, id, r.cursor, batch);
            && EnvelopeOk(s.vault, s.recorded, id, envelope)
            && ReplicaOk(Log(s), s.issued[id := envelope], s.recorded, d,
                         r.(pending := Some(PendingUpload(envelope, ChangeIds(batch)))))
  {
    var r := s.replicas[d];
    var r' := r.(pending := Some(PendingUpload(Seal(s.vault, d, id, r.cursor, r.outbox[..count]), ChangeIds(r.outbox[..count]))));
    assert Known(s.recorded, d, r') == Known(s.recorded, d, r);
  }

  lemma PrepareDevices(s: State, issued: map<nat, Envelope>, d: nat, r': Replica, p': Phase)
    requires HasDevice(s, d) && p'.Exchanging? && p'.since == |Log(s)|
    requires ReplicasOk(Log(s), s.issued, s.recorded, s.replicas) && PhasesOk(Log(s), s.sent, s.replicas, s.phases)
    requires forall id :: id in s.issued ==> id in issued && issued[id] == s.issued[id]
    requires ReplicaOk(Log(s), issued, s.recorded, d, r')
    requires p'.upload.Some? && r'.pending.Some? && r'.pending.value.envelope == p'.upload.value
    ensures ReplicasOk(Log(s), issued, s.recorded, s.replicas[d := r'])
    ensures PhasesOk(Log(s), s.sent, s.replicas[d := r'], s.phases[d := p'])
  {
    ReplicasKept(Log(s), Log(s), s.issued, issued, s.recorded, s.recorded, s.replicas, d, r');
    PhasesKept(Log(s), Log(s), s.sent, s.sent, s.replicas, s.phases, d, r', p');
  }

  lemma PrepareInv(s: State, s': State, d: nat, count: nat, id: nat)
    requires Inv(s) && Prepare(s, s', d, count, id)
    ensures Inv(s')
  {
    hide ReplicaOk, WriteOk;
    var r := s.replicas[d];
    if r.pending.Some? || r.outbox == [] {
      PhaseStepInv(s, s', d, s'.phases[d], s.sent);
    } else {
      SealedOk(s, d, id, count);
      PreparedInv(s, s', d, id, Seal(s.vault, d, id, r.cursor, r.outbox[..count]));
    }
  }

  lemma PreparedInv(s: State, s': State, d: nat, id: nat, envelope: Envelope)
    requires Inv(s) && HasDevice(s, d) && id !in s.issued
    requires s.phases[d].Preparing?
    requires d in s'.replicas && s'.replicas == s.replicas[d := s'.replicas[d]]
    requires s'.phases == s.phases[d := Exchanging(s.phases[d].round, Some(envelope), |Log(s)|, 0)]
    requires s' == s.(replicas := s'.replicas, phases := s'.phases, issued := s.issued[id := envelope])
    requires EnvelopeOk(s.vault, s.recorded, id, envelope)
    requires ReplicaOk(Log(s), s'.issued, s.recorded, d, s'.replicas[d])
    requires s'.replicas[d].pending.Some? && s'.replicas[d].pending.value.envelope == envelope
    ensures Inv(s')
  {
    hide ReplicaOk, WriteOk;
    ObjectKept(s, s');
    PrepareDevices(s, s'.issued, d, s'.replicas[d], s'.phases[d]);
  }

  // ----- Fetching, writing, confirming -----

  lemma FetchedIsLog(s: State)
    requires ObjectOk(s) && Fetched(s).Some?
    ensures DocumentOk(s.vault, Log(s), Fetched(s).value) && Fetched(s).value.envelopes == Log(s)
  {
    if s.resource.Stored? && s.resource.file.Some? {
      assert DocumentOk(s.vault, Log(s), s.tags[s.resource.tag].value);
    }
  }

  /** A fetch whose exchange changes nothing answers as the reference transport does now. */
  lemma UnchangedReply(log: seq<Envelope>, vault: nat, document: Document, r: Replica, upload: Option<Envelope>, since: nat)
    requires document.envelopes == log && DistinctIds(log) && since <= |log|
    requires var done := ApplyObjectExchange(document, vault, Request(Some(r.cursor), upload));
             done.Ok? && !done.value.changed
    ensures ReplyOk(log, r, upload, since, |log|,
                    ApplyObjectExchange(document, vault, Request(Some(r.cursor), upload)).value.response)
  {
    var request := Request(Some(r.cursor), upload);
    ExchangeRefinesAtomicLog(document, vault, request);
    ExchangeAppends(document, vault, request);
    assert log[..|log|] == log;
  }

  /** A fetch whose exchange changes the copy sends a write that would append the upload to it. */
  lemma ChangedWrite(s: State, document: Document, r: Replica, upload: Option<Envelope>, etag: Option<nat>)
    requires document.envelopes == Log(s) && DistinctIds(Log(s)) && DocumentOk(s.vault, Log(s), document)
    requires upload.Some? ==> upload.value.id in s.issued && s.issued[upload.value.id] == upload.value
    requires etag.Some? ==> etag.value in s.tags && EnvelopesOf(s.tags[etag.value]) == Log(s)
    requires var done := ApplyObjectExchange(document, s.vault, Request(Some(r.cursor), upload));
             done.Ok? && done.value.changed
    ensures var done := ApplyObjectExchange(document, s.vault, Request(Some(r.cursor), upload)).value;
            var write := WriteRequest(etag, done.document);
            && WriteOk(s, write) && Front(write) == Log(s) && upload == Some(Last(write))
            && r.cursor <= |Log(s)|
            && done.response == Response(|write.document.envelopes|, write.document.envelopes[r.cursor..], false)
  {
  }

  lemma FetchUnchangedInv(s: State, s': State, d: nat, response: Response)
    requires Inv(s) && HasDevice(s, d) && s.phases[d].Exchanging? && Fetched(s).Some?
    requires ApplyObjectExchange(Fetched(s).value, s.vault, Request(Some(s.replicas[d].cursor), s.phases[d].upload))
          == Ok(Exchanged(Fetched(s).value, response, false))
    requires var p := s.phases[d];
             s' == s.(phases := s.phases[d := Replied(p.round, p.upload, p.since, |Log(s)|, response)])
    ensures Inv(s')
  {
    hide ReplicaOk;
    FetchedIsLog(s);
    var p, r := s.phases[d], s.replicas[d];
    assert PhaseOk(Log(s), s.sent, r, p);
    UnchangedReply(Log(s), s.vault, Fetched(s).value, r, p.upload, p.since);
    PhaseStepInv(s, s', d, Replied(p.round, p.upload, p.since, |Log(s)|, response), s.sent);
  }

  lemma FetchWrites(s: State, d: nat, write: WriteRequest, response: Response)
    requires Inv(s) && HasDevice(s, d) && s.phases[d].Exchanging? && Fetched(s).Some?
    requires write.expected == None || (s.resource.Stored? && write.expected == Some(s.resource.tag))
    requires ApplyObjectExchange(Fetched(s).value, s.vault, Request(Some(s.replicas[d].cursor), s.phases[d].upload))
          == Ok(Exchanged(write.document, response, true))
    ensures WriteOk(s, write) && Front(write) == Log(s) && s.phases[d].upload == Some(Last(write))
    ensures s.replicas[d].cursor <= |Log(s)|
    ensures response == Response(|write.document.envelopes|, write.document.envelopes[s.replicas[d].cursor..], false)
  {
    FetchedIsLog(s);
    FetchUpload(s, d);
    ChangedWrite(s, Fetched(s).value, s.replicas[d], s.phases[d].upload, write.expected);
  }

  lemma WritingPhase(log: seq<Envelope>, sent: set<WriteRequest>, r: Replica, p: Phase, write: WriteRequest, response: Response)
    requires p.Exchanging? && PhaseOk(log, sent, r, p)
    requires write.document.envelopes != [] && Front(write) == log && p.upload == Some(Last(write))
    requires r.cursor <= |log|
    requires response == Response(|write.document.envelopes|, write.document.envelopes[r.cursor..], false)
    ensures PhaseOk(log, sent + {write}, r, Writing(p.round, p.upload, p.since, p.attempt, write, |log|, response))
  {
  }

  lemma FetchChangedInv(s: State, s': State, d: nat, write: WriteRequest, response: Response)
    requires Inv(s) && HasDevice(s, d) && s.phases[d].Exchanging? && Fetched(s).Some?
    requires write.expected == None || (s.resource.Stored? && write.expected == Some(s.resource.tag))
    requires ApplyObjectExchange(Fetched(s).value, s.vault, Request(Some(s.replicas[d].cursor), s.phases[d].upload))
          == Ok(Exchanged(write.document, response, true))
    requires var p := s.phases[d];
             s' == s.(sent := s.sent + {write},
                      phases := s.phases[d := Writing(p.round, p.upload, p.since, p.attempt, write, |Log(s)|, response)])
    ensures Inv(s')
  {
    hide ReplicaOk, WriteOk;
    FetchWrites(s, d, write, response);
    WritingPhase(Log(s), s.sent, s.replicas[d], s.phases[d], write, response);
    PhaseStepInv(s, s', d, s'.phases[d], s'.sent);
  }

  lemma FetchInv(s: State, s': State, d: nat, tagSeen: bool)
    requires Inv(s) && Fetch(s, s', d, tagSeen)
    ensures Inv(s')
  {
    hide ReplicaOk, PhaseOk, WriteOk;
    FetchedIsLog(s);
    var done := Attempt(s, Request(Some(s.replicas[d].cursor), s.phases[d].upload)).value;
    if !done.changed {
      FetchUnchangedInv(s, s', d, done.response);
    } else {
      var etag := if s.resource.Stored? && tagSeen then Some(s.resource.tag) else None;
      FetchChangedInv(s, s', d, WriteRequest(etag, done.document), done.response);
    }
  }

  lemma FetchUpload(s: State, d: nat)
    requires Inv(s) && HasDevice(s, d)
    ensures UploadOf(s.phases[d]).Some? ==>
              var e := UploadOf(s.phases[d]).value; e.id in s.issued && s.issued[e.id] == e
  {
    assert ReplicaOk(Log(s), s.issued, s.recorded, d, s.replicas[d]);
    assert PhaseOk(Log(s), s.sent, s.replicas[d], s.phases[d]);
  }

  /** A delivered write extends the log by the one envelope it was sent for. */
  lemma DeliverAppends(s: State, s': State, write: WriteRequest, tag: nat)
    requires ObjectOk(s) && WritesOk(s) && Deliver(s, s', write, tag)
    ensures WriteOk(s, write) && Front(write) == Log(s)
    ensures Log(s') == Log(s) + [Last(write)] && Log(s') == write.document.envelopes
  {
    assert WriteOk(s, write);
    assert write.document.envelopes == Front(write) + [Last(write)];
  }

  lemma DeliverObject(s: State, s': State, write: WriteRequest, tag: nat)
    requires ObjectOk(s) && WritesOk(s) && Deliver(s, s', write, tag)
    ensures ObjectOk(s') && WritesOk(s')
  {
    DeliverAppends(s, s', write, tag);
    var log, log' := Log(s), Log(s');
    forall i, j | 0 <= i < j < |log'| ensures log'[i].id != log'[j].id {
      assert log'[i] == log[i];
      assert !HasId(log, Last(write).id);
    }
    forall t | t in s'.tags && s'.tags[t].Some? ensures DocumentOk(s'.vault, log', s'.tags[t].value) {
      assert t != tag ==> DocumentOk(s.vault, log, s.tags[t].value);
    }
    forall w | w in s'.sent ensures WriteOk(s', w) {
      assert WriteOk(s, w);
    }
  }

  lemma DeliverInv(s: State, s': State, write: WriteRequest, tag: nat)
    requires Inv(s) && Deliver(s, s', write, tag)
    ensures Inv(s')
  {
    DeliverAppends(s, s', write, tag);
    DeliverObject(s, s', write, tag);
    DeliverDevices(Log(s), Log(s'), s.issued, s.recorded, s.sent, s.replicas, s.phases);
  }

  lemma DeliverDevices(log: seq<Envelope>, log': seq<Envelope>, issued: map<nat, Envelope>, recorded: set<Change>,
                       sent: set<WriteRequest>, replicas: map<nat, Replica>, phases: map<nat, Phase>)
    requires ReplicasOk(log, issued, recorded, replicas) && PhasesOk(log, sent, replicas, phases)
    requires log <= log'
    ensures ReplicasOk(log', issued, recorded, replicas) && PhasesOk(log', sent, replicas, phases)
  {
    forall x | x in replicas
      ensures ReplicaOk(log', issued, recorded, x, replicas[x])
      ensures PhaseOk(log', sent, replicas[x], phases[x])
    {
      ReplicaKept(log, log', issued, issued, recorded, recorded, x, replicas[x]);
      PhaseKept(log, log', sent, sent, replicas[x], phases[x]);
    }
  }

  /** Once a write is stored, its answer is the reference answer on the version it was computed from. */
  lemma StoredReply(log: seq<Envelope>, sent: set<WriteRequest>, r: Replica, p: Phase)
    requires p.Writing? && WritingOk(log, sent, r, p)
    requires p.write.document.envelopes <= log && !HasId(Front(p.write), Last(p.write).id)
    ensures ReplyOk(log, r, p.upload, p.since, p.base, p.response)
  {
    var front, after := Front(p.write), p.write.document.envelopes;
    assert after == front + [Last(p.write)];
    assert log[..p.base] == front && log[..|after|] == after;
    assert after[|front|] == p.upload.value;
  }

  lemma ConfirmInv(s: State, s': State, d: nat)
    requires Inv(s) && Confirm(s, s', d)
    ensures Inv(s')
  {
    hide ReplicaOk;
    var p, r := s.phases[d], s.replicas[d];
    assert WriteOk(s, p.write);
    assert PhaseOk(Log(s), s.sent, r, p);
    StoredReply(Log(s), s.sent, r, p);
    PhaseStepInv(s, s', d, Replied(p.round, p.upload, p.since, p.base, p.response), s.sent);
  }

  lemma ConflictInv(s: State, s': State, d: nat)
    requires Inv(s) && Conflict(s, s', d)
    ensures Inv(s')
  {
    hide ReplicaOk;
    var p, r := s.phases[d], s.replicas[d];
    assert WriteOk(s, p.write);
    assert PhaseOk(Log(s), s.sent, r, p);
    PhaseStepInv(s, s', d, Exchanging(p.round, p.upload, p.since, p.attempt + 1), s.sent);
  }

  // ----- Applying a page -----

  /** The page is exactly what lies between the stored cursor and the new one. */
  lemma PageSpan(log: seq<Envelope>, r: Replica, upload: Option<Envelope>, since: nat, base: nat, response: Response)
    requires ReplyOk(log, r, upload, since, base, response)
    ensures response.envelopes == log[r.cursor..response.cursor]
    ensures log[..response.cursor] == log[..r.cursor] + response.envelopes
    ensures ChangesOf(log[..response.cursor]) == ChangesOf(log[..r.cursor]) + ChangesOf(response.envelopes)
  {
    var upto := log[..response.cursor];
    assert response.envelopes == upto[r.cursor..];
    assert upto[..r.cursor] == log[..r.cursor];
    assert upto == upto[..r.cursor] + upto[r.cursor..];
    ChangesOfAppend(log[..r.cursor], response.envelopes);
  }

  /** A row that a page drops from the outbox is strictly older than a change of that page. */
  lemma OvertakenIsCovered(r: Replica, changes: seq<Change>, c: Change)
    requires OutboxBehind(r)
    requires c in r.outbox && Overtakes(r.entities, Elements(changes), c)
    ensures exists b :: b in changes && b.entity == c.entity && Before(c.revision, b.revision)
    ensures Covered(r.received + changes, c)
  {
    var b :| b in Elements(changes) && b.entity == c.entity
      && (b.entity !in r.entities || Before(r.entities[b.entity].revision, b.revision));
    assert b in changes && b in r.received + changes;
    assert Before(c.revision, b.revision);
  }

  lemma PageReplica(log: seq<Envelope>, issued: map<nat, Envelope>, recorded: set<Change>, d: nat, r: Replica,
                    cursor: nat, changes: seq<Change>, now: nat)
    requires ReplicaOk(log, issued, recorded, d, r)
    requires RevisionsName(recorded)
    requires cursor <= |log| && ChangesOf(log[..cursor]) == r.received + changes
    requires Elements(r.received + changes) <= recorded
    ensures ApplyRemoteBatch(r, cursor, changes, now).Ok? <==> InTime(changes, now)
    ensures InTime(changes, now) ==>
              var after := ApplyRemoteBatch(r, cursor, changes, now).value;
              ReplicaOk(log, issued, recorded, d, after) && after.pending == r.pending && after.cursor == cursor
  {
    var known := Known(recorded, d, r);
    OutboxIsBehind(log, issued, recorded, d, r);
    assert known + Elements(changes) <= recorded by {
      assert forall c :: c in r.received || c in changes ==> c in r.received + changes;
    }
    ApplyBatchMeaning(r, known, cursor, changes, now);
    if InTime(changes, now) {
      var r' := ApplyRemoteBatch(r, cursor, changes, now).value;
      PageCovers(recorded, d, r, r', changes);
      assert Known(recorded, d, r') == known + Elements(changes);
    }
  }

  lemma PageCovers(recorded: set<Change>, d: nat, r: Replica, r': Replica, changes: seq<Change>)
    requires OutboxBehind(r)
    requires forall c :: c in Own(recorded, d) ==> c in r.outbox || Covered(r.received, c)
    requires r'.received == r.received + changes
    requires forall c :: c in r'.outbox <==> c in r.outbox && !Overtakes(r.entities, Elements(changes), c)
    ensures forall c :: c in Own(recorded, d) ==> c in r'.outbox || Covered(r'.received, c)
  {
    forall c | c in Own(recorded, d) && c !in r'.outbox ensures Covered(r'.received, c) {
      if c in r.outbox {
        OvertakenIsCovered(r, changes, c);
      } else {
        var b :| b in r.received && b.entity == c.entity && AtMost(c.revision, b.revision);
        assert b in r'.received;
      }
    }
  }

  /** The device's storage after the page it was sent. */
  ghost function PageStored(s: State, d: nat, now: nat): Result<Replica, StoreError>
    requires HasDevice(s, d) && s.phases[d].Replied?
  {
    ApplyRemoteBatch(s.replicas[d], s.phases[d].response.cursor, ChangesOf(s.phases[d].response.envelopes), now)
  }

  /** The page a device was sent joins what it has received to the log up to the new cursor, and all of it was
      recorded by some device. */
  lemma PageIsRecorded(s: State, d: nat)
    requires Inv(s) && HasDevice(s, d) && s.phases[d].Replied?
    ensures var r, response := s.replicas[d], s.phases[d].response;
            && response.cursor <= |Log(s)|
            && ChangesOf(Log(s)[..response.cursor]) == r.received + ChangesOf(response.envelopes)
            && Elements(r.received + ChangesOf(response.envelopes)) <= s.recorded
            && (forall e :: e in response.envelopes ==> OpenEnvelope(s.vault, e).Ok?)
  {
    hide EnvelopesOk, RecordedOk, OpenEnvelope, WriteOk, HoldsWinners, ChangesOf;
    var p, r, log := s.phases[d], s.replicas[d], Log(s);
    assert PhaseOk(log, s.sent, r, p) && ReplicaOk(log, s.issued, s.recorded, d, r);
    PageSpan(log, r, p.upload, p.since, p.base, p.response);
    var upto := log[..p.response.cursor];
    assert forall e :: e in p.response.envelopes ==> e in upto;
    LogIsRecorded(s.vault, upto, s.issued, s.recorded);
  }

  /** In a reachable state a page opens unless it carries too many changes, and what it opens to applies unless
      one of its changes is more than a day ahead of the device's clock: no envelope is foreign and no two
      revisions clash. */
  lemma PageApplies(s: State, d: nat, now: nat)
    requires Inv(s) && HasDevice(s, d) && s.phases[d].Replied?
    ensures var page := s.phases[d].response.envelopes;
            && (OpenPage(s.vault, page).Ok? <==> |ChangesOf(page)| <= MAX_REMOTE_CHANGES_PER_PAGE)
            && (OpenPage(s.vault, page).Ok? ==> OpenPage(s.vault, page).value == ChangesOf(page))
            && (PageStored(s, d, now).Ok? <==> InTime(ChangesOf(page), now))
            && (PageStored(s, d, now).Ok? ==> ReplicaOk(Log(s), s.issued, s.recorded, d, PageStored(s, d, now).value))
  {
    hide InTime, PhaseOk, ReplicaOk, WriteOk, OpenEnvelope, ChangesOf, ApplyRemoteBatch;
    var page := s.phases[d].response.envelopes;
    PageIsRecorded(s, d);
    forall e | e in page ensures Authentic(s.vault, e) {
      OpenEnvelopeMeaning(s.vault, e);
    }
    OpenPageMeaning(s.vault, page);
    PageReplica(Log(s), s.issued, s.recorded, d, s.replicas[d], s.phases[d].response.cursor, ChangesOf(page), now);
  }

  lemma AppliedPhase(s: State, d: nat, now: nat)
    requires HasDevice(s, d) && s.phases[d].Replied? && PageStored(s, d, now).Ok?
    requires PhaseOk(Log(s), s.sent, s.replicas[d], s.phases[d])
    requires ReplicaOk(Log(s), s.issued, s.recorded, d, PageStored(s, d, now).value)
    ensures var p := s.phases[d];
            PhaseOk(Log(s), s.sent, PageStored(s, d, now).value, Applied(p.round, p.upload, p.response.cursor))
  {
    ApplyKeepsPending(s.replicas[d], SortByRevision(ChangesOf(s.phases[d].response.envelopes)));
  }

  lemma ApplyPageInv(s: State, s': State, d: nat, now: nat)
    requires Inv(s) && ApplyPage(s, s', d, now)
    ensures Inv(s')
  {
    PageApplies(s, d, now);
    var p := s.phases[d];
    AppliedPhase(s, d, now);
    LocalStepInv(s, s', d, PageStored(s, d, now).value, Applied(p.round, p.upload, p.response.cursor), s.sent);
  }

  // ----- Acknowledging -----

  /** A row is acknowledged only after the device has received its own envelope back from the log. */
  lemma AcknowledgedIsReceived(log: seq<Envelope>, vault: nat, issued: map<nat, Envelope>, recorded: set<Change>,
                               d: nat, r: Replica, e: Envelope, c: Change)
    requires ReplicaOk(log, issued, recorded, d, r) && EnvelopesOk(vault, recorded, issued) && RecordedOk(recorded)
    requires r.pending.Some? && r.pending.value.envelope == e
    requires e in log[..r.cursor]
    requires c in r.outbox && c.id in r.pending.value.changeIds
    ensures c in r.received
  {
    var changes := e.ciphertext.batch.changes;
    assert EnvelopeOk(vault, recorded, e.id, issued[e.id]);
    var i :| 0 <= i < |changes| && ChangeIds(changes)[i] == c.id;
    assert changes[i] in recorded && c in Own(recorded, d);
    assert changes[i] == c;
    ChangesOfMember(log[..r.cursor], c);
  }

  lemma AckReplica(log: seq<Envelope>, vault: nat, issued: map<nat, Envelope>, recorded: set<Change>,
                   d: nat, r: Replica, e: Envelope)
    requires ReplicaOk(log, issued, recorded, d, r) && EnvelopesOk(vault, recorded, issued) && RecordedOk(recorded)
    requires r.pending.Some? && r.pending.value.envelope == e
    requires e in log[..r.cursor]
    ensures Acknowledge(r, e.id).Ok?
    ensures ReplicaOk(log, issued, recorded, d, Acknowledge(r, e.id).value.0)
    ensures Acknowledge(r, e.id).value.0.cursor == r.cursor
  {
    AcknowledgeMeaning(r, e.id);
    var r' := Acknowledge(r, e.id).value.0;
    forall c | c in Own(recorded, d) ensures c in r'.outbox || Covered(r'.received, c) {
      if c in r.outbox && c !in r'.outbox {
        AcknowledgedIsReceived(log, vault, issued, recorded, d, r, e, c);
        assert AtMost(c.revision, c.revision);
      }
    }
    assert Known(recorded, d, r') == Known(recorded, d, r);
  }

  lemma AckInv(s: State, s': State, d: nat)
    requires Inv(s) && Ack(s, s', d)
    ensures Inv(s')
  {
    hide ReplicaOk, WriteOk;
    var p, r := s.phases[d], s.replicas[d];
    assert PhaseOk(Log(s), s.sent, r, p);
    var p' := RoundDone(p.round, p.seen);
    if p.upload.Some? {
      AckReplica(Log(s), s.vault, s.issued, s.recorded, d, r, p.upload.value);
      LocalStepInv(s, s', d, Acknowledge(r, p.upload.value.id).value.0, p', s.sent);
    } else {
      PhaseStepInv(s, s', d, p', s.sent);
    }
  }

  // ----- All steps -----

  lemma ResourceStays(s: State, s': State, d: nat)
    requires DeviceStep(s, s', d)
    ensures s'.resource == s.resource
  {
    hide Seal, Attempt, OpenPage, ApplyRemoteBatch, Acknowledge;
  }

  lemma DeviceStepInv(s: State, s': State, d: nat)
    requires Inv(s) && DeviceStep(s, s', d)
    ensures Inv(s')
    ensures s'.resource == s.resource
  {
    hide ReplicaOk, WriteOk, Prepare, Fetch, Confirm, Conflict, ApplyPage, Ack;
    ResourceStays(s, s', d);
    if count, id :| Prepare(s, s', d, count, id) {
      PrepareInv(s, s', d, count, id);
    } else if tagSeen :| Fetch(s, s', d, tagSeen) {
      FetchInv(s, s', d, tagSeen);
    } else if Confirm(s, s', d) {
      ConfirmInv(s, s', d);
    } else if Conflict(s, s', d) {
      ConflictInv(s, s', d);
    } else if now :| ApplyPage(s, s', d, now) {
      ApplyPageInv(s, s', d, now);
    } else if Ack(s, s', d) {
      AckInv(s, s', d);
    } else {
      PhaseStepInv(s, s', d, s'.phases[d], s.sent);
    }
  }

  /** The invariant is inductive, and no step rewrites the log: it is kept or extended by one envelope. */
  lemma StepInv(s: State, s': State)
    requires Inv(s) && Next(s, s')
    ensures Inv(s')
    ensures Log(s) <= Log(s') && |Log(s')| <= |Log(s)| + 1
  {
    if d, id, entity, body, now :| Edit(s, s', d, id, entity, body, now) {
      EditInv(s, s', d, id, entity, body, now);
    } else if write, tag :| Deliver(s, s', write, tag) {
      DeliverAppends(s, s', write, tag);
      DeliverInv(s, s', write, tag);
    } else {
      var d :| DeviceStep(s, s', d);
      DeviceStepInv(s, s', d);
    }
  }

  lemma {:induction false} RunInv(run: seq<State>, i: nat)
    requires Run(run) && i < |run|
    ensures Inv(run[i])
  {
    if i == 0 {
      InitInv(run[0]);
    } else {
      RunInv(run, i - 1);
      StepInv(run[i - 1], run[i]);
    }
  }
}
