/** The sync objects against the protocol: each request that the manager and the remote object make is a step, or
    two, that a device makes in `SyncProtocol`. What comes between two requests is `OthersWrite` there and any
    steps at all here; `OthersOnlyAppend` says that the steps do no more than the interference may. */
module SyncHandles {
  import opened Wrappers
  import opened SyncLog
  import opened ReplicaStore
  import opened SyncProtocol
  import opened SyncInvariants
  import opened SyncSteps
  import opened SyncTheorems
  import opened ObjectTransport
  import opened CloudSync

  // ----- The upload -----

  /** The manager is the device of the state that is about to prepare, and its next identifiers are new. */
  ghost predicate IsDevice(manager: CloudSyncManager, s: State, d: nat)
    reads manager, manager.transport
  {
    && HasDevice(s, d) && manager.replica == s.replicas[d] && manager.device == d && manager.transport.vault == s.vault
    && forall n :: n >= manager.drawn ==> manager.uuids(n) !in s.issued
  }

  lemma RefusedStays(length: seq<Change> -> nat, vault: nat, device: nat, before: Replica, after: Replica,
                     result: Result<Option<Envelope>, SyncError>)
    requires Prepared(length, vault, device, before, after, result) && result.Err?
    ensures after == before
  {
    hide NoneFits, Sizes;
  }

  lemma PreparedStep(length: seq<Change> -> nat, s: State, d: nat, after: Replica, result: Result<Option<Envelope>, SyncError>)
    returns (s': State)
    requires HasDevice(s, d) && s.phases[d].Preparing? && result.Ok?
    requires Prepared(length, s.vault, d, s.replicas[d], after, result)
    requires s.replicas[d].pending.None? && result.value.Some? ==> result.value.value.id !in s.issued
    ensures exists count, id :: Prepare(s, s', d, count, id)
    ensures HasDevice(s', d) && s'.replicas[d] == after
    ensures s'.phases[d] == Exchanging(s.phases[d].round, result.value, |Log(s)|, 0)
  {
    hide NoneFits, Sizes, Log;
    var r := s.replicas[d];
    var phase := Exchanging(s.phases[d].round, result.value, |Log(s)|, 0);
    if r.pending.Some? || r.outbox == [] {
      s' := s.(phases := s.phases[d := phase]);
      assert Prepare(s, s', d, 0, 0);
    } else {
      var k: nat, id: nat :| Chosen(length, r.outbox, k) && Saved(s.vault, d, r, after, result, k, id);
      var count := Sizes(FirstSize(r.outbox))[k];
      var envelope := result.value.value;
      s' := s.(replicas := s.replicas[d := after], phases := s.phases[d := phase], issued := s.issued[id := envelope]);
      assert Prepare(s, s', d, count, id);
    }
  }

  /** What is prepared is a step; an upload that is too large leaves the device as it was. */
  method HandlePrepare(manager: CloudSyncManager, s: State, d: nat)
    returns (result: Result<Option<Envelope>, SyncError>, ghost s': State)
    requires IsDevice(manager, s, d) && s.phases[d].Preparing?
    modifies manager
    ensures result.Ok? ==>
              && (exists count, id :: Prepare(s, s', d, count, id)) && HasDevice(s', d)
              && manager.replica == s'.replicas[d]
              && s'.phases[d] == Exchanging(s.phases[d].round, result.value, |Log(s)|, 0)
    ensures result.Err? ==> manager.replica == s.replicas[d]
  {
    hide Prepared, Prepare;
    result := manager.PrepareUpload();
    s' := s;
    if result.Ok? {
      s' := PreparedStep(manager.length, s, d, manager.replica, result);
    } else {
      RefusedStays(manager.length, s.vault, d, s.replicas[d], manager.replica, result);
    }
  }

  // ----- The exchange -----

  /** The remote object is the object of the state. */
  ghost predicate IsObject(remote: RemoteObject, s: State)
    reads remote
  {
    && remote.provider == s.provider && remote.vault == s.vault && remote.bytes == s.bytes
    && remote.resource == s.resource && remote.tags == s.tags
  }

  lemma CopyIsFetched(remote: RemoteObject, s: State)
    requires remote.Valid() && IsObject(remote, s)
    ensures remote.Copy() == Fetched(s) && remote.Contents() == Log(s)
    ensures remote.CanRead() ==> Readable(s)
  {
  }

  lemma FetchStep(s: State, d: nat, done: Exchanged, etag: Option<nat>) returns (s': State)
    requires HasDevice(s, d) && s.phases[d].Exchanging? && Fetched(s).Some? && Readable(s)
    requires var request := Request(Some(s.replicas[d].cursor), s.phases[d].upload);
             ApplyObjectExchange(Fetched(s).value, s.vault, request) == Ok(done)
    requires etag.Some? ==> s.resource.Stored? && etag.value == s.resource.tag
    requires done.changed ==>
               (s.provider == GithubGist ==> etag.Some?) && s.bytes.written(done.document) <= MAX_OBJECT_STORE_BYTES
    ensures exists tagSeen :: Fetch(s, s', d, tagSeen)
    ensures HasDevice(s', d)
    ensures if done.changed then
              s'.phases[d].Writing? && s'.phases[d].write == WriteRequest(etag, done.document) && s'.phases[d].write in s'.sent
            else s'.phases[d].Replied?
    ensures s'.phases[d].response == done.response
  {
    hide ApplyObjectExchange;
    var p, base := s.phases[d], |Fetched(s).value.envelopes|;
    var write := WriteRequest(etag, done.document);
    s' := if done.changed then
        s.(sent := s.sent + {write},
           phases := s.phases[d := Writing(p.round, p.upload, p.since, p.attempt, write, base, done.response)])
      else s.(phases := s.phases[d := Replied(p.round, p.upload, p.since, base, done.response)]);
    assert Fetch(s, s', d, etag.Some?);
  }

  /** A read that leads to a reply or to a write is the fetching step. The one thing that stands in its way besides
      the errors is a gist without an entity tag, or a document that has become too large to write. */
  method HandleFetch(remote: RemoteObject, s: State, d: nat)
    returns (done: Result<Exchanged, TransportError>, etag: Option<nat>, ghost s': State)
    requires remote.Valid() && IsObject(remote, s) && HasDevice(s, d) && s.phases[d].Exchanging?
    modifies remote`requests, remote`gets
    ensures remote.Valid() && IsObject(remote, s)
    ensures done.Ok?
            && (done.value.changed ==>
                  (s.provider == GithubGist ==> etag.Some?) && s.bytes.written(done.value.document) <= MAX_OBJECT_STORE_BYTES)
            ==>
              && (exists tagSeen :: Fetch(s, s', d, tagSeen)) && HasDevice(s', d)
              && (if done.value.changed then
                    s'.phases[d].Writing? && s'.phases[d].write == WriteRequest(etag, done.value.document)
                    && s'.phases[d].write in s'.sent
                  else s'.phases[d].Replied?)
              && s'.phases[d].response == done.value.response
  {
    hide ApplyObjectExchange, AtomicExchange;
    var request := Request(Some(s.replicas[d].cursor), s.phases[d].upload);
    done, etag := remote.ReadAndApply(request);
    s' := s;
    if done.Ok? {
      CopyIsFetched(remote, s);
      if done.value.changed ==>
           (s.provider == GithubGist ==> etag.Some?) && s.bytes.written(done.value.document) <= MAX_OBJECT_STORE_BYTES {
        s' := FetchStep(s, d, done.value, etag);
      }
    }
  }

  lemma SentFacts(s: State, write: WriteRequest)
    requires Inv(s) && write in s.sent
    ensures write.document.envelopes != [] && write.document.envelopes == Front(write) + [Last(write)]
    ensures Front(write) <= Log(s) && DistinctIds(write.document.envelopes)
    ensures write.expected.Some? ==>
              write.expected.value in s.tags && EnvelopesOf(s.tags[write.expected.value]) == Front(write)
  {
    hide ReplicaOk, PhaseOk;
    assert WriteOk(s, write);
    var front, last := Front(write), Last(write);
    assert write.document.envelopes == front + [last];
    forall i, j | 0 <= i < j < |front| + 1 ensures write.document.envelopes[i].id != write.document.envelopes[j].id {
      assert front[i] == Log(s)[i];
    }
  }

  lemma WritingIsSent(s: State, d: nat)
    requires Inv(s) && HasDevice(s, d) && s.phases[d].Writing?
    ensures s.phases[d].write in s.sent
  {
    hide Inv;
    DeviceFacts(s, d);
  }

  /** The answer tells whether the object changed, unless the write failed. */
  lemma AnswerTells(from: Moment, to: Moment, put: Put, base: seq<Envelope>, upload: Envelope)
    requires WritesAt(from, to, put, base, upload)
    ensures put.reply == Written ==> to.resource != from.resource
    ensures put.reply == PreconditionFailed ==> to.resource == from.resource
  {
    hide Advances, EnvelopesOf;
  }

  /** A write that takes effect is a delivery, and its reply "stored" is the confirming step. A failed precondition
      changes nothing and is the conflict step while attempts are left. A write that fails otherwise may have been
      delivered. */
  method HandleWrite(remote: RemoteObject, s: State, d: nat) returns (reply: WriteReply, ghost s1: State, ghost s2: State)
    requires remote.Valid() && IsObject(remote, s) && Inv(s) && HasDevice(s, d) && s.phases[d].Writing?
    modifies remote
    ensures remote.Valid() && IsObject(remote, s1)
    ensures s1 == s || exists tag :: Deliver(s, s1, s.phases[d].write, tag)
    ensures reply == Written ==> s1 != s && Confirm(s1, s2, d)
    ensures reply == PreconditionFailed ==> s1 == s && (s.phases[d].attempt + 1 < MAX_WRITE_ATTEMPTS ==> Conflict(s, s2, d))
  {
    hide Inv, WritesAt, DistinctIds, EnvelopesOf;
    var p := s.phases[d];
    WritingIsSent(s, d);
    SentFacts(s, p.write);
    CopyIsFetched(remote, s);
    ghost var tag, from := remote.nextTag, remote.Now();
    reply := remote.Write(p.write.document, p.write.expected, Front(p.write), Last(p.write));
    AnswerTells(from, remote.Now(), Put(p.write, reply), Front(p.write), Last(p.write));
    s1 := s;
    if remote.resource != s.resource {
      s1 := s.(resource := Stored(tag, Some(p.write.document)), tags := s.tags[tag := Some(p.write.document)],
               stored := s.stored + {p.write});
      assert Deliver(s, s1, p.write, tag);
    }
    s2 := if reply == Written then s1.(phases := s1.phases[d := Replied(p.round, p.upload, p.since, p.base, p.response)])
      else s.(phases := s.phases[d := Exchanging(p.round, p.upload, p.since, p.attempt + 1)]);
  }

  // ----- The reply -----

  lemma RowsAreNamed(log: seq<Envelope>, vault: nat, issued: map<nat, Envelope>, recorded: set<Change>, d: nat, r: Replica)
    requires ReplicaOk(log, issued, recorded, d, r) && EnvelopesOk(vault, recorded, issued) && RecordedOk(recorded)
    ensures UploadMatches(r)
  {
    hide HoldsWinners, RevisionsName, Covered, OpenEnvelope;
    if r.pending.Some? {
      var batch := r.pending.value.envelope.ciphertext.batch.changes;
      assert EnvelopeOk(vault, recorded, r.pending.value.envelope.id, r.pending.value.envelope);
      forall c | c in r.outbox && c.id in r.pending.value.changeIds ensures c in batch {
        var i :| 0 <= i < |batch| && ChangeIds(batch)[i] == c.id;
        assert batch[i] in batch && batch[i] in recorded;
      }
    }
  }

  /** In a reachable state a saved upload stands for the very rows it carries. */
  lemma UploadsMatch(s: State, d: nat)
    requires Inv(s) && HasDevice(s, d)
    ensures UploadMatches(s.replicas[d])
  {
    hide Inv;
    DeviceFacts(s, d);
    RowsAreNamed(Log(s), s.vault, s.issued, s.recorded, d, s.replicas[d]);
  }

  lemma ReplyFacts(s: State, d: nat)
    requires Inv(s) && HasDevice(s, d) && s.phases[d].Replied?
    ensures var p, r := s.phases[d], s.replicas[d];
            && p.response.cursor <= |Log(s)|
            && r.received + ChangesOf(p.response.envelopes) == ChangesOf(Log(s)[..p.response.cursor])
            && (p.upload.Some? ==> r.pending.Some? && r.pending.value.envelope == p.upload.value)
  {
    hide Inv, ChangesOf;
    DeviceFacts(s, d);
    var p, r, log := s.phases[d], s.replicas[d], Log(s);
    PageSpan(log, r, p.upload, p.since, p.base, p.response);
    ChangesOfAppend(log[..r.cursor], log[r.cursor..p.response.cursor]);
    assert log[..p.response.cursor] == log[..r.cursor] + log[r.cursor..p.response.cursor];
  }

  lemma RepliedSteps(s: State, d: nat, after: Replica, now: nat, result: Result<(nat, nat), SyncError>) returns (s1: State, s2: State)
    requires HasDevice(s, d) && s.phases[d].Replied?
    requires result.Ok? && RepliedTo(s.vault, s.replicas[d], after, s.phases[d].upload, s.phases[d].response, now, result)
    ensures ApplyPage(s, s1, d, now) && Ack(s1, s2, d)
    ensures HasDevice(s2, d) && s2.replicas[d] == after && s2.phases[d].RoundDone?
  {
    hide OpenPage, ApplyRemoteBatch, Acknowledge;
    var p := s.phases[d];
    var page := OpenPage(s.vault, p.response.envelopes).value;
    var stored := ApplyRemoteBatch(s.replicas[d], p.response.cursor, page, now).value;
    s1 := s.(replicas := s.replicas[d := stored], phases := s.phases[d := Applied(p.round, p.upload, p.response.cursor)]);
    s2 := s1.(replicas := s1.replicas[d := after], phases := s1.phases[d := RoundDone(p.round, p.response.cursor)]);
    assert s1.replicas[d := stored] == s1.replicas;
  }

  /** Storing the page and acknowledging are the two steps that follow a reply; a reply that cannot be stored leaves
      the device as it was. */
  method HandleReply(manager: CloudSyncManager, s: State, d: nat, now: nat)
    returns (result: Result<(nat, nat), SyncError>, ghost s1: State, ghost s2: State)
    requires Inv(s) && HasDevice(s, d) && s.phases[d].Replied?
    requires manager.replica == s.replicas[d] && IsObject(manager.transport, s) && manager.transport.Valid()
    modifies manager
    ensures result.Ok? ==>
              && ApplyPage(s, s1, d, now) && Ack(s1, s2, d) && HasDevice(s2, d)
              && manager.replica == s2.replicas[d] && s2.phases[d].RoundDone?
    ensures result.Err? ==> manager.replica == s.replicas[d]
  {
    hide Inv, RepliedTo, UploadMatches, ApplyPage, Ack, ReplicaOk, PhaseOk, RowsGone, ChangesOf;
    var p := s.phases[d];
    UploadsMatch(s, d);
    CopyIsFetched(manager.transport, s);
    ReplyFacts(s, d);
    result := manager.ApplyReply(p.upload, p.response, now);
    s1, s2 := s, s;
    if result.Ok? {
      s1, s2 := RepliedSteps(s, d, manager.replica, now, result);
    }
  }

  /** After a round the device returns its report exactly when nothing is left to upload, and otherwise begins another
      one exactly while it has made fewer than 64. */
  lemma RoundEndsOneWay(s: State, d: nat)
    requires HasDevice(s, d) && s.phases[d].RoundDone?
    ensures (exists s' :: Finish(s, s', d)) <==> s.replicas[d].outbox == []
    ensures (exists s' :: NextRound(s, s', d)) <==> s.replicas[d].outbox != [] && s.phases[d].round + 1 < 64
  {
    var idle := s.(phases := s.phases[d := Idle]);
    var again := s.(phases := s.phases[d := Preparing(s.phases[d].round + 1)]);
    assert s.replicas[d].outbox == [] ==> Finish(s, idle, d);
    assert s.replicas[d].outbox != [] && s.phases[d].round + 1 < 64 ==> NextRound(s, again, d);
  }

  // ----- Between two requests -----

  lemma TagsStay(s: State, s': State)
    requires Next(s, s')
    ensures forall t :: t in s.tags ==> t in s'.tags && s'.tags[t] == s.tags[t]
  {
    hide DeviceStep;
    if x :| DeviceStep(s, s', x) {
      StepMoves(s, s', x);
    }
  }

  /** Whatever steps come between, the log is only appended to and a tag keeps what it names: no more than the
      interference that the exchange loops are proved against. */
  lemma {:induction false} OthersOnlyAppend(run: seq<State>, i: nat, j: nat)
    requires Run(run) && i <= j < |run|
    ensures Log(run[i]) <= Log(run[j])
    ensures forall t :: t in run[i].tags ==> t in run[j].tags && run[j].tags[t] == run[i].tags[t]
  {
    hide Inv, Next;
    if i < j {
      OthersOnlyAppend(run, i, j - 1);
      RunInv(run, j - 1);
      StepInv(run[j - 1], run[j]);
      TagsStay(run[j - 1], run[j]);
    }
  }
}
