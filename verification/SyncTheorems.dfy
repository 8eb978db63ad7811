/** What the sync protocol guarantees over every run, for any number of devices, any interleaving, crashes,
    conflicts, late writes and lost replies. */
module SyncTheorems {
  import opened Wrappers
  import opened SyncLog
  import opened ReplicaStore
  import opened SyncProtocol
  import opened SyncInvariants
  import opened SyncSteps

  /** The parts of the invariant that concern one device, and the log. */
  lemma DeviceFacts(s: State, d: nat)
    requires Inv(s) && HasDevice(s, d)
    ensures ReplicaOk(Log(s), s.issued, s.recorded, d, s.replicas[d])
    ensures PhaseOk(Log(s), s.sent, s.replicas[d], s.phases[d])
    ensures LogFacts(s)
  {
    hide ReplicaOk, PhaseOk, WriteOk;
  }

  ghost predicate LogFacts(s: State) {
    && DistinctIds(Log(s)) && |Log(s)| <= MAX_REMOTE_CHANGES_PER_PAGE + 1
    && LogIssued(Log(s), s.issued) && EnvelopesOk(s.vault, s.recorded, s.issued) && RecordedOk(s.recorded)
  }

  // ----- The shared log -----

  /** The log only ever grows by appending, and no envelope another device wrote is lost or repeated. */
  lemma {:induction false} LogIsAppendOnly(run: seq<State>, i: nat, j: nat)
    requires Run(run) && i <= j < |run|
    ensures Log(run[i]) <= Log(run[j])
    ensures DistinctIds(Log(run[j])) && |Log(run[j])| <= MAX_REMOTE_CHANGES_PER_PAGE + 1
    decreases j
  {
    hide Inv, Next;
    RunInv(run, j);
    ObjectFacts(run[j]);
    if i < j {
      LogIsAppendOnly(run, i, j - 1);
      RunInv(run, j - 1);
      StepInv(run[j - 1], run[j]);
    }
  }

  lemma ObjectFacts(s: State)
    requires Inv(s)
    ensures LogFacts(s)
  {
    hide ReplicaOk, PhaseOk, WriteOk;
  }

  /** Whenever the log changes, the change is one atomic exchange of the reference transport: some device's
      saved envelope, not there before, is appended. The compare-and-swap refines the atomic log. */
  lemma LogChangesAtomically(run: seq<State>, i: nat)
    requires Run(run) && i + 1 < |run| && Log(run[i]) != Log(run[i + 1])
    ensures exists upload: Envelope ::
              && upload.id in run[i].issued && run[i].issued[upload.id] == upload
              && upload !in Log(run[i])
              && AtomicExchange(Log(run[i]), Request(None, Some(upload)))
                 == Ok((Log(run[i + 1]), Response(|Log(run[i + 1])|, Log(run[i + 1]), false)))
  {
    hide Inv, Next;
    RunInv(run, i);
    LogStep(run[i], run[i + 1]);
  }

  lemma LogStep(s: State, s': State)
    requires Inv(s) && Next(s, s')
    ensures Log(s') == Log(s) || exists upload: Envelope ::
              && upload.id in s.issued && s.issued[upload.id] == upload && upload !in Log(s)
              && AtomicExchange(Log(s), Request(None, Some(upload))) == Ok((Log(s'), Response(|Log(s')|, Log(s'), false)))
  {
    hide Inv;
    if d, id, entity, body, now :| Edit(s, s', d, id, entity, body, now) {
      assert Log(s') == Log(s);
    } else if write, tag :| Deliver(s, s', write, tag) {
      DeliveredAtomically(s, s', write, tag);
    } else {
      var d :| DeviceStep(s, s', d);
      DeviceStepInv(s, s', d);
      assert Log(s') == Log(s);
    }
  }

  lemma DeliveredAtomically(s: State, s': State, write: WriteRequest, tag: nat)
    requires Inv(s) && Deliver(s, s', write, tag)
    ensures exists upload: Envelope ::
              && upload.id in s.issued && s.issued[upload.id] == upload && upload !in Log(s)
              && AtomicExchange(Log(s), Request(None, Some(upload))) == Ok((Log(s'), Response(|Log(s')|, Log(s'), false)))
  {
    hide ReplicaOk, PhaseOk;
    DeliverAppends(s, s', write, tag);
    var upload := Last(write);
    forall e | e in Log(s) ensures e.id != upload.id {
      var k :| 0 <= k < |Log(s)| && Log(s)[k] == e;
    }
  }

  ghost predicate InCall(p: Phase) {
    p.Exchanging? || p.Writing? || p.Replied?
  }

  function SinceOf(p: Phase): nat
    requires InCall(p)
  {
    match p
    case Exchanging(_, _, since, _) => since
    case Writing(_, _, since, _, _, _, _) => since
    case Replied(_, _, since, _, _) => since
  }

  /** One call of `exchange`: entered with the step into the state `start`, and still going on in `end`. */
  ghost predicate Call(run: seq<State>, start: nat, end: nat, d: nat) {
    && 0 < start <= end < |run|
    && HasDevice(run[start - 1], d) && !InCall(run[start - 1].phases[d])
    && forall k :: start <= k <= end ==> HasDevice(run[k], d) && InCall(run[k].phases[d])
  }

  /** A call that `Prepare` enters records the log length of that moment, and keeps it until it ends. */
  lemma CallKeepsStart(s: State, s': State, d: nat)
    requires Next(s, s') && HasDevice(s, d) && HasDevice(s', d) && InCall(s'.phases[d])
    ensures if InCall(s.phases[d]) then SinceOf(s.phases[d]) == SinceOf(s'.phases[d])
            else SinceOf(s'.phases[d]) == |Log(s')|
  {
    if x, id, entity, body, now :| Edit(s, s', x, id, entity, body, now) {
    } else if write, tag :| Deliver(s, s', write, tag) {
    } else {
      var x :| DeviceStep(s, s', x);
      CallStep(s, s', x, d);
    }
  }

  lemma CallStep(s: State, s': State, x: nat, d: nat)
    requires DeviceStep(s, s', x) && HasDevice(s, d) && HasDevice(s', d) && InCall(s'.phases[d])
    ensures if InCall(s.phases[d]) then SinceOf(s.phases[d]) == SinceOf(s'.phases[d])
            else SinceOf(s'.phases[d]) == |Log(s')|
  {
    hide Attempt, Fetched, Prepare, Fetch, ApplyPage, Ack, Confirm, Conflict;
    if x == d {
      OwnCallStep(s, s', d);
    } else {
      OtherDevicesStay(s, s', x, d);
    }
  }

  /** A device's step changes only that device, what was sent and what was issued. */
  ghost predicate OneDeviceMoves(s: State, s': State, d: nat) {
    && HasDevice(s, d) && HasDevice(s', d)
    && s' == s.(replicas := s.replicas[d := s'.replicas[d]], phases := s.phases[d := s'.phases[d]],
                sent := s'.sent, issued := s'.issued)
  }

  lemma PrepareMoves(s: State, s': State, d: nat, count: nat, id: nat)
    requires Prepare(s, s', d, count, id)
    ensures OneDeviceMoves(s, s', d)
  {
    hide Seal;
    assert s.replicas[d := s.replicas[d]] == s.replicas;
  }

  lemma FetchMoves(s: State, s': State, d: nat, tagSeen: bool)
    requires Fetch(s, s', d, tagSeen)
    ensures OneDeviceMoves(s, s', d)
  {
    hide Attempt;
    assert s.replicas[d := s.replicas[d]] == s.replicas;
  }

  lemma StoreMoves(s: State, s': State, d: nat)
    requires Ack(s, s', d) || exists now :: ApplyPage(s, s', d, now)
    ensures OneDeviceMoves(s, s', d)
  {
    hide OpenPage, ApplyRemoteBatch, Acknowledge;
    assert s.replicas[d := s.replicas[d]] == s.replicas;
  }

  lemma PhaseMoves(s: State, s': State, d: nat)
    requires Begin(s, s', d) || Confirm(s, s', d) || Conflict(s, s', d) || NextRound(s, s', d) || Finish(s, s', d) || Fail(s, s', d)
    ensures OneDeviceMoves(s, s', d)
  {
    assert s.replicas[d := s.replicas[d]] == s.replicas;
  }

  lemma StepMoves(s: State, s': State, d: nat)
    requires DeviceStep(s, s', d)
    ensures OneDeviceMoves(s, s', d)
  {
    hide OneDeviceMoves, Prepare, Fetch, ApplyPage, Ack, Begin, Confirm, Conflict, NextRound, Finish, Fail;
    if count, id :| Prepare(s, s', d, count, id) {
      PrepareMoves(s, s', d, count, id);
    } else if tagSeen :| Fetch(s, s', d, tagSeen) {
      FetchMoves(s, s', d, tagSeen);
    } else if Ack(s, s', d) || exists now :: ApplyPage(s, s', d, now) {
      StoreMoves(s, s', d);
    } else {
      PhaseMoves(s, s', d);
    }
  }

  lemma OtherDevicesStay(s: State, s': State, x: nat, d: nat)
    requires DeviceStep(s, s', x) && HasDevice(s, d) && x != d
    ensures HasDevice(s', d) && s'.phases[d] == s.phases[d] && s'.replicas[d] == s.replicas[d]
  {
    hide DeviceStep;
    StepMoves(s, s', x);
  }

  lemma SameLog(s: State, s': State)
    requires s'.resource == s.resource
    ensures Log(s') == Log(s)
  {
  }

  /** An exchange begins at the log length of its start, and keeps that in mind. */
  ghost predicate SinceFollows(s: State, s': State, d: nat) {
    HasDevice(s, d) && HasDevice(s', d) && Log(s') == Log(s)
    && (InCall(s'.phases[d]) ==>
          if InCall(s.phases[d]) then SinceOf(s.phases[d]) == SinceOf(s'.phases[d]) else SinceOf(s'.phases[d]) == |Log(s')|)
  }

  lemma PrepareFollows(s: State, s': State, d: nat, count: nat, id: nat)
    requires Prepare(s, s', d, count, id)
    ensures SinceFollows(s, s', d)
  {
    hide Seal, Log;
    SameLog(s, s');
  }

  lemma FetchFollows(s: State, s': State, d: nat, tagSeen: bool)
    requires Fetch(s, s', d, tagSeen)
    ensures SinceFollows(s, s', d)
  {
    hide Attempt, Log;
    SameLog(s, s');
  }

  lemma StoreFollows(s: State, s': State, d: nat)
    requires Ack(s, s', d) || exists now :: ApplyPage(s, s', d, now)
    ensures SinceFollows(s, s', d)
  {
    hide OpenPage, ApplyRemoteBatch, Acknowledge, Log;
    SameLog(s, s');
  }

  lemma PhaseFollows(s: State, s': State, d: nat)
    requires Begin(s, s', d) || Confirm(s, s', d) || Conflict(s, s', d) || NextRound(s, s', d) || Finish(s, s', d) || Fail(s, s', d)
    ensures SinceFollows(s, s', d)
  {
    hide Log;
    SameLog(s, s');
  }

  lemma OwnCallStep(s: State, s': State, d: nat)
    requires DeviceStep(s, s', d)
    ensures SinceFollows(s, s', d)
  {
    hide SinceFollows, Prepare, Fetch, ApplyPage, Ack, Begin, Confirm, Conflict, NextRound, Finish, Fail;
    if count, id :| Prepare(s, s', d, count, id) {
      PrepareFollows(s, s', d, count, id);
    } else if tagSeen :| Fetch(s, s', d, tagSeen) {
      FetchFollows(s, s', d, tagSeen);
    } else if Ack(s, s', d) || exists now :: ApplyPage(s, s', d, now) {
      StoreFollows(s, s', d);
    } else {
      PhaseFollows(s, s', d);
    }
  }

  lemma {:induction false} StartIsKept(run: seq<State>, start: nat, k: nat, end: nat, d: nat)
    requires Run(run) && Call(run, start, end, d) && start <= k <= end
    ensures SinceOf(run[k].phases[d]) == |Log(run[start])|
  {
    hide Next;
    CallKeepsStart(run[k - 1], run[k], d);
    if start < k {
      StartIsKept(run, start, k - 1, end, d);
    }
  }

  /** The log length moves in steps of at most one, so it passes through every value in between. */
  lemma {:induction false} LengthIsReached(run: seq<State>, start: nat, end: nat, n: nat) returns (k: nat)
    requires Run(run) && start <= end < |run|
    requires |Log(run[start])| <= n <= |Log(run[end])|
    ensures start <= k <= end && |Log(run[k])| == n
    decreases end
  {
    hide Inv, Next;
    if |Log(run[end])| == n {
      k := end;
    } else {
      RunInv(run, end - 1);
      StepInv(run[end - 1], run[end]);
      k := LengthIsReached(run, start, end - 1, n);
    }
  }

  /** Linearizability: when a device has its reply, there was a state during its call in which the reference
      transport, asked the same thing, would have answered exactly that, and by now the log has passed
      through the reference transport's log. */
  lemma ExchangeIsLinearizable(run: seq<State>, start: nat, end: nat, d: nat)
    requires Run(run) && Call(run, start, end, d) && run[end].phases[d].Replied?
    ensures var p := run[end].phases[d];
            exists k, m :: start <= k <= m <= end
              && AtomicExchange(Log(run[k]), Request(Some(run[end].replicas[d].cursor), p.upload))
                 == Ok((Log(run[m]), p.response))
  {
    hide Inv, Next;
    RunInv(run, end);
    var s := run[end];
    var p := s.phases[d];
    DeviceFacts(s, d);
    StartIsKept(run, start, end, end, d);
    var k := LengthIsReached(run, start, end, p.base);
    LogIsAppendOnly(run, k, end);
    assert Log(run[k]) == Log(s)[..p.base];
    var m := LengthIsReached(run, k, end, p.response.cursor);
    LogIsAppendOnly(run, m, end);
    assert Log(run[m]) == Log(s)[..p.response.cursor];
  }

  /** A saved envelope is in the log at most once however often it was sent. */
  lemma EnvelopeAppearsOnce(run: seq<State>, i: nat, upload: Envelope, a: nat, b: nat)
    requires Run(run) && i < |run|
    requires a < |Log(run[i])| && b < |Log(run[i])|
    requires Log(run[i])[a].id == upload.id && Log(run[i])[b].id == upload.id
    requires upload.id in run[i].issued && run[i].issued[upload.id] == upload
    ensures a == b && Log(run[i])[a] == upload
  {
    hide Inv, Next;
    RunInv(run, i);
    ObjectFacts(run[i]);
    assert Log(run[i])[a] in Log(run[i]);
  }

  /** In a reachable state an exchange with the fetched document is refused for one reason only: the log is past
      its bound. Another vault's data, a cursor ahead of the document and clashing identifiers never happen. */
  lemma OnlyAFullLogRefuses(run: seq<State>, i: nat, d: nat)
    requires Run(run) && i < |run| && HasDevice(run[i], d) && run[i].phases[d].Exchanging? && Fetched(run[i]).Some?
    ensures var s := run[i];
            var done := ApplyObjectExchange(Fetched(s).value, s.vault, Request(Some(s.replicas[d].cursor), s.phases[d].upload));
            && (done.Ok? <==> |Log(s)| <= MAX_REMOTE_CHANGES_PER_PAGE)
            && (done.Err? ==> done.error == TooManyEnvelopes)
  {
    hide Next, ReplicaOk, WriteOk;
    var s := run[i];
    RunInv(run, i);
    FetchedIsLog(s);
    FetchUpload(s, d);
    RefusalReason(s, d);
  }

  /** The document a write of this device's upload would store. */
  function Extended(s: State, upload: Envelope): Document
    requires Fetched(s).Some?
  {
    Fetched(s).value.(envelopes := Fetched(s).value.envelopes + [upload])
  }

  /** So an attempt gets as far as its reply or its write exactly when the document can be read within the byte
      limit, the log is within its bound, and a document with a new upload is within the byte limit too. */
  lemma AttemptSucceedsExactly(run: seq<State>, i: nat, d: nat)
    requires Run(run) && i < |run| && HasDevice(run[i], d) && run[i].phases[d].Exchanging? && Fetched(run[i]).Some?
    ensures var s, upload := run[i], run[i].phases[d].upload;
            var done := Attempt(s, Request(Some(s.replicas[d].cursor), upload));
            && (done.Ok? <==>
                && Readable(s)
                && |Log(s)| <= MAX_REMOTE_CHANGES_PER_PAGE
                && (upload.Some? && upload.value !in Log(s) ==>
                      s.bytes.written(Extended(s, upload.value)) <= MAX_OBJECT_STORE_BYTES))
            && (done.Err? ==> done.error == TooManyBytes || done.error == Refused(TooManyEnvelopes))
  {
    hide Next, Inv, ApplyObjectExchange, Readable;
    OnlyAFullLogRefuses(run, i, d);
    RunInv(run, i);
    var s := run[i];
    ObjectFacts(s);
    FetchedLog(s);
    var request := Request(Some(s.replicas[d].cursor), s.phases[d].upload);
    if ApplyObjectExchange(Fetched(s).value, s.vault, request).Ok? {
      ExchangeChanges(Fetched(s).value, s.vault, request);
    }
  }

  lemma FetchedLog(s: State)
    requires Inv(s) && Fetched(s).Some?
    ensures Fetched(s).value.envelopes == Log(s)
  {
    hide ReplicaOk, PhaseOk, WriteOk;
    FetchedIsLog(s);
  }

  /** An accepted exchange changes the document exactly when its upload is new, and then appends it. */
  lemma ExchangeChanges(document: Document, vault: nat, request: Request)
    requires DistinctIds(document.envelopes) && ApplyObjectExchange(document, vault, request).Ok?
    ensures var done := ApplyObjectExchange(document, vault, request).value;
            && (done.changed <==> request.envelope.Some? && request.envelope.value !in document.envelopes)
            && (done.changed ==> done.document == document.(envelopes := document.envelopes + [request.envelope.value]))
  {
    if request.envelope.Some? {
      var upload := request.envelope.value;
      var found := Find(document.envelopes, upload.id);
      if upload in document.envelopes {
        var i :| 0 <= i < |document.envelopes| && document.envelopes[i] == upload;
        assert HasId(document.envelopes, upload.id);
      }
    }
  }

  lemma RefusalReason(s: State, d: nat)
    requires ObjectOk(s) && HasDevice(s, d) && s.phases[d].Exchanging? && Fetched(s).Some?
    requires DocumentOk(s.vault, Log(s), Fetched(s).value) && Fetched(s).value.envelopes == Log(s)
    requires var u := s.phases[d].upload; u.Some? ==> u.value.id in s.issued && s.issued[u.value.id] == u.value
    requires ReplicaOk(Log(s), s.issued, s.recorded, d, s.replicas[d])
    ensures var done := ApplyObjectExchange(Fetched(s).value, s.vault, Request(Some(s.replicas[d].cursor), s.phases[d].upload));
            && (done.Ok? <==> |Log(s)| <= MAX_REMOTE_CHANGES_PER_PAGE)
            && (done.Err? ==> done.error == TooManyEnvelopes)
  {
  }

  // ----- What a device has received -----

  /** Every device has received exactly the changes of the log up to its stored cursor: no gap, no repeat. */
  lemma ReceivedIsLogPrefix(run: seq<State>, i: nat, d: nat)
    requires Run(run) && i < |run| && HasDevice(run[i], d)
    ensures run[i].replicas[d].cursor <= |Log(run[i])|
    ensures run[i].replicas[d].received == ChangesOf(Log(run[i])[..run[i].replicas[d].cursor])
  {
    hide Inv, Next;
    RunInv(run, i);
    DeviceFacts(run[i], d);
  }

  /** A round that fails leaves everything stored as it was, the cursor included; only `ApplyPage` moves a
      cursor, together with what was received. */
  lemma CursorMovesWithItsPage(s: State, s': State, d: nat) returns (now: nat)
    requires Inv(s) && Next(s, s') && HasDevice(s, d) && HasDevice(s', d)
    requires s'.replicas[d].cursor != s.replicas[d].cursor || s'.replicas[d].received != s.replicas[d].received
    ensures ApplyPage(s, s', d, now)
    ensures s.replicas[d].cursor <= s'.replicas[d].cursor <= |Log(s)|
    ensures s'.replicas[d].received == s.replicas[d].received
          + ChangesOf(Log(s)[s.replicas[d].cursor..s'.replicas[d].cursor])
  {
    hide Inv, ApplyPage;
    ByADevice(s, s', d);
    now := CursorStep(s, s', d);
    PageAdvance(s, s', d, now);
  }

  /** What a device has stored of the log changes only by a step of that device. */
  lemma ByADevice(s: State, s': State, d: nat)
    requires Next(s, s') && HasDevice(s, d) && HasDevice(s', d)
    requires s'.replicas[d].cursor != s.replicas[d].cursor || s'.replicas[d].received != s.replicas[d].received
    ensures DeviceStep(s, s', d)
  {
    hide DeviceStep;
    if exists x :: DeviceStep(s, s', x) {
      var x :| DeviceStep(s, s', x);
      OnlyItsDevice(s, s', x, d);
    } else {
      assert forall write, tag :: Deliver(s, s', write, tag) ==> s'.replicas == s.replicas;
    }
  }

  lemma OnlyItsDevice(s: State, s': State, x: nat, d: nat)
    requires DeviceStep(s, s', x) && HasDevice(s, d)
    ensures d in s'.replicas && (s'.replicas[d] != s.replicas[d] ==> x == d)
  {
    hide DeviceStep;
    if x != d {
      OtherDevicesStay(s, s', x, d);
    } else {
      StepMoves(s, s', d);
    }
  }

  lemma CursorStep(s: State, s': State, d: nat) returns (now: nat)
    requires DeviceStep(s, s', d) && HasDevice(s', d)
    requires s'.replicas[d].cursor != s.replicas[d].cursor || s'.replicas[d].received != s.replicas[d].received
    ensures ApplyPage(s, s', d, now)
  {
    hide Attempt, ApplyPage, Seal;
    if t :| ApplyPage(s, s', d, t) {
      now := t;
    } else {
      assert !Ack(s, s', d) by {
        AckKeepsCursor(s, s', d);
      }
      assert false;
    }
  }

  lemma AckKeepsCursor(s: State, s': State, d: nat)
    ensures Ack(s, s', d) ==>
              s'.replicas[d].cursor == s.replicas[d].cursor && s'.replicas[d].received == s.replicas[d].received
  {
  }

  lemma PageAdvance(s: State, s': State, d: nat, now: nat)
    requires Inv(s) && ApplyPage(s, s', d, now)
    ensures InTime(ChangesOf(s.phases[d].response.envelopes), now)
    ensures s'.replicas[d].cursor == s.phases[d].response.cursor
    ensures s'.phases[d] == Applied(s.phases[d].round, s.phases[d].upload, s.phases[d].response.cursor)
    ensures s.replicas[d].cursor <= s'.replicas[d].cursor <= |Log(s)|
    ensures s.phases[d].response.envelopes == Log(s)[s.replicas[d].cursor..s'.replicas[d].cursor]
    ensures s'.replicas[d].received == s.replicas[d].received
          + ChangesOf(Log(s)[s.replicas[d].cursor..s'.replicas[d].cursor])
  {
    hide Inv, InTime;
    var p := s.phases[d];
    DeviceFacts(s, d);
    PageSpan(Log(s), s.replicas[d], p.upload, p.since, p.base, p.response);
    OpenPageMeaning(s.vault, p.response.envelopes);
  }

  // ----- No local change is lost -----

  /** Every change a device ever recorded is still in its outbox, or the device has received it back from
      the log, or it has received a newer change of the same entity. */
  lemma LocalChangeIsAccountedFor(run: seq<State>, i: nat, d: nat, c: Change)
    requires Run(run) && i < |run| && HasDevice(run[i], d)
    requires c in run[i].recorded && c.revision.device == d
    ensures run[i].replicas[d].cursor <= |Log(run[i])|
    ensures var r := run[i].replicas[d];
            || c in r.outbox
            || c in ChangesOf(Log(run[i])[..r.cursor])
            || exists b :: b in ChangesOf(Log(run[i])[..r.cursor]) && b.entity == c.entity && Before(c.revision, b.revision)
  {
    hide Inv, Next;
    RunInv(run, i);
    var s := run[i];
    var r := s.replicas[d];
    DeviceFacts(s, d);
    if c !in r.outbox {
      var b :| b in r.received && b.entity == c.entity && AtMost(c.revision, b.revision);
      ReceivedIsRecorded(s, d);
      if b.revision == c.revision {
        assert b == c;
      }
    }
  }

  lemma ReceivedIsRecorded(s: State, d: nat)
    requires Inv(s) && HasDevice(s, d)
    ensures Elements(s.replicas[d].received) <= s.recorded
  {
    hide Inv;
    var r := s.replicas[d];
    DeviceFacts(s, d);
    assert LogIssued(Log(s)[..r.cursor], s.issued);
    LogIsRecorded(s.vault, Log(s)[..r.cursor], s.issued, s.recorded);
  }

  /** A step takes a change out of an outbox for one of two reasons: its upload is acknowledged, and then it
      is in the log; or a page brings a newer change of the same entity, and then it may never be uploaded. */
  lemma LeavingTheOutbox(s: State, s': State, d: nat, c: Change)
    requires Inv(s) && Next(s, s') && HasDevice(s, d) && HasDevice(s', d)
    requires c in s.replicas[d].outbox
    ensures || c in s'.replicas[d].outbox
            || (Ack(s, s', d) && c in ChangesOf(Log(s)))
            || (exists now :: ApplyPage(s, s', d, now)
                 && exists b :: b in ChangesOf(s.phases[d].response.envelopes)
                      && b.entity == c.entity && Before(c.revision, b.revision))
  {
    hide Inv, ApplyPage, Ack;
    if c !in s'.replicas[d].outbox {
      LossIsByTheDevice(s, s', d, c);
      OutboxLoss(s, s', d, c);
      if now :| ApplyPage(s, s', d, now) {
        OvertakenByPage(s, s', d, c, now);
      } else {
        AcknowledgedIsInLog(s, s', d, c);
      }
    }
  }

  lemma OthersKeepTheOutbox(s: State, s': State, d: nat)
    requires HasDevice(s, d) && HasDevice(s', d)
    ensures (exists x, id, entity, body, now :: Edit(s, s', x, id, entity, body, now)) ==>
              s.replicas[d].outbox <= s'.replicas[d].outbox
    ensures (exists write, tag :: Deliver(s, s', write, tag)) ==> s'.replicas == s.replicas
    ensures (exists x :: x != d && DeviceStep(s, s', x)) ==> s'.replicas[d] == s.replicas[d]
  {
    hide DeviceStep;
    if x :| x != d && DeviceStep(s, s', x) {
      OtherDevicesStay(s, s', x, d);
    }
  }

  lemma LossIsByTheDevice(s: State, s': State, d: nat, c: Change)
    requires Next(s, s') && HasDevice(s, d) && HasDevice(s', d)
    requires c in s.replicas[d].outbox && c !in s'.replicas[d].outbox
    ensures DeviceStep(s, s', d)
  {
    hide DeviceStep, Edit, Deliver;
    OthersKeepTheOutbox(s, s', d);
  }

  lemma OutboxLoss(s: State, s': State, d: nat, c: Change)
    requires DeviceStep(s, s', d) && HasDevice(s', d)
    requires c in s.replicas[d].outbox && c !in s'.replicas[d].outbox
    ensures Ack(s, s', d) || exists now :: ApplyPage(s, s', d, now)
  {
    hide Attempt, ApplyPage, Ack, Seal;
  }

  lemma AcknowledgedIsInLog(s: State, s': State, d: nat, c: Change)
    requires Inv(s) && Ack(s, s', d)
    requires c in s.replicas[d].outbox && c !in s'.replicas[d].outbox
    ensures c in ChangesOf(Log(s))
  {
    hide Inv, ChangesOf, ReplicaOk, EnvelopesOk, RecordedOk, Acknowledge, WritingOk, ReplyOk;
    var p, r, log := s.phases[d], s.replicas[d], Log(s);
    DeviceFacts(s, d);
    AcknowledgeMeaning(r, p.upload.value.id);
    AcknowledgedIsReceived(log, s.vault, s.issued, s.recorded, d, r, p.upload.value, c);
    ReceivedIsInLog(log, s.issued, s.recorded, d, r, c);
  }

  lemma ReceivedIsInLog(log: seq<Envelope>, issued: map<nat, Envelope>, recorded: set<Change>, d: nat, r: Replica, c: Change)
    requires ReplicaOk(log, issued, recorded, d, r) && c in r.received
    ensures c in ChangesOf(log)
  {
    hide ChangesOf;
    ChangesOfAppend(log[..r.cursor], log[r.cursor..]);
    assert log == log[..r.cursor] + log[r.cursor..];
  }

  lemma OvertakenByPage(s: State, s': State, d: nat, c: Change, now: nat)
    requires Inv(s) && ApplyPage(s, s', d, now)
    requires c in s.replicas[d].outbox && c !in s'.replicas[d].outbox
    ensures Overtakes(s.replicas[d].entities, Elements(ChangesOf(s.phases[d].response.envelopes)), c)
    ensures exists b :: b in ChangesOf(s.phases[d].response.envelopes) && b.entity == c.entity && Before(c.revision, b.revision)
  {
    hide Inv, InTime;
    var r := s.replicas[d];
    var changes := ChangesOf(s.phases[d].response.envelopes);
    DeviceFacts(s, d);
    OpenPageMeaning(s.vault, s.phases[d].response.envelopes);
    OutboxIsBehind(Log(s), s.issued, s.recorded, d, r);
    PageMeaning(s, d, now);
    OvertakenIsCovered(r, changes, c);
  }

  /** The exact rule: a page is stored if and only if none of its changes is more than a day ahead of the device's
      clock, and then it keeps an outbox row if and only if none of its changes is newer than what the device holds
      for that entity. */
  lemma PageMeaning(s: State, d: nat, now: nat)
    requires Inv(s) && HasDevice(s, d) && s.phases[d].Replied?
    ensures PageStored(s, d, now).Ok? <==> InTime(ChangesOf(s.phases[d].response.envelopes), now)
    ensures PageStored(s, d, now).Ok? ==>
              forall c :: c in PageStored(s, d, now).value.outbox <==>
                c in s.replicas[d].outbox
                && !Overtakes(s.replicas[d].entities, Elements(ChangesOf(s.phases[d].response.envelopes)), c)
  {
    hide ReplicaOk, PhaseOk, WriteOk, ChangesOf, InTime, Overtakes, ApplyRemoteBatch;
    var r, changes := s.replicas[d], ChangesOf(s.phases[d].response.envelopes);
    PageIsRecorded(s, d);
    DeviceFacts(s, d);
    ReplicaFacts(Log(s), s.issued, s.recorded, d, r);
    FewerAreNamed(Known(s.recorded, d, r) + Elements(changes), s.recorded);
    ApplyBatchMeaning(r, Known(s.recorded, d, r), s.phases[d].response.cursor, changes, now);
  }

  lemma ReplicaFacts(log: seq<Envelope>, issued: map<nat, Envelope>, recorded: set<Change>, d: nat, r: Replica)
    requires ReplicaOk(log, issued, recorded, d, r)
    ensures HoldsWinners(r.entities, Known(recorded, d, r)) && OutboxBehind(r)
    ensures forall changes: seq<Change> :: Elements(r.received + changes) <= recorded ==>
              Known(recorded, d, r) + Elements(changes) <= recorded
  {
    OutboxIsBehind(log, issued, recorded, d, r);
    forall changes: seq<Change> | Elements(r.received + changes) <= recorded
      ensures Known(recorded, d, r) + Elements(changes) <= recorded
    {
      assert forall c :: c in r.received || c in changes ==> c in Elements(r.received + changes);
    }
  }

  // ----- Convergence -----

  /** The entity states of a device with nothing unsent are a function of the log up to its cursor. */
  lemma QuietDeviceHoldsLogWinners(s: State, d: nat)
    requires Inv(s) && HasDevice(s, d) && s.replicas[d].outbox == []
    ensures var r := s.replicas[d];
            HoldsWinners(r.entities, Elements(ChangesOf(Log(s)[..r.cursor])))
  {
    hide Inv;
    var r := s.replicas[d];
    DeviceFacts(s, d);
    var known := Known(s.recorded, d, r);
    ReceivedIsRecorded(s, d);
    forall e | e in r.entities ensures r.entities[e] in Elements(r.received) {
      var w := r.entities[e];
      assert w in known;
      if w in Own(s.recorded, d) {
        var b :| b in r.received && b.entity == w.entity && AtMost(w.revision, b.revision);
        assert b in known;
        assert b.revision == w.revision;
        assert b == w;
      }
    }
  }

  /** Two devices with equal cursors have received the same changes in the same order; if neither has unsent
      changes, they hold the same state of every entity. */
  lemma Convergence(run: seq<State>, i: nat, a: nat, b: nat)
    requires Run(run) && i < |run| && HasDevice(run[i], a) && HasDevice(run[i], b)
    requires run[i].replicas[a].cursor == run[i].replicas[b].cursor
    ensures run[i].replicas[a].received == run[i].replicas[b].received
    ensures run[i].replicas[a].outbox == [] && run[i].replicas[b].outbox == [] ==>
              run[i].replicas[a].entities == run[i].replicas[b].entities
  {
    hide Inv, Next;
    var s := run[i];
    ReceivedIsLogPrefix(run, i, a);
    ReceivedIsLogPrefix(run, i, b);
    if s.replicas[a].outbox == [] && s.replicas[b].outbox == [] {
      RunInv(run, i);
      QuietDevicesAgree(s, a, b);
    }
  }

  lemma QuietDevicesAgree(s: State, a: nat, b: nat)
    requires Inv(s) && HasDevice(s, a) && HasDevice(s, b)
    requires s.replicas[a].cursor == s.replicas[b].cursor
    requires s.replicas[a].outbox == [] && s.replicas[b].outbox == []
    ensures s.replicas[a].entities == s.replicas[b].entities
  {
    hide Inv;
    QuietDeviceHoldsLogWinners(s, a);
    QuietDeviceHoldsLogWinners(s, b);
    ReceivedIsRecorded(s, a);
    DeviceFacts(s, a);
    DeviceFacts(s, b);
    WinnersAreUnique(s.replicas[a].entities, s.replicas[b].entities, Elements(ChangesOf(Log(s)[..s.replicas[a].cursor])));
  }
}
