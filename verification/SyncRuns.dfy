/** Statements about whole runs of the sync protocol that look back over several steps: what a finished sync has
    seen, exactly which changes are kept, and what a far-future revision does. */
module SyncRuns {
  import opened Wrappers
  import opened SyncLog
  import opened ReplicaStore
  import opened SyncProtocol
  import opened SyncInvariants
  import opened SyncSteps
  import opened SyncTheorems

  // ----- Devices and their steps -----

  lemma DevicesStay(s: State, s': State)
    requires Next(s, s')
    ensures s'.replicas.Keys == s.replicas.Keys && s'.phases.Keys == s.phases.Keys
  {
    hide DeviceStep;
    if x :| DeviceStep(s, s', x) {
      DevicesStayInStep(s, s', x);
    }
  }

  lemma DevicesStayInStep(s: State, s': State, x: nat)
    requires DeviceStep(s, s', x)
    ensures s'.replicas.Keys == s.replicas.Keys && s'.phases.Keys == s.phases.Keys
  {
    hide DeviceStep;
    StepMoves(s, s', x);
  }

  /** A step of the system is a step of the device, or leaves its phase and what it has received alone. */
  lemma OwnStepOrNot(s: State, s': State, d: nat)
    requires Next(s, s') && HasDevice(s, d) && HasDevice(s', d)
    ensures || DeviceStep(s, s', d)
            || (s'.phases[d] == s.phases[d] && s'.replicas[d].cursor == s.replicas[d].cursor
                && s'.replicas[d].received == s.replicas[d].received)
  {
    hide DeviceStep;
    if x :| DeviceStep(s, s', x) {
      if x != d {
        OtherDevicesStay(s, s', x, d);
      }
    }
  }

  /** How a device gets behind its exchange: by storing the page, and then by acknowledging. */
  lemma BehindTheExchange(s: State, s': State, d: nat)
    requires DeviceStep(s, s', d) && HasDevice(s', d)
    ensures s'.phases[d].Applied? ==> exists now :: ApplyPage(s, s', d, now)
    ensures s'.phases[d].RoundDone? ==> Ack(s, s', d)
  {
    hide Prepare, Fetch, ApplyPage, Ack;
    if count, id :| Prepare(s, s', d, count, id) {
      PrepareEnters(s, s', d, count, id);
    } else if tagSeen :| Fetch(s, s', d, tagSeen) {
      FetchStays(s, s', d, tagSeen);
    } else if now :| ApplyPage(s, s', d, now) {
      PageIsAReply(s, s', d, now);
    } else if Ack(s, s', d) {
      AckStaysBehind(s, s', d);
    }
  }

  lemma PrepareEnters(s: State, s': State, d: nat, count: nat, id: nat)
    requires Prepare(s, s', d, count, id)
    ensures HasDevice(s', d) && s'.phases[d].Exchanging?
  {
    hide Seal;
  }

  lemma FetchStays(s: State, s': State, d: nat, tagSeen: bool)
    requires Fetch(s, s', d, tagSeen)
    ensures HasDevice(s', d) && InCall(s'.phases[d])
  {
    hide Attempt;
  }

  predicate Behind(p: Phase) {
    p.Applied? || p.RoundDone?
  }

  lemma AckStaysBehind(s: State, s': State, d: nat)
    requires Ack(s, s', d)
    ensures HasDevice(s', d) && s.phases[d].Applied? && s'.phases[d].RoundDone?
    ensures s'.replicas[d].cursor == s.replicas[d].cursor && s'.replicas[d].received == s.replicas[d].received
  {
  }

  /** The page a device stored last before `i`; since then it has been behind its exchange, and what it has
      received has not changed. */
  lemma {:induction false} LastPage(run: seq<State>, i: nat, d: nat) returns (e: nat, now: nat)
    requires Run(run) && i < |run| && HasDevice(run[i], d) && Behind(run[i].phases[d])
    ensures e < i && HasDevice(run[e], d) && run[e].phases[d].Replied? && ApplyPage(run[e], run[e + 1], d, now)
    ensures forall k :: e < k <= i ==> HasDevice(run[k], d) && Behind(run[k].phases[d])
    ensures run[i].replicas[d].cursor == run[e + 1].replicas[d].cursor
    ensures run[i].replicas[d].received == run[e + 1].replicas[d].received
  {
    hide Next, DeviceStep, ApplyPage, Ack;
    if i == 0 {
      assert false;
    }
    var s, s' := run[i - 1], run[i];
    assert Next(s, s');
    DevicesStay(s, s');
    OwnStepOrNot(s, s', d);
    if DeviceStep(s, s', d) {
      BehindTheExchange(s, s', d);
      if s'.phases[d].Applied? {
        var t :| ApplyPage(s, s', d, t);
        PageIsAReply(s, s', d, t);
        e, now := i - 1, t;
      } else {
        AckStaysBehind(s, s', d);
        e, now := LastPage(run, i - 1, d);
      }
    } else {
      e, now := LastPage(run, i - 1, d);
    }
  }

  lemma PageIsAReply(s: State, s': State, d: nat, now: nat)
    requires ApplyPage(s, s', d, now)
    ensures HasDevice(s, d) && s.phases[d].Replied?
    ensures HasDevice(s', d) && s'.phases[d].Applied?
  {
    hide OpenPage, ApplyRemoteBatch;
  }

  /** Every exchange a device is in was entered some time before. */
  lemma {:induction false} CallBegan(run: seq<State>, e: nat, d: nat) returns (start: nat)
    requires Run(run) && e < |run| && HasDevice(run[e], d) && InCall(run[e].phases[d])
    ensures start <= e && Call(run, start, e, d)
  {
    hide Next;
    if e == 0 {
      assert false;
    }
    DevicesStay(run[e - 1], run[e]);
    if InCall(run[e - 1].phases[d]) {
      start := CallBegan(run, e - 1, d);
    } else {
      start := e;
    }
  }

  /** A sync that returns its report: it ended with an empty outbox; its last exchange is the call from `start` to
      `e`, whose page it stored; and its cursor is the length the log had at a moment `m` of that call, so it has
      received exactly the log of that moment, and at least all that was there when the call began. */
  lemma FinishedRun(run: seq<State>, i: nat, d: nat) returns (start: nat, m: nat, e: nat, now: nat)
    requires Run(run) && i + 1 < |run| && HasDevice(run[i], d) && Finish(run[i], run[i + 1], d)
    ensures start <= m <= e < i
    ensures Call(run, start, e, d) && run[e].phases[d].Replied? && ApplyPage(run[e], run[e + 1], d, now)
    ensures forall k :: e < k <= i ==> HasDevice(run[k], d) && !InCall(run[k].phases[d])
    ensures run[i + 1].replicas[d].outbox == []
    ensures run[i + 1].replicas[d].cursor == |Log(run[m])| >= |Log(run[start])|
    ensures run[i + 1].replicas[d].received == ChangesOf(Log(run[m]))
  {
    hide Next, Inv, ApplyPage, Finish;
    FinishKeeps(run[i], run[i + 1], d);
    e, now := LastPage(run, i, d);
    start := CallBegan(run, e, d);
    m := PageLength(run, start, e, d);
    RunInv(run, e);
    PageAdvance(run[e], run[e + 1], d, now);
    LogIsAppendOnly(run, start, m);
    LogIsAppendOnly(run, m, i);
    ReceivedIsLogPrefix(run, i, d);
    assert Log(run[i])[..|Log(run[m])|] == Log(run[m]);
  }

  /** The cursor of a reply is the length that the log had during the call. */
  lemma PageLength(run: seq<State>, start: nat, e: nat, d: nat) returns (m: nat)
    requires Run(run) && Call(run, start, e, d) && run[e].phases[d].Replied?
    ensures start <= m <= e && run[e].phases[d].response.cursor == |Log(run[m])|
  {
    hide Next;
    ExchangeIsLinearizable(run, start, e, d);
    var p := run[e].phases[d];
    var request := Request(Some(run[e].replicas[d].cursor), p.upload);
    var k, j :| start <= k <= j <= e && AtomicExchange(Log(run[k]), request) == Ok((Log(run[j]), p.response));
    ReplyLength(Log(run[k]), Log(run[j]), request, p.response);
    m := j;
  }

  lemma FinishKeeps(s: State, s': State, d: nat)
    requires Finish(s, s', d)
    ensures HasDevice(s', d) && s.phases[d].RoundDone?
    ensures s'.replicas[d] == s.replicas[d] && s.replicas[d].outbox == []
  {
  }

  lemma ReplyLength(log: seq<Envelope>, log': seq<Envelope>, request: Request, response: Response)
    requires AtomicExchange(log, request) == Ok((log', response))
    ensures response.cursor == |log'|
  {
  }

  // ----- Exactly which local changes are kept -----

  /** A page that is stored and takes the change out of the outbox, because it overtakes it. */
  ghost predicate Drops(s: State, s': State, d: nat, c: Change) {
    && HasDevice(s, d) && s.phases[d].Replied? && c in s.replicas[d].outbox
    && Overtakes(s.replicas[d].entities, Elements(ChangesOf(s.phases[d].response.envelopes)), c)
    && exists now :: ApplyPage(s, s', d, now)
  }

  lemma PageKeepsLog(s: State, s': State, d: nat, now: nat)
    requires ApplyPage(s, s', d, now)
    ensures Log(s') == Log(s)
  {
    hide OpenPage, ApplyRemoteBatch;
  }

  lemma LogStepGrows(s: State, s': State, c: Change)
    requires Inv(s) && Next(s, s')
    ensures c in ChangesOf(Log(s)) ==> c in ChangesOf(Log(s'))
  {
    hide Inv, Next, ChangesOf;
    StepInv(s, s');
    if c in ChangesOf(Log(s)) {
      ChangesGrow(Log(s), Log(s'), c);
    }
  }

  lemma PageIsStored(s: State, s': State, d: nat, now: nat)
    requires Inv(s) && ApplyPage(s, s', d, now)
    ensures HasDevice(s, d) && s.phases[d].Replied?
    ensures PageStored(s, d, now).Ok? && HasDevice(s', d) && s'.replicas[d] == PageStored(s, d, now).value
  {
    hide Inv;
    OpenPageMeaning(s.vault, s.phases[d].response.envelopes);
  }

  /** One step: a change of the outbox is afterwards in the outbox or in the log exactly when the step does not drop
      it, or it had been uploaded before. */
  lemma StepKeepsExactly(s: State, s': State, d: nat, c: Change)
    requires Inv(s) && Next(s, s') && HasDevice(s, d) && HasDevice(s', d) && c in s.replicas[d].outbox
    ensures c in s'.replicas[d].outbox || c in ChangesOf(Log(s')) <==> !Drops(s, s', d, c) || c in ChangesOf(Log(s))
    ensures c in s'.replicas[d].outbox ==> !Drops(s, s', d, c)
  {
    hide Inv, Next, ApplyPage, Ack, Overtakes;
    if now :| ApplyPage(s, s', d, now) {
      PageKeepsLog(s, s', d, now);
    }
    LogStepGrows(s, s', c);
    if c !in s'.replicas[d].outbox {
      LossIsByTheDevice(s, s', d, c);
      OutboxLoss(s, s', d, c);
      if now :| ApplyPage(s, s', d, now) {
        PageIsAReply(s, s', d, now);
        OvertakenByPage(s, s', d, c, now);
      } else {
        AcknowledgedIsInLog(s, s', d, c);
        StepInv(s, s');
        ChangesGrow(Log(s), Log(s'), c);
      }
    } else if now :| ApplyPage(s, s', d, now) {
      PageIsAReply(s, s', d, now);
      PageMeaning(s, d, now);
      PageIsStored(s, s', d, now);
    }
  }

  lemma ChangesGrow(log: seq<Envelope>, log': seq<Envelope>, c: Change)
    requires log <= log' && c in ChangesOf(log)
    ensures c in ChangesOf(log')
  {
    hide ChangesOf;
    ChangesOfAppend(log, log'[|log|..]);
    assert log' == log + log'[|log|..];
  }

  /** A change that has left the outbox does not come back to it. */
  lemma GoneForGood(s: State, s': State, d: nat, c: Change)
    requires Next(s, s') && HasDevice(s, d) && HasDevice(s', d)
    requires c in s.recorded && c !in s.replicas[d].outbox
    ensures c in s'.recorded && c !in s'.replicas[d].outbox
  {
    hide DeviceStep;
    if x, id, entity, body, now :| Edit(s, s', x, id, entity, body, now) {
      var (r, change) := RecordLocal(s.replicas[x], x, id, entity, body, now);
      assert change != c;
    } else if write, tag :| Deliver(s, s', write, tag) {
    } else {
      var x :| DeviceStep(s, s', x);
      if x == d {
        NothingJoins(s, s', d, c);
      } else {
        OtherDevicesStay(s, s', x, d);
        RecordedStays(s, s', x);
      }
    }
  }

  lemma RecordedStays(s: State, s': State, x: nat)
    requires DeviceStep(s, s', x)
    ensures s'.recorded == s.recorded
  {
    hide DeviceStep;
    StepMoves(s, s', x);
  }

  lemma NothingJoins(s: State, s': State, d: nat, c: Change)
    requires DeviceStep(s, s', d) && HasDevice(s', d) && HasDevice(s, d) && c !in s.replicas[d].outbox
    ensures c !in s'.replicas[d].outbox && s'.recorded == s.recorded
  {
    hide Attempt, OpenPage, ApplyRemoteBatch, Acknowledge, Seal;
    RecordedStays(s, s', d);
    if now :| ApplyPage(s, s', d, now) {
      var p := s.phases[d];
      RowsOfPage(s.replicas[d], p.response.cursor, OpenPage(s.vault, p.response.envelopes).value, now);
    } else if Ack(s, s', d) && s.phases[d].upload.Some? {
      AcknowledgedOutbox(s.replicas[d], s.phases[d].upload.value.id, c);
    }
  }

  lemma AcknowledgedOutbox(r: Replica, id: nat, c: Change)
    requires c !in r.outbox && Acknowledge(r, id).Ok?
    ensures c !in Acknowledge(r, id).value.0.outbox
  {
  }

  // ----- What becomes of a sealed change -----

  /** The envelope is the saved upload of the device that sealed it. */
  ghost predicate IsSaved(s: State, e: Envelope) {
    var d := e.ciphertext.device;
    d in s.replicas && s.replicas[d].pending.Some? && s.replicas[d].pending.value.envelope == e
  }

  /** Every envelope that was ever issued is still saved on its device, or in the log. */
  ghost predicate NoUploadLost(s: State) {
    forall id :: id in s.issued ==> s.issued[id] in Log(s) || IsSaved(s, s.issued[id])
  }

  /** The change is in the saved upload of the device, or in the log. */
  ghost predicate IsSealed(s: State, d: nat, c: Change)
    requires d in s.replicas
  {
    || (s.replicas[d].pending.Some? && c in s.replicas[d].pending.value.envelope.ciphertext.batch.changes)
    || c in ChangesOf(Log(s))
  }

  /** What a step of a device does to its saved upload: nothing; or it saves a new one, made of rows of the outbox;
      or it forgets one that is in the log. */
  ghost predicate UploadMoves(s: State, s': State, d: nat) {
    && HasDevice(s, d) && HasDevice(s', d)
    && var p, p' := s.replicas[d].pending, s'.replicas[d].pending;
       || (p' == p && s'.issued == s.issued)
       || (p.None? && p'.Some? && Fresh(s, d, p'.value.envelope)
           && s'.issued == s.issued[p'.value.envelope.id := p'.value.envelope])
       || (p.Some? && p'.None? && s'.issued == s.issued && p.value.envelope in Log(s))
  }

  ghost predicate Fresh(s: State, d: nat, e: Envelope)
    requires HasDevice(s, d)
  {
    e.id !in s.issued && e.ciphertext.device == d && forall c :: c in e.ciphertext.batch.changes ==> c in s.replicas[d].outbox
  }

  lemma PrepareUploads(s: State, s': State, d: nat, count: nat, id: nat)
    requires Prepare(s, s', d, count, id)
    ensures UploadMoves(s, s', d)
  {
    hide ChangeIds;
  }

  lemma FetchUploads(s: State, s': State, d: nat, tagSeen: bool)
    requires Fetch(s, s', d, tagSeen)
    ensures UploadMoves(s, s', d)
  {
    hide Attempt, Fresh;
  }

  lemma PageUploads(s: State, s': State, d: nat, now: nat)
    requires ApplyPage(s, s', d, now)
    ensures UploadMoves(s, s', d)
  {
    hide OpenPage, ApplyRemoteBatch, Fresh;
    var p := s.phases[d];
    RowsOfPage(s.replicas[d], p.response.cursor, OpenPage(s.vault, p.response.envelopes).value, now);
  }

  lemma AckUploads(s: State, s': State, d: nat)
    requires Inv(s) && Ack(s, s', d)
    ensures UploadMoves(s, s', d)
  {
    hide Inv, Acknowledge, Fresh, ReplicaOk, WritingOk, ReplyOk;
    DeviceFacts(s, d);
    var p := s.phases[d];
    if p.upload.Some? {
      AcknowledgeMeaning(s.replicas[d], p.upload.value.id);
    }
  }

  lemma PhaseUploads(s: State, s': State, d: nat)
    requires Begin(s, s', d) || Confirm(s, s', d) || Conflict(s, s', d) || NextRound(s, s', d) || Finish(s, s', d) || Fail(s, s', d)
    ensures UploadMoves(s, s', d)
  {
    hide Fresh;
  }

  lemma StepUploads(s: State, s': State, d: nat)
    requires Inv(s) && DeviceStep(s, s', d)
    ensures UploadMoves(s, s', d)
  {
    hide Inv, UploadMoves, Prepare, Fetch, ApplyPage, Ack, Begin, Confirm, Conflict, NextRound, Finish, Fail;
    if count, id :| Prepare(s, s', d, count, id) {
      PrepareUploads(s, s', d, count, id);
    } else if tagSeen :| Fetch(s, s', d, tagSeen) {
      FetchUploads(s, s', d, tagSeen);
    } else if now :| ApplyPage(s, s', d, now) {
      PageUploads(s, s', d, now);
    } else if Ack(s, s', d) {
      AckUploads(s, s', d);
    } else {
      PhaseUploads(s, s', d);
    }
  }

  /** Local edits and deliveries leave every saved upload and every issued envelope alone. */
  lemma QuietSteps(s: State, s': State)
    requires Next(s, s') && !(exists x :: DeviceStep(s, s', x))
    ensures s'.issued == s.issued
    ensures forall d :: d in s.replicas ==> d in s'.replicas && s'.replicas[d].pending == s.replicas[d].pending
  {
    hide DeviceStep;
  }

  lemma SavedAfter(s: State, s': State, x: nat, id: nat)
    requires DeviceStep(s, s', x) && UploadMoves(s, s', x) && Log(s) <= Log(s')
    requires NoUploadLost(s) && id in s'.issued
    ensures s'.issued[id] in Log(s') || IsSaved(s', s'.issued[id])
  {
    hide DeviceStep;
    StepMoves(s, s', x);
    if id in s.issued && s'.issued[id] == s.issued[id] {
      var e := s.issued[id];
      assert e in Log(s) || IsSaved(s, e);
    }
  }

  lemma NoUploadLostStep(s: State, s': State)
    requires Inv(s) && NoUploadLost(s) && Next(s, s')
    ensures NoUploadLost(s')
  {
    hide Inv, Next, DeviceStep, Fresh;
    StepInv(s, s');
    forall id | id in s'.issued ensures s'.issued[id] in Log(s') || IsSaved(s', s'.issued[id]) {
      if x :| DeviceStep(s, s', x) {
        StepUploads(s, s', x);
        SavedAfter(s, s', x, id);
      } else {
        QuietSteps(s, s');
      }
    }
  }

  /** Every envelope that was ever issued is in the log, or still saved on the device that sealed it. */
  lemma {:induction false} IssuedIsSavedOrInLog(run: seq<State>, i: nat)
    requires Run(run) && i < |run|
    ensures NoUploadLost(run[i])
  {
    hide Inv, Next;
    if i > 0 {
      IssuedIsSavedOrInLog(run, i - 1);
      RunInv(run, i - 1);
      NoUploadLostStep(run[i - 1], run[i]);
    }
  }

  lemma InLogIsInChanges(log: seq<Envelope>, e: Envelope, c: Change)
    requires e in log
    ensures c in e.ciphertext.batch.changes ==> c in ChangesOf(log)
  {
    if c in e.ciphertext.batch.changes {
      ChangesOfMember(log, c);
    }
  }

  /** A sealed change stays sealed: the saved upload is only forgotten for the log. */
  lemma SealedStays(s: State, s': State, d: nat, c: Change)
    requires Inv(s) && Next(s, s') && HasDevice(s, d) && HasDevice(s', d) && IsSealed(s, d, c)
    ensures IsSealed(s', d, c)
  {
    hide Inv, Next, DeviceStep, Fresh, ChangesOf;
    LogStepGrows(s, s', c);
    StepInv(s, s');
    if x :| DeviceStep(s, s', x) {
      if x == d {
        StepUploads(s, s', d);
        if s.replicas[d].pending.Some? && s.replicas[d].pending.value.envelope in Log(s) {
          InLogIsInChanges(Log(s), s.replicas[d].pending.value.envelope, c);
          LogStepGrows(s, s', c);
        }
      } else {
        OtherDevicesStay(s, s', x, d);
      }
    } else {
      QuietSteps(s, s');
    }
  }

  lemma SealedBy(s: State, d: nat, c: Change)
    requires HasDevice(s, d) && c !in ChangesOf(Log(s))
    requires s.replicas[d].pending.Some? ==> c !in s.replicas[d].pending.value.envelope.ciphertext.batch.changes
    ensures !IsSealed(s, d, c)
  {
  }

  lemma UnsealedPending(s: State, s': State, d: nat, c: Change)
    requires Inv(s) && Next(s, s') && HasDevice(s, d) && HasDevice(s', d)
    requires c !in s.replicas[d].outbox && !IsSealed(s, d, c)
    ensures s'.replicas[d].pending.Some? ==> c !in s'.replicas[d].pending.value.envelope.ciphertext.batch.changes
  {
    hide Inv, Next, DeviceStep, ChangesOf;
    if x :| DeviceStep(s, s', x) {
      if x == d {
        StepUploads(s, s', d);
      } else {
        OtherDevicesStay(s, s', x, d);
      }
    } else {
      QuietSteps(s, s');
    }
  }

  lemma OneEnvelope(e: Envelope)
    ensures ChangesOf([e]) == e.ciphertext.batch.changes
  {
    assert [e][..0] == [];
  }

  lemma DeliveryFacts(s: State, s': State, write: WriteRequest, tag: nat)
    requires Inv(s) && Deliver(s, s', write, tag)
    ensures write.document.envelopes != [] && Log(s') == Log(s) + [Last(write)]
    ensures Last(write).id in s.issued && s.issued[Last(write).id] == Last(write)
  {
    hide ReplicaOk, PhaseOk;
    DeliverAppends(s, s', write, tag);
  }

  lemma DeliveredIsSealed(s: State, s': State, d: nat, c: Change, write: WriteRequest, tag: nat)
    requires Inv(s) && NoUploadLost(s) && Deliver(s, s', write, tag) && HasDevice(s, d)
    requires c.revision.device == d && c in ChangesOf(Log(s'))
    ensures IsSealed(s, d, c)
  {
    hide Inv, Deliver, ChangesOf, ReplicaOk;
    DeliveryFacts(s, s', write, tag);
    var e := Last(write);
    ChangesOfAppend(Log(s), [e]);
    OneEnvelope(e);
    ObjectFacts(s);
    assert EnvelopeOk(s.vault, s.recorded, e.id, s.issued[e.id]);
    if c !in ChangesOf(Log(s)) && e in Log(s) {
      InLogIsInChanges(Log(s), e, c);
    }
  }

  lemma UnsealedLog(s: State, s': State, d: nat, c: Change)
    requires Inv(s) && NoUploadLost(s) && Next(s, s') && HasDevice(s, d)
    requires c.revision.device == d && !IsSealed(s, d, c)
    ensures c !in ChangesOf(Log(s'))
  {
    hide Inv, DeviceStep, Deliver, ChangesOf, NoUploadLost;
    if write, tag :| Deliver(s, s', write, tag) {
      if c in ChangesOf(Log(s')) {
        DeliveredIsSealed(s, s', d, c, write, tag);
      }
    } else if x :| DeviceStep(s, s', x) {
      OwnCallStep(s, s', x);
    }
  }

  /** Only rows of the outbox are sealed, and only saved uploads reach the log; so a change that is in neither
      place is not sealed later. */
  lemma UnsealedStays(s: State, s': State, d: nat, c: Change)
    requires Inv(s) && NoUploadLost(s) && Next(s, s') && HasDevice(s, d) && HasDevice(s', d)
    requires c.revision.device == d && c !in s.replicas[d].outbox && !IsSealed(s, d, c)
    ensures !IsSealed(s', d, c)
  {
    hide Inv, Next, DeviceStep, Deliver, ChangesOf, IsSealed, NoUploadLost;
    UnsealedPending(s, s', d, c);
    UnsealedLog(s, s', d, c);
    SealedBy(s', d, c);
  }

  // ----- Kept exactly -----

  lemma DropsFromOutbox(s: State, s': State, d: nat, c: Change)
    requires HasDevice(s, d)
    ensures Drops(s, s', d, c) ==> c in s.replicas[d].outbox
  {
  }

  lemma DropSealsNothing(s: State, s': State, d: nat, c: Change)
    requires Drops(s, s', d, c) && HasDevice(s', d) && !IsSealed(s, d, c)
    ensures !IsSealed(s', d, c)
  {
    hide OpenPage, ApplyRemoteBatch, ChangesOf, Overtakes;
    var now :| ApplyPage(s, s', d, now);
    PageKeepsLog(s, s', d, now);
    var p := s.phases[d];
    RowsOfPage(s.replicas[d], p.response.cursor, OpenPage(s.vault, p.response.envelopes).value, now);
  }

  /** One step of the run: whether the change is in the outbox or sealed. */
  lemma KeptStep(s: State, s': State, d: nat, c: Change)
    requires Inv(s) && NoUploadLost(s) && Next(s, s') && HasDevice(s, d) && HasDevice(s', d) && c in Own(s.recorded, d)
    ensures c in s'.replicas[d].outbox || IsSealed(s', d, c) <==>
            (c in s.replicas[d].outbox || IsSealed(s, d, c)) && (Drops(s, s', d, c) ==> IsSealed(s, d, c))
    ensures c in s'.replicas[d].outbox ==> c in s.replicas[d].outbox && !Drops(s, s', d, c)
    ensures !Drops(s, s', d, c) && c in s.replicas[d].outbox && c !in s'.replicas[d].outbox ==> c in ChangesOf(Log(s'))
  {
    hide Inv, Next, Drops, ChangesOf, NoUploadLost;
    if IsSealed(s, d, c) {
      SealedStays(s, s', d, c);
    }
    if c in s.replicas[d].outbox {
      StepKeepsExactly(s, s', d, c);
      if Drops(s, s', d, c) && !IsSealed(s, d, c) {
        DropSealsNothing(s, s', d, c);
      }
    } else {
      GoneForGood(s, s', d, c);
      DropsFromOutbox(s, s', d, c);
      if !IsSealed(s, d, c) {
        UnsealedStays(s, s', d, c);
      }
    }
  }

  lemma OutboxIsRecorded(s: State, d: nat, c: Change)
    requires Inv(s) && HasDevice(s, d) && c in s.replicas[d].outbox
    ensures c in Own(s.recorded, d)
  {
    hide Inv;
    DeviceFacts(s, d);
  }

  lemma RecordedGrows(s: State, s': State, c: Change)
    requires Next(s, s') && c in s.recorded
    ensures c in s'.recorded
  {
    hide DeviceStep;
    if x :| DeviceStep(s, s', x) {
      RecordedStays(s, s', x);
    }
  }

  /** Over a run: a change that was in the outbox is still there, in the saved upload or in the log exactly when it
      was sealed before any page dropped it. As long as none does, it is in the outbox or in the log. */
  lemma {:induction false} ChangeIsKeptExactly(run: seq<State>, i: nat, j: nat, d: nat, c: Change)
    requires Run(run) && i <= j < |run| && HasDevice(run[i], d) && HasDevice(run[j], d)
    requires c in run[i].replicas[d].outbox
    ensures c in run[j].replicas[d].outbox || IsSealed(run[j], d, c) <==>
            forall k :: i <= k < j && Drops(run[k], run[k + 1], d, c) ==> IsSealed(run[k], d, c)
    ensures (forall k :: i <= k < j ==> !Drops(run[k], run[k + 1], d, c)) ==>
              c in run[j].replicas[d].outbox || c in ChangesOf(Log(run[j]))
    ensures c in run[j].replicas[d].outbox ==> forall k :: i <= k < j ==> !Drops(run[k], run[k + 1], d, c)
    ensures c in Own(run[j].recorded, d)
  {
    hide Inv, Next, Drops, ChangesOf, IsSealed, NoUploadLost;
    RunInv(run, i);
    OutboxIsRecorded(run[i], d, c);
    if i < j {
      var s, s' := run[j - 1], run[j];
      DevicesStay(s, s');
      ChangeIsKeptExactly(run, i, j - 1, d, c);
      RunInv(run, j - 1);
      IssuedIsSavedOrInLog(run, j - 1);
      RecordedGrows(s, s', c);
      KeptStep(s, s', d, c);
      LogStepGrows(s, s', c);
    }
  }

  // ----- Revisions from the future -----

  /** If the step stores a page on the device, its clock is then more than a day behind the change. */
  ghost predicate LagsBehind(s: State, s': State, d: nat, c: Change) {
    forall now: nat :: ApplyPage(s, s', d, now) ==> now + MAX_REMOTE_CLOCK_SKEW_MILLIS < c.revision.millis
  }

  /** An envelope with a change that is far in the future blocks the cursor of every device behind it: as long as
      the device's clock is more than a day behind that change, it never gets past. */
  lemma {:induction false} FarFutureBlocks(run: seq<State>, i: nat, j: nat, d: nat, k: nat, c: Change)
    requires Run(run) && i <= j < |run| && HasDevice(run[i], d) && HasDevice(run[j], d)
    requires run[i].replicas[d].cursor <= k < |Log(run[i])| && c in Log(run[i])[k].ciphertext.batch.changes
    requires forall m :: i <= m < j ==> LagsBehind(run[m], run[m + 1], d, c)
    ensures run[j].replicas[d].cursor <= k
  {
    hide Inv, Next, ApplyPage, ChangesOf, LagsBehind;
    if i < j {
      var s, s' := run[j - 1], run[j];
      assert LagsBehind(run[j - 1], run[j - 1 + 1], d, c);
      DevicesStay(s, s');
      FarFutureBlocks(run, i, j - 1, d, k, c);
      RunInv(run, j - 1);
      LogIsAppendOnly(run, i, j - 1);
      if s'.replicas[d].cursor != s.replicas[d].cursor {
        var now := CursorMovesWithItsPage(s, s', d);
        Lagging(s, s', d, c, now);
        PageAdvance(s, s', d, now);
        StopsAt(Log(s), s.replicas[d].cursor, s'.replicas[d].cursor, k, c, now);
      }
    }
  }

  lemma Lagging(s: State, s': State, d: nat, c: Change, now: nat)
    requires LagsBehind(s, s', d, c) && ApplyPage(s, s', d, now)
    ensures now + MAX_REMOTE_CLOCK_SKEW_MILLIS < c.revision.millis
  {
    hide ApplyPage;
  }

  /** A page that is in time and starts at or before the position of a change that is not ends there. */
  lemma StopsAt(log: seq<Envelope>, from: nat, to: nat, k: nat, c: Change, now: nat)
    requires from <= k < |log| && from <= to <= |log| && c in log[k].ciphertext.batch.changes
    requires InTime(ChangesOf(log[from..to]), now) && now + MAX_REMOTE_CLOCK_SKEW_MILLIS < c.revision.millis
    ensures to <= k
  {
    hide ChangesOf, InTime;
    if k < to {
      PageHolds(log, from, to, k, c);
      NotInTime(ChangesOf(log[from..to]), c, now);
    }
  }

  lemma PageHolds(log: seq<Envelope>, from: nat, to: nat, k: nat, c: Change)
    requires from <= k < to <= |log| && c in log[k].ciphertext.batch.changes
    ensures c in ChangesOf(log[from..to])
  {
    var page := log[from..to];
    assert page[k - from] == log[k];
    ChangesOfMember(page, c);
  }

  lemma NotInTime(changes: seq<Change>, c: Change, now: nat)
    requires c in changes && now + MAX_REMOTE_CLOCK_SKEW_MILLIS < c.revision.millis
    ensures !InTime(changes, now)
  {
  }

  // ----- How much an envelope carries -----

  /** Every issued envelope carries at least one change and at most 256. */
  ghost predicate SmallBatches(s: State) {
    forall id :: id in s.issued ==> 1 <= |s.issued[id].ciphertext.batch.changes| <= 256
  }

  lemma PrepareSmall(s: State, s': State, d: nat, count: nat, id: nat)
    requires Prepare(s, s', d, count, id) && SmallBatches(s)
    ensures SmallBatches(s')
  {
    hide ChangeIds, Log;
  }

  lemma OthersIssueNothing(s: State, s': State, d: nat)
    requires DeviceStep(s, s', d) && !(exists count, id :: Prepare(s, s', d, count, id))
    ensures s'.issued == s.issued
  {
    hide Prepare, Attempt, OpenPage, ApplyRemoteBatch, Acknowledge;
  }

  lemma SameIssued(s: State, s': State)
    requires s'.issued == s.issued && SmallBatches(s)
    ensures SmallBatches(s')
  {
  }

  lemma NothingIssued(s: State)
    requires Init(s)
    ensures SmallBatches(s)
  {
  }

  lemma SmallStep(s: State, s': State)
    requires Next(s, s') && SmallBatches(s)
    ensures SmallBatches(s')
  {
    hide Next, DeviceStep, Prepare, SmallBatches;
    if x :| DeviceStep(s, s', x) {
      if count, id :| Prepare(s, s', x, count, id) {
        PrepareSmall(s, s', x, count, id);
      } else {
        OthersIssueNothing(s, s', x);
        SameIssued(s, s');
      }
    } else {
      QuietSteps(s, s');
      SameIssued(s, s');
    }
  }

  lemma {:induction false} BatchesAreSmall(run: seq<State>, i: nat)
    requires Run(run) && i < |run|
    ensures SmallBatches(run[i])
  {
    hide Next, DeviceStep, Prepare, SmallBatches;
    if i == 0 {
      NothingIssued(run[0]);
    } else {
      BatchesAreSmall(run, i - 1);
      SmallStep(run[i - 1], run[i]);
    }
  }

  // ----- Too far behind -----

  lemma PagesGrow(log: seq<Envelope>, later: seq<Envelope>, from: nat, to: nat)
    requires log <= later && from <= |log| <= to <= |later|
    ensures |ChangesOf(log[from..])| <= |ChangesOf(later[from..to])|
  {
    hide ChangesOf;
    assert later[from..to] == log[from..] + later[|log|..to];
    ChangesOfAppend(log[from..], later[|log|..to]);
  }

  lemma PageOpened(s: State, s': State, d: nat, now: nat)
    requires ApplyPage(s, s', d, now)
    ensures |ChangesOf(s.phases[d].response.envelopes)| <= MAX_REMOTE_CHANGES_PER_PAGE
  {
    hide ChangesOf, ApplyRemoteBatch;
    OpenPageMeaning(s.vault, s.phases[d].response.envelopes);
  }

  lemma CursorWithinLog(s: State, d: nat)
    requires HasDevice(s, d) && ReplicaOk(Log(s), s.issued, s.recorded, d, s.replicas[d])
    ensures s.replicas[d].cursor <= |Log(s)|
  {
  }

  /** A page that is stored was small enough, and reaches at least to the end of the log at which its call began. */
  lemma StoredPageIsSmall(run: seq<State>, i: nat, j: nat, d: nat, now: nat)
    requires Run(run) && i <= j && j + 1 < |run| && HasDevice(run[i], d) && !InCall(run[i].phases[d])
    requires ApplyPage(run[j], run[j + 1], d, now) && run[j].replicas[d].cursor == run[i].replicas[d].cursor
    ensures run[i].replicas[d].cursor <= |Log(run[i])|
    ensures |ChangesOf(Log(run[i])[run[i].replicas[d].cursor..])| <= MAX_REMOTE_CHANGES_PER_PAGE
  {
    hide Next, Inv, ApplyPage, ChangesOf, ReplicaOk, OpenPage;
    var s, s' := run[j], run[j + 1];
    PageIsAReply(s, s', d, now);
    RunInv(run, j);
    RunInv(run, i);
    DeviceFacts(run[i], d);
    CursorWithinLog(run[i], d);
    var start := CallBegan(run, j, d);
    assert i < start;
    StartIsKept(run, start, j, j, d);
    LogIsAppendOnly(run, i, start);
    LogIsAppendOnly(run, i, j);
    PageAdvance(s, s', d, now);
    DeviceFacts(s, d);
    PagesGrow(Log(run[i]), Log(s), s.replicas[d].cursor, s'.replicas[d].cursor);
    PageOpened(s, s', d, now);
  }

  /** A device that is more than 10000 changes behind the log never catches up: whatever it is sent from then on
      carries all of them, and such a page is refused. */
  lemma {:induction false} TooFarBehindIsStuck(run: seq<State>, i: nat, j: nat, d: nat)
    requires Run(run) && i <= j < |run| && HasDevice(run[i], d) && HasDevice(run[j], d) && !InCall(run[i].phases[d])
    requires run[i].replicas[d].cursor <= |Log(run[i])|
    requires |ChangesOf(Log(run[i])[run[i].replicas[d].cursor..])| > MAX_REMOTE_CHANGES_PER_PAGE
    ensures run[j].replicas[d].cursor == run[i].replicas[d].cursor
  {
    hide Next, Inv, ApplyPage, ChangesOf;
    if i < j {
      DevicesStay(run[j - 1], run[j]);
      TooFarBehindIsStuck(run, i, j - 1, d);
      RunInv(run, j - 1);
      if run[j].replicas[d].cursor != run[j - 1].replicas[d].cursor {
        var now := CursorMovesWithItsPage(run[j - 1], run[j], d);
        StoredPageIsSmall(run, i, j - 1, d, now);
      }
    }
  }

  // ----- There is always something to fetch -----

  lemma StaysStored(s: State, s': State)
    requires Next(s, s')
    ensures s'.provider == s.provider && (s'.resource.Missing? ==> s.resource.Missing?)
  {
    hide DeviceStep;
    if x :| DeviceStep(s, s', x) {
      StepMoves(s, s', x);
    }
  }

  lemma {:induction false} OnlyWebDavMisses(run: seq<State>, i: nat)
    requires Run(run) && i < |run|
    ensures run[i].resource.Missing? ==> run[i].provider == WebDav
  {
    hide Next;
    if i > 0 {
      OnlyWebDavMisses(run, i - 1);
      StaysStored(run[i - 1], run[i]);
    }
  }

  /** In every reachable state a read that is answered gives a document of this vault with the whole log. */
  lemma FetchedInFull(run: seq<State>, i: nat)
    requires Run(run) && i < |run|
    ensures Fetched(run[i]) == Some(Document("vibeshell-encrypted-sync", 1, run[i].vault, Log(run[i])))
  {
    hide Next, ReplicaOk, PhaseOk, WriteOk;
    RunInv(run, i);
    OnlyWebDavMisses(run, i);
    FetchedIsLog(run[i]);
  }

  // ----- Clocks that are near each other -----

  /** If the step records an edit, the clock of the device that made it was at most `latest`. */
  ghost predicate EditedBy(s: State, s': State, latest: nat) {
    s'.recorded != s.recorded ==>
      exists d, id, entity, body, now: nat :: now <= latest && Edit(s, s', d, id, entity, body, now)
  }

  /** No revision is later than the latest clock an edit was made by, but for one millisecond for each edit. */
  ghost predicate StampsBounded(s: State, latest: nat) {
    && (forall c :: c in s.recorded ==> c.revision.millis <= latest + |s.recorded|)
    && (forall d :: d in s.replicas ==> s.replicas[d].clock <= latest + |s.recorded|)
  }

  lemma EditBounded(s: State, s': State, latest: nat, d: nat, id: nat, entity: nat, body: nat, now: nat)
    requires StampsBounded(s, latest) && now <= latest && Edit(s, s', d, id, entity, body, now)
    ensures StampsBounded(s', latest)
  {
    var (r, change) := RecordLocal(s.replicas[d], d, id, entity, body, now);
    assert change !in s.recorded;
    assert |s'.recorded| == |s.recorded| + 1;
  }

  lemma ClockAfterPage(s: State, d: nat, now: nat)
    requires Inv(s) && HasDevice(s, d) && s.phases[d].Replied? && PageStored(s, d, now).Ok?
    ensures var after, changes := PageStored(s, d, now).value, ChangesOf(s.phases[d].response.envelopes);
            after.clock == s.replicas[d].clock || exists c :: c in changes && c.revision.millis == after.clock
  {
    hide ReplicaOk, PhaseOk, WriteOk, ChangesOf, InTime, Overtakes, ApplyRemoteBatch;
    var r, changes := s.replicas[d], ChangesOf(s.phases[d].response.envelopes);
    PageIsRecorded(s, d);
    DeviceFacts(s, d);
    ReplicaFacts(Log(s), s.issued, s.recorded, d, r);
    FewerAreNamed(Known(s.recorded, d, r) + Elements(changes), s.recorded);
    ApplyBatchMeaning(r, Known(s.recorded, d, r), s.phases[d].response.cursor, changes, now);
  }

  lemma PageBounded(s: State, s': State, latest: nat, d: nat, now: nat)
    requires Inv(s) && StampsBounded(s, latest) && ApplyPage(s, s', d, now) && HasDevice(s', d)
    ensures s'.replicas[d].clock <= latest + |s.recorded|
  {
    hide Inv, ApplyPage, ReplicaOk, InTime, ChangesOf;
    PageIsAReply(s, s', d, now);
    PageIsRecorded(s, d);
    PageIsStored(s, s', d, now);
    var r, changes := s.replicas[d], ChangesOf(s.phases[d].response.envelopes);
    forall c | c in changes ensures c.revision.millis <= latest + |s.recorded| {
      assert c in Elements(r.received + changes);
    }
    ClockAfterPage(s, d, now);
  }

  lemma ClockOnlyByPage(s: State, s': State, d: nat)
    requires DeviceStep(s, s', d) && HasDevice(s', d)
    ensures s'.replicas[d].clock == s.replicas[d].clock || exists now :: ApplyPage(s, s', d, now)
  {
    hide Attempt, OpenPage, ApplyRemoteBatch, Seal, ApplyPage;
  }

  lemma DeviceBounded(s: State, s': State, latest: nat, x: nat)
    requires Inv(s) && DeviceStep(s, s', x) && StampsBounded(s, latest)
    ensures StampsBounded(s', latest)
  {
    hide Inv, DeviceStep, ApplyPage;
    StepMoves(s, s', x);
    ClockOnlyByPage(s, s', x);
    if now :| ApplyPage(s, s', x, now) {
      PageBounded(s, s', latest, x, now);
    }
  }

  lemma NothingRecorded(s: State, s': State)
    requires Next(s, s') && s'.recorded == s.recorded && !(exists x :: DeviceStep(s, s', x))
    ensures s'.replicas == s.replicas
  {
    hide DeviceStep;
  }

  lemma BoundedStep(s: State, s': State, latest: nat)
    requires Inv(s) && Next(s, s') && EditedBy(s, s', latest) && StampsBounded(s, latest)
    ensures StampsBounded(s', latest)
  {
    hide Inv, Next, DeviceStep, Edit;
    if s'.recorded != s.recorded {
      var d, id, entity, body, now: nat :| now <= latest && Edit(s, s', d, id, entity, body, now);
      EditBounded(s, s', latest, d, id, entity, body, now);
    } else if x :| DeviceStep(s, s', x) {
      DeviceBounded(s, s', latest, x);
    } else {
      NothingRecorded(s, s');
    }
  }

  lemma {:induction false} StampsStayBounded(run: seq<State>, i: nat, latest: nat)
    requires Run(run) && i < |run|
    requires forall k :: 0 <= k < i ==> EditedBy(run[k], run[k + 1], latest)
    ensures StampsBounded(run[i], latest)
  {
    hide Inv, Next, EditedBy;
    if i > 0 {
      StampsStayBounded(run, i - 1, latest);
      RunInv(run, i - 1);
      assert EditedBy(run[i - 1], run[i - 1 + 1], latest);
      BoundedStep(run[i - 1], run[i], latest);
    }
  }

  /** Devices whose clocks are within a day of each other never refuse each other's pages: a page is stored as soon as
      the device's clock, with the day it allows, has reached the latest clock of any edit and a millisecond for each
      edit ever made. */
  lemma NearClocksNeverRefuse(run: seq<State>, i: nat, latest: nat, d: nat, now: nat)
    requires Run(run) && i < |run| && HasDevice(run[i], d) && run[i].phases[d].Replied?
    requires forall k :: 0 <= k < i ==> EditedBy(run[k], run[k + 1], latest)
    requires latest + |run[i].recorded| <= now + MAX_REMOTE_CLOCK_SKEW_MILLIS
    ensures PageStored(run[i], d, now).Ok?
  {
    hide Inv, Next, EditedBy, PageStored, ChangesOf;
    var s := run[i];
    RunInv(run, i);
    StampsStayBounded(run, i, latest);
    PageIsRecorded(s, d);
    PageMeaning(s, d, now);
    var r, changes := s.replicas[d], ChangesOf(s.phases[d].response.envelopes);
    forall c | c in changes ensures c.revision.millis <= latest + |s.recorded| {
      assert c in Elements(r.received + changes);
    }
  }

  // ----- A run of two devices -----

  /** Device 2 edits an entity at the time `at` and uploads the edit; meanwhile device 1 starts a sync with an empty
      outbox, receives the page, and edits the same entity before it stores that page. */
  function Newer(at: nat): Change {
    Change(2, 7, Revision(at, 2), 20)
  }

  const UNSENT := Change(1, 7, Revision(1, 1), 10)

  function Upload(at: nat): Envelope {
    Seal(0, 2, 100, 0, [Newer(at)])
  }

  function Written(at: nat): Document {
    NewDocument(0).(envelopes := [Upload(at)])
  }

  function Edited(at: nat): Replica {
    Replica([Newer(at)], None, 0, map[7 := Newer(at)], at, [])
  }

  function Sealed2(at: nat): Replica {
    Edited(at).(pending := Some(PendingUpload(Upload(at), [2])))
  }

  function Uploading(at: nat): Phase {
    Writing(0, Some(Upload(at)), 0, 0, WriteRequest(None, Written(at)), 0, Response(1, [Upload(at)], false))
  }

  function Overtaken(): Replica {
    Replica([UNSENT], None, 0, map[7 := UNSENT], 1, [])
  }

  /** Device 1's storage after the page. */
  function AfterPage(at: nat): Replica {
    match ApplyRemoteBatch(Overtaken(), 1, [Newer(at)], at)
    case Ok(r) => r
    case Err(_) => Overtaken()
  }

  function TwoDevices(at: nat, i: nat): State {
    var bytes := DocumentBytes((d: Document) => 0, (d: Document) => 0);
    var start := State(WebDav, 0, bytes, Missing, map[1 := EMPTY_REPLICA, 2 := EMPTY_REPLICA], map[1 := Idle, 2 := Idle],
                       map[], {}, {}, map[], {});
    var edited := start.(replicas := map[1 := EMPTY_REPLICA, 2 := Edited(at)], recorded := {Newer(at)});
    var sealed := edited.(replicas := map[1 := EMPTY_REPLICA, 2 := Sealed2(at)], issued := map[100 := Upload(at)]);
    var sent := sealed.(sent := {WriteRequest(None, Written(at))}, phases := map[1 := Idle, 2 := Uploading(at)]);
    var stored := sent.(resource := Stored(0, Some(Written(at))), tags := map[0 := Some(Written(at))],
                        stored := {WriteRequest(None, Written(at))});
    var replied := stored.(phases := map[1 := Replied(0, None, 1, 1, Response(1, [Upload(at)], false)), 2 := Uploading(at)]);
    var late := replied.(replicas := map[1 := Overtaken(), 2 := Sealed2(at)],
                         recorded := {Newer(at), UNSENT});
    match i
    case 0 => start
    case 1 => edited
    case 2 => edited.(phases := map[1 := Idle, 2 := Preparing(0)])
    case 3 => sealed.(phases := map[1 := Idle, 2 := Exchanging(0, Some(Upload(at)), 0, 0)])
    case 4 => sent
    case 5 => stored
    case 6 => stored.(phases := map[1 := Preparing(0), 2 := Uploading(at)])
    case 7 => stored.(phases := map[1 := Exchanging(0, None, 1, 0), 2 := Uploading(at)])
    case 8 => replied
    case 9 => late
    case _ => late.(replicas := map[1 := AfterPage(at), 2 := Sealed2(at)],
                    phases := map[1 := Applied(0, None, 1), 2 := Uploading(at)])
  }

  lemma StartsRight(at: nat)
    ensures Init(TwoDevices(at, 0))
  {
  }

  lemma StepsOne(at: nat)
    requires at >= 1
    ensures Edit(TwoDevices(at, 0), TwoDevices(at, 1), 2, 2, 7, 20, at)
    ensures Begin(TwoDevices(at, 1), TwoDevices(at, 2), 2)
  {
    assert [] + [Newer(at)] == [Newer(at)];
    assert map[][7 := Newer(at)] == map[7 := Newer(at)];
    assert {} + {Newer(at)} == {Newer(at)};
  }

  lemma StepPrepare(at: nat)
    ensures Prepare(TwoDevices(at, 2), TwoDevices(at, 3), 2, 1, 100)
  {
    var batch := Edited(at).outbox[..1];
    assert batch == [Newer(at)] && ChangeIds(batch) == [2];
  }

  lemma StepFetch(at: nat)
    ensures Fetch(TwoDevices(at, 3), TwoDevices(at, 4), 2, false)
  {
    var s := TwoDevices(at, 3);
    assert [] + [Upload(at)] == [Upload(at)];
    assert Find([], 100) == None;
    assert [Upload(at)][0..] == [Upload(at)];
  }

  lemma StepDeliver(at: nat)
    ensures Deliver(TwoDevices(at, 4), TwoDevices(at, 5), WriteRequest(None, Written(at)), 0)
  {
  }

  lemma StepsOther(at: nat)
    ensures Begin(TwoDevices(at, 5), TwoDevices(at, 6), 1)
    ensures Prepare(TwoDevices(at, 6), TwoDevices(at, 7), 1, 0, 0)
  {
  }

  lemma StepFetchPage(at: nat)
    ensures Fetch(TwoDevices(at, 7), TwoDevices(at, 8), 1, false)
  {
    assert [Upload(at)][0..] == [Upload(at)];
  }

  lemma StepEdit(at: nat)
    ensures Edit(TwoDevices(at, 8), TwoDevices(at, 9), 1, 1, 7, 10, 1)
  {
    assert [] + [UNSENT] == [UNSENT];
    assert map[][7 := UNSENT] == map[7 := UNSENT];
    assert {Newer(at)} + {UNSENT} == {Newer(at), UNSENT};
  }

  lemma PageDrops(at: nat)
    requires at >= 2
    ensures ApplyRemoteBatch(Overtaken(), 1, [Newer(at)], at) == Ok(AfterPage(at))
    ensures UNSENT !in AfterPage(at).outbox && AfterPage(at).pending.None?
  {
    var r := Overtaken();
    assert HoldsWinners(r.entities, {UNSENT}) && OutboxBehind(r);
    assert Elements([Newer(at)]) == {Newer(at)};
    ApplyBatchMeaning(r, {UNSENT}, 1, [Newer(at)], at);
    assert Overtakes(r.entities, {Newer(at)}, UNSENT);
    RowsOfPage(r, 1, [Newer(at)], at);
  }

  lemma OnePageOpens(at: nat)
    ensures OpenPage(0, [Upload(at)]) == Ok([Newer(at)]) && ChangesOf([Upload(at)]) == [Newer(at)]
  {
    assert [Upload(at)][..0] == [];
    assert [] + [Newer(at)] == [Newer(at)];
  }

  lemma StepStore(at: nat)
    requires at >= 2
    ensures ApplyPage(TwoDevices(at, 9), TwoDevices(at, 10), 1, at)
  {
    hide ApplyRemoteBatch, OpenPage, AfterPage;
    PageDrops(at);
    OnePageOpens(at);
  }

  lemma TwoDevicesStep(at: nat, i: nat)
    requires at >= 2 && i < 10
    ensures Next(TwoDevices(at, i), TwoDevices(at, i + 1))
  {
    hide Edit, Begin, Prepare, Fetch, Deliver, ApplyPage, TwoDevices;
    var s, s' := TwoDevices(at, i), TwoDevices(at, i + 1);
    if i < 2 {
      StepsOne(at);
      assert i == 1 ==> DeviceStep(s, s', 2);
    } else if i == 2 {
      StepPrepare(at);
      assert DeviceStep(s, s', 2);
    } else if i == 3 {
      StepFetch(at);
      assert DeviceStep(s, s', 2);
    } else if i == 4 {
      StepDeliver(at);
    } else if i < 7 {
      StepsOther(at);
      assert DeviceStep(s, s', 1);
    } else if i == 7 {
      StepFetchPage(at);
      assert DeviceStep(s, s', 1);
    } else if i == 8 {
      StepEdit(at);
    } else {
      StepStore(at);
      assert DeviceStep(s, s', 1);
    }
  }

  /** The states of the example up to the n-th form a run. */
  function Example(at: nat, n: nat): seq<State> {
    seq(n + 1, i requires 0 <= i <= n => TwoDevices(at, i))
  }

  lemma ExampleIsARun(at: nat, n: nat)
    requires at >= 2 && n <= 10
    ensures Run(Example(at, n))
  {
    hide Next, Init, TwoDevices;
    var run := Example(at, n);
    StartsRight(at);
    forall i | 0 <= i < n ensures Next(run[i], run[i + 1]) {
      TwoDevicesStep(at, i);
    }
  }

  lemma UnsentIsThere()
    ensures HasDevice(TwoDevices(5, 9), 1) && UNSENT in TwoDevices(5, 9).replicas[1].outbox
  {
    hide Upload, ApplyRemoteBatch;
  }

  lemma UnsentIsGone()
    ensures var s' := TwoDevices(5, 10);
            && HasDevice(s', 1) && UNSENT in s'.recorded
            && UNSENT !in s'.replicas[1].outbox && !IsSealed(s', 1, UNSENT)
  {
    hide AfterPage, Upload, ChangesOf, ApplyRemoteBatch;
    OnePageOpens(5);
    PageDrops(5);
    assert Log(TwoDevices(5, 10)) == [Upload(5)];
  }

  /** "Every recorded change is in its outbox or in the log" fails: a run ends with a change that is in neither,
      nor in a saved upload, because a page overtook it before it was ever sealed. */
  lemma UnsentChangeCanBeDropped()
    ensures exists run: seq<State>, c: Change ::
              && Run(run) && |run| == 11 && HasDevice(run[9], 1) && HasDevice(run[10], 1)
              && c in run[10].recorded && c.revision.device == 1 && c in run[9].replicas[1].outbox
              && c !in run[10].replicas[1].outbox && !IsSealed(run[10], 1, c)
  {
    hide Run, TwoDevices, ChangesOf;
    var run := Example(5, 10);
    ExampleIsARun(5, 10);
    UnsentIsThere();
    UnsentIsGone();
    assert run[10] == TwoDevices(5, 10) && run[9] == TwoDevices(5, 9);
  }

  /** A revision from the future stops another device: a run after which device 1 has been sent the page of
      device 2, which it cannot store while its clock is more than a day behind; its cursor stays at 0. */
  lemma FutureEditBlocksAnotherDevice(at: nat)
    requires at >= 2
    ensures exists run: seq<State> ::
              && Run(run) && |run| == 9 && HasDevice(run[8], 1) && run[8].phases[1].Replied?
              && run[8].replicas[1].cursor == 0 && |Log(run[8])| == 1
              && forall now: nat :: PageStored(run[8], 1, now).Ok? <==> at <= now + MAX_REMOTE_CLOCK_SKEW_MILLIS
  {
    hide Run, Inv, PageStored, Upload, ChangesOf;
    var run := Example(at, 8);
    ExampleIsARun(at, 8);
    RunInv(run, 8);
    OnePageOpens(at);
    assert run[8] == TwoDevices(at, 8) && run[8].phases[1].response.envelopes == [Upload(at)];
    forall now: nat ensures PageStored(run[8], 1, now).Ok? <==> at <= now + MAX_REMOTE_CLOCK_SKEW_MILLIS {
      PageMeaning(run[8], 1, now);
      OneInTime(at, now);
    }
  }

  lemma OneInTime(at: nat, now: nat)
    ensures InTime([Newer(at)], now) <==> at <= now + MAX_REMOTE_CLOCK_SKEW_MILLIS
  {
    assert [Newer(at)][0].revision.millis == at;
  }
}
