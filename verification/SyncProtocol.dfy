/** Any number of devices synchronising through one remote object, as a transition system.

    A device saves an upload, fetches the object, applies the exchange to its copy and writes the copy back
    under the entity tag it fetched (If-Match), or under If-None-Match when it saw none. A write request that
    was sent can reach the server at any later time, any number of times, even after its sender gave up or
    crashed; its reply can be lost. Local edits happen at any time. The server evaluates the precondition
    and stores the new document in one step (sections 13.1.1 and 13.1.2 of RFC 9110), and never gives one tag
    to two different contents.

    The fields after `phases` are histories that no step looks at, except that a server reply "stored" is
    only possible for a write that was stored, and new identifiers are fresh. */
module SyncProtocol {
  import opened Wrappers
  import opened SyncLog
  import opened ReplicaStore

  const MAX_WRITE_ATTEMPTS: nat := 4
  const MAX_SYNC_ROUNDS: nat := 64
  const MAX_OUTBOX_BATCH: nat := 256
  const MAX_OBJECT_STORE_BYTES: nat := 8 * 1024 * 1024

  datatype Provider = GithubGist | WebDav

  /** The remote object; a gist can exist without the sync file. */
  datatype Resource = Missing | Stored(tag: nat, file: Option<Document>)

  datatype WriteRequest = WriteRequest(expected: Option<nat>, document: Document)

  datatype Phase =
    | Idle
    | Preparing(round: nat)
    | Exchanging(round: nat, upload: Option<Envelope>, since: nat, attempt: nat)
    | Writing(round: nat, upload: Option<Envelope>, since: nat, attempt: nat, write: WriteRequest, base: nat, response: Response)
    | Replied(round: nat, upload: Option<Envelope>, since: nat, base: nat, response: Response)
    | Applied(round: nat, upload: Option<Envelope>, seen: nat)
    | RoundDone(round: nat, seen: nat)

  /** How many bytes a document takes: in the response that carries it, and serialized for a write. */
  datatype DocumentBytes = DocumentBytes(read: Document -> nat, written: Document -> nat)

  datatype State = State(
    provider: Provider,
    vault: nat,
    bytes: DocumentBytes,
    resource: Resource,
    replicas: map<nat, Replica>,
    phases: map<nat, Phase>,
    tags: map<nat, Option<Document>>,
    sent: set<WriteRequest>,
    stored: set<WriteRequest>,
    issued: map<nat, Envelope>,
    recorded: set<Change>)

  function EnvelopesOf(file: Option<Document>): seq<Envelope> {
    if file.None? then [] else file.value.envelopes
  }

  function Log(s: State): seq<Envelope> {
    if s.resource.Missing? then [] else EnvelopesOf(s.resource.file)
  }

  ghost predicate HasDevice(s: State, d: nat) {
    d in s.replicas && d in s.phases
  }

  // ----- Steps -----

  ghost predicate Init(s: State) {
    && s.replicas.Keys == s.phases.Keys
    && (forall d :: d in s.replicas ==> s.replicas[d] == EMPTY_REPLICA && s.phases[d] == Idle)
    && (s.resource.Missing? ==> s.provider == WebDav && s.tags == map[])
    && (s.resource.Stored? ==>
          && s.tags == map[s.resource.tag := s.resource.file]
          && (s.resource.file == Some(NewDocument(s.vault)) || (s.provider == GithubGist && s.resource.file == None)))
    && s.sent == {} && s.stored == {} && s.issued == map[] && s.recorded == {}
  }

  /** A local edit of some entity, captured in the outbox. */
  ghost predicate Edit(s: State, s': State, d: nat, id: nat, entity: nat, body: nat, now: nat) {
    && HasDevice(s, d)
    && (forall c :: c in s.recorded ==> c.id != id)
    && var (r, change) := RecordLocal(s.replicas[d], d, id, entity, body, now);
       s' == s.(replicas := s.replicas[d := r], recorded := s.recorded + {change})
  }

  ghost predicate Begin(s: State, s': State, d: nat) {
    && HasDevice(s, d) && s.phases[d].Idle?
    && s' == s.(phases := s.phases[d := Preparing(0)])
  }

  function Seal(vault: nat, d: nat, id: nat, cursor: nat, changes: seq<Change>): Envelope {
    Envelope(id, Sealed(vault, SYNC_CHANGE_SCHEMA_VERSION, d, id, cursor, Batch(d, changes)))
  }

  /** A saved upload is sent again as it is; otherwise a non-empty outbox prefix is sealed and saved. */
  ghost predicate Prepare(s: State, s': State, d: nat, count: nat, id: nat) {
    && HasDevice(s, d) && s.phases[d].Preparing?
    && var r, round := s.replicas[d], s.phases[d].round;
       if r.pending.Some? then
         s' == s.(phases := s.phases[d := Exchanging(round, Some(r.pending.value.envelope), |Log(s)|, 0)])
       else if r.outbox == [] then
         s' == s.(phases := s.phases[d := Exchanging(round, None, |Log(s)|, 0)])
       else
         && 0 < count <= |r.outbox| && count <= MAX_OUTBOX_BATCH
         && id !in s.issued
         && var batch := r.outbox[..count];
            var envelope := Seal(s.vault, d, id, r.cursor, batch);
            s' == s.(
              replicas := s.replicas[d := r.(pending := Some(PendingUpload(envelope, ChangeIds(batch))))],
              phases := s.phases[d := Exchanging(round, Some(envelope), |Log(s)|, 0)],
              issued := s.issued[id := envelope])
  }

  /** What a read of the object gives: the document, or nothing for a gist that is not there. */
  function Fetched(s: State): Option<Document> {
    match s.resource
    case Missing => if s.provider == WebDav then Some(NewDocument(s.vault)) else None
    case Stored(_, None) => if s.provider == WebDav then None else Some(NewDocument(s.vault))
    case Stored(_, Some(document)) => Some(document)
  }

  datatype AttemptError = TooManyBytes | Refused(reason: ExchangeError)

  /** A document is read only within the byte limit. */
  predicate Readable(s: State) {
    s.resource.Stored? && s.resource.file.Some? ==> s.bytes.read(s.resource.file.value) <= MAX_OBJECT_STORE_BYTES
  }

  /** One attempt up to the write: the document is read, exchanged and, when that changed it, serialized. */
  function Attempt(s: State, request: Request): Result<Exchanged, AttemptError>
    requires Fetched(s).Some?
  {
    if !Readable(s) then Err(TooManyBytes)
    else
      match ApplyObjectExchange(Fetched(s).value, s.vault, request)
      case Err(reason) => Err(Refused(reason))
      case Ok(done) =>
        if done.changed && s.bytes.written(done.document) > MAX_OBJECT_STORE_BYTES then Err(TooManyBytes) else Ok(done)
  }

  /** Fetch, apply the exchange to the copy and, when that changed it, send the conditional write. */
  ghost predicate Fetch(s: State, s': State, d: nat, tagSeen: bool) {
    && HasDevice(s, d) && s.phases[d].Exchanging? && Fetched(s).Some?
    && var p := s.phases[d];
       var etag := if s.resource.Stored? && tagSeen then Some(s.resource.tag) else None;
       var done := Attempt(s, Request(Some(s.replicas[d].cursor), p.upload));
       && done.Ok?
       && var base := |Fetched(s).value.envelopes|;
          if !done.value.changed then
            s' == s.(phases := s.phases[d := Replied(p.round, p.upload, p.since, base, done.value.response)])
          else
            && (s.provider == GithubGist ==> etag.Some?)
            && var write := WriteRequest(etag, done.value.document);
               s' == s.(
                 sent := s.sent + {write},
                 phases := s.phases[d := Writing(p.round, p.upload, p.since, p.attempt, write, base, done.value.response)])
  }

  /** The precondition of a write, evaluated by the server. */
  predicate Allows(resource: Resource, write: WriteRequest) {
    match write.expected
    case Some(tag) => resource.Stored? && resource.tag == tag
    case None => resource.Missing?
  }

  /** A sent write reaches the server and its precondition holds. A write whose precondition fails changes
      nothing, so it is not a step of its own. */
  ghost predicate Deliver(s: State, s': State, write: WriteRequest, tag: nat) {
    && write in s.sent && Allows(s.resource, write)
    && (tag in s.tags ==> s.tags[tag] == Some(write.document))
    && s' == s.(
         resource := Stored(tag, Some(write.document)),
         tags := s.tags[tag := Some(write.document)],
         stored := s.stored + {write})
  }

  /** The reply "stored" arrives. */
  ghost predicate Confirm(s: State, s': State, d: nat) {
    && HasDevice(s, d) && s.phases[d].Writing? && s.phases[d].write in s.stored
    && var p := s.phases[d];
       s' == s.(phases := s.phases[d := Replied(p.round, p.upload, p.since, p.base, p.response)])
  }

  /** The reply "precondition failed" or "conflict" arrives, and attempts are left. */
  ghost predicate Conflict(s: State, s': State, d: nat) {
    && HasDevice(s, d) && s.phases[d].Writing? && s.phases[d].attempt + 1 < MAX_WRITE_ATTEMPTS
    && var p := s.phases[d];
       s' == s.(phases := s.phases[d := Exchanging(p.round, p.upload, p.since, p.attempt + 1)])
  }

  /** The page is decrypted, and stored together with its cursor. `now` is the device's own clock. */
  ghost predicate ApplyPage(s: State, s': State, d: nat, now: nat) {
    && HasDevice(s, d) && s.phases[d].Replied?
    && var p := s.phases[d];
       var page := OpenPage(s.vault, p.response.envelopes);
       && page.Ok?
       && var after := ApplyRemoteBatch(s.replicas[d], p.response.cursor, page.value, now);
          && after.Ok?
          && s' == s.(
               replicas := s.replicas[d := after.value],
               phases := s.phases[d := Applied(p.round, p.upload, p.response.cursor)])
  }

  ghost predicate Ack(s: State, s': State, d: nat) {
    && HasDevice(s, d) && s.phases[d].Applied?
    && var p := s.phases[d];
       if p.upload.None? then
         s' == s.(phases := s.phases[d := RoundDone(p.round, p.seen)])
       else
         var after := Acknowledge(s.replicas[d], p.upload.value.id);
         && after.Ok?
         && s' == s.(
              replicas := s.replicas[d := after.value.0],
              phases := s.phases[d := RoundDone(p.round, p.seen)])
  }

  ghost predicate NextRound(s: State, s': State, d: nat) {
    && HasDevice(s, d) && s.phases[d].RoundDone?
    && s.replicas[d].outbox != [] && s.phases[d].round + 1 < MAX_SYNC_ROUNDS
    && s' == s.(phases := s.phases[d := Preparing(s.phases[d].round + 1)])
  }

  /** The run of `run_sync` returns its report. */
  ghost predicate Finish(s: State, s': State, d: nat) {
    && HasDevice(s, d) && s.phases[d].RoundDone?
    && s.replicas[d].outbox == []
    && s' == s.(phases := s.phases[d := Idle])
  }

  /** The run ends with an error, the reply is lost, or the program stops: only stored data survives. */
  ghost predicate Fail(s: State, s': State, d: nat) {
    && HasDevice(s, d)
    && s' == s.(phases := s.phases[d := Idle])
  }

  ghost predicate DeviceStep(s: State, s': State, d: nat) {
    || Begin(s, s', d)
    || (exists count, id :: Prepare(s, s', d, count, id))
    || (exists tagSeen :: Fetch(s, s', d, tagSeen))
    || Confirm(s, s', d)
    || Conflict(s, s', d)
    || (exists now :: ApplyPage(s, s', d, now))
    || Ack(s, s', d)
    || NextRound(s, s', d)
    || Finish(s, s', d)
    || Fail(s, s', d)
  }

  ghost predicate Next(s: State, s': State) {
    || (exists d, id, entity, body, now :: Edit(s, s', d, id, entity, body, now))
    || (exists write, tag :: Deliver(s, s', write, tag))
    || (exists d :: DeviceStep(s, s', d))
  }

  ghost predicate Run(run: seq<State>) {
    && |run| > 0 && Init(run[0])
    && forall i :: 0 <= i < |run| - 1 ==> Next(run[i], run[i + 1])
  }
}
