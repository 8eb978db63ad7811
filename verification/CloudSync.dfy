/** One device's sync manager: it prepares uploads from the outbox, exchanges them in rounds and applies the
    pages it gets back. Storage is a `Replica`, the provider a `RemoteObject` that other devices also write. */
module CloudSync {
  import opened Wrappers
  import opened SyncLog
  import opened ReplicaStore
  import opened SyncProtocol
  import opened ObjectTransport

  const MAX_PROVIDER_CIPHERTEXT_BYTES: nat := 768 * 1024

  datatype SyncError =
    | ChangeTooLarge(change: nat)
    | Exchange(reason: TransportError)
    | BadPage(problem: PageError)
    | Storage(failure: StoreError)
    | NotDrained

  datatype Report = Report(uploaded: nat, downloaded: nat, cursor: nat)

  // ----- Choosing a batch -----

  /** The batch sizes that are tried, largest first: each is half of the one before, down to one. */
  function Sizes(n: nat): (sizes: seq<nat>)
    requires n > 0
    ensures sizes != [] && sizes[0] == n && sizes[|sizes| - 1] == 1
    ensures forall i :: 0 <= i < |sizes| ==> 0 < sizes[i] <= n
    ensures forall i :: 0 < i < |sizes| ==> sizes[i] == sizes[i - 1] / 2
  {
    if n == 1 then [1] else [n] + Sizes(n / 2)
  }

  function Min(a: nat, b: nat): nat {
    if a < b then a else b
  }

  /** How many changes the first attempt takes. */
  function FirstSize(outbox: seq<Change>): nat {
    Min(MAX_OUTBOX_BATCH, |outbox|)
  }

  ghost predicate TooLarge(length: seq<Change> -> nat, outbox: seq<Change>, n: nat)
    requires n <= |outbox|
  {
    length(outbox[..n]) > MAX_PROVIDER_CIPHERTEXT_BYTES
  }

  ghost predicate NoneFits(length: seq<Change> -> nat, outbox: seq<Change>, sizes: seq<nat>) {
    forall i :: 0 <= i < |sizes| ==> sizes[i] <= |outbox| && TooLarge(length, outbox, sizes[i])
  }

  /** The k-th size tried is the first that fits. */
  ghost predicate Chosen(length: seq<Change> -> nat, outbox: seq<Change>, k: nat)
    requires outbox != []
  {
    var sizes := Sizes(FirstSize(outbox));
    && k < |sizes| && sizes[k] <= |outbox|
    && NoneFits(length, outbox, sizes[..k]) && !TooLarge(length, outbox, sizes[k])
  }

  /** What preparing an upload comes to, from the storage before to the storage after. */
  ghost predicate Prepared(length: seq<Change> -> nat, vault: nat, device: nat, before: Replica, after: Replica,
                           result: Result<Option<Envelope>, SyncError>) {
    if before.pending.Some? then
      after == before && result == Ok(Some(before.pending.value.envelope))
    else if before.outbox == [] then
      after == before && result == Ok(None)
    else if result.Err? then
      && after == before && result == Err(ChangeTooLarge(before.outbox[0].id))
      && NoneFits(length, before.outbox, Sizes(FirstSize(before.outbox)))
    else
      exists k, id :: Chosen(length, before.outbox, k) && Saved(vault, device, before, after, result, k, id)
  }

  /** The upload for the k-th size: the sealed outbox prefix and its change ids. */
  function UploadOf(vault: nat, device: nat, r: Replica, k: nat, id: nat): PendingUpload
    requires r.outbox != [] && k < |Sizes(FirstSize(r.outbox))| && Sizes(FirstSize(r.outbox))[k] <= |r.outbox|
  {
    var batch := r.outbox[..Sizes(FirstSize(r.outbox))[k]];
    PendingUpload(Seal(vault, device, id, r.cursor, batch), ChangeIds(batch))
  }

  ghost predicate Saved(vault: nat, device: nat, before: Replica, after: Replica,
                        result: Result<Option<Envelope>, SyncError>, k: nat, id: nat)
    requires before.outbox != []
  {
    var sizes := Sizes(FirstSize(before.outbox));
    && k < |sizes| && sizes[k] <= |before.outbox|
    && var upload := UploadOf(vault, device, before, k, id);
       result == Ok(Some(upload.envelope)) && after == before.(pending := Some(upload))
  }

  /** A longer batch never has a shorter ciphertext. */
  ghost predicate GrowsWithBatch(length: seq<Change> -> nat) {
    forall a: seq<Change>, b: seq<Change> :: a <= b ==> length(a) <= length(b)
  }

  lemma NothingTried(length: seq<Change> -> nat, outbox: seq<Change>, sizes: seq<nat>)
    ensures NoneFits(length, outbox, sizes[..0])
  {
  }

  /** The batch of the current limit has the current size; what is left to try starts at half of it. */
  lemma NextSize(length: seq<Change> -> nat, outbox: seq<Change>, sizes: seq<nat>, k: nat, limit: nat)
    requires outbox != [] && limit > 0
    requires k < |sizes| && sizes[k..] == Sizes(Min(limit, |outbox|))
    requires NoneFits(length, outbox, sizes[..k])
    ensures sizes[k] == Min(limit, |outbox|)
    ensures (if limit < |outbox| then outbox[..limit] else outbox) == outbox[..sizes[k]]
    ensures TooLarge(length, outbox, sizes[k]) ==> NoneFits(length, outbox, sizes[..k + 1])
    ensures sizes[k] == 1 ==> sizes[..k + 1] == sizes
    ensures sizes[k] > 1 ==> k + 1 < |sizes| && sizes[k + 1..] == Sizes(Min(sizes[k] / 2, |outbox|))
  {
    assert sizes[k] == sizes[k..][0];
    assert sizes[k..][1..] == sizes[k + 1..];
    if sizes[k] == 1 {
      assert |sizes[k..]| == 1;
    }
  }

  lemma LongerIsTooLarge(length: seq<Change> -> nat, outbox: seq<Change>, n: nat)
    requires GrowsWithBatch(length) && 1 <= n <= |outbox| && TooLarge(length, outbox, 1)
    ensures TooLarge(length, outbox, n)
  {
    assert outbox[..1] <= outbox[..n];
  }

  /** When a longer batch never has a shorter ciphertext, the size error means exactly that the first change
      alone is too large. */
  lemma SizeErrorMeansOneChange(length: seq<Change> -> nat, outbox: seq<Change>)
    requires outbox != [] && GrowsWithBatch(length)
    ensures NoneFits(length, outbox, Sizes(FirstSize(outbox))) <==> TooLarge(length, outbox, 1)
  {
    hide Sizes, TooLarge, GrowsWithBatch;
    var sizes := Sizes(FirstSize(outbox));
    assert sizes[|sizes| - 1] == 1;
    if TooLarge(length, outbox, 1) {
      forall i | 0 <= i < |sizes| ensures sizes[i] <= |outbox| && TooLarge(length, outbox, sizes[i]) {
        LongerIsTooLarge(length, outbox, sizes[i]);
      }
    }
  }

  /** A sealed batch is authentic, and it carries its changes and the cursor they were made behind. */
  lemma SealedUnder(vault: nat, device: nat, id: nat, cursor: nat, batch: seq<Change>)
    ensures var e := Seal(vault, device, id, cursor, batch);
            e.id == id && Authentic(vault, e)
            && e.ciphertext.device == device && e.ciphertext.cursor == cursor && e.ciphertext.batch.changes == batch
  {
  }

  /** The loop that halves the batch until its ciphertext fits; each attempt draws a new envelope identifier. */
  method SealBatch(length: seq<Change> -> nat, uuids: nat -> nat, first: nat, vault: nat, device: nat, r: Replica)
    returns (sealed: Result<PendingUpload, SyncError>, drawn: nat)
    requires r.outbox != []
    ensures sealed.Ok? ==> exists k, id :: Chosen(length, r.outbox, k) && sealed.value == UploadOf(vault, device, r, k, id)
    ensures sealed.Ok? ==> first < drawn && sealed.value.envelope.id == uuids(drawn - 1)
    ensures sealed.Err? ==>
              sealed.error == ChangeTooLarge(r.outbox[0].id) && NoneFits(length, r.outbox, Sizes(FirstSize(r.outbox)))
  {
    hide Sizes, Seal, NoneFits, ChangeIds;
    var limit := MAX_OUTBOX_BATCH;
    drawn := first;
    ghost var sizes, k := Sizes(FirstSize(r.outbox)), 0;
    NothingTried(length, r.outbox, sizes);
    while true
      invariant limit > 0 && first <= drawn
      invariant k < |sizes| && sizes[k..] == Sizes(Min(limit, |r.outbox|))
      invariant NoneFits(length, r.outbox, sizes[..k])
      decreases limit
    {
      var pending := ExportPending(r, limit);
      NextSize(length, r.outbox, sizes, k, limit);
      var id := uuids(drawn);
      drawn := drawn + 1;
      var envelope := Seal(vault, device, id, r.cursor, pending);
      SealedUnder(vault, device, id, r.cursor, pending);
      if length(pending) <= MAX_PROVIDER_CIPHERTEXT_BYTES {
        assert Chosen(length, r.outbox, k) && PendingUpload(envelope, ChangeIds(pending)) == UploadOf(vault, device, r, k, id);
        return Ok(PendingUpload(envelope, ChangeIds(pending))), drawn;
      }
      if |pending| == 1 {
        return Err(ChangeTooLarge(pending[0].id)), drawn;
      }
      limit := |pending| / 2;
      k := k + 1;
    }
  }

  // ----- The upload and the rows it stands for -----

  /** Row identifiers are unique, and the saved upload carries the very rows it will be acknowledged for. */
  ghost predicate UploadMatches(r: Replica) {
    && (forall a, b :: a in r.outbox && b in r.outbox && a.id == b.id ==> a == b)
    && (r.pending.Some? ==>
          var batch := r.pending.value.envelope.ciphertext.batch.changes;
          && r.pending.value.changeIds == ChangeIds(batch)
          && forall c :: c in r.outbox && c.id in r.pending.value.changeIds ==> c in batch)
  }

  /** Fewer rows under the same upload, or under none. */
  lemma FewerRowsMatch(r: Replica, after: Replica)
    requires UploadMatches(r) && (forall c :: c in after.outbox ==> c in r.outbox)
    requires after.pending == r.pending || after.pending.None?
    ensures UploadMatches(after)
  {
  }

  lemma PreparedMatches(length: seq<Change> -> nat, vault: nat, device: nat, before: Replica, after: Replica,
                        result: Result<Option<Envelope>, SyncError>)
    requires Prepared(length, vault, device, before, after, result) && UploadMatches(before)
    ensures UploadMatches(after) && after.outbox == before.outbox
    ensures after.cursor == before.cursor && after.received == before.received
    ensures result.Ok? && result.value.Some? ==> after.pending.Some? && after.pending.value.envelope == result.value.value
    ensures result.Err? ==> result.error != NotDrained
  {
    hide Sizes, NoneFits;
    if before.pending.None? && before.outbox != [] && result.Ok? {
      var k: nat, id: nat :| Chosen(length, before.outbox, k) && Saved(vault, device, before, after, result, k, id);
      var batch := before.outbox[..Sizes(FirstSize(before.outbox))[k]];
      forall c | c in after.outbox && c.id in ChangeIds(batch) ensures c in batch {
        var i :| 0 <= i < |batch| && ChangeIds(batch)[i] == c.id;
        assert batch[i] in before.outbox;
      }
    }
  }

  /** An acknowledged row was in the envelope, and the envelope is among what has been received. */
  lemma AcknowledgedIsCovered(r: Replica, log: seq<Envelope>, c: Change)
    requires UploadMatches(r) && r.pending.Some? && r.pending.value.envelope in log
    requires c in r.outbox && c.id in r.pending.value.changeIds
    ensures Covered(ChangesOf(log), c)
  {
    ChangesOfMember(log, c);
    assert AtMost(c.revision, c.revision);
  }

  lemma KeptPrefix(log: seq<Envelope>, log': seq<Envelope>, r: Replica)
    requires r.cursor <= |log| && log <= log'
    ensures log[..r.cursor] == log'[..r.cursor]
  {
  }

  /** Appending the page to what was received gives exactly the log up to the new cursor. */
  lemma PageReceived(log: seq<Envelope>, log': seq<Envelope>, r: Replica, pre: seq<Envelope>, post: seq<Envelope>,
                     request: Request, response: Response)
    requires r.cursor <= |log| && log <= pre && post <= log' && request.cursor == Some(r.cursor)
    requires AtomicExchange(pre, request) == Ok((post, response))
    requires r.received == ChangesOf(log'[..r.cursor])
    ensures |log| <= response.cursor <= |log'|
    ensures r.received + ChangesOf(response.envelopes) == ChangesOf(log'[..response.cursor])
    ensures request.envelope.Some? ==> request.envelope.value in log'[..response.cursor]
  {
    assert log'[..response.cursor] == post;
    assert post == post[..r.cursor] + post[r.cursor..];
    assert post[..r.cursor] == log'[..r.cursor];
    ChangesOfAppend(post[..r.cursor], post[r.cursor..]);
  }

  /** The rows that a reply takes out of the outbox: covered by its page, or those of the acknowledged upload. */
  ghost predicate RowsGone(before: Replica, after: Replica, upload: Option<Envelope>, page: seq<Change>) {
    && (forall c :: c in after.outbox ==> c in before.outbox)
    && (upload.Some? ==> before.pending.Some? && forall c :: c in after.outbox ==> c.id !in before.pending.value.changeIds)
    && (forall c :: c in before.outbox && c !in after.outbox ==>
          Covered(page, c) || (upload.Some? && c.id in before.pending.value.changeIds))
  }

  /** The storage after a reply and what is reported of it: the page with its cursor, then the acknowledgement of the
      upload that was sent. A page that does not open or cannot be stored leaves everything as it was. */
  ghost predicate RepliedTo(vault: nat, before: Replica, after: Replica, upload: Option<Envelope>, response: Response, now: nat,
                            result: Result<(nat, nat), SyncError>) {
    match OpenPage(vault, response.envelopes)
    case Err(problem) => after == before && result == Err(BadPage(problem))
    case Ok(page) =>
      match ApplyRemoteBatch(before, response.cursor, page, now)
      case Err(failure) => after == before && result == Err(Storage(failure))
      case Ok(stored) =>
        if upload.None? then after == stored && result == Ok((0, |page|))
        else
          && Acknowledge(stored, upload.value.id).Ok?
          && Acknowledge(stored, upload.value.id).value.0 == after
          && result == Ok((Acknowledge(stored, upload.value.id).value.1, |page|))
  }

  /** One round from beginning to end, and where it stopped when it failed. */
  ghost predicate Round(length: seq<Change> -> nat, device: nat, provider: Provider, vault: nat, before: Replica, from: Moment,
                        after: Replica, to: Moment, result: Result<(nat, nat), SyncError>) {
    exists sent, prepared ::
      && Prepared(length, vault, device, before, sent, prepared)
      && match prepared
         case Err(error) => after == sent && to == from && result == Err(error)
         case Ok(upload) => Answers(provider, vault, sent, from, after, to, upload, result)
  }

  ghost predicate Answers(provider: Provider, vault: nat, sent: Replica, from: Moment, after: Replica, to: Moment,
                          upload: Option<Envelope>, result: Result<(nat, nat), SyncError>) {
    exists exchanged ::
      && Exchanges(provider, vault, Request(Some(sent.cursor), upload), from, to, exchanged)
      && match exchanged
         case Err(error) => after == sent && result == Err(Exchange(error))
         case Ok(response) => exists now :: RepliedTo(vault, sent, after, upload, response, now, result)
  }

  datatype Checkpoint = Checkpoint(replica: Replica, moment: Moment)

  function Total(done: seq<(nat, nat)>): (nat, nat) {
    if done == [] then (0, 0)
    else
      var before := Total(done[..|done| - 1]);
      (before.0 + done[|done| - 1].0, before.1 + done[|done| - 1].1)
  }

  /** A successful round that leaves something to upload. */
  ghost predicate GoesOn(length: seq<Change> -> nat, device: nat, provider: Provider, vault: nat, from: Checkpoint,
                         to: Checkpoint, counts: (nat, nat)) {
    && Round(length, device, provider, vault, from.replica, from.moment, to.replica, to.moment, Ok(counts))
    && to.replica.outbox != []
  }

  ghost predicate Unfinished(length: seq<Change> -> nat, device: nat, provider: Provider, vault: nat, points: seq<Checkpoint>,
                             done: seq<(nat, nat)>) {
    && |points| == |done| + 1
    && forall k :: 0 <= k < |done| ==> GoesOn(length, device, provider, vault, points[k], points[k + 1], done[k])
  }

  /** A run: unfinished rounds, and then one that fails or leaves nothing to upload, or none when 64 were made. */
  ghost predicate Runs(length: seq<Change> -> nat, device: nat, provider: Provider, vault: nat, points: seq<Checkpoint>,
                       done: seq<(nat, nat)>, end: Checkpoint, result: Result<Report, SyncError>) {
    && Unfinished(length, device, provider, vault, points, done) && |done| <= MAX_SYNC_ROUNDS
    && var last := points[|done|];
       if |done| == MAX_SYNC_ROUNDS then end == last && result == Err(NotDrained)
       else
         exists round ::
           && Round(length, device, provider, vault, last.replica, last.moment, end.replica, end.moment, round)
           && match round
              case Err(error) => result == Err(error)
              case Ok(counts) =>
                end.replica.outbox == [] && result == Ok(Report(Total(done + [counts]).0, Total(done + [counts]).1, end.replica.cursor))
  }

  lemma NoRounds(length: seq<Change> -> nat, device: nat, provider: Provider, vault: nat, points: seq<Checkpoint>)
    requires |points| == 1
    ensures Unfinished(length, device, provider, vault, points, []) && Total([]) == (0, 0)
  {
  }

  lemma TotalMore(done: seq<(nat, nat)>, counts: (nat, nat))
    ensures Total(done + [counts]) == (Total(done).0 + counts.0, Total(done).1 + counts.1)
  {
    assert (done + [counts])[..|done|] == done;
  }

  lemma OneMoreRound(length: seq<Change> -> nat, device: nat, provider: Provider, vault: nat, points: seq<Checkpoint>,
                     done: seq<(nat, nat)>, counts: (nat, nat), end: Checkpoint)
    requires Unfinished(length, device, provider, vault, points, done)
    requires GoesOn(length, device, provider, vault, points[|done|], end, counts)
    ensures Unfinished(length, device, provider, vault, points + [end], done + [counts])
  {
    hide GoesOn;
  }

  /** Over some rounds: the log grew, what was received grew by the downloads, no row joined the outbox, and one that
      left it has been received back, or a newer change of its entity has. */
  ghost predicate Accounts(before: Checkpoint, after: Checkpoint, uploaded: nat, downloaded: nat) {
    && Advances(before.moment, after.moment)
    && before.replica.received <= after.replica.received
    && |after.replica.received| == |before.replica.received| + downloaded
    && |after.replica.outbox| + uploaded <= |before.replica.outbox|
    && (forall c :: c in after.replica.outbox ==> c in before.replica.outbox)
    && (forall c :: c in before.replica.outbox ==> c in after.replica.outbox || Covered(after.replica.received, c))
  }

  lemma AccountsFurther(a: Checkpoint, b: Checkpoint, c: Checkpoint, uploaded: nat, downloaded: nat, up: nat, down: nat)
    requires Accounts(a, b, uploaded, downloaded) && Accounts(b, c, up, down)
    ensures Accounts(a, c, uploaded + up, downloaded + down)
  {
    hide Covered, Advances;
    AdvancesFurther(a.moment, b.moment, c.moment);
    forall x | Covered(b.replica.received, x) ensures Covered(c.replica.received, x) {
      CoveredByMore(b.replica.received, c.replica.received, x);
    }
  }

  lemma SameRows(a: Checkpoint, b: Checkpoint)
    requires Advances(a.moment, b.moment)
    requires b.replica.outbox == a.replica.outbox && b.replica.received == a.replica.received
    ensures Accounts(a, b, 0, 0)
  {
    hide Advances, Covered;
  }

  lemma RoundIs(a: Checkpoint, sent: Replica, b: Checkpoint, upload: Option<Envelope>, page: seq<Change>, uploaded: nat)
    requires Advances(a.moment, b.moment) && sent.outbox == a.replica.outbox && sent.received == a.replica.received
    requires RowsGone(sent, b.replica, upload, page) && b.replica.received == sent.received + page
    requires |b.replica.outbox| + uploaded <= |sent.outbox|
    requires forall c :: c in sent.outbox ==> c in b.replica.outbox || Covered(b.replica.received, c)
    ensures Accounts(a, b, uploaded, |page|)
  {
    hide Advances, Covered;
  }

  lemma SizesOf(a: Checkpoint, b: Checkpoint, uploaded: nat, downloaded: nat)
    requires Accounts(a, b, uploaded, downloaded)
    ensures LogOf(a.moment.resource) <= LogOf(b.moment.resource)
    ensures |b.replica.outbox| + uploaded <= |a.replica.outbox|
  {
    hide Covered;
  }

  lemma AccountsForNothing(a: Checkpoint)
    ensures Accounts(a, a, 0, 0)
  {
  }

  lemma StoredWithCursor(r: Replica, cursor: nat, changes: seq<Change>, now: nat)
    requires ApplyRemoteBatch(r, cursor, changes, now).Ok?
    ensures ApplyRemoteBatch(r, cursor, changes, now).value.cursor == cursor
    ensures ApplyRemoteBatch(r, cursor, changes, now).value.received == r.received + changes
  {
  }

  /** So after the reply every row that is gone has been received, or a newer change of its entity has. */
  lemma RoundAccounts(before: Replica, after: Replica, upload: Option<Envelope>, page: seq<Change>, log: seq<Envelope>)
    requires UploadMatches(before) && RowsGone(before, after, upload, page)
    requires after.received == before.received + page == ChangesOf(log)
    requires upload.Some? ==> before.pending.Some? && before.pending.value.envelope == upload.value && upload.value in log
    ensures forall c :: c in before.outbox ==> c in after.outbox || Covered(after.received, c)
  {
    hide ChangesOf, Covered, UploadMatches;
    forall c | c in before.outbox && c !in after.outbox ensures Covered(after.received, c) {
      if Covered(page, c) {
        CoveredByMore(page, after.received, c);
      } else {
        AcknowledgedIsCovered(before, log, c);
      }
    }
  }

  /** The first row of the outbox is in every new upload, so it goes when that upload is acknowledged. */
  lemma FirstRowGoes(length: seq<Change> -> nat, vault: nat, device: nat, before: Replica, sent: Replica, after: Replica,
                     result: Result<Option<Envelope>, SyncError>)
    requires Prepared(length, vault, device, before, sent, result) && result.Ok?
    requires result.value.Some? ==> sent.pending.Some? && forall c :: c in after.outbox ==> c.id !in sent.pending.value.changeIds
    ensures before.pending.None? && before.outbox != [] ==> before.outbox[0] !in after.outbox
    ensures result.value.None? ==> before.pending.None? && sent.pending.None?
  {
    hide Sizes, NoneFits;
    if before.pending.None? && before.outbox != [] {
      var k: nat, id: nat :| Chosen(length, before.outbox, k) && Saved(vault, device, before, sent, result, k, id);
      var batch := before.outbox[..Sizes(FirstSize(before.outbox))[k]];
      assert ChangeIds(batch)[0] == before.outbox[0].id;
    }
  }

  class CloudSyncManager {
    const device: nat
    /** Ciphertext length, which encryption makes a function of the batch. */
    const length: seq<Change> -> nat
    /** The random identifiers drawn for new envelopes, in order. */
    const uuids: nat -> nat
    const transport: RemoteObject
    var drawn: nat
    var replica: Replica

    ghost predicate Valid()
      reads this, transport
    {
      && transport.Valid()
      && replica.cursor <= |transport.Contents()|
      && replica.received == ChangesOf(transport.Contents()[..replica.cursor])
      && UploadMatches(replica)
    }

    constructor (device: nat, length: seq<Change> -> nat, uuids: nat -> nat, transport: RemoteObject)
      requires transport.Valid()
      ensures Valid() && replica == EMPTY_REPLICA && this.transport == transport
    {
      this.device, this.length, this.uuids, this.transport := device, length, uuids, transport;
      drawn, replica := 0, EMPTY_REPLICA;
    }

    /** A local edit is captured at the end of the outbox; its identifier is new. */
    method RecordEdit(id: nat, entity: nat, body: nat, now: nat) returns (change: Change)
      requires Valid() && forall c :: c in replica.outbox ==> c.id != id
      requires replica.pending.Some? ==> id !in replica.pending.value.changeIds
      modifies this`replica
      ensures Valid()
      ensures (replica, change) == RecordLocal(old(replica), device, id, entity, body, now)
      ensures replica.outbox == old(replica.outbox) + [change] && replica.received == old(replica.received)
    {
      var recorded := RecordLocal(replica, device, id, entity, body, now);
      replica, change := recorded.0, recorded.1;
    }

    /** A saved upload is returned as it is. Otherwise the first batch size whose ciphertext fits is sealed and
        saved, and the size error is given exactly when none of the tried sizes fits. */
    method PrepareUpload() returns (result: Result<Option<Envelope>, SyncError>)
      modifies this
      ensures Prepared(length, transport.vault, device, old(replica), replica, result)
      ensures result.Ok? && result.value.Some? && old(replica.pending).None? ==>
                old(drawn) < drawn && result.value.value.id == uuids(drawn - 1)
    {
      hide Sizes, NoneFits, Seal, ChangeIds;
      if replica.pending.Some? {
        return Ok(Some(replica.pending.value.envelope));
      }
      if replica.outbox == [] {
        return Ok(None);
      }
      var sealed: Result<PendingUpload, SyncError>;
      sealed, drawn := SealBatch(length, uuids, drawn, transport.vault, device, replica);
      if sealed.Err? {
        return Err(sealed.error);
      }
      ghost var k, id :| Chosen(length, replica.outbox, k) && sealed.value == UploadOf(transport.vault, device, replica, k, id);
      replica := replica.(pending := Some(sealed.value));
      result := Ok(Some(sealed.value.envelope));
      assert Saved(transport.vault, device, old(replica), replica, result, k, id);
    }

    ghost function Here(): Checkpoint
      reads this, transport
    {
      Checkpoint(replica, transport.Now())
    }

    /** One round: prepare, exchange, apply the page with its cursor, acknowledge. A round that fails leaves
        the cursor and what was received as they were; one that succeeds has received everything that was
        in the log when it began. */
    method SyncRound() returns (result: Result<(nat, nat), SyncError>)
      requires Valid()
      modifies this, transport
      ensures Valid()
      ensures Round(length, device, transport.provider, transport.vault, old(replica), old(transport.Now()),
                    replica, transport.Now(), result)
      ensures result.Err? ==>
                && replica.cursor == old(replica.cursor) && replica.received == old(replica.received)
                && replica.outbox == old(replica.outbox) && result.error != NotDrained
                && Accounts(old(Here()), Here(), 0, 0)
      ensures result.Ok? ==>
                && |old(transport.Contents())| <= replica.cursor && replica.pending.None?
                && Accounts(old(Here()), Here(), result.value.0, result.value.1)
      // A new batch leaves with its round: then the outbox is shorter.
      ensures result.Ok? && old(replica.pending).None? && old(replica.outbox) != [] ==>
                |replica.outbox| < |old(replica.outbox)|
    {
      hide ChangesOf, Covered, UploadMatches, Prepared, AtomicExchange, RepliedTo, Session, Advances, Accounts, Overtaken;
      ghost var start := Here();
      var prepared := PrepareUpload();
      PreparedMatches(length, transport.vault, device, old(replica), replica, prepared);
      NoAdvance(transport.Now());
      if prepared.Err? {
        SameRows(start, Here());
        return Err(prepared.error);
      }
      var upload := prepared.value;
      var request := Request(Some(replica.cursor), upload);
      ghost var sent := replica;
      var exchanged := transport.Exchange(request);
      Interfered(start.moment, transport.Now());
      KeptPrefix(old(transport.Contents()), transport.Contents(), replica);
      if exchanged.Err? {
        SameRows(start, Here());
        return Err(Exchange(exchanged.error));
      }
      ghost var pre, post :| old(transport.Contents()) <= pre && post <= transport.Contents()
        && AtomicExchange(pre, request) == Ok((post, exchanged.value));
      PageReceived(old(transport.Contents()), transport.Contents(), replica, pre, post, request, exchanged.value);
      var now: nat :| now >= 0;
      result := ApplyReply(upload, exchanged.value, now);
      SameRows(start, Checkpoint(sent, transport.Now()));
      assert Answers(transport.provider, transport.vault, sent, start.moment, replica, transport.Now(), upload, result);
      if result.Ok? {
        FirstRowGoes(length, transport.vault, device, old(replica), sent, replica, prepared);
        RoundAccounts(sent, replica, upload, ChangesOf(exchanged.value.envelopes),
                      transport.Contents()[..exchanged.value.cursor]);
        RoundIs(start, sent, Here(), upload, ChangesOf(exchanged.value.envelopes), result.value.0);
      }
    }

    /** The second half of a round: the page is opened and stored with its cursor, then the upload that was sent is
        acknowledged. The rows that go are those the page covers and those the upload stands for. */
    method ApplyReply(upload: Option<Envelope>, response: Response, now: nat) returns (result: Result<(nat, nat), SyncError>)
      requires UploadMatches(replica)
      requires response.cursor <= |transport.Contents()|
      requires replica.received + ChangesOf(response.envelopes) == ChangesOf(transport.Contents()[..response.cursor])
      requires upload.Some? ==> replica.pending.Some? && replica.pending.value.envelope == upload.value
      modifies this`replica
      ensures UploadMatches(replica)
      ensures RepliedTo(transport.vault, old(replica), replica, upload, response, now, result)
      ensures result.Err? ==> replica == old(replica) && result.error != NotDrained
      ensures result.Ok? ==>
                && replica.cursor == response.cursor
                && replica.received == old(replica.received) + ChangesOf(response.envelopes)
                && result.value.1 == |ChangesOf(response.envelopes)|
                && replica.pending == (if upload.Some? then None else old(replica.pending))
                && |replica.outbox| + result.value.0 <= |old(replica.outbox)|
                && (|replica.outbox| == |old(replica.outbox)| ==> replica.outbox == old(replica.outbox))
      ensures result.Ok? ==>
                RowsGone(old(replica), replica, upload, ChangesOf(response.envelopes))
    {
      hide ChangesOf, ApplyRemoteBatch, Covered;
      var unsealed := CollectChanges(transport.vault, response.envelopes);
      if unsealed.Err? {
        return Err(BadPage(unsealed.error));
      }
      OpenPageMeaning(transport.vault, response.envelopes);
      var applied := ApplyRemoteBatch(replica, response.cursor, unsealed.value, now);
      if applied.Err? {
        return Err(Storage(applied.error));
      }
      RowsOfPage(replica, response.cursor, unsealed.value, now);
      StoredWithCursor(replica, response.cursor, unsealed.value, now);
      replica := applied.value;
      var uploaded := 0;
      if upload.Some? {
        AcknowledgeMeaning(replica, upload.value.id);
        var acknowledged := Acknowledge(replica, upload.value.id);
        replica, uploaded := acknowledged.value.0, acknowledged.value.1;
      }
      FewerRowsMatch(old(replica), replica);
      result := Ok((uploaded, |unsealed.value|));
    }

    /** Rounds until nothing is left to upload. A run that returns a report ended with an empty outbox and has
        received everything that was in the log when it began; so every row it began with has been received
        back, or a newer change of its entity has. The bound on rounds ends a run only when there was a
        row for each of them. */
    method RunSync() returns (result: Result<Report, SyncError>)
      requires Valid()
      modifies this, transport
      ensures Valid()
      ensures exists points, done ::
                && |points| > 0 && points[0] == old(Here())
                && Runs(length, device, transport.provider, transport.vault, points, done, Here(), result)
      ensures exists uploaded, downloaded :: Accounts(old(Here()), Here(), uploaded, downloaded)
      ensures result.Ok? ==>
                && replica.outbox == []
                && Accounts(old(Here()), Here(), result.value.uploaded, result.value.downloaded)
                && result.value.cursor == replica.cursor
                && |old(transport.Contents())| <= replica.cursor
      ensures result == Err(NotDrained) ==>
                |old(replica.outbox)| >= MAX_SYNC_ROUNDS + if old(replica.pending).None? then 1 else 0
    {
      hide ChangesOf, Covered, UploadMatches, Round, Unfinished, Accounts, Advances, Valid;
      ghost var start, points, done: seq<(nat, nat)> := Here(), [Here()], [];
      NoRounds(length, device, transport.provider, transport.vault, points);
      AccountsForNothing(start);
      var report := Report(0, 0, 0);
      for round := 0 to MAX_SYNC_ROUNDS
        invariant Valid() && Accounts(start, Here(), report.uploaded, report.downloaded)
        invariant |points| == |done| + 1 && |done| == round && points[0] == start && points[round] == Here()
        invariant Unfinished(length, device, transport.provider, transport.vault, points, done)
        invariant Total(done) == (report.uploaded, report.downloaded)
        invariant round == 0 ==> replica == old(replica)
        invariant round > 0 ==>
                    && replica.pending.None? && replica.outbox != []
                    && |replica.outbox| + round - (if old(replica.pending).None? then 0 else 1) <= |old(replica.outbox)|
      {
        ghost var before := Here();
        var counts := SyncRound();
        if counts.Err? {
          AccountsFurther(start, before, Here(), report.uploaded, report.downloaded, 0, 0);
          assert Runs(length, device, transport.provider, transport.vault, points, done, Here(), Err(counts.error));
          return Err(counts.error);
        }
        AccountsFurther(start, before, Here(), report.uploaded, report.downloaded, counts.value.0, counts.value.1);
        SizesOf(start, before, report.uploaded, report.downloaded);
        SizesOf(before, Here(), counts.value.0, counts.value.1);
        TotalMore(done, counts.value);
        report := report.(uploaded := report.uploaded + counts.value.0, downloaded := report.downloaded + counts.value.1);
        if ExportPending(replica, 1) == [] {
          report := report.(cursor := replica.cursor);
          assert Runs(length, device, transport.provider, transport.vault, points, done, Here(), Ok(report));
          return Ok(report);
        }
        OneMoreRound(length, device, transport.provider, transport.vault, points, done, counts.value, Here());
        points, done := points + [Here()], done + [counts.value];
      }
      assert Runs(length, device, transport.provider, transport.vault, points, done, Here(), Err(NotDrained));
      result := Err(NotDrained);
    }
  }
}
