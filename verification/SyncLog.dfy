/** The append-only envelope log that every device of a vault shares, and the one step that reads and
    extends it. `ApplyObjectExchange` is the step of the real providers; `AtomicExchange` is the
    in-memory transport that serves as the reference for what a sync transport must do.

    Envelope, change, vault and entity identifiers are opaque; only their equality is used. Device identifiers are
    ordered besides, as their texts are. */
module SyncLog {
  import opened Wrappers

  const OBJECT_STORE_FORMAT := "vibeshell-encrypted-sync"
  const OBJECT_STORE_VERSION: nat := 1
  const MAX_REMOTE_CHANGES_PER_PAGE: nat := 10_000
  const SYNC_CHANGE_SCHEMA_VERSION: nat := 1

  /** A hybrid timestamp, ordered by milliseconds and then by device. */
  datatype Revision = Revision(millis: nat, device: nat)

  predicate Before(a: Revision, b: Revision) {
    a.millis < b.millis || (a.millis == b.millis && a.device < b.device)
  }

  predicate AtMost(a: Revision, b: Revision) {
    a == b || Before(a, b)
  }

  datatype Change = Change(id: nat, entity: nat, revision: Revision, body: nat)

  datatype Batch = Batch(device: nat, changes: seq<Change>)

  /** An encrypted batch: the authenticated context and the batch that decryption gives back. */
  datatype Sealed = Sealed(vault: nat, schema: nat, device: nat, batchId: nat, cursor: nat, batch: Batch)

  datatype Envelope = Envelope(id: nat, ciphertext: Sealed)

  datatype Document = Document(format: string, version: nat, vault: nat, envelopes: seq<Envelope>)

  /** A cursor is the decimal text of an envelope count, kept here as the count; None is a first sync. */
  datatype Request = Request(cursor: Option<nat>, envelope: Option<Envelope>)

  datatype Response = Response(cursor: nat, envelopes: seq<Envelope>, hasMore: bool)

  datatype Exchanged = Exchanged(document: Document, response: Response, changed: bool)

  datatype ExchangeError =
    | UnsupportedDocument
    | OtherVault
    | TooManyEnvelopes
    | CursorAhead
    | EnvelopeIdCollision

  function NewDocument(vault: nat): Document {
    Document(OBJECT_STORE_FORMAT, OBJECT_STORE_VERSION, vault, [])
  }

  function Validate(document: Document, vault: nat): Option<ExchangeError> {
    if document.format != OBJECT_STORE_FORMAT || document.version != OBJECT_STORE_VERSION then
      Some(UnsupportedDocument)
    else if document.vault != vault then
      Some(OtherVault)
    else if |document.envelopes| > MAX_REMOTE_CHANGES_PER_PAGE then
      Some(TooManyEnvelopes)
    else
      None
  }

  predicate HasId(log: seq<Envelope>, id: nat) {
    exists i :: 0 <= i < |log| && log[i].id == id
  }

  /** The first envelope with the given identifier. */
  function Find(log: seq<Envelope>, id: nat): (found: Option<Envelope>)
    ensures found.Some? ==> found.value in log && found.value.id == id
    ensures found.None? <==> !HasId(log, id)
  {
    if log == [] then None
    else if log[0].id == id then assert HasId(log, id); Some(log[0])
    else
      var rest := Find(log[1..], id);
      assert HasId(log, id) ==> HasId(log[1..], id) by {
        if HasId(log, id) {
          var i :| 0 <= i < |log| && log[i].id == id;
          assert log[1..][i - 1].id == id;
        }
      }
      rest
  }

  function CursorOf(request: Request): nat {
    match request.cursor
    case None => 0
    case Some(cursor) => cursor
  }

  function ApplyObjectExchange(document: Document, vault: nat, request: Request): Result<Exchanged, ExchangeError> {
    var invalid := Validate(document, vault);
    if invalid.Some? then Err(invalid.value)
    else
      var cursor := CursorOf(request);
      if cursor > |document.envelopes| then Err(CursorAhead)
      else
        match request.envelope
        case None => Ok(Page(document, cursor, false))
        case Some(upload) =>
          match Find(document.envelopes, upload.id)
          case Some(existing) =>
            if existing != upload then Err(EnvelopeIdCollision) else Ok(Page(document, cursor, false))
          case None =>
            Ok(Page(document.(envelopes := document.envelopes + [upload]), cursor, true))
  }

  function Page(document: Document, cursor: nat, changed: bool): Exchanged
    requires cursor <= |document.envelopes|
  {
    Exchanged(document, Response(|document.envelopes|, document.envelopes[cursor..], false), changed)
  }

  /** The reference transport: one atomic step on a list of envelopes. */
  function AtomicExchange(log: seq<Envelope>, request: Request): Result<(seq<Envelope>, Response), ExchangeError> {
    var cursor := CursorOf(request);
    var existing := if request.envelope.None? then None else Find(log, request.envelope.value.id);
    if existing.Some? && existing.value != request.envelope.value then Err(EnvelopeIdCollision)
    else
      var next := if request.envelope.Some? && existing.None? then log + [request.envelope.value] else log;
      var returned := if cursor <= |next| then next[cursor..] else [];
      Ok((next, Response(|next|, returned, false)))
  }

  ghost predicate DistinctIds(log: seq<Envelope>) {
    forall i, j :: 0 <= i < j < |log| ==> log[i].id != log[j].id
  }

  /** When the exchange on a document can be refused, and nothing else refuses it. */
  ghost predicate Acceptable(document: Document, vault: nat, request: Request) {
    && document.format == OBJECT_STORE_FORMAT
    && document.version == OBJECT_STORE_VERSION
    && document.vault == vault
    && |document.envelopes| <= MAX_REMOTE_CHANGES_PER_PAGE
    && CursorOf(request) <= |document.envelopes|
    && (request.envelope.Some? ==>
          forall e :: e in document.envelopes && e.id == request.envelope.value.id ==> e == request.envelope.value)
  }

  /** On a document with distinct identifiers the provider step succeeds exactly on acceptable inputs, and
      then it is the reference step: same log, same reply, `changed` telling whether the log grew. */
  lemma ExchangeRefinesAtomicLog(document: Document, vault: nat, request: Request)
    requires DistinctIds(document.envelopes)
    ensures ApplyObjectExchange(document, vault, request).Ok? <==> Acceptable(document, vault, request)
    ensures ApplyObjectExchange(document, vault, request).Ok? ==>
              var done := ApplyObjectExchange(document, vault, request).value;
              && AtomicExchange(document.envelopes, request) == Ok((done.document.envelopes, done.response))
              && done.document == document.(envelopes := done.document.envelopes)
              && (done.changed <==> done.document.envelopes != document.envelopes)
  {
    if request.envelope.Some? {
      var upload := request.envelope.value;
      var found := Find(document.envelopes, upload.id);
      if found.Some? {
        forall e | e in document.envelopes && e.id == upload.id ensures e == found.value {
          var i :| 0 <= i < |document.envelopes| && document.envelopes[i] == e;
          var j :| 0 <= j < |document.envelopes| && document.envelopes[j] == found.value;
        }
      } else {
        forall e | e in document.envelopes ensures e.id != upload.id {
          var i :| 0 <= i < |document.envelopes| && document.envelopes[i] == e;
        }
        assert |document.envelopes + [upload]| != |document.envelopes|;
      }
    }
  }

  /** What one accepted exchange does to the log: it only appends, at most the uploaded envelope, keeps
      identifiers distinct, leaves the upload in the log exactly once, and replies with the log from the
      caller's cursor on. */
  lemma ExchangeAppends(document: Document, vault: nat, request: Request)
    requires DistinctIds(document.envelopes)
    requires ApplyObjectExchange(document, vault, request).Ok?
    ensures var done := ApplyObjectExchange(document, vault, request).value;
            var before, after := document.envelopes, done.document.envelopes;
            && before <= after && |after| <= |before| + 1
            && DistinctIds(after)
            && (forall e :: e in after && e !in before ==> request.envelope == Some(e))
            && (request.envelope.Some? ==> request.envelope.value in after)
            && done.response.cursor == |after|
            && CursorOf(request) <= |after|
            && done.response.envelopes == after[CursorOf(request)..]
  {
    var done := ApplyObjectExchange(document, vault, request).value;
    var before, after := document.envelopes, done.document.envelopes;
    if done.changed {
      var upload := request.envelope.value;
      assert after[|before|] == upload;
      forall i, j | 0 <= i < j < |after| ensures after[i].id != after[j].id {
        assert !HasId(before, upload.id);
        assert after[i] == before[i];
      }
    }
  }

  /** Sending the same request again, to any later version of the log, appends nothing and is not refused
      for its envelope: an upload whose reply was lost can be repeated. */
  lemma ResendIsHarmless(document: Document, vault: nat, request: Request, later: Document)
    requires DistinctIds(document.envelopes) && DistinctIds(later.envelopes)
    requires ApplyObjectExchange(document, vault, request).Ok?
    requires ApplyObjectExchange(document, vault, request).value.document.envelopes <= later.envelopes
    requires Validate(later, vault).None?
    ensures var again := ApplyObjectExchange(later, vault, request);
            again.Ok? && !again.value.changed && again.value.document == later
            && ApplyObjectExchange(document, vault, request).value.response.envelopes <= again.value.response.envelopes
  {
    ExchangeAppends(document, vault, request);
    var after := ApplyObjectExchange(document, vault, request).value.document.envelopes;
    if request.envelope.Some? {
      var upload := request.envelope.value;
      var i :| 0 <= i < |after| && after[i] == upload;
      assert later.envelopes[i] == upload;
      forall e | e in later.envelopes && e.id == upload.id ensures e == upload {
        var j :| 0 <= j < |later.envelopes| && later.envelopes[j] == e;
      }
      assert HasId(later.envelopes, upload.id);
    }
    ExchangeRefinesAtomicLog(later, vault, request);
    var c := CursorOf(request);
    assert forall k :: 0 <= k < |after[c..]| ==> after[c..][k] == later.envelopes[c..][k];
  }

  /** The size check is made before the push. So an accepted exchange leaves a document that is refused from then
      on exactly when it added an envelope to a log that was just full; every other one can be exchanged again. */
  lemma FullLogRefusesEverything(document: Document, vault: nat, request: Request)
    requires ApplyObjectExchange(document, vault, request).Ok?
    ensures var done := ApplyObjectExchange(document, vault, request).value;
            && (Validate(done.document, vault).Some? <==>
                done.changed && |document.envelopes| == MAX_REMOTE_CHANGES_PER_PAGE)
            && (Validate(done.document, vault).Some? ==>
                  |done.document.envelopes| == MAX_REMOTE_CHANGES_PER_PAGE + 1
                  && forall next :: ApplyObjectExchange(done.document, vault, next) == Err(TooManyEnvelopes))
  {
    var done := ApplyObjectExchange(document, vault, request).value;
    assert done.changed ==> done.document == document.(envelopes := document.envelopes + [request.envelope.value]);
    assert !done.changed ==> done.document == document;
  }

  function ChangesOf(log: seq<Envelope>): seq<Change> {
    if log == [] then [] else ChangesOf(log[..|log| - 1]) + log[|log| - 1].ciphertext.batch.changes
  }

  lemma {:induction false} ChangesOfAppend(a: seq<Envelope>, b: seq<Envelope>)
    ensures ChangesOf(a + b) == ChangesOf(a) + ChangesOf(b)
  {
    if b == [] {
      assert a + b == a;
    } else {
      var front := b[..|b| - 1];
      ChangesOfAppend(a, front);
      assert (a + b)[..|a + b| - 1] == a + front;
      assert (a + b)[|a + b| - 1] == b[|b| - 1];
    }
  }

  /** A change is in the changes of a log exactly when some envelope of the log carries it. */
  lemma {:induction false} ChangesOfMember(log: seq<Envelope>, c: Change)
    ensures c in ChangesOf(log) <==> exists e :: e in log && c in e.ciphertext.batch.changes
  {
    if log != [] {
      var front, last := log[..|log| - 1], log[|log| - 1];
      ChangesOfMember(front, c);
      assert log == front + [last];
    }
  }

  /** Two consecutive pages are the page that one exchange over both would have returned: the second
      starts exactly where the first ended. */
  lemma PagesTile(first: seq<Envelope>, second: seq<Envelope>, cursor: nat)
    requires first <= second && cursor <= |first|
    ensures first[cursor..] + second[|first|..] == second[cursor..]
    ensures ChangesOf(first[cursor..]) + ChangesOf(second[|first|..]) == ChangesOf(second[cursor..])
  {
    ChangesOfAppend(first[cursor..], second[|first|..]);
    assert first[cursor..] + second[|first|..] == second[cursor..];
  }

  datatype PageError = BatchIdMismatch | OtherVaultBatch | UnsupportedSchema | DeviceMismatch | TooManyChanges

  /** Decryption of one envelope: the authenticated context must be the one the envelope claims. */
  function OpenEnvelope(vault: nat, e: Envelope): Result<seq<Change>, PageError> {
    var sealed := e.ciphertext;
    if sealed.batchId != e.id then Err(BatchIdMismatch)
    else if sealed.vault != vault then Err(OtherVaultBatch)
    else if sealed.schema != SYNC_CHANGE_SCHEMA_VERSION then Err(UnsupportedSchema)
    else if sealed.batch.device != sealed.device then Err(DeviceMismatch)
    else Ok(sealed.batch.changes)
  }

  /** The envelope is what it claims to be: sealed under its own identifier, for this vault, in the schema that is
      spoken here, by the device whose changes it carries. */
  predicate Authentic(vault: nat, e: Envelope) {
    && e.id == e.ciphertext.batchId && e.ciphertext.vault == vault
    && e.ciphertext.schema == SYNC_CHANGE_SCHEMA_VERSION && e.ciphertext.device == e.ciphertext.batch.device
  }

  /** Only an authentic envelope opens, to the changes it carries, and a refusal names what is wrong. */
  lemma OpenEnvelopeMeaning(vault: nat, e: Envelope)
    ensures OpenEnvelope(vault, e).Ok? <==> Authentic(vault, e)
    ensures OpenEnvelope(vault, e).Ok? ==> OpenEnvelope(vault, e).value == e.ciphertext.batch.changes
    ensures OpenEnvelope(vault, e) == Err(BatchIdMismatch) <==> e.id != e.ciphertext.batchId
    ensures OpenEnvelope(vault, e) == Err(OtherVaultBatch) ==> e.ciphertext.vault != vault
    ensures OpenEnvelope(vault, e) == Err(UnsupportedSchema) ==> e.ciphertext.schema != SYNC_CHANGE_SCHEMA_VERSION
    ensures OpenEnvelope(vault, e) == Err(DeviceMismatch) ==> e.ciphertext.device != e.ciphertext.batch.device
    ensures OpenEnvelope(vault, e) != Err(TooManyChanges)
  {
  }

  /** The changes of a whole page; the running total is checked after every envelope. */
  function OpenPage(vault: nat, page: seq<Envelope>): Result<seq<Change>, PageError> {
    if page == [] then Ok([])
    else
      var front := OpenPage(vault, page[..|page| - 1]);
      if front.Err? then front
      else
        var next := OpenEnvelope(vault, page[|page| - 1]);
        if next.Err? then next
        else if |front.value + next.value| > MAX_REMOTE_CHANGES_PER_PAGE then Err(TooManyChanges)
        else Ok(front.value + next.value)
  }

  /** A page opens exactly when each of its envelopes is authentic and the total stays within the bound, and it
      opens to the changes of its envelopes in order. */
  lemma {:induction false} OpenPageMeaning(vault: nat, page: seq<Envelope>)
    ensures OpenPage(vault, page).Ok? <==>
            (forall e :: e in page ==> Authentic(vault, e)) && |ChangesOf(page)| <= MAX_REMOTE_CHANGES_PER_PAGE
    ensures OpenPage(vault, page).Ok? ==> OpenPage(vault, page).value == ChangesOf(page)
  {
    if page != [] {
      OpenEnvelopeMeaning(vault, page[|page| - 1]);
      var front, last := page[..|page| - 1], page[|page| - 1];
      OpenPageMeaning(vault, front);
      assert page == front + [last];
      assert forall e :: e in page <==> e in front || e == last;
    }
  }

  /** The first problem of a page is the problem of the page. */
  lemma {:induction false} PageErrorStays(vault: nat, page: seq<Envelope>, i: nat)
    requires i <= |page| && OpenPage(vault, page[..i]).Err?
    ensures OpenPage(vault, page) == OpenPage(vault, page[..i])
  {
    if i == |page| {
      assert page[..i] == page;
    } else {
      var front := page[..|page| - 1];
      assert front[..i] == page[..i];
      PageErrorStays(vault, front, i);
    }
  }

  /** The loop that opens the envelopes of a page one by one. */
  method CollectChanges(vault: nat, page: seq<Envelope>) returns (result: Result<seq<Change>, PageError>)
    ensures result == OpenPage(vault, page)
  {
    var changes: seq<Change> := [];
    for i := 0 to |page|
      invariant OpenPage(vault, page[..i]) == Ok(changes)
    {
      assert page[..i + 1] == page[..i] + [page[i]];
      var unsealed := OpenEnvelope(vault, page[i]);
      if unsealed.Err? {
        PageErrorStays(vault, page, i + 1);
        return Err(unsealed.error);
      }
      changes := changes + unsealed.value;
      if |changes| > MAX_REMOTE_CHANGES_PER_PAGE {
        PageErrorStays(vault, page, i + 1);
        return Err(TooManyChanges);
      }
    }
    assert page[..|page|] == page;
    result := Ok(changes);
  }
}
