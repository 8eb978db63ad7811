/** The remote object as one device sees it, and the fetch / apply / conditional-write loops that exchange
    with it. Between any two requests other devices may have written: `OthersWrite` is their interference,
    of which a caller knows only that it appends. What the network does to each request is a parameter. */
module ObjectTransport {
  import opened Wrappers
  import opened SyncLog
  import opened SyncProtocol

  datatype TransportError =
    | Refused(reason: ExchangeError)
    | ReadFailed
    | WriteFailed
    | NoEntityTag
    | ChangedRepeatedly

  datatype WriteReply = Written | PreconditionFailed | Failed

  /** A request is lost, or only its answer is, or it is answered, with an entity tag or without one. */
  datatype Fate = Lost | AnswerLost | Answered(tagged: bool)

  /** What a device asked of the object and what it was told. */
  datatype Got = Got(document: Option<Document>, etag: Option<nat>)

  datatype Put = Put(write: WriteRequest, reply: WriteReply)

  /** What a read lets the device do next: nothing without a document, otherwise the exchange on its copy. */
  function OnCopy(vault: nat, request: Request, got: Option<Document>): Result<Exchanged, TransportError> {
    match got
    case None => Err(ReadFailed)
    case Some(document) =>
      match ApplyObjectExchange(document, vault, request)
      case Err(reason) => Err(TransportError.Refused(reason))
      case Ok(done) => Ok(done)
  }

  /** The write sends back the changed copy of the read, under its tag; a gist is only written under a tag. */
  ghost predicate SendsBack(provider: Provider, vault: nat, request: Request, got: Got, put: Put) {
    var done := OnCopy(vault, request, got.document);
    && done.Ok? && done.value.changed && put.write == WriteRequest(got.etag, done.value.document)
    && (provider == GithubGist ==> got.etag.Some?)
  }

  /** A read that ends a call: it failed, or there is nothing to write, or nothing to write it under. */
  ghost predicate EndsReading(provider: Provider, vault: nat, request: Request, got: Got, result: Result<Response, TransportError>) {
    var done := OnCopy(vault, request, got.document);
    if done.Err? then result == Err(done.error)
    else if !done.value.changed then result == Ok(done.value.response)
    else provider == GithubGist && got.etag.None? && result == Err(NoEntityTag)
  }

  /** A write that ends a call as its `tries`-th one: only the fourth does so when it is refused. */
  ghost predicate EndsWriting(vault: nat, request: Request, got: Got, put: Put, tries: nat,
                              result: Result<Response, TransportError>) {
    match put.reply
    case Written => OnCopy(vault, request, got.document).Ok? && result == Ok(OnCopy(vault, request, got.document).value.response)
    case Failed => result == Err(WriteFailed)
    case PreconditionFailed => tries == MAX_WRITE_ATTEMPTS && result == Err(ChangedRepeatedly)
  }

  /** Attempts that all ended with a refused write. */
  ghost predicate Retried(provider: Provider, vault: nat, request: Request, gets: seq<Got>, puts: seq<Put>) {
    && |gets| == |puts|
    && forall k :: 0 <= k < |gets| ==>
                     SendsBack(provider, vault, request, gets[k], puts[k]) && puts[k].reply == PreconditionFailed
  }

  /** One call of `exchange`: fewer than four refused attempts, and then the one that decides the result. */
  ghost predicate Session(provider: Provider, vault: nat, request: Request, gets: seq<Got>, puts: seq<Put>,
                          result: Result<Response, TransportError>) {
    var n := |gets| - 1;
    && 0 <= n < MAX_WRITE_ATTEMPTS && n <= |puts| <= n + 1
    && Retried(provider, vault, request, gets[..n], puts[..n])
    && if |puts| == n then EndsReading(provider, vault, request, gets[n], result)
       else
         && SendsBack(provider, vault, request, gets[n], puts[n])
         && EndsWriting(vault, request, gets[n], puts[n], n + 1, result)
  }

  /** The write was refused although it named the version it was computed from. */
  predicate Late(put: Put) {
    put.write.expected.Some? && put.reply == PreconditionFailed
  }

  function Overtaken(puts: seq<Put>): nat {
    if puts == [] then 0
    else Overtaken(puts[..|puts| - 1]) + if Late(puts[|puts| - 1]) then 1 else 0
  }

  lemma OvertakenMore(puts: seq<Put>, put: Put)
    ensures Overtaken([]) == 0
    ensures Overtaken(puts + [put]) == Overtaken(puts) + if Late(put) then 1 else 0
  {
    assert (puts + [put])[..|puts|] == puts;
  }

  lemma NothingYet(provider: Provider, vault: nat, request: Request)
    ensures Retried(provider, vault, request, [], []) && Overtaken([]) == 0
  {
  }

  lemma SessionByRead(provider: Provider, vault: nat, request: Request, gets: seq<Got>, puts: seq<Put>, got: Got,
                      result: Result<Response, TransportError>)
    requires Retried(provider, vault, request, gets, puts) && |gets| < MAX_WRITE_ATTEMPTS
    requires EndsReading(provider, vault, request, got, result)
    ensures Session(provider, vault, request, gets + [got], puts, result)
  {
    hide Retried, EndsReading, SendsBack;
    LengthsAgree(provider, vault, request, gets, puts);
    assert (gets + [got])[..|gets|] == gets && puts[..|gets|] == puts;
  }

  lemma SessionByWrite(provider: Provider, vault: nat, request: Request, gets: seq<Got>, puts: seq<Put>, got: Got, put: Put,
                       result: Result<Response, TransportError>)
    requires Retried(provider, vault, request, gets, puts) && |gets| < MAX_WRITE_ATTEMPTS
    requires SendsBack(provider, vault, request, got, put)
    requires EndsWriting(vault, request, got, put, |gets| + 1, result)
    ensures Session(provider, vault, request, gets + [got], puts + [put], result)
  {
    hide Retried, EndsWriting, SendsBack;
    LengthsAgree(provider, vault, request, gets, puts);
    assert (gets + [got])[..|gets|] == gets && (puts + [put])[..|gets|] == puts;
  }

  lemma LengthsAgree(provider: Provider, vault: nat, request: Request, gets: seq<Got>, puts: seq<Put>)
    requires Retried(provider, vault, request, gets, puts)
    ensures |gets| == |puts|
  {
  }

  lemma RetriedOnce(provider: Provider, vault: nat, request: Request, gets: seq<Got>, puts: seq<Put>, got: Got, put: Put)
    requires Retried(provider, vault, request, gets, puts)
    requires SendsBack(provider, vault, request, got, put) && put.reply == PreconditionFailed
    ensures Retried(provider, vault, request, gets + [got], puts + [put])
  {
    hide SendsBack;
  }

  lemma {:induction false} AllLate(puts: seq<Put>)
    requires forall k :: 0 <= k < |puts| ==> Late(puts[k])
    ensures Overtaken(puts) == |puts|
  {
    if puts != [] {
      AllLate(puts[..|puts| - 1]);
    }
  }

  /** A call gives up for conflicts after exactly four refused writes; for a gist each of them named its version. */
  lemma GivesUpAfterFour(provider: Provider, vault: nat, request: Request, gets: seq<Got>, puts: seq<Put>)
    requires Session(provider, vault, request, gets, puts, Err(ChangedRepeatedly))
    ensures |puts| == MAX_WRITE_ATTEMPTS && Retried(provider, vault, request, gets, puts)
    ensures provider == GithubGist ==> Overtaken(puts) == MAX_WRITE_ATTEMPTS
  {
    hide OnCopy;
    var n := |gets| - 1;
    NotByReading(provider, vault, request, gets[n]);
    assert gets == gets[..n] + [gets[n]] && puts == puts[..n] + [puts[n]];
    RetriedOnce(provider, vault, request, gets[..n], puts[..n], gets[n], puts[n]);
    if provider == GithubGist {
      AllLate(puts);
    }
  }

  lemma NotByReading(provider: Provider, vault: nat, request: Request, got: Got)
    ensures !EndsReading(provider, vault, request, got, Err(ChangedRepeatedly))
  {
  }

  // ----- One object at several moments -----

  /** The object, every content a tag was given to, the envelopes that this device's own writes appended, and this
      device's requests with their answers. */
  datatype Moment = Moment(
    resource: Resource, tags: map<nat, Option<Document>>, ours: seq<Envelope>, gets: seq<Got>, puts: seq<Put>)

  function LogOf(resource: Resource): seq<Envelope> {
    if resource.Missing? then [] else EnvelopesOf(resource.file)
  }

  /** The log only grew, every tag still names what it named, and the object changes only together with the log. */
  ghost predicate Advances(from: Moment, to: Moment) {
    && LogOf(from.resource) <= LogOf(to.resource)
    && (LogOf(from.resource) == LogOf(to.resource) ==> to.resource == from.resource)
    && (forall t :: t in from.tags ==> t in to.tags && to.tags[t] == from.tags[t])
  }

  /** What other devices may do: this device asks nothing and adds nothing. */
  ghost predicate Interferes(from: Moment, to: Moment) {
    Advances(from, to) && to.ours == from.ours && to.gets == from.gets && to.puts == from.puts
  }

  /** A read answered with a document gives the current one. */
  ghost predicate ReadsAt(vault: nat, request: Request, from: Moment, to: Moment, got: Got,
                          done: Result<Exchanged, TransportError>) {
    && to == from.(gets := from.gets + [got])
    && done == OnCopy(vault, request, got.document)
    && (got.etag.Some? ==> from.resource.Stored? && got.etag.value == from.resource.tag)
    && (done.Ok? ==>
          && AtomicExchange(LogOf(from.resource), request) == Ok((done.value.document.envelopes, done.value.response))
          && if done.value.changed then
               request.envelope.Some? && done.value.document.envelopes == LogOf(from.resource) + [request.envelope.value]
             else done.value.document.envelopes == LogOf(from.resource))
  }

  /** A write takes effect on the version it names and on no other; it is refused when its precondition fails. */
  ghost predicate WritesAt(from: Moment, to: Moment, put: Put, base: seq<Envelope>, upload: Envelope) {
    && to.gets == from.gets && to.puts == from.puts + [put]
    && Advances(from, to)
    && (if to.ours == from.ours then to.resource == from.resource && put.reply != Written
        else
          && LogOf(from.resource) == base && LogOf(to.resource) == base + [upload] && to.ours == from.ours + [upload]
          && put.reply != PreconditionFailed)
    && (put.reply == PreconditionFailed ==> !Allows(from.resource, put.write))
  }

  /** A reply is what the reference transport answers on some version of the log that was current during the call,
      and the log has since passed through the reference transport's log. */
  ghost predicate Linearized(from: Moment, to: Moment, request: Request, response: Response) {
    exists pre, post :: LogOf(from.resource) <= pre && post <= LogOf(to.resource)
      && AtomicExchange(pre, request) == Ok((post, response))
  }

  /** What the device appended itself: nothing, or the envelope of its request, and then its write was answered with
      success or its answer is lost. */
  ghost predicate AppendedAtMost(from: Moment, to: Moment, request: Request, result: Result<Response, TransportError>) {
    || to.ours == from.ours
    || (request.envelope.Some? && to.ours == from.ours + [request.envelope.value]
        && (result.Ok? || result == Err(WriteFailed)))
  }

  /** A call from its start to its end. Its requests are a session that explains its result, and for every write that
      was refused under its tag another device's write landed. */
  ghost predicate Exchanges(provider: Provider, vault: nat, request: Request, from: Moment, to: Moment,
                            result: Result<Response, TransportError>) {
    && Advances(from, to)
    && (result.Ok? ==> Linearized(from, to, request, result.value))
    && AppendedAtMost(from, to, request, result)
    && from.gets <= to.gets && from.puts <= to.puts
    && Session(provider, vault, request, to.gets[|from.gets|..], to.puts[|from.puts|..], result)
    && |LogOf(to.resource)| >= |LogOf(from.resource)| + Overtaken(to.puts[|from.puts|..])
  }

  /** A call after `n` refused attempts. */
  ghost predicate Trying(provider: Provider, vault: nat, request: Request, from: Moment, to: Moment, n: nat) {
    && Advances(from, to) && to.ours == from.ours
    && from.gets <= to.gets && from.puts <= to.puts
    && |to.gets| == |from.gets| + n
    && Retried(provider, vault, request, to.gets[|from.gets|..], to.puts[|from.puts|..])
    && |LogOf(to.resource)| >= |LogOf(from.resource)| + Overtaken(to.puts[|from.puts|..])
  }

  lemma NothingTried(provider: Provider, vault: nat, request: Request, from: Moment)
    ensures Trying(provider, vault, request, from, from, 0)
  {
    assert from.gets[|from.gets|..] == [] && from.puts[|from.puts|..] == [];
    NothingYet(provider, vault, request);
  }

  lemma AdvancesFurther(a: Moment, b: Moment, c: Moment)
    requires Advances(a, b) && Advances(b, c)
    ensures Advances(a, c)
  {
  }

  lemma NoAdvance(at: Moment)
    ensures Advances(at, at)
  {
  }

  lemma Interfered(from: Moment, to: Moment)
    requires Advances(from, to)
    ensures LogOf(from.resource) <= LogOf(to.resource)
    ensures forall t :: t in from.tags ==> t in to.tags && to.tags[t] == from.tags[t]
  {
  }

  lemma Longer<T>(start: seq<T>, middle: seq<T>, more: T)
    requires start <= middle
    ensures (middle + [more])[|start|..] == middle[|start|..] + [more]
  {
  }

  /** A read that ends the call. */
  lemma ReadDecides(provider: Provider, vault: nat, request: Request, start: Moment, before: Moment, met: Moment, after: Moment,
                    n: nat, got: Got, done: Result<Exchanged, TransportError>, result: Result<Response, TransportError>)
    requires Trying(provider, vault, request, start, before, n) && n < MAX_WRITE_ATTEMPTS
    requires Interferes(before, met) && ReadsAt(vault, request, met, after, got, done)
    requires EndsReading(provider, vault, request, got, result)
    ensures Exchanges(provider, vault, request, start, after, result)
  {
    hide Retried, Overtaken, AtomicExchange, OnCopy, Session, LogOf;
    AdvancesFurther(start, before, met);
    var gets, puts := before.gets[|start.gets|..], before.puts[|start.puts|..];
    Longer(start.gets, before.gets, got);
    SessionByRead(provider, vault, request, gets, puts, got, result);
    if result.Ok? {
      assert Linearized(start, after, request, result.value);
    }
  }

  lemma RefusedMeansOvertaken(seen: Moment, met: Moment, put: Put)
    requires Advances(seen, met) && put.reply == PreconditionFailed && !Allows(met.resource, put.write)
    requires put.write.expected.Some? ==> seen.resource.Stored? && put.write.expected.value == seen.resource.tag
    ensures Late(put) ==> |LogOf(seen.resource)| < |LogOf(met.resource)|
  {
  }

  lemma Underlying(provider: Provider, vault: nat, request: Request, got: Got, put: Put)
    requires SendsBack(provider, vault, request, got, put)
    ensures put.write.expected == got.etag
  {
  }

  lemma ByWrite(provider: Provider, vault: nat, request: Request, gets: seq<Got>, puts: seq<Put>, got: Got, put: Put,
                done: Result<Exchanged, TransportError>)
    requires Retried(provider, vault, request, gets, puts) && |gets| < MAX_WRITE_ATTEMPTS
    requires SendsBack(provider, vault, request, got, put)
    requires done == OnCopy(vault, request, got.document) && done.Ok?
    ensures put.reply == Written ==>
              Session(provider, vault, request, gets + [got], puts + [put], Ok(done.value.response))
    ensures put.reply == Failed ==> Session(provider, vault, request, gets + [got], puts + [put], Err(WriteFailed))
    ensures put.reply == PreconditionFailed && |gets| + 1 == MAX_WRITE_ATTEMPTS ==>
              Session(provider, vault, request, gets + [got], puts + [put], Err(ChangedRepeatedly))
  {
    hide Retried, Session, SendsBack, OnCopy;
    match put.reply
    case Written => SessionByWrite(provider, vault, request, gets, puts, got, put, Ok(done.value.response));
    case Failed => SessionByWrite(provider, vault, request, gets, puts, got, put, Err(WriteFailed));
    case PreconditionFailed =>
      if |gets| + 1 == MAX_WRITE_ATTEMPTS {
        SessionByWrite(provider, vault, request, gets, puts, got, put, Err(ChangedRepeatedly));
      }
  }

  /** What a delivered write makes of the object. */
  lemma TakesEffect(from: Moment, to: Moment, put: Put, tag: nat, base: seq<Envelope>, upload: Envelope)
    requires LogOf(from.resource) == base && put.write.document.envelopes == base + [upload] && tag !in from.tags
    requires to == Moment(Stored(tag, Some(put.write.document)), from.tags[tag := Some(put.write.document)],
                          from.ours + [upload], from.gets, from.puts + [put])
    requires put.reply != PreconditionFailed
    ensures WritesAt(from, to, put, base, upload) && LogOf(to.resource) == base + [upload]
  {
    assert |from.ours + [upload]| > |from.ours|;
    assert base <= base + [upload];
  }

  lemma HasNoEffect(from: Moment, to: Moment, put: Put, base: seq<Envelope>, upload: Envelope)
    requires to == from.(puts := from.puts + [put]) && put.reply != Written
    requires put.reply == PreconditionFailed ==> !Allows(from.resource, put.write)
    ensures WritesAt(from, to, put, base, upload)
  {
  }

  /** A write: when it is refused the call goes on, unless it was the fourth; otherwise it ends the call. */
  lemma WriteDecides(provider: Provider, vault: nat, request: Request, start: Moment, before: Moment, met: Moment, seen: Moment,
                     later: Moment, after: Moment, n: nat, got: Got, done: Result<Exchanged, TransportError>, put: Put)
    requires Trying(provider, vault, request, start, before, n) && n < MAX_WRITE_ATTEMPTS
    requires Interferes(before, met) && ReadsAt(vault, request, met, seen, got, done) && done.Ok?
    requires SendsBack(provider, vault, request, got, put) && Interferes(seen, later)
    requires request.envelope.Some? && WritesAt(later, after, put, LogOf(met.resource), request.envelope.value)
    ensures put.reply == PreconditionFailed ==> Trying(provider, vault, request, start, after, n + 1)
    ensures put.reply == PreconditionFailed && n + 1 == MAX_WRITE_ATTEMPTS ==>
              Exchanges(provider, vault, request, start, after, Err(ChangedRepeatedly))
    ensures put.reply == Failed ==> Exchanges(provider, vault, request, start, after, Err(WriteFailed))
    ensures put.reply == Written ==> Exchanges(provider, vault, request, start, after, Ok(done.value.response))
  {
    hide Retried, Overtaken, AtomicExchange, OnCopy, Session, LogOf, SendsBack, EndsWriting;
    AdvancesFurther(start, before, met);
    AdvancesFurther(start, seen, later);
    AdvancesFurther(start, later, after);
    var gets, puts := before.gets[|start.gets|..], before.puts[|start.puts|..];
    Longer(start.gets, before.gets, got);
    Longer(start.puts, before.puts, put);
    OvertakenMore(puts, put);
    if put.reply == PreconditionFailed {
      Underlying(provider, vault, request, got, put);
      RefusedMeansOvertaken(seen, later, put);
      RetriedOnce(provider, vault, request, gets, puts, got, put);
    }
    ByWrite(provider, vault, request, gets, puts, got, put, done);
    if put.reply == Written {
      assert Linearized(start, after, request, done.value.response);
    }
  }

  class RemoteObject {
    const provider: Provider
    const vault: nat
    /** How many bytes a document takes when it is read and when it is written. */
    const bytes: DocumentBytes
    const network: nat -> Fate
    var requests: nat
    var resource: Resource
    var nextTag: nat
    /** Every content a tag was ever given to. */
    ghost var tags: map<nat, Option<Document>>
    /** The envelopes that this device's own writes appended. */
    ghost var ours: seq<Envelope>
    /** This device's requests and their answers. */
    ghost var gets: seq<Got>
    ghost var puts: seq<Put>

    function Contents(): seq<Envelope>
      reads this
    {
      LogOf(resource)
    }

    ghost predicate Valid()
      reads this
    {
      && (resource.Stored? ==> resource.tag in tags && tags[resource.tag] == resource.file)
      && (resource.Stored? && provider == WebDav ==> resource.file.Some?)
      && (forall t :: t in tags ==> t < nextTag && EnvelopesOf(tags[t]) <= Contents())
      && DistinctIds(Contents())
    }

    ghost function Now(): Moment
      reads this
    {
      Moment(resource, tags, ours, gets, puts)
    }

    twostate predicate Grew()
      reads this
    {
      Advances(old(Now()), Now())
    }

    constructor (provider: Provider, vault: nat, bytes: DocumentBytes, network: nat -> Fate)
      ensures Valid() && Contents() == [] && ours == [] && gets == [] && puts == []
      ensures this.provider == provider && this.vault == vault && this.bytes == bytes && this.network == network
    {
      this.provider, this.vault, this.bytes, this.network := provider, vault, bytes, network;
      requests, gets, puts := 0, [], [];
      resource := if provider == WebDav then Missing else Stored(0, Some(NewDocument(vault)));
      tags := if provider == WebDav then map[] else map[0 := Some(NewDocument(vault))];
      nextTag := 1;
      ours := [];
    }

    /** What other devices may do to the object between two requests of this one. */
    method OthersWrite()
      requires Valid()
      modifies this
      ensures Valid() && Interferes(old(Now()), Now())
    {
      var writes: int := *;
      while writes > 0
        invariant Valid() && Interferes(old(Now()), Now())
      {
        var e: Envelope := *;
        if Find(Contents(), e.id).None? && (provider == WebDav || resource.Stored?) {
          Append(e);
        }
        writes := writes - 1;
      }
    }

    /** Another device's exchange went through. */
    method Append(e: Envelope)
      requires Valid() && !HasId(Contents(), e.id)
      modifies this
      ensures Valid() && Interferes(old(Now()), Now()) && Contents() == old(Contents()) + [e]
    {
      var document := NewDocument(vault).(envelopes := Contents() + [e]);
      resource := Stored(nextTag, Some(document));
      tags := tags[nextTag := Some(document)];
      nextTag := nextTag + 1;
    }

    /** The document a read gives: the stored one, or a new one where there is none yet. */
    function Copy(): Option<Document>
      reads this
    {
      match resource
      case Missing => if provider == WebDav then Some(NewDocument(vault)) else None
      case Stored(_, None) => if provider == WebDav then None else Some(NewDocument(vault))
      case Stored(_, Some(document)) => Some(document)
    }

    /** A document within the byte limit; no document at all is no obstacle for WebDAV. */
    predicate CanRead()
      reads this
    {
      match resource
      case Missing => provider == WebDav
      case Stored(_, None) => true
      case Stored(_, Some(document)) => bytes.read(document) <= MAX_OBJECT_STORE_BYTES
    }

    /** A read gives the current document exactly when it is answered and the document can be read, and its entity
        tag unless the server leaves it out. */
    method Read() returns (document: Option<Document>, etag: Option<nat>)
      requires Valid()
      modifies this`requests, this`gets
      ensures Valid() && Now() == old(Now()).(gets := old(gets) + [Got(document, etag)]) && requests == old(requests) + 1
      ensures document == if network(old(requests)).Answered? && CanRead() then Copy() else None
      ensures document.Some? ==> document.value.envelopes == Contents()
      ensures etag == if network(old(requests)) == Answered(true) && resource.Stored? then Some(resource.tag) else None
    {
      var fate := network(requests);
      requests := requests + 1;
      document, etag := None, None;
      if fate.Answered? {
        etag := if resource.Stored? && fate.tagged then Some(resource.tag) else None;
        match resource {
          case Missing =>
            document := if provider == WebDav then Some(NewDocument(vault)) else None;
          case Stored(_, None) =>
            document := Some(NewDocument(vault));
          case Stored(_, Some(stored)) =>
            document := if bytes.read(stored) <= MAX_OBJECT_STORE_BYTES then Some(stored) else None;
        }
      }
      gets := gets + [Got(document, etag)];
    }

    /** A conditional write, with If-Match when a tag is known and If-None-Match otherwise. It takes effect exactly
        when it is within the byte limit, not lost, and its precondition holds, and then on the very version `base` it
        was computed from. It is refused when its precondition does not hold; any other failure is the network's. */
    method Write(document: Document, etag: Option<nat>, ghost base: seq<Envelope>, ghost upload: Envelope)
      returns (reply: WriteReply)
      requires Valid() && base <= Contents()
      requires document.envelopes == base + [upload] && DistinctIds(document.envelopes)
      requires etag.Some? ==> etag.value in tags && EnvelopesOf(tags[etag.value]) == base
      modifies this
      ensures Valid() && WritesAt(old(Now()), Now(), Put(WriteRequest(etag, document), reply), base, upload)
      ensures if bytes.written(document) <= MAX_OBJECT_STORE_BYTES && network(old(requests)) != Lost
                 && Allows(old(resource), WriteRequest(etag, document)) then
                resource == Stored(old(nextTag), Some(document)) && tags == old(tags)[old(nextTag) := Some(document)]
              else
                resource == old(resource) && tags == old(tags) && ours == old(ours)
      ensures reply == Failed <==> bytes.written(document) > MAX_OBJECT_STORE_BYTES || !network(old(requests)).Answered?
    {
      hide WritesAt, DistinctIds;
      ghost var from := Now();
      if bytes.written(document) > MAX_OBJECT_STORE_BYTES {
        puts := puts + [Put(WriteRequest(etag, document), Failed)];
        HasNoEffect(from, Now(), Put(WriteRequest(etag, document), Failed), base, upload);
        return Failed;
      }
      var fate := network(requests);
      requests := requests + 1;
      if fate.Lost? || !Allows(resource, WriteRequest(etag, document)) {
        reply := if fate.Answered? then PreconditionFailed else Failed;
        puts := puts + [Put(WriteRequest(etag, document), reply)];
        HasNoEffect(from, Now(), Put(WriteRequest(etag, document), reply), base, upload);
        return;
      }
      ExtendsBase(document, etag, base, upload);
      reply := if fate.Answered? then Written else Failed;
      resource := Stored(nextTag, Some(document));
      tags := tags[nextTag := Some(document)];
      ours, puts := ours + [upload], puts + [Put(WriteRequest(etag, document), reply)];
      TakesEffect(from, Now(), Put(WriteRequest(etag, document), reply), nextTag, base, upload);
      nextTag := nextTag + 1;
    }

    /** A write whose precondition holds finds the version it was computed from. */
    lemma ExtendsBase(document: Document, etag: Option<nat>, base: seq<Envelope>, upload: Envelope)
      requires Valid() && base <= Contents() && Allows(resource, WriteRequest(etag, document))
      requires etag.Some? ==> etag.value in tags && EnvelopesOf(tags[etag.value]) == base
      ensures Contents() == base
    {
    }

    /** One attempt up to the write: read, and apply the exchange to the copy. */
    method ReadAndApply(request: Request) returns (done: Result<Exchanged, TransportError>, etag: Option<nat>)
      requires Valid()
      modifies this`requests, this`gets
      ensures Valid() && |gets| == |old(gets)| + 1
      ensures ReadsAt(vault, request, old(Now()), Now(), gets[|gets| - 1], done) && gets[|gets| - 1].etag == etag
      ensures gets[|gets| - 1].document == if network(old(requests)).Answered? && CanRead() then Copy() else None
      ensures done.Ok? ==> CanRead() && Copy().Some? && ApplyObjectExchange(Copy().value, vault, request) == Ok(done.value)
      ensures done.Ok? ==> DistinctIds(done.value.document.envelopes)
      ensures done.Ok? && done.value.changed ==>
                request.envelope.Some? && done.value.document.envelopes == Contents() + [request.envelope.value]
      ensures etag.Some? ==>
                && resource.Stored? && etag.value == resource.tag
                && etag.value in tags && EnvelopesOf(tags[etag.value]) == Contents()
    {
      hide Find, Validate, AtomicExchange, DistinctIds;
      var document: Option<Document>;
      document, etag := Read();
      if document.None? {
        return Err(ReadFailed), etag;
      }
      var outcome := ApplyObjectExchange(document.value, vault, request);
      ExchangeRefinesAtomicLog(document.value, vault, request);
      if outcome.Err? {
        return Err(TransportError.Refused(outcome.error)), etag;
      }
      ExchangeAppends(document.value, vault, request);
      done := Ok(outcome.value);
    }

    method ExchangeGist(request: Request) returns (result: Result<Response, TransportError>)
      requires Valid() && provider == GithubGist
      modifies this
      ensures Valid() && Exchanges(provider, vault, request, old(Now()), Now(), result)
    {
      hide Trying, Advances, WritesAt, Exchanges, Valid, DistinctIds, AtomicExchange, OnCopy, LogOf, EnvelopesOf;
      ghost var start := Now();
      NothingTried(provider, vault, request, start);
      for attempt := 0 to MAX_WRITE_ATTEMPTS
        invariant Valid() && Trying(provider, vault, request, start, Now(), attempt)
        invariant attempt == MAX_WRITE_ATTEMPTS ==>
                    Exchanges(provider, vault, request, start, Now(), Err(ChangedRepeatedly))
      {
        ghost var before := Now();
        OthersWrite();
        ghost var met := Now();
        var done, etag := ReadAndApply(request);
        ghost var got, seen := gets[|gets| - 1], Now();
        if done.Err? {
          ReadDecides(provider, vault, request, start, before, met, seen, attempt, got, done, Err(done.error));
          return Err(done.error);
        }
        if !done.value.changed {
          ReadDecides(provider, vault, request, start, before, met, seen, attempt, got, done, Ok(done.value.response));
          return Ok(done.value.response);
        }
        if etag.None? {
          ReadDecides(provider, vault, request, start, before, met, seen, attempt, got, done, Err(NoEntityTag));
          return Err(NoEntityTag);
        }
        OthersWrite();
        ghost var later := Now();
        Interfered(seen, later);
        var reply := Write(done.value.document, etag, LogOf(met.resource), request.envelope.value);
        WriteDecides(provider, vault, request, start, before, met, seen, later, Now(), attempt, got, done,
                     Put(WriteRequest(etag, done.value.document), reply));
        if reply == Failed {
          return Err(WriteFailed);
        }
        if reply == Written {
          return Ok(done.value.response);
        }
      }
      result := Err(ChangedRepeatedly);
    }

    method ExchangeWebDav(request: Request) returns (result: Result<Response, TransportError>)
      requires Valid() && provider == WebDav
      modifies this
      ensures Valid() && Exchanges(provider, vault, request, old(Now()), Now(), result)
    {
      hide Trying, Advances, WritesAt, Exchanges, Valid, DistinctIds, AtomicExchange, OnCopy, LogOf, EnvelopesOf;
      ghost var start := Now();
      NothingTried(provider, vault, request, start);
      for attempt := 0 to MAX_WRITE_ATTEMPTS
        invariant Valid() && Trying(provider, vault, request, start, Now(), attempt)
        invariant attempt == MAX_WRITE_ATTEMPTS ==>
                    Exchanges(provider, vault, request, start, Now(), Err(ChangedRepeatedly))
      {
        ghost var before := Now();
        OthersWrite();
        ghost var met := Now();
        var done, etag := ReadAndApply(request);
        ghost var got, seen := gets[|gets| - 1], Now();
        if done.Err? {
          ReadDecides(provider, vault, request, start, before, met, seen, attempt, got, done, Err(done.error));
          return Err(done.error);
        }
        if !done.value.changed {
          ReadDecides(provider, vault, request, start, before, met, seen, attempt, got, done, Ok(done.value.response));
          return Ok(done.value.response);
        }
        OthersWrite();
        ghost var later := Now();
        Interfered(seen, later);
        var reply := Write(done.value.document, etag, LogOf(met.resource), request.envelope.value);
        WriteDecides(provider, vault, request, start, before, met, seen, later, Now(), attempt, got, done,
                     Put(WriteRequest(etag, done.value.document), reply));
        if reply == Failed {
          return Err(WriteFailed);
        }
        if reply == Written {
          return Ok(done.value.response);
        }
      }
      result := Err(ChangedRepeatedly);
    }

    method Exchange(request: Request) returns (result: Result<Response, TransportError>)
      requires Valid()
      modifies this
      ensures Valid() && Exchanges(provider, vault, request, old(Now()), Now(), result)
    {
      match provider
      case GithubGist => result := ExchangeGist(request);
      case WebDav => result := ExchangeWebDav(request);
    }
  }
}
