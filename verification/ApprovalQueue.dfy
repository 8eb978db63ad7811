/** The queue of approval requests the dialog shows: merging, ordering and the event handlers of the store. */
module ApprovalQueue {
  import opened Wrappers

  datatype Request = Request(id: string, sequence: Option<int>, timestamp: int, details: string)

  function Sequence(request: Request): int {
    if request.sequence.Some? then request.sequence.value else 0
  }

  /** The comparator is negative: `a` is shown before `b`. */
  predicate Before(a: Request, b: Request) {
    a.timestamp < b.timestamp || (a.timestamp == b.timestamp && Sequence(a) < Sequence(b))
  }

  // ----- A map from identifiers to requests, in insertion order -----

  function Put(requests: seq<Request>, request: Request): seq<Request> {
    if requests == [] then [request]
    else if requests[0].id == request.id then [request] + requests[1..]
    else [requests[0]] + Put(requests[1..], request)
  }

  function PutAll(requests: seq<Request>, incoming: seq<Request>, skipped: set<string>): seq<Request> {
    if incoming == [] then requests
    else
      var n := |incoming| - 1;
      var before := PutAll(requests, incoming[..n], skipped);
      if incoming[n].id in skipped then before else Put(before, incoming[n])
  }

  function InsertSorted(sorted: seq<Request>, request: Request): seq<Request> {
    if sorted == [] then [request]
    else if Before(request, sorted[0]) then [request] + sorted
    else [sorted[0]] + InsertSorted(sorted[1..], request)
  }

  function Sort(requests: seq<Request>): seq<Request> {
    if requests == [] then []
    else InsertSorted(Sort(requests[..|requests| - 1]), requests[|requests| - 1])
  }

  function MergePending(current: seq<Request>, incoming: seq<Request>, resolved: set<string>): seq<Request> {
    Sort(PutAll(PutAll([], current, {}), incoming, resolved))
  }

  function Without(queue: seq<Request>, id: string): seq<Request> {
    if queue == [] then []
    else if queue[0].id == id then Without(queue[1..], id)
    else [queue[0]] + Without(queue[1..], id)
  }

  function WithoutId(ids: seq<string>, id: string): seq<string> {
    if ids == [] then []
    else if ids[0] == id then WithoutId(ids[1..], id)
    else [ids[0]] + WithoutId(ids[1..], id)
  }

  // ----- What merging means -----

  ghost predicate DistinctIds(requests: seq<Request>) {
    forall i, j :: 0 <= i < j < |requests| ==> requests[i].id != requests[j].id
  }

  /** The older request comes first, and of two that are equally old the one of the smaller sequence number, where no
      number counts as zero. */
  ghost predicate InOrder(a: Request, b: Request) {
    || a.timestamp < b.timestamp
    || (a.timestamp == b.timestamp
        && match (a.sequence, b.sequence)
           case (Some(m), Some(n)) => m <= n
           case (Some(m), None) => m <= 0
           case (None, Some(n)) => 0 <= n
           case (None, None) => true)
  }

  lemma OrderIsBefore(a: Request, b: Request)
    ensures InOrder(a, b) <==> !Before(b, a)
  {
  }

  ghost predicate Ordered(requests: seq<Request>) {
    forall i, j :: 0 <= i < j < |requests| ==> InOrder(requests[i], requests[j])
  }

  lemma PrependDistinct(first: Request, rest: seq<Request>)
    ensures DistinctIds([first] + rest) <==> DistinctIds(rest) && forall r :: r in rest ==> r.id != first.id
  {
    var all := [first] + rest;
    assert forall i :: 0 <= i < |rest| ==> rest[i] == all[i + 1];
    if DistinctIds(all) {
      forall r | r in rest ensures r.id != first.id {
        var i :| 0 <= i < |rest| && rest[i] == r;
        assert all[0].id != all[i + 1].id;
      }
    }
  }

  lemma OneIsFine(request: Request)
    ensures DistinctIds([]) && DistinctIds([request]) && Ordered([]) && Ordered([request])
  {
  }

  lemma PrependOrdered(first: Request, rest: seq<Request>)
    ensures Ordered([first] + rest) <==> Ordered(rest) && forall r :: r in rest ==> !Before(r, first)
  {
    hide InOrder, Before;
    var all := [first] + rest;
    assert forall i :: 0 <= i < |rest| ==> rest[i] == all[i + 1];
    forall r ensures InOrder(first, r) <==> !Before(r, first) {
      OrderIsBefore(first, r);
    }
    if Ordered(all) {
      forall r | r in rest ensures !Before(r, first) {
        var i :| 0 <= i < |rest| && rest[i] == r;
        assert InOrder(all[0], all[i + 1]);
      }
    }
  }

  lemma {:induction false} PutMeaning(requests: seq<Request>, request: Request)
    requires DistinctIds(requests)
    ensures DistinctIds(Put(requests, request))
    ensures forall r :: r in Put(requests, request) <==> r == request || (r in requests && r.id != request.id)
  {
    hide DistinctIds;
    if requests == [] {
      OneIsFine(request);
    } else {
      var rest := requests[1..];
      assert requests == [requests[0]] + rest;
      PrependDistinct(requests[0], rest);
      PrependDistinct(request, rest);
      if requests[0].id != request.id {
        PutMeaning(rest, request);
        PrependDistinct(requests[0], Put(rest, request));
      }
    }
  }

  /** The last request given for an identifier that is not skipped. */
  ghost predicate LastFor(incoming: seq<Request>, skipped: set<string>, r: Request) {
    exists i :: 0 <= i < |incoming| && incoming[i] == r && r.id !in skipped
      && forall j :: i < j < |incoming| ==> incoming[j].id != r.id
  }

  ghost predicate Given(incoming: seq<Request>, skipped: set<string>, id: string) {
    id !in skipped && exists i :: 0 <= i < |incoming| && incoming[i].id == id
  }

  lemma LastForStep(incoming: seq<Request>, skipped: set<string>, r: Request)
    requires incoming != []
    ensures var last := incoming[|incoming| - 1];
            LastFor(incoming, skipped, r) <==>
            if last.id == r.id then r == last && r.id !in skipped else LastFor(incoming[..|incoming| - 1], skipped, r)
  {
    var n := |incoming| - 1;
    var front := incoming[..n];
    assert forall i :: 0 <= i < n ==> front[i] == incoming[i];
    if incoming[n].id != r.id && LastFor(front, skipped, r) {
      var i :| 0 <= i < |front| && front[i] == r && r.id !in skipped && forall j :: i < j < |front| ==> front[j].id != r.id;
      assert incoming[i] == r;
    }
  }

  lemma GivenStep(incoming: seq<Request>, skipped: set<string>, id: string)
    requires incoming != []
    ensures var n := |incoming| - 1;
            Given(incoming, skipped, id) <==> id !in skipped && (incoming[n].id == id || Given(incoming[..n], skipped, id))
  {
    assert forall i :: 0 <= i < |incoming| - 1 ==> incoming[..|incoming| - 1][i] == incoming[i];
  }

  lemma {:induction false} PutAllMeaning(requests: seq<Request>, incoming: seq<Request>, skipped: set<string>)
    requires DistinctIds(requests)
    ensures DistinctIds(PutAll(requests, incoming, skipped))
    ensures forall r :: r in PutAll(requests, incoming, skipped) <==>
                          LastFor(incoming, skipped, r) || (r in requests && !Given(incoming, skipped, r.id))
  {
    hide LastFor, Given, Put, DistinctIds;
    if incoming == [] {
      NothingGiven(skipped);
    } else {
      var n := |incoming| - 1;
      PutAllMeaning(requests, incoming[..n], skipped);
      var before := PutAll(requests, incoming[..n], skipped);
      PutMeaning(before, incoming[n]);
      forall r: Request
        ensures r in PutAll(requests, incoming, skipped) <==>
                LastFor(incoming, skipped, r) || (r in requests && !Given(incoming, skipped, r.id))
      {
        LastForStep(incoming, skipped, r);
        GivenStep(incoming, skipped, r.id);
        SkippedIsNotLast(incoming[..n], skipped, r);
      }
    }
  }

  lemma SkippedIsNotLast(incoming: seq<Request>, skipped: set<string>, r: Request)
    ensures r.id in skipped ==> !LastFor(incoming, skipped, r) && !Given(incoming, skipped, r.id)
  {
  }

  lemma NothingGiven(skipped: set<string>)
    ensures forall r :: !LastFor([], skipped, r) && !Given([], skipped, r.id)
  {
  }

  lemma {:induction false} InsertMeaning(sorted: seq<Request>, request: Request)
    requires Ordered(sorted)
    ensures Ordered(InsertSorted(sorted, request))
    ensures forall r :: r in InsertSorted(sorted, request) <==> r == request || r in sorted
    ensures DistinctIds(sorted) && (forall r :: r in sorted ==> r.id != request.id) ==> DistinctIds(InsertSorted(sorted, request))
  {
    hide Ordered, DistinctIds;
    OneIsFine(request);
    PrependOrdered(request, sorted);
    PrependDistinct(request, sorted);
    if sorted != [] {
      var rest := sorted[1..];
      assert sorted == [sorted[0]] + rest;
      PrependOrdered(sorted[0], rest);
      PrependDistinct(sorted[0], rest);
      if !Before(request, sorted[0]) {
        InsertMeaning(rest, request);
        PrependOrdered(sorted[0], InsertSorted(rest, request));
        PrependDistinct(sorted[0], InsertSorted(rest, request));
      }
    }
  }

  lemma {:induction false} SortMeaning(requests: seq<Request>)
    ensures Ordered(Sort(requests))
    ensures forall r :: r in Sort(requests) <==> r in requests
    ensures DistinctIds(requests) ==> DistinctIds(Sort(requests))
  {
    if requests != [] {
      var n := |requests| - 1;
      SortMeaning(requests[..n]);
      assert requests == requests[..n] + [requests[n]];
      InsertMeaning(Sort(requests[..n]), requests[n]);
    }
  }

  /** A merge keeps the queue in (timestamp, sequence) order with one entry for each identifier; for each
      identifier the last request given wins, and the skipped ones bring in nothing. */
  lemma MergeMeaning(current: seq<Request>, incoming: seq<Request>, resolved: set<string>)
    requires DistinctIds(current)
    ensures var merged := MergePending(current, incoming, resolved);
            && DistinctIds(merged) && Ordered(merged)
            && (forall r :: r in merged <==>
                  LastFor(incoming, resolved, r) || (r in current && !Given(incoming, resolved, r.id)))
  {
    hide LastFor, Given, PutAll, Sort, Ordered, DistinctIds;
    DistinctEmpty();
    PutAllMeaning([], current, {});
    DistinctLast(current);
    PutAllMeaning(PutAll([], current, {}), incoming, resolved);
    SortMeaning(PutAll(PutAll([], current, {}), incoming, resolved));
  }

  lemma DistinctEmpty()
    ensures DistinctIds([])
  {
  }

  lemma DistinctLast(requests: seq<Request>)
    requires DistinctIds(requests)
    ensures forall r :: LastFor(requests, {}, r) <==> r in requests
  {
    forall r | r in requests ensures LastFor(requests, {}, r) {
      var i :| 0 <= i < |requests| && requests[i] == r;
    }
  }

  lemma {:induction false} WithoutMeaning(queue: seq<Request>, id: string)
    ensures forall r :: r in Without(queue, id) <==> r in queue && r.id != id
    ensures DistinctIds(queue) ==> DistinctIds(Without(queue, id))
    ensures Ordered(queue) ==> Ordered(Without(queue, id))
  {
    hide Ordered, DistinctIds;
    if queue != [] {
      var rest := queue[1..];
      WithoutMeaning(rest, id);
      assert queue == [queue[0]] + rest;
      PrependOrdered(queue[0], rest);
      PrependDistinct(queue[0], rest);
      PrependOrdered(queue[0], Without(rest, id));
      PrependDistinct(queue[0], Without(rest, id));
    }
  }

  ghost predicate NoRepeat(ids: seq<string>) {
    forall i, j :: 0 <= i < j < |ids| ==> ids[i] != ids[j]
  }

  lemma {:induction false} WithoutIdMeaning(ids: seq<string>, id: string)
    ensures forall i :: i in WithoutId(ids, id) <==> i in ids && i != id
    ensures NoRepeat(ids) ==> NoRepeat(WithoutId(ids, id))
  {
    if ids != [] {
      var rest := ids[1..];
      WithoutIdMeaning(rest, id);
      assert ids == [ids[0]] + rest;
      assert NoRepeat(ids) ==> NoRepeat(rest) && ids[0] !in rest by {
        assert forall i :: 0 <= i < |rest| ==> rest[i] == ids[i + 1];
      }
    }
  }

  // ----- The snapshot and the news that a request is gone -----

  lemma {:induction false} WithoutTwice(queue: seq<Request>, id: string)
    ensures Without(Without(queue, id), id) == Without(queue, id)
  {
    if queue != [] {
      WithoutTwice(queue[1..], id);
    }
  }

  lemma {:induction false} WithoutAppend(queue: seq<Request>, request: Request, id: string)
    ensures Without(queue + [request], id) ==
            if request.id == id then Without(queue, id) else Without(queue, id) + [request]
  {
    if queue == [] {
      assert [request][1..] == [];
    } else {
      WithoutAppend(queue[1..], request, id);
      assert (queue + [request])[1..] == queue[1..] + [request];
    }
  }

  lemma {:induction false} WithoutPut(requests: seq<Request>, request: Request, id: string)
    ensures Without(Put(requests, request), id) ==
            if request.id == id then Without(requests, id) else Put(Without(requests, id), request)
  {
    if requests != [] {
      WithoutPut(requests[1..], request, id);
    }
  }

  lemma {:induction false} WithoutPutAll(requests: seq<Request>, incoming: seq<Request>, skipped: set<string>, id: string)
    ensures Without(PutAll(requests, incoming, skipped), id) == PutAll(Without(requests, id), incoming, skipped + {id})
  {
    hide Put, Without;
    if incoming != [] {
      var n := |incoming| - 1;
      WithoutPutAll(requests, incoming[..n], skipped, id);
      WithoutPut(PutAll(requests, incoming[..n], skipped), incoming[n], id);
    }
  }

  /** Leaving requests out beforehand or skipping them on the way gives the same map. */
  lemma {:induction false} SkipIsWithout(incoming: seq<Request>, id: string)
    ensures PutAll([], Without(incoming, id), {}) == PutAll([], incoming, {id})
  {
    hide Put, Without;
    if incoming == [] {
      EmptyWithout(id);
    } else {
      var n := |incoming| - 1;
      var front := Without(incoming[..n], id);
      SkipIsWithout(incoming[..n], id);
      WithoutAppend(incoming[..n], incoming[n], id);
      assert incoming == incoming[..n] + [incoming[n]];
      if incoming[n].id != id {
        assert (front + [incoming[n]])[..|front|] == front;
      }
    }
  }

  lemma EmptyWithout(id: string)
    ensures Without([], id) == []
  {
  }

  lemma InsertFirst(sorted: seq<Request>, request: Request)
    requires forall r :: r in sorted ==> Before(request, r)
    ensures InsertSorted(sorted, request) == [request] + sorted
  {
  }

  lemma {:induction false} WithoutInsert(sorted: seq<Request>, request: Request, id: string)
    requires Ordered(sorted)
    ensures Without(InsertSorted(sorted, request), id) ==
            if request.id == id then Without(sorted, id) else InsertSorted(Without(sorted, id), request)
  {
    hide Ordered;
    if sorted == [] {
      assert [request][1..] == [];
    } else {
      var rest := sorted[1..];
      assert sorted == [sorted[0]] + rest;
      PrependOrdered(sorted[0], rest);
      if Before(request, sorted[0]) {
        assert ([request] + sorted)[1..] == sorted;
        WithoutMeaning(sorted, id);
        InsertFirst(Without(sorted, id), request);
      } else {
        WithoutInsert(rest, request, id);
      }
    }
  }

  lemma {:induction false} WithoutSort(requests: seq<Request>, id: string)
    ensures Without(Sort(requests), id) == Sort(Without(requests, id))
  {
    hide InsertSorted, Without, Ordered;
    if requests == [] {
      EmptyWithout(id);
    } else {
      var n := |requests| - 1;
      var front := Without(requests[..n], id);
      SortMeaning(requests[..n]);
      WithoutSort(requests[..n], id);
      WithoutInsert(Sort(requests[..n]), requests[n], id);
      WithoutAppend(requests[..n], requests[n], id);
      assert requests == requests[..n] + [requests[n]];
      if requests[n].id != id {
        assert (front + [requests[n]])[..|front|] == front;
      }
    }
  }

  /** The snapshot and a resolved event can be handled in either order: the queue is the same, entry by entry,
      because the store remembers which requests were resolved while it waited for the snapshot. */
  lemma SnapshotAndNewsCommute(queue: seq<Request>, pending: seq<Request>, resolved: set<string>, id: string)
    ensures Without(MergePending(queue, pending, resolved), id) == MergePending(Without(queue, id), pending, resolved + {id})
  {
    hide Put, PutAll, Sort, Without;
    WithoutSort(PutAll(PutAll([], queue, {}), pending, resolved), id);
    WithoutPutAll(PutAll([], queue, {}), pending, resolved, id);
    WithoutPutAll([], queue, {}, id);
    EmptyWithout(id);
    assert {} + {id} == {id};
    SkipIsWithout(queue, id);
  }

  lemma OnlyOne(request: Request)
    ensures forall r :: LastFor([request], {}, r) <==> r == request
    ensures forall id :: Given([request], {}, id) <==> id == request.id
  {
    assert [request][0] == request;
    assert LastFor([request], {}, request) && Given([request], {}, request.id);
  }

  class ApprovalStore {
    var queue: seq<Request>
    var resolvingIds: seq<string>
    var resolvedDuringInitialization: set<string>
    var error: Option<string>

    /** One entry for an identifier, in the order of arrival at the gateway. */
    ghost predicate Valid()
      reads this
    {
      DistinctIds(queue) && Ordered(queue) && NoRepeat(resolvingIds)
    }

    constructor ()
      ensures Valid()
      ensures queue == [] && resolvingIds == [] && resolvedDuringInitialization == {} && error == None
    {
      queue, resolvingIds, resolvedDuringInitialization, error := [], [], {}, None;
    }

    method MergePendingRequests(current: seq<Request>, incoming: seq<Request>, resolvedIds: set<string>)
      returns (merged: seq<Request>)
      ensures merged == MergePending(current, incoming, resolvedIds)
    {
      hide Put, Sort;
      var byId := PutAll([], current, {});
      for i := 0 to |incoming|
        invariant byId == PutAll(PutAll([], current, {}), incoming[..i], resolvedIds)
      {
        assert incoming[..i + 1][..i] == incoming[..i];
        if incoming[i].id !in resolvedIds {
          byId := Put(byId, incoming[i]);
        }
      }
      assert incoming[..|incoming|] == incoming;
      merged := Sort(byId);
    }

    method OnRequest(request: Request)
      requires Valid()
      modifies this`queue
      ensures Valid() && queue == MergePending(old(queue), [request], {})
      ensures forall r :: r in queue <==> r == request || (r in old(queue) && r.id != request.id)
    {
      hide MergePending, DistinctIds, Ordered, LastFor, Given;
      MergeMeaning(queue, [request], {});
      OnlyOne(request);
      queue := MergePendingRequests(queue, [request], {});
    }

    /** The request goes for good: it is not shown, not being answered, and no snapshot brings it back. */
    method OnResolved(id: string)
      requires Valid()
      modifies this`queue, this`resolvingIds, this`resolvedDuringInitialization
      ensures Valid()
      ensures queue == if id == "" then old(queue) else Without(old(queue), id)
      ensures forall r :: r in queue <==> r in old(queue) && (id == "" || r.id != id)
      ensures forall i :: i in resolvingIds <==> i in old(resolvingIds) && (id == "" || i != id)
      ensures resolvedDuringInitialization == old(resolvedDuringInitialization) + if id == "" then {} else {id}
    {
      hide DistinctIds, Ordered, NoRepeat, Without, WithoutId;
      if id == "" {
        return;
      }
      WithoutMeaning(queue, id);
      WithoutIdMeaning(resolvingIds, id);
      resolvedDuringInitialization := resolvedDuringInitialization + {id};
      queue := Without(queue, id);
      resolvingIds := WithoutId(resolvingIds, id);
    }

    /** The snapshot adds what it lists, in its newest version, but for the requests resolved meanwhile. */
    method OnStatus(pending: seq<Request>)
      requires Valid()
      modifies this`queue
      ensures Valid() && queue == MergePending(old(queue), pending, resolvedDuringInitialization)
      ensures forall r :: r in queue <==>
                            || LastFor(pending, resolvedDuringInitialization, r)
                            || (r in old(queue) && !Given(pending, resolvedDuringInitialization, r.id))
      ensures forall r :: r in queue && r.id in resolvedDuringInitialization ==> r in old(queue)
    {
      hide MergePending, DistinctIds, Ordered;
      MergeMeaning(queue, pending, resolvedDuringInitialization);
      queue := MergePendingRequests(queue, pending, resolvedDuringInitialization);
    }

    /** Before the call to the backend. */
    method BeginResolve(id: string)
      requires Valid()
      modifies this`resolvingIds, this`error
      ensures Valid() && error == None
      ensures resolvingIds == if id in old(resolvingIds) then old(resolvingIds) else old(resolvingIds) + [id]
      ensures forall i :: i in resolvingIds <==> i == id || i in old(resolvingIds)
    {
      if id !in resolvingIds {
        resolvingIds := resolvingIds + [id];
      }
      error := None;
    }

    /** The backend's answer: a failed decision keeps the request and says why. */
    method EndResolve(id: string, failure: Option<string>)
      requires Valid()
      modifies this`queue, this`resolvingIds, this`error
      ensures Valid()
      ensures forall i :: i in resolvingIds <==> i in old(resolvingIds) && i != id
      ensures failure.None? ==> queue == Without(old(queue), id) && error == old(error)
      ensures failure.None? ==> forall r :: r in queue <==> r in old(queue) && r.id != id
      ensures failure.Some? ==> queue == old(queue) && error == failure
    {
      hide DistinctIds, Ordered, NoRepeat, Without, WithoutId;
      WithoutMeaning(queue, id);
      WithoutIdMeaning(resolvingIds, id);
      if failure.None? {
        queue := Without(queue, id);
      } else {
        error := failure;
      }
      resolvingIds := WithoutId(resolvingIds, id);
    }
  }
}
