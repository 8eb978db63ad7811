/** The main window's side of giving a detached pane back: one handler for drop requests, with a bounded memory
    of the decisions it made, and the map of which window owns which pane. The handler is cut where it waits
    for the hit test, the only point at which another event can run before it has decided. */
module DockHandoff {
  import opened Wrappers
  import opened MosaicTree
  import opened Docking
  import opened PaneIds
  import opened WorkspaceRemap

  const REMEMBERED := 100

  datatype Request = Request(id: string, source: string, target: DetachTarget, pointed: bool, expiresAt: int)

  /** What the hit test found: an error, or whether the point is a place for panes and which pane lies there. */
  datatype Hit = Thrown | Hit(valid: bool, pane: Option<PanePlacement>)

  datatype Main = Main(
    decisions: seq<(string, bool)>,
    waiting: set<string>,
    owners: map<string, string>,
    tree: Option<Tree>,
    focused: Option<string>)

  datatype Reply = Silent | Awaiting | Ack(accepted: bool)

  function DetachTargetKey(target: DetachTarget): string {
    match target
    case TerminalTarget(sessionId, _) => SessionPaneId(sessionId)
    case PluginTarget(sessionId, pluginId, _, _) => PluginPaneId(PluginTabId(sessionId, pluginId))
    case FileTarget(sessionId, _, path, _) => FilePaneId(FileTabId(sessionId, path))
  }

  /** The pane that a target names: the session's own, or a plugin or file under its session. */
  function PaneOf(target: DetachTarget): PaneId {
    match target
    case TerminalTarget(sessionId, _) => SessionPane(sessionId)
    case PluginTarget(sessionId, pluginId, _, _) => PluginPane(sessionId + "::" + pluginId)
    case FileTarget(sessionId, _, path, _) => FilePane(sessionId + ['\0'] + path)
  }

  /** Identifiers are free of the separators that file and plugin panes are named with. */
  predicate Separable(target: DetachTarget) {
    match target
    case TerminalTarget(_, _) => true
    case PluginTarget(_, pluginId, _, _) => ':' !in pluginId
    case FileTarget(sessionId, _, _, _) => '\0' !in sessionId
  }

  predicate SamePane(a: DetachTarget, b: DetachTarget) {
    match (a, b)
    case (TerminalTarget(s, _), TerminalTarget(t, _)) => s == t
    case (PluginTarget(s, p, _, _), PluginTarget(t, q, _, _)) => s == t && p == q
    case (FileTarget(s, _, p, _), FileTarget(t, _, q, _)) => s == t && p == q
    case _ => false
  }

  /** The key of a target reads back as the pane it names, so two targets share a key exactly when they are of one
      kind and agree in session and plugin or path; titles and server names do not matter. */
  lemma KeyNamesPane(a: DetachTarget, b: DetachTarget)
    ensures ParsePaneId(DetachTargetKey(a)) == PaneOf(a)
    ensures Separable(a) && Separable(b) ==> (DetachTargetKey(a) == DetachTargetKey(b) <==> SamePane(a, b))
  {
    hide ParsePaneId, SessionPaneId, PluginPaneId, FilePaneId;
    KeyParses(a);
    KeyParses(b);
    if DetachTargetKey(a) == DetachTargetKey(b) && Separable(a) && Separable(b) {
      if a.FileTarget? && b.FileTarget? {
        FirstSeparator(a.sessionId, b.sessionId, a.path, b.path);
      } else if a.PluginTarget? && b.PluginTarget? {
        LastSeparator(a.sessionId, b.sessionId, a.pluginId, b.pluginId);
      }
    }
  }

  lemma KeyParses(target: DetachTarget)
    ensures ParsePaneId(DetachTargetKey(target)) == PaneOf(target)
  {
    hide ParsePaneId, SessionPaneId, PluginPaneId, FilePaneId;
    match target
    case TerminalTarget(sessionId, _) => ParseRoundTrip(sessionId);
    case PluginTarget(sessionId, pluginId, _, _) => ParseRoundTrip(PluginTabId(sessionId, pluginId));
    case FileTarget(sessionId, _, path, _) => ParseRoundTrip(FileTabId(sessionId, path));
  }

  function Decision(decisions: seq<(string, bool)>, id: string): (found: Option<bool>)
    ensures found.Some? ==> (id, found.value) in decisions
    ensures found.None? ==> forall d :: d in decisions ==> d.0 != id
  {
    if decisions == [] then None
    else if decisions[0].0 == id then Some(decisions[0].1)
    else Decision(decisions[1..], id)
  }

  function SetDecision(decisions: seq<(string, bool)>, id: string, accepted: bool): seq<(string, bool)> {
    if decisions == [] then [(id, accepted)]
    else if decisions[0].0 == id then [(id, accepted)] + decisions[1..]
    else [decisions[0]] + SetDecision(decisions[1..], id, accepted)
  }

  /** A decision is kept; the oldest goes when there are more than a hundred. */
  function Remember(decisions: seq<(string, bool)>, id: string, accepted: bool): seq<(string, bool)> {
    var all := SetDecision(decisions, id, accepted);
    if |all| > REMEMBERED then all[1..] else all
  }

  predicate Owns(main: Main, request: Request) {
    var key := DetachTargetKey(request.target);
    key in main.owners && main.owners[key] == request.source
  }

  /** `hydrates` says whether the snapshot can be taken over; when it cannot, nothing has changed yet. */
  function Accept(main: Main, request: Request, pane: Option<PanePlacement>, hydrates: bool): (bool, Main) {
    var key := DetachTargetKey(request.target);
    var next := AcceptPane(main.tree, main.focused, pane, key);
    if next.None? || !hydrates then (false, main)
    else (true, main.(owners := main.owners - {key}, tree := next.value, focused := Some(key)))
  }

  function Settle(main: Main, request: Request, hit: Hit, hydrates: bool, now: int): (bool, Main) {
    if hit.Hit? && hit.valid && request.expiresAt > now && Owns(main, request)
    then Accept(main, request, hit.pane, hydrates)
    else (false, main)
  }

  function Conclude(settled: (bool, Main), id: string): (Main, Reply) {
    var main := settled.1;
    (main.(waiting := main.waiting - {id}, decisions := Remember(main.decisions, id, settled.0)), Ack(settled.0))
  }

  function OnDrop(main: Main, request: Request, hydrates: bool, now: int): (Main, Reply) {
    var known := Decision(main.decisions, request.id);
    if request.id == "" then (main, Silent)
    else if known.Some? then (main, Ack(known.value))
    else if request.id in main.waiting then (main, Silent)
    else if !Owns(main, request) then Conclude((false, main), request.id)
    else if request.pointed then (main.(waiting := main.waiting + {request.id}), Awaiting)
    else Conclude(Settle(main, request, Hit(true, None), hydrates, now), request.id)
  }

  function OnHit(main: Main, request: Request, hit: Hit, hydrates: bool, now: int): (Main, Reply) {
    Conclude(Settle(main, request, hit, hydrates, now), request.id)
  }

  // ----- What one decision does -----

  /** The panes are distinct and within the bound; at most a hundred decisions are kept, one for a request, and a
      request that waits for its hit test has none. */
  ghost predicate Sound(main: Main) {
    && Distinct(GetLeaves(main.tree)) && CountLeaves(main.tree) <= MAX_TERMINAL_PANES
    && |main.decisions| <= REMEMBERED
    && (forall i, j :: 0 <= i < j < |main.decisions| ==> main.decisions[i].0 != main.decisions[j].0)
    && (forall i :: 0 <= i < |main.decisions| ==> main.decisions[i].0 !in main.waiting)
  }

  /** There is room unless the pane would be a tenth one beside one that is shown. */
  predicate HasRoom(main: Main, key: string, placement: Option<PanePlacement>) {
    placement.Some? && placement.value.paneId in GetLeaves(main.tree) && key !in GetLeaves(main.tree)
    ==> CountLeaves(main.tree) != MAX_TERMINAL_PANES
  }

  /** A valid place, in time, owned by the window that asks, content that can be taken over, and room. */
  predicate Acceptable(main: Main, request: Request, hit: Hit, hydrates: bool, now: int) {
    && hit.Hit? && hit.valid && now < request.expiresAt && Owns(main, request) && hydrates
    && HasRoom(main, DetachTargetKey(request.target), hit.pane)
  }

  /** No window owns the pane any more and it is focused in the place asked for; nothing else changed. */
  ghost predicate TakenOver(before: Main, after: Main, key: string, placement: Option<PanePlacement>) {
    var (leaves, shown) := (GetLeaves(before.tree), GetLeaves(after.tree));
    && after == before.(owners := before.owners - {key}, tree := after.tree, focused := Some(key))
    && key in shown && Distinct(shown) && CountLeaves(after.tree) <= MAX_TERMINAL_PANES
    && (placement.None? ==> Unplaced(leaves, before.focused, key, shown))
    && (placement.Some? ==> Placed(leaves, placement.value, key, shown))
  }

  /** The focused pane is the one that the target names, and it is shown. */
  predicate ShowsTarget(main: Main, target: DetachTarget) {
    main.focused.Some? && main.focused.value in GetLeaves(main.tree) && ParsePaneId(main.focused.value) == PaneOf(target)
  }

  /** The answer is remembered and no other request gains or loses one, but for the oldest of a hundred. */
  ghost predicate Decided(before: Main, after: Main, id: string, accepted: bool) {
    && Decision(after.decisions, id) == Some(accepted)
    && (forall other :: other != id ==>
          Decision(after.decisions, other) ==
          if |before.decisions| == REMEMBERED && other == before.decisions[0].0 then None
          else Decision(before.decisions, other))
    && after.waiting == before.waiting - {id}
  }

  /** One decision in full: what is remembered of it, and the pane taken over or nothing changed. */
  ghost predicate Outcome(before: Main, after: Main, request: Request, placement: Option<PanePlacement>, accepted: bool) {
    var taken := after.(decisions := before.decisions, waiting := before.waiting);
    && Decided(before, after, request.id, accepted)
    && (accepted ==> TakenOver(before, taken, DetachTargetKey(request.target), placement))
    && (!accepted ==> taken == before)
  }

  function Place(hit: Hit): Option<PanePlacement> {
    if hit.Hit? then hit.pane else None
  }

  /** No answer yet, and none on its way. */
  predicate New(main: Main, id: string) {
    id != "" && Decision(main.decisions, id).None? && id !in main.waiting
  }

  lemma AcceptTakesOver(main: Main, request: Request, placement: Option<PanePlacement>, hydrates: bool)
    requires Distinct(GetLeaves(main.tree)) && CountLeaves(main.tree) <= MAX_TERMINAL_PANES
    ensures var (accepted, next) := Accept(main, request, placement, hydrates);
            var key := DetachTargetKey(request.target);
            && (accepted <==> hydrates && HasRoom(main, key, placement))
            && (if accepted then TakenOver(main, next, key, placement) else next == main)
  {
    hide AcceptPane, DetachTargetKey, GetLeaves, Placed, Unplaced, Distinct;
    AcceptMeaning(main.tree, main.focused, placement, DetachTargetKey(request.target));
  }

  /** Which requests are accepted, in full, and what that does; a refusal changes nothing. */
  lemma SettleMeaning(main: Main, request: Request, hit: Hit, hydrates: bool, now: int)
    requires Distinct(GetLeaves(main.tree)) && CountLeaves(main.tree) <= MAX_TERMINAL_PANES
    ensures var (accepted, next) := Settle(main, request, hit, hydrates, now);
            && (accepted <==> Acceptable(main, request, hit, hydrates, now))
            && (accepted ==> TakenOver(main, next, DetachTargetKey(request.target), hit.pane))
            && (accepted ==> ShowsTarget(next, request.target))
            && (!accepted ==> next == main)
  {
    hide Accept, DetachTargetKey, GetLeaves, HasRoom, Placed, Unplaced, ParsePaneId;
    KeyParses(request.target);
    if hit.Hit? {
      AcceptTakesOver(main, request, hit.pane, hydrates);
    }
  }

  lemma {:induction false} SetNewDecision(decisions: seq<(string, bool)>, id: string, accepted: bool)
    requires Decision(decisions, id).None?
    ensures SetDecision(decisions, id, accepted) == decisions + [(id, accepted)]
  {
    if decisions != [] {
      SetNewDecision(decisions[1..], id, accepted);
      assert decisions == [decisions[0]] + decisions[1..];
    }
  }

  lemma {:induction false} DecisionAfterMore(decisions: seq<(string, bool)>, id: string, accepted: bool, other: string)
    requires Decision(decisions, id).None?
    ensures Decision(decisions + [(id, accepted)], other) == if other == id then Some(accepted) else Decision(decisions, other)
  {
    if decisions != [] {
      DecisionAfterMore(decisions[1..], id, accepted, other);
      assert (decisions + [(id, accepted)])[1..] == decisions[1..] + [(id, accepted)];
    }
  }

  lemma NoDecision(decisions: seq<(string, bool)>, id: string)
    requires forall i :: 0 <= i < |decisions| ==> decisions[i].0 != id
    ensures Decision(decisions, id).None?
  {
  }

  /** Dropping the oldest decision forgets its request and no other. */
  lemma OldestForgotten(decisions: seq<(string, bool)>, other: string)
    requires decisions != []
    requires forall i, j :: 0 <= i < j < |decisions| ==> decisions[i].0 != decisions[j].0
    ensures Decision(decisions[1..], other) == if other == decisions[0].0 then None else Decision(decisions, other)
  {
    hide Decision;
    if other == decisions[0].0 {
      NoDecision(decisions[1..], other);
    } else {
      NotTheFirst(decisions, other);
    }
  }

  lemma NotTheFirst(decisions: seq<(string, bool)>, other: string)
    requires decisions != [] && other != decisions[0].0
    ensures Decision(decisions[1..], other) == Decision(decisions, other)
  {
  }

  lemma SoundAfter(main: Main, id: string, accepted: bool)
    requires Sound(main) && Decision(main.decisions, id).None?
    ensures Sound(Conclude((accepted, main), id).0)
    ensures var all := main.decisions + [(id, accepted)];
            forall i, j :: 0 <= i < j < |all| ==> all[i].0 != all[j].0
  {
    hide GetLeaves, CountLeaves, Distinct, SetDecision, Decision;
    SetNewDecision(main.decisions, id, accepted);
  }

  /** A decision about a request that has none: it is remembered, at the cost of the oldest one when full. */
  lemma ConcludeMeaning(main: Main, id: string, accepted: bool)
    requires Sound(main) && Decision(main.decisions, id).None?
    ensures var after := Conclude((accepted, main), id).0;
            && Sound(after) && Decided(main, after, id, accepted)
            && after.(decisions := main.decisions, waiting := main.waiting) == main
  {
    hide GetLeaves, CountLeaves, Distinct, SetDecision, Decision;
    SoundAfter(main, id, accepted);
    SetNewDecision(main.decisions, id, accepted);
    var all := main.decisions + [(id, accepted)];
    forall other
      ensures Decision(all, other) == if other == id then Some(accepted) else Decision(main.decisions, other)
      ensures |all| > REMEMBERED ==> Decision(all[1..], other) == if other == all[0].0 then None else Decision(all, other)
    {
      DecisionAfterMore(main.decisions, id, accepted, other);
      OldestForgotten(all, other);
    }
  }

  lemma MayWait(main: Main, id: string)
    requires Sound(main) && Decision(main.decisions, id).None?
    ensures Sound(main.(waiting := main.waiting + {id}))
  {
  }

  lemma HitMeaning(main: Main, request: Request, hit: Hit, hydrates: bool, now: int)
    requires Sound(main) && Decision(main.decisions, request.id).None?
    ensures var (after, reply) := OnHit(main, request, hit, hydrates, now);
            && Sound(after)
            && reply == Ack(Acceptable(main, request, hit, hydrates, now))
            && Outcome(main, after, request, Place(hit), reply.accepted)
  {
    hide Settle, Decided, Decision, Remember, DetachTargetKey, TakenOver, GetLeaves, CountLeaves, Distinct, HasRoom, Owns;
    SettleMeaning(main, request, hit, hydrates, now);
    var (accepted, next) := Settle(main, request, hit, hydrates, now);
    SettleKeepsSound(main, next, request, hit);
    ConcludeMeaning(next, request.id, accepted);
    SameDecisions(main, next, request.id, accepted);
    var after := Conclude((accepted, next), request.id).0;
    assert after.(decisions := main.decisions, waiting := main.waiting) == next;
  }

  lemma SettleKeepsSound(main: Main, next: Main, request: Request, hit: Hit)
    requires Sound(main) && (next == main || TakenOver(main, next, DetachTargetKey(request.target), Place(hit)))
    ensures Sound(next) && next.decisions == main.decisions && next.waiting == main.waiting
  {
    hide GetLeaves, CountLeaves, Distinct, DetachTargetKey, Placed, Unplaced;
  }

  lemma SameDecisions(main: Main, next: Main, id: string, accepted: bool)
    requires next.decisions == main.decisions && next.waiting == main.waiting
    requires Decided(next, Conclude((accepted, next), id).0, id, accepted)
    ensures Decided(main, Conclude((accepted, next), id).0, id, accepted)
  {
  }

  lemma WaitingIsUndecided(main: Main, id: string)
    requires Sound(main) && id in main.waiting
    ensures Decision(main.decisions, id).None?
  {
    NoDecision(main.decisions, id);
  }

  /** An answered request gets the same answer when it is delivered again, at any time and whatever could be
      taken over by then, and nothing changes. */
  lemma RepeatIsHarmless(main: Main, request: Request, hydrates: bool, now: int, again: Request, hydratesAgain: bool, later: int)
    requires Sound(main) && again.id == request.id
    ensures var (after, reply) := OnDrop(main, request, hydrates, now);
            reply.Ack? ==> OnDrop(after, again, hydratesAgain, later) == (after, reply)
  {
    hide Settle, Decision, Remember, Owns, DetachTargetKey, GetLeaves, CountLeaves, Distinct, Acceptable, TakenOver;
    if New(main, request.id) {
      ConcludeMeaning(main, request.id, false);
      HitMeaning(main, request, Hit(true, None), hydrates, now);
    }
  }

  class DropReceiver {
    var decisions: seq<(string, bool)>
    var pendingDecisions: set<string>
    var owners: map<string, string>
    var tree: Option<Tree>
    var focusedPane: Option<string>

    function State(): Main
      reads this
    {
      Main(decisions, pendingDecisions, owners, tree, focusedPane)
    }

    ghost predicate Valid()
      reads this
    {
      Sound(State())
    }

    constructor (tree: Option<Tree>)
      requires Distinct(GetLeaves(tree)) && CountLeaves(tree) <= MAX_TERMINAL_PANES
      ensures Valid() && State() == Main([], {}, map[], tree, None)
    {
      decisions, pendingDecisions, owners := [], {}, map[];
      this.tree, focusedPane := tree, None;
    }

    method TakeBack(request: Request, placement: Option<PanePlacement>, hydrates: bool) returns (accepted: bool)
      requires Valid()
      modifies this
      ensures Valid()
      ensures (accepted, State()) == Accept(old(State()), request, placement, hydrates)
      ensures accepted <==> hydrates && HasRoom(old(State()), DetachTargetKey(request.target), placement)
      ensures accepted ==> TakenOver(old(State()), State(), DetachTargetKey(request.target), placement)
      ensures accepted ==> ShowsTarget(State(), request.target)
      ensures !accepted ==> State() == old(State())
    {
      hide AcceptPane, DetachTargetKey, GetLeaves, CountLeaves, Distinct, Placed, Unplaced, ParsePaneId;
      AcceptTakesOver(State(), request, placement, hydrates);
      KeyParses(request.target);
      var id := DetachTargetKey(request.target);
      var next := AcceptPane(tree, focusedPane, placement, id);
      if next.None? {
        return false;
      }
      if !hydrates {
        return false;
      }
      owners := owners - {id};
      tree := next.value;
      focusedPane := Some(id);
      return true;
    }

    /** The part of the handler after the hit test; the request has no answer yet. */
    method Resume(request: Request, target: Hit, hydrates: bool, now: int) returns (accepted: bool)
      requires Valid() && Decision(decisions, request.id).None?
      modifies this
      ensures Valid()
      ensures (State(), Ack(accepted)) == OnHit(old(State()), request, target, hydrates, now)
      ensures accepted <==> Acceptable(old(State()), request, target, hydrates, now)
      ensures Outcome(old(State()), State(), request, Place(target), accepted)
      ensures accepted ==> ShowsTarget(State(), request.target)
    {
      hide Accept, DetachTargetKey, Decision, Sound, Acceptable, Decided, Remember, GetLeaves, CountLeaves, Distinct, Placed, Unplaced;
      HitMeaning(State(), request, target, hydrates, now);
      accepted := false;
      if target.Hit? && target.valid && request.expiresAt > now {
        var key := DetachTargetKey(request.target);
        if key in owners && owners[key] == request.source {
          accepted := TakeBack(request, target.pane, hydrates);
        }
      }
      Decide(request.id, accepted);
    }

    method Decide(id: string, accepted: bool)
      requires Valid() && Decision(decisions, id).None?
      modifies this`pendingDecisions, this`decisions
      ensures Valid()
      ensures (State(), Ack(accepted)) == Conclude((accepted, old(State())), id)
      ensures Decided(old(State()), State(), id, accepted)
    {
      hide Decision, SetDecision, Sound, Decided;
      ConcludeMeaning(State(), id, accepted);
      pendingDecisions := pendingDecisions - {id};
      decisions := SetDecision(decisions, id, accepted);
      if |decisions| > REMEMBERED {
        decisions := decisions[1..];
      }
    }

    method Drop(request: Request, hydrates: bool, now: int) returns (reply: Reply)
      requires Valid()
      modifies this
      ensures Valid()
      ensures (State(), reply) == OnDrop(old(State()), request, hydrates, now)
      // An answered request is answered alike, and one that is being decided is left alone.
      ensures !New(old(State()), request.id) ==> State() == old(State()) && reply != Awaiting
      ensures request.id != "" && Decision(old(decisions), request.id).Some? ==>
                reply == Ack(Decision(old(decisions), request.id).value)
      ensures reply == Silent <==> request.id == "" || request.id in old(pendingDecisions)
      // A new one waits only with a point to look up, and otherwise is decided and remembered.
      ensures reply == Awaiting <==> New(old(State()), request.id) && Owns(old(State()), request) && request.pointed
      ensures reply == Awaiting ==> State() == old(State()).(waiting := old(pendingDecisions) + {request.id})
      ensures New(old(State()), request.id) && reply.Ack? ==>
                && reply.accepted == Acceptable(old(State()), request, Hit(true, None), hydrates, now)
                && Outcome(old(State()), State(), request, None, reply.accepted)
                && (reply.accepted ==> ShowsTarget(State(), request.target))
    {
      hide Accept, DetachTargetKey, Decision, Sound, TakenOver, Decided, Remember, HasRoom;
      if request.id == "" {
        return Silent;
      }
      if request.id in pendingDecisions {
        WaitingIsUndecided(State(), request.id);
      }
      var known := Decision(decisions, request.id);
      if known.Some? {
        return Ack(known.value);
      }
      if request.id in pendingDecisions {
        return Silent;
      }
      var key := DetachTargetKey(request.target);
      if !(key in owners && owners[key] == request.source) {
        Decide(request.id, false);
        return Ack(false);
      }
      if request.pointed {
        MayWait(State(), request.id);
        pendingDecisions := pendingDecisions + {request.id};
        return Awaiting;
      }
      assert pendingDecisions == pendingDecisions - {request.id};
      var accepted := Resume(request, Hit(true, None), hydrates, now);
      return Ack(accepted);
    }
  }
}
