/** Finding a session for every saved one when a workspace is restored: the session itself when it survived,
    another live connection to the same server, or a new one. What the backend answers when it is asked for a
    session is a parameter, one answer for each saved session. */
module SessionRestore {
  import opened Wrappers
  import opened MosaicTree
  import opened TreeSanitizer
  import opened WorkspaceRemap

  datatype Restore = Restore(mapping: Mapping, used: set<string>, live: seq<Session>, warnings: seq<string>)

  function FindById(live: seq<Session>, id: string, used: set<string>): (found: Option<Session>)
    ensures found.Some? ==> found.value in live && found.value.id == id && id !in used
    ensures found.None? ==> forall s :: s in live && s.id == id ==> id in used
  {
    if live == [] then None
    else if live[0].id == id && id !in used then Some(live[0])
    else FindById(live[1..], id, used)
  }

  function FindByServer(live: seq<Session>, serverId: string, used: set<string>): (found: Option<Session>)
    ensures found.Some? ==> found.value in live && found.value.id !in used
    ensures found.Some? ==> found.value.sessionType == Ssh && found.value.serverId == serverId
    ensures found.None? ==> forall s :: s in live && s.sessionType == Ssh && s.serverId == serverId ==> s.id in used
  {
    if live == [] then None
    else if live[0].id !in used && live[0].sessionType == Ssh && live[0].serverId == serverId then Some(live[0])
    else FindByServer(live[1..], serverId, used)
  }

  function Survivor(saved: Session, live: seq<Session>, used: set<string>): Option<Session> {
    var own := FindById(live, saved.id, used);
    if own.None? && saved.sessionType == Ssh then FindByServer(live, saved.serverId, used) else own
  }

  /** Setting a key keeps the place it was first given. */
  function Put(mapping: Mapping, id: string, session: Session): Mapping {
    if mapping == [] then [(id, session)]
    else if mapping[0].0 == id then [(id, session)] + mapping[1..]
    else [mapping[0]] + Put(mapping[1..], id, session)
  }

  function Begin(live: seq<Session>): Restore {
    Restore([], {}, live, [])
  }

  predicate Asks(state: Restore, saved: Session, localShell: bool) {
    Survivor(saved, state.live, state.used).None? && (saved.sessionType == Ssh || localShell)
  }

  /** A session is opened anew exactly when its own is not live or taken, no other free connection leads to its server,
      and it is not a local one where there is no shell. */
  lemma AsksMeaning(state: Restore, saved: Session, localShell: bool)
    ensures Asks(state, saved, localShell) <==>
            && (forall s :: s in state.live && s.id !in state.used ==> s.id != saved.id)
            && (saved.sessionType == Ssh ==>
                  forall s :: s in state.live && s.id !in state.used ==> s.sessionType != Ssh || s.serverId != saved.serverId)
            && (saved.sessionType == Local ==> localShell)
  {
    var own := FindById(state.live, saved.id, state.used);
    var other := FindByServer(state.live, saved.serverId, state.used);
  }

  function Chosen(state: Restore, saved: Session, localShell: bool, answer: Option<Session>): Option<Session> {
    if Asks(state, saved, localShell) then answer else Survivor(saved, state.live, state.used)
  }

  function RestoreOne(state: Restore, saved: Session, localShell: bool, answer: Option<Session>): Restore {
    var asks := Asks(state, saved, localShell);
    var session := Chosen(state, saved, localShell, answer);
    var live := if asks && answer.Some? then state.live + [answer.value] else state.live;
    var agent := if asks && saved.sessionType == Local && saved.codingAgent then [saved.serverName] else [];
    if session.Some? then
      Restore(Put(state.mapping, saved.id, session.value), state.used + {session.value.id}, live, state.warnings + agent)
    else
      Restore(state.mapping, state.used, live, state.warnings + agent + [saved.serverName])
  }

  function RestoreAll(saved: seq<Session>, answers: seq<Option<Session>>, localShell: bool, live: seq<Session>): Restore
    requires |answers| == |saved|
  {
    if saved == [] then Begin(live)
    else
      var n := |saved| - 1;
      RestoreOne(RestoreAll(saved[..n], answers[..n], localShell, live), saved[n], localShell, answers[n])
  }

  lemma NothingRestored(localShell: bool, live: seq<Session>)
    ensures RestoreAll([], [], localShell, live) == Begin(live)
  {
  }

  lemma RestoreNext(saved: seq<Session>, answers: seq<Option<Session>>, localShell: bool, live: seq<Session>, i: nat)
    requires |answers| == |saved| && i < |saved|
    ensures RestoreAll(saved[..i + 1], answers[..i + 1], localShell, live)
         == RestoreOne(RestoreAll(saved[..i], answers[..i], localShell, live), saved[i], localShell, answers[i])
  {
    hide RestoreOne;
    assert saved[..i + 1][..i] == saved[..i] && answers[..i + 1][..i] == answers[..i];
  }

  method MatchSessions(saved: seq<Session>, answers: seq<Option<Session>>, localShell: bool, open: seq<Session>)
    returns (mapping: Mapping, used: set<string>, live: seq<Session>, warnings: seq<string>)
    requires |answers| == |saved|
    ensures Restore(mapping, used, live, warnings) == RestoreAll(saved, answers, localShell, open)
  {
    hide Put, FindById, FindByServer, RestoreAll;
    NothingRestored(localShell, open);
    mapping, used, live, warnings := [], {}, open, [];
    for i := 0 to |saved|
      invariant Restore(mapping, used, live, warnings) == RestoreAll(saved[..i], answers[..i], localShell, open)
    {
      RestoreNext(saved, answers, localShell, open, i);
      var wanted := saved[i];
      var session := FindById(live, wanted.id, used);
      if session.None? && wanted.sessionType == Ssh {
        session := FindByServer(live, wanted.serverId, used);
      }
      if session.None? {
        if wanted.sessionType == Ssh {
          session := answers[i];
          if session.Some? {
            live := live + [session.value];
          }
        } else if localShell {
          session := answers[i];
          if session.Some? {
            live := live + [session.value];
          }
          if wanted.codingAgent {
            warnings := warnings + [wanted.serverName];
          }
        }
      }
      if session.Some? {
        mapping := Put(mapping, wanted.id, session.value);
        used := used + {session.value.id};
      } else {
        warnings := warnings + [wanted.serverName];
      }
    }
    assert saved[..|saved|] == saved && answers[..|answers|] == answers;
  }

  // ----- Every session is used once -----

  ghost predicate DistinctIds(sessions: seq<Session>) {
    forall i, j :: 0 <= i < j < |sessions| ==> sessions[i].id != sessions[j].id
  }

  /** The backend gives every session it opens an identifier of its own. */
  ghost predicate NewSessions(answers: seq<Option<Session>>, live: seq<Session>) {
    && (forall i, j :: 0 <= i < j < |answers| && answers[i].Some? && answers[j].Some? ==>
          answers[i].value.id != answers[j].value.id)
    && (forall i, s :: 0 <= i < |answers| && answers[i].Some? && s in live ==> answers[i].value.id != s.id)
  }

  /** A key keeps its place, and a new one comes last. */
  lemma {:induction false} PutKeepsPlace(mapping: Mapping, id: string, session: Session)
    ensures var after := Put(mapping, id, session);
            && (|after| == |mapping| || |after| == |mapping| + 1)
            && (forall i :: 0 <= i < |mapping| ==> after[i].0 == mapping[i].0)
            && (|after| > |mapping| <==> forall e :: e in mapping ==> e.0 != id)
            && (|after| > |mapping| ==> after[|mapping|] == (id, session))
  {
    if mapping != [] && mapping[0].0 != id {
      PutKeepsPlace(mapping[1..], id, session);
      assert mapping == [mapping[0]] + mapping[1..];
    }
  }

  lemma {:induction false} PutMeaning(mapping: Mapping, id: string, session: Session)
    requires MappingKeys(mapping)
    ensures MappingKeys(Put(mapping, id, session))
    ensures forall e :: e in Put(mapping, id, session) <==> e == (id, session) || (e in mapping && e.0 != id)
  {
    if mapping != [] && mapping[0].0 != id {
      PutMeaning(mapping[1..], id, session);
      var rest := Put(mapping[1..], id, session);
      assert Put(mapping, id, session) == [mapping[0]] + rest;
      assert mapping == [mapping[0]] + mapping[1..];
      forall j | 0 <= j < |rest| ensures rest[j].0 != mapping[0].0 {
        assert rest[j] in rest;
      }
    } else if mapping != [] {
      assert mapping == [mapping[0]] + mapping[1..];
    }
  }

  ghost predicate Sound(state: Restore) {
    && MappingKeys(state.mapping)
    && DistinctIds(state.live)
    && (forall e :: e in state.mapping ==> e.1 in state.live && e.1.id in state.used)
    && (forall e, f :: e in state.mapping && f in state.mapping && e.1.id == f.1.id ==> e.0 == f.0)
    && (forall id :: id in state.used ==> exists s :: s in state.live && s.id == id)
  }

  lemma OneSound(state: Restore, saved: Session, localShell: bool, answer: Option<Session>)
    requires Sound(state)
    requires answer.Some? ==> forall s :: s in state.live ==> s.id != answer.value.id
    ensures Sound(RestoreOne(state, saved, localShell, answer))
  {
    hide Put;
    var next := RestoreOne(state, saved, localShell, answer);
    assert forall s :: s in state.live ==> s in next.live;
    var session := Chosen(state, saved, localShell, answer);
    if session.Some? {
      PutMeaning(state.mapping, saved.id, session.value);
      assert session.value in next.live;
      assert session.value.id !in state.used;
    }
  }

  lemma {:induction false} AllSound(saved: seq<Session>, answers: seq<Option<Session>>, localShell: bool, live: seq<Session>)
    requires |answers| == |saved| && DistinctIds(live) && NewSessions(answers, live)
    ensures Sound(RestoreAll(saved, answers, localShell, live))
    ensures live <= RestoreAll(saved, answers, localShell, live).live
    ensures forall s :: s in RestoreAll(saved, answers, localShell, live).live ==> s in live || Some(s) in answers
  {
    if saved != [] {
      var n := |saved| - 1;
      AllSound(saved[..n], answers[..n], localShell, live);
      var before := RestoreAll(saved[..n], answers[..n], localShell, live);
      assert forall a :: a in answers[..n] ==> a in answers;
      OneSound(before, saved[n], localShell, answers[n]);
    }
  }

  /** The session found for the saved session at position `i`. */
  function FoundFor(saved: seq<Session>, answers: seq<Option<Session>>, localShell: bool, live: seq<Session>, i: nat)
    : Option<Session>
    requires |answers| == |saved| && i < |saved|
  {
    Chosen(RestoreAll(saved[..i], answers[..i], localShell, live), saved[i], localShell, answers[i])
  }

  /** One saved identifier was given a session twice. */
  ghost predicate FoundTwice(saved: seq<Session>, answers: seq<Option<Session>>, localShell: bool, live: seq<Session>)
    requires |answers| == |saved|
  {
    exists i, j :: 0 <= i < j < |saved| && saved[i].id == saved[j].id
      && FoundFor(saved, answers, localShell, live, i).Some? && FoundFor(saved, answers, localShell, live, j).Some?
  }

  lemma FoundForPrefix(saved: seq<Session>, answers: seq<Option<Session>>, localShell: bool, live: seq<Session>, n: nat, i: nat)
    requires |answers| == |saved| && i < n <= |saved|
    ensures FoundFor(saved[..n], answers[..n], localShell, live, i) == FoundFor(saved, answers, localShell, live, i)
  {
    assert saved[..n][..i] == saved[..i] && answers[..n][..i] == answers[..i];
  }

  /** No session was found, or a coding agent had to be replaced by a new shell. */
  ghost predicate Reported(saved: seq<Session>, answers: seq<Option<Session>>, localShell: bool, live: seq<Session>, i: nat)
    requires |answers| == |saved| && i < |saved|
  {
    || FoundFor(saved, answers, localShell, live, i).None?
    || (Asks(RestoreAll(saved[..i], answers[..i], localShell, live), saved[i], localShell)
        && saved[i].sessionType == Local && saved[i].codingAgent)
  }

  lemma ReportedPrefix(saved: seq<Session>, answers: seq<Option<Session>>, localShell: bool, live: seq<Session>, n: nat, i: nat)
    requires |answers| == |saved| && i < n <= |saved|
    ensures Reported(saved[..n], answers[..n], localShell, live, i) == Reported(saved, answers, localShell, live, i)
  {
    hide RestoreAll, Asks, Chosen;
    assert saved[..n][..i] == saved[..i] && answers[..n][..i] == answers[..i];
  }

  lemma WarningsStep(state: Restore, saved: Session, localShell: bool, answer: Option<Session>, name: string)
    ensures name in RestoreOne(state, saved, localShell, answer).warnings <==>
            name in state.warnings
            || (name == saved.serverName
                && (Chosen(state, saved, localShell, answer).None?
                    || (Asks(state, saved, localShell) && saved.sessionType == Local && saved.codingAgent)))
  {
    hide Asks, Put;
  }

  /** The warnings name exactly the servers of the saved sessions that were not found, and of the coding agents
      that were replaced. */
  lemma {:induction false} WarningsMeaning(saved: seq<Session>, answers: seq<Option<Session>>, localShell: bool,
                                           live: seq<Session>, name: string)
    requires |answers| == |saved|
    ensures name in RestoreAll(saved, answers, localShell, live).warnings <==>
            exists i :: 0 <= i < |saved| && saved[i].serverName == name && Reported(saved, answers, localShell, live, i)
  {
    hide RestoreOne, Asks, Chosen, Reported;
    if saved != [] {
      var n := |saved| - 1;
      WarningsMeaning(saved[..n], answers[..n], localShell, live, name);
      WarningsStep(RestoreAll(saved[..n], answers[..n], localShell, live), saved[n], localShell, answers[n], name);
      LastReported(saved, answers, localShell, live);
      forall i | 0 <= i < n
        ensures Reported(saved[..n], answers[..n], localShell, live, i) == Reported(saved, answers, localShell, live, i)
      {
        ReportedPrefix(saved, answers, localShell, live, n, i);
      }
      assert forall i :: 0 <= i < n ==> saved[..n][i] == saved[i];
    }
  }

  lemma LastReported(saved: seq<Session>, answers: seq<Option<Session>>, localShell: bool, live: seq<Session>)
    requires |answers| == |saved| && saved != []
    ensures var n := |saved| - 1;
            var state := RestoreAll(saved[..n], answers[..n], localShell, live);
            Reported(saved, answers, localShell, live, n) <==>
            Chosen(state, saved[n], localShell, answers[n]).None?
            || (Asks(state, saved[n], localShell) && saved[n].sessionType == Local && saved[n].codingAgent)
  {
    hide RestoreAll, Asks, Chosen;
  }

  ghost predicate HasKey(mapping: Mapping, key: string) {
    exists e :: e in mapping && e.0 == key
  }

  ghost predicate WasFound(saved: seq<Session>, answers: seq<Option<Session>>, localShell: bool, live: seq<Session>, key: string)
    requires |answers| == |saved|
  {
    exists i :: 0 <= i < |saved| && saved[i].id == key && FoundFor(saved, answers, localShell, live, i).Some?
  }

  lemma KeysStep(state: Restore, saved: Session, localShell: bool, answer: Option<Session>, key: string)
    requires MappingKeys(state.mapping)
    ensures HasKey(RestoreOne(state, saved, localShell, answer).mapping, key) <==>
            HasKey(state.mapping, key) || (key == saved.id && Chosen(state, saved, localShell, answer).Some?)
  {
    hide Put, Chosen, Asks;
    var now := Chosen(state, saved, localShell, answer);
    if now.Some? {
      PutMeaning(state.mapping, saved.id, now.value);
      assert (saved.id, now.value) in Put(state.mapping, saved.id, now.value);
    }
  }

  lemma FoundStep(saved: seq<Session>, answers: seq<Option<Session>>, localShell: bool, live: seq<Session>, key: string)
    requires |answers| == |saved| && saved != []
    ensures var n := |saved| - 1;
            WasFound(saved, answers, localShell, live, key) <==>
            WasFound(saved[..n], answers[..n], localShell, live, key)
            || (key == saved[n].id && FoundFor(saved, answers, localShell, live, n).Some?)
  {
    hide FoundFor;
    var n := |saved| - 1;
    forall i | 0 <= i < n
      ensures FoundFor(saved[..n], answers[..n], localShell, live, i) == FoundFor(saved, answers, localShell, live, i)
    {
      FoundForPrefix(saved, answers, localShell, live, n, i);
    }
    assert forall i :: 0 <= i < n ==> saved[..n][i] == saved[i];
  }

  lemma {:induction false} KeysWereFound(saved: seq<Session>, answers: seq<Option<Session>>, localShell: bool, live: seq<Session>,
                                         key: string)
    requires |answers| == |saved| && DistinctIds(live) && NewSessions(answers, live)
    ensures HasKey(RestoreAll(saved, answers, localShell, live).mapping, key) <==>
            WasFound(saved, answers, localShell, live, key)
  {
    hide RestoreOne, Chosen, WasFound;
    if saved == [] {
      NothingFoundYet(live, localShell, key);
    } else {
      var n := |saved| - 1;
      KeysWereFound(saved[..n], answers[..n], localShell, live, key);
      AllSound(saved[..n], answers[..n], localShell, live);
      KeysStep(RestoreAll(saved[..n], answers[..n], localShell, live), saved[n], localShell, answers[n], key);
      FoundStep(saved, answers, localShell, live, key);
    }
  }

  lemma NothingFoundYet(live: seq<Session>, localShell: bool, key: string)
    ensures !WasFound([], [], localShell, live, key) && !HasKey(Begin(live).mapping, key)
  {
  }

  // ----- The rail after a restore -----

  function Values(mapping: Mapping): seq<Session> {
    seq(|mapping|, i requires 0 <= i < |mapping| => mapping[i].1)
  }

  function Unused(live: seq<Session>, used: set<string>): seq<Session> {
    if live == [] then []
    else if live[0].id in used then Unused(live[1..], used)
    else [live[0]] + Unused(live[1..], used)
  }

  /** The sessions of the restored tabs, then the live ones the saved workspace does not mention. */
  function Rail(state: Restore): seq<Session> {
    Values(state.mapping) + Unused(state.live, state.used)
  }

  /** The live sessions that are left follow in the order in which they are live. */
  ghost predicate InOrderOf(some: seq<Session>, all: seq<Session>) {
    if some == [] then true
    else exists k :: 0 <= k < |all| && all[k] == some[0] && InOrderOf(some[1..], all[k + 1..])
  }

  lemma {:induction false} UnusedInOrder(live: seq<Session>, used: set<string>)
    ensures InOrderOf(Unused(live, used), live)
  {
    if live != [] {
      UnusedInOrder(live[1..], used);
      if live[0].id in used {
        LaterInOrder(Unused(live[1..], used), live);
      }
    }
  }

  lemma LaterInOrder(some: seq<Session>, all: seq<Session>)
    requires all != [] && InOrderOf(some, all[1..])
    ensures InOrderOf(some, all)
  {
    if some != [] {
      var k :| 0 <= k < |all[1..]| && all[1..][k] == some[0] && InOrderOf(some[1..], all[1..][k + 1..]);
      assert all[k + 1] == some[0] && all[k + 1 + 1..] == all[1..][k + 1..];
    }
  }

  lemma {:induction false} UnusedMeaning(live: seq<Session>, used: set<string>)
    requires DistinctIds(live)
    ensures forall s :: s in Unused(live, used) <==> s in live && s.id !in used
    ensures DistinctIds(Unused(live, used))
  {
    if live != [] {
      UnusedMeaning(live[1..], used);
      assert live == [live[0]] + live[1..];
      assert forall s :: s in live[1..] ==> s.id != live[0].id;
    }
  }

  ghost predicate Lost(state: Restore) {
    exists id :: id in state.used && forall e :: e in state.mapping ==> e.1.id != id
  }

  lemma LostForGood(state: Restore, saved: Session, localShell: bool, answer: Option<Session>)
    requires Sound(state)
    requires answer.Some? ==> forall s :: s in state.live ==> s.id != answer.value.id
    ensures var now := Chosen(state, saved, localShell, answer);
            Lost(RestoreOne(state, saved, localShell, answer)) <==>
            Lost(state) || (now.Some? && HasKey(state.mapping, saved.id))
  {
    hide Put;
    var now := Chosen(state, saved, localShell, answer);
    var next := RestoreOne(state, saved, localShell, answer);
    if now.Some? {
      PutMeaning(state.mapping, saved.id, now.value);
      assert (saved.id, now.value) in next.mapping;
      assert now.value.id !in state.used;
      if Lost(state) {
        var id :| id in state.used && forall e :: e in state.mapping ==> e.1.id != id;
        assert id in next.used && forall e :: e in next.mapping ==> e.1.id != id;
      }
      if e :| e in state.mapping && e.0 == saved.id {
        assert e.1.id in next.used;
        assert forall f :: f in next.mapping ==> f.1.id != e.1.id;
      }
      if Lost(next) {
        var id :| id in next.used && forall e :: e in next.mapping ==> e.1.id != id;
        assert forall e :: e in state.mapping && e.0 != saved.id ==> e in next.mapping;
      }
    }
  }

  lemma FoundTwiceStep(saved: seq<Session>, answers: seq<Option<Session>>, localShell: bool, live: seq<Session>)
    requires |answers| == |saved| && saved != []
    ensures var n := |saved| - 1;
            FoundTwice(saved, answers, localShell, live) <==>
            FoundTwice(saved[..n], answers[..n], localShell, live)
            || (FoundFor(saved, answers, localShell, live, n).Some?
                && WasFound(saved[..n], answers[..n], localShell, live, saved[n].id))
  {
    hide FoundFor;
    var n := |saved| - 1;
    forall i | 0 <= i < n
      ensures FoundFor(saved[..n], answers[..n], localShell, live, i) == FoundFor(saved, answers, localShell, live, i)
    {
      FoundForPrefix(saved, answers, localShell, live, n, i);
    }
    assert forall i :: 0 <= i < n ==> saved[..n][i] == saved[i];
  }

  lemma {:induction false} LostMeansFoundTwice(saved: seq<Session>, answers: seq<Option<Session>>, localShell: bool,
                                               live: seq<Session>)
    requires |answers| == |saved| && DistinctIds(live) && NewSessions(answers, live)
    ensures Lost(RestoreAll(saved, answers, localShell, live)) <==> FoundTwice(saved, answers, localShell, live)
  {
    hide Chosen, RestoreOne, Lost, Sound, HasKey, FoundTwice, WasFound;
    if saved == [] {
      NothingLostYet(localShell, live);
    } else {
      var n := |saved| - 1;
      LostMeansFoundTwice(saved[..n], answers[..n], localShell, live);
      AllSound(saved[..n], answers[..n], localShell, live);
      KeysWereFound(saved[..n], answers[..n], localShell, live, saved[n].id);
      FoundTwiceStep(saved, answers, localShell, live);
      assert forall a :: a in answers[..n] ==> a in answers;
      LostForGood(RestoreAll(saved[..n], answers[..n], localShell, live), saved[n], localShell, answers[n]);
    }
  }

  lemma NothingLostYet(localShell: bool, live: seq<Session>)
    ensures !Lost(Begin(live)) && !FoundTwice([], [], localShell, live)
  {
  }

  /** The rail never shows a session twice. It shows the sessions of the saved tabs, in their order, and then live ones
      in theirs; every live session exactly when no saved identifier was given two of them. */
  lemma RailMeaning(saved: seq<Session>, answers: seq<Option<Session>>, localShell: bool, live: seq<Session>)
    requires |answers| == |saved| && DistinctIds(live) && NewSessions(answers, live)
    ensures var last := RestoreAll(saved, answers, localShell, live);
            && DistinctIds(Rail(last))
            && (forall s :: s in Rail(last) ==> s in live || Some(s) in answers)
            && |last.mapping| <= |Rail(last)|
            && (forall i :: 0 <= i < |last.mapping| ==> Rail(last)[i] == last.mapping[i].1)
            && InOrderOf(Rail(last)[|last.mapping|..], last.live)
            && ((forall s :: s in last.live ==> s in Rail(last)) <==> !FoundTwice(saved, answers, localShell, live))
  {
    hide RestoreAll, FoundTwice;
    var last := RestoreAll(saved, answers, localShell, live);
    AllSound(saved, answers, localShell, live);
    LostMeansFoundTwice(saved, answers, localShell, live);
    UnusedMeaning(last.live, last.used);
    UnusedInOrder(last.live, last.used);
    assert Rail(last)[|last.mapping|..] == Unused(last.live, last.used);
    RailOf(last);
  }

  lemma RailOf(state: Restore)
    requires Sound(state)
    ensures DistinctIds(Rail(state))
    ensures forall s :: s in Rail(state) ==> s in state.live
    ensures (forall s :: s in state.live ==> s in Rail(state)) <==> !Lost(state)
  {
    var values, unused := Values(state.mapping), Unused(state.live, state.used);
    UnusedMeaning(state.live, state.used);
    assert Rail(state) == values + unused;
    forall s | s in values ensures s.id in state.used && s in state.live {
      var i :| 0 <= i < |values| && values[i] == s;
      assert state.mapping[i] in state.mapping;
    }
    forall e | e in state.mapping ensures e.1 in values {
      var i :| 0 <= i < |state.mapping| && state.mapping[i] == e;
      assert values[i] == e.1;
    }
    ValuesDistinct(state);
    RailDistinct(values, unused);
    if Lost(state) {
      var id :| id in state.used && forall e :: e in state.mapping ==> e.1.id != id;
      var s :| s in state.live && s.id == id;
      assert s !in unused && s !in values;
    }
    if !Lost(state) {
      forall s | s in state.live ensures s in Rail(state) {
        if s.id in state.used {
          var e :| e in state.mapping && e.1.id == s.id;
          assert e.1 == s;
        }
      }
    }
  }

  lemma ValuesDistinct(state: Restore)
    requires Sound(state)
    ensures DistinctIds(Values(state.mapping)) && InjectiveMapping(state.mapping)
  {
    var mapping := state.mapping;
    forall i, j | 0 <= i < j < |mapping| ensures mapping[i].0 != mapping[j].0 && mapping[i].1.id != mapping[j].1.id {
      assert mapping[i] in mapping && mapping[j] in mapping;
    }
  }

  lemma RailDistinct(values: seq<Session>, unused: seq<Session>)
    requires DistinctIds(values) && DistinctIds(unused)
    requires forall s, t :: s in values && t in unused ==> s.id != t.id
    ensures DistinctIds(values + unused)
  {
    var all := values + unused;
    forall i, j | 0 <= i < j < |all| ensures all[i].id != all[j].id {
      if i < |values| <= j {
        assert values[i] in values && unused[j - |values|] in unused;
      }
    }
  }

  /** What a restore hands to `RemapWorkspace` never gives two saved identifiers the same session. */
  lemma MatchingIsInjective(saved: seq<Session>, answers: seq<Option<Session>>, localShell: bool, live: seq<Session>)
    requires |answers| == |saved| && DistinctIds(live) && NewSessions(answers, live)
    ensures InjectiveMapping(RestoreAll(saved, answers, localShell, live).mapping)
  {
    AllSound(saved, answers, localShell, live);
    ValuesDistinct(RestoreAll(saved, answers, localShell, live));
  }

  // ----- Which saved workspaces can lose a live session -----

  /** Opening a session for every saved one leaves no live session unused. */
  lemma {:induction false} AllOpened(saved: seq<Session>, answers: seq<Option<Session>>)
    requires |answers| == |saved| && forall i :: 0 <= i < |answers| ==> answers[i].Some?
    ensures forall s :: s in RestoreAll(saved, answers, true, []).live ==> s.id in RestoreAll(saved, answers, true, []).used
    ensures forall i :: 0 <= i < |saved| ==> FoundFor(saved, answers, true, [], i).Some?
  {
    hide Put;
    if saved != [] {
      var n := |saved| - 1;
      AllOpened(saved[..n], answers[..n]);
      var before := RestoreAll(saved[..n], answers[..n], true, []);
      assert Survivor(saved[n], before.live, before.used).None?;
      forall i | 0 <= i < n ensures FoundFor(saved, answers, true, [], i).Some? {
        FoundForPrefix(saved, answers, true, [], n, i);
      }
    }
  }

  function Named(length: nat): (name: string)
    ensures |name| == length
  {
    seq(length, _ => 'n')
  }

  ghost predicate RailIsComplete(saved: seq<Session>, answers: seq<Option<Session>>, localShell: bool, live: seq<Session>)
    requires |answers| == |saved|
  {
    var last := RestoreAll(saved, answers, localShell, live);
    forall s :: s in last.live ==> s in Rail(last)
  }

  /** The rail shows every live session after every restore exactly when the saved identifiers are distinct. */
  lemma CompleteForDistinctIds(saved: seq<Session>)
    ensures DistinctIds(saved) <==>
            forall answers, localShell, live ::
              |answers| == |saved| && DistinctIds(live) && NewSessions(answers, live) ==>
              RailIsComplete(saved, answers, localShell, live)
  {
    hide RestoreAll, Rail, FoundFor;
    forall answers: seq<Option<Session>>, localShell, live: seq<Session>
      | |answers| == |saved| && DistinctIds(live) && NewSessions(answers, live)
      ensures DistinctIds(saved) ==> RailIsComplete(saved, answers, localShell, live)
    {
      RailMeaning(saved, answers, localShell, live);
    }
    if !DistinctIds(saved) {
      var answers := seq(|saved|, i requires 0 <= i < |saved| => Some(saved[i].(id := Named(i))));
      assert NewSessions(answers, []) by {
        assert forall i :: 0 <= i < |answers| ==> |answers[i].value.id| == i;
      }
      AllOpened(saved, answers);
      assert FoundTwice(saved, answers, true, []);
      RailMeaning(saved, answers, true, []);
      assert !RailIsComplete(saved, answers, true, []);
    }
  }

  lemma PutAgain(id: string, first: Session, second: Session)
    ensures Put([(id, first)], id, second) == [(id, second)]
  {
    assert [(id, first)][1..] == [];
  }

  /** A session that was live before the restore can be the one that is lost: a workspace that names it twice
      takes a second connection to its server for the second entry. */
  lemma LiveSessionIsLost(a: Session, b: Session)
    requires a.id != b.id && a.sessionType == b.sessionType == Ssh && a.serverId == b.serverId
    ensures var last := RestoreAll([a, a], [None, None], true, [a, b]);
            a in last.live && a !in Rail(last)
  {
    hide Put;
    var answers: seq<Option<Session>> := [None, None];
    assert [a, a][..1] == [a] && answers[..1] == [None] && [a][..0] == [] && answers[..1][..0] == [];
    assert FindById([a, b], a.id, {}) == Some(a);
    var one := RestoreOne(Begin([a, b]), a, true, None);
    PutNew([], a.id, a);
    assert one == Restore([(a.id, a)], {a.id}, [a, b], []);
    assert RestoreAll([a], [None], true, [a, b]) == one;
    assert FindById([a, b][1..], a.id, {a.id}).None?;
    assert FindByServer([a, b][1..], a.serverId, {a.id}) == Some(b);
    assert Survivor(a, [a, b], {a.id}) == Some(b);
    var two := RestoreOne(one, a, true, None);
    PutAgain(a.id, a, b);
    assert two == Restore([(a.id, b)], {a.id} + {b.id}, [a, b], []);
    assert RestoreAll([a, a], answers, true, [a, b]) == two;
    UnusedMeaning([a, b], two.used);
    assert Values(two.mapping) == [b];
  }

  // ----- When every session survived -----

  ghost predicate AllSurvived(saved: seq<Session>, live: seq<Session>) {
    forall d :: d in saved ==> exists s :: s in live && s.id == d.id
  }

  lemma SurvivorStep(state: Restore, saved: Session, localShell: bool, answer: Option<Session>)
    requires saved.id !in state.used && !HasKey(state.mapping, saved.id)
    requires exists s :: s in state.live && s.id == saved.id
    ensures exists own :: own in state.live && own.id == saved.id
              && RestoreOne(state, saved, localShell, answer)
                 == state.(mapping := state.mapping + [(saved.id, own)], used := state.used + {saved.id})
  {
    hide Put;
    var own := FindById(state.live, saved.id, state.used).value;
    assert forall e :: e in state.mapping ==> e.0 != saved.id;
    PutNew(state.mapping, saved.id, own);
    assert RestoreOne(state, saved, localShell, answer)
        == state.(mapping := state.mapping + [(saved.id, own)], used := state.used + {saved.id});
  }

  /** When every saved session is still live, each keeps its own one and nothing is opened. */
  lemma {:induction false} SurvivorsKeepTheirSessions(saved: seq<Session>, answers: seq<Option<Session>>, localShell: bool,
                                                      live: seq<Session>)
    requires |answers| == |saved| && DistinctIds(saved) && AllSurvived(saved, live)
    ensures var last := RestoreAll(saved, answers, localShell, live);
            && last.live == live && last.warnings == []
            && (forall id :: id in last.used <==> exists d :: d in saved && d.id == id)
            && |last.mapping| == |saved|
            && (forall i :: 0 <= i < |saved| ==>
                  last.mapping[i].0 == saved[i].id == last.mapping[i].1.id && last.mapping[i].1 in live)
  {
    hide RestoreOne, HasKey, AllSurvived;
    if saved != [] {
      var n := |saved| - 1;
      FewerSurvive(saved, live);
      SurvivorsKeepTheirSessions(saved[..n], answers[..n], localShell, live);
      var before := RestoreAll(saved[..n], answers[..n], localShell, live);
      assert forall i :: 0 <= i < n ==> saved[..n][i] == saved[i] && before.mapping[i].0 == saved[i].id;
      assert saved[n].id !in before.used;
      NoKey(before.mapping, saved[n].id);
      SurvivorStep(before, saved[n], localShell, answers[n]);
      assert forall d :: d in saved <==> d in saved[..n] || d == saved[n];
    }
  }

  lemma FewerSurvive(saved: seq<Session>, live: seq<Session>)
    requires saved != [] && DistinctIds(saved) && AllSurvived(saved, live)
    ensures DistinctIds(saved[..|saved| - 1]) && AllSurvived(saved[..|saved| - 1], live)
    ensures exists s :: s in live && s.id == saved[|saved| - 1].id
  {
    assert saved[|saved| - 1] in saved;
  }

  lemma NoKey(mapping: Mapping, key: string)
    requires forall i :: 0 <= i < |mapping| ==> mapping[i].0 != key
    ensures !HasKey(mapping, key)
  {
  }

  lemma {:induction false} PutNew(mapping: Mapping, id: string, session: Session)
    requires forall e :: e in mapping ==> e.0 != id
    ensures Put(mapping, id, session) == mapping + [(id, session)]
  {
    if mapping != [] {
      PutNew(mapping[1..], id, session);
      assert mapping == [mapping[0]] + mapping[1..];
    }
  }

  /** A workspace whose sessions all survived is restored as it was saved. */
  lemma SurvivingWorkspaceIsKept(layout: Layout, answers: seq<Option<Session>>, localShell: bool, live: seq<Session>)
    requires |answers| == |layout.sessions| && DistinctIds(layout.sessions) && DistinctIds(live)
    requires AllSurvived(layout.sessions, live)
    requires var mapping := RestoreAll(layout.sessions, answers, localShell, live).mapping;
             && CanonicalTabs(layout, mapping)
             && (forall x :: x in GetLeaves(layout.tree) ==> x in PaneNames(layout, mapping))
    requires layout.tree.Some? && Proper(layout.tree, None)
    ensures RemapWorkspace(layout, RestoreAll(layout.sessions, answers, localShell, live).mapping).tree == layout.tree
  {
    hide RestoreAll, CanonicalTabs, PaneNames, RemapWorkspace;
    SurvivorsKeepTheirSessions(layout.sessions, answers, localShell, live);
    IdentityKeepsTree(layout, RestoreAll(layout.sessions, answers, localShell, live).mapping);
  }
}
