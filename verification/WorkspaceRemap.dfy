/** Restoring a saved workspace. A session identifier does not survive a restart, so every reference to a
    session (panes, tabs, the focused pane, active identifiers, detached windows) is renamed together. */
module WorkspaceRemap {
  import opened Wrappers
  import opened MosaicTree
  import opened TreeSanitizer
  import opened PaneIds

  datatype SessionType = Ssh | Local

  datatype Session = Session(id: string, serverId: string, serverName: string, sessionType: SessionType, codingAgent: bool)

  datatype FileTab = FileTab(id: string, local: bool, sessionId: string, path: string, name: string)

  datatype PluginTab = PluginTab(id: string, pluginId: string, sessionId: string, sessionType: SessionType, serverName: string)

  datatype DetachTarget =
    | TerminalTarget(sessionId: string, title: string)
    | PluginTarget(sessionId: string, pluginId: string, serverName: string, sessionType: SessionType)
    | FileTarget(sessionId: string, local: bool, path: string, name: string)

  datatype DetachedEntry = DetachedEntry(target: DetachTarget, geometryKey: string)

  datatype Layout = Layout(
    tree: Option<Tree>,
    focusedPane: Option<string>,
    sessions: seq<Session>,
    files: seq<FileTab>,
    plugins: seq<PluginTab>,
    activeSessionId: Option<string>,
    activeFileId: Option<string>,
    activePluginId: Option<string>,
    detached: seq<DetachedEntry>)

  /** Saved session identifiers and the sessions that stand for them now, in insertion order. */
  type Mapping = seq<(string, Session)>

  ghost predicate MappingKeys(mapping: Mapping) {
    forall i, j :: 0 <= i < j < |mapping| ==> mapping[i].0 != mapping[j].0
  }

  function Get(mapping: Mapping, id: string): (found: Option<Session>)
    ensures found.Some? ==> (id, found.value) in mapping
    ensures found.None? ==> forall e :: e in mapping ==> e.0 != id
  {
    if mapping == [] then None
    else if mapping[0].0 == id then Some(mapping[0].1)
    else Get(mapping[1..], id)
  }

  function FileTabId(sessionId: string, path: string): string {
    sessionId + ['\0'] + path
  }

  function PluginTabId(sessionId: string, pluginId: string): string {
    sessionId + "::" + pluginId
  }

  function RemapFile(tab: FileTab, mapping: Mapping): Option<FileTab> {
    if tab.local then Some(tab)
    else
      match Get(mapping, tab.sessionId)
      case None => None
      case Some(session) => Some(tab.(sessionId := session.id, id := FileTabId(session.id, tab.path)))
  }

  function RemapPlugin(tab: PluginTab, mapping: Mapping): Option<PluginTab> {
    match Get(mapping, tab.sessionId)
    case None => None
    case Some(session) =>
      Some(tab.(sessionId := session.id, sessionType := session.sessionType, serverName := session.serverName,
                id := PluginTabId(session.id, tab.pluginId)))
  }

  function RemapDetached(entry: DetachedEntry, mapping: Mapping): Option<DetachedEntry> {
    if entry.target.FileTarget? && entry.target.local then Some(entry)
    else
      match Get(mapping, entry.target.sessionId)
      case None => None
      case Some(session) =>
        var target := entry.target.(sessionId := session.id);
        Some(entry.(target :=
          if target.PluginTarget? then target.(sessionType := session.sessionType, serverName := session.serverName)
          else target))
  }

  function FlatMap<A(!new), B(!new)>(xs: seq<A>, f: A -> Option<B>): (ys: seq<B>)
    ensures forall y :: y in ys <==> exists x :: x in xs && f(x) == Some(y)
  {
    if xs == [] then []
    else
      var rest := FlatMap(xs[..|xs| - 1], f);
      var last := f(xs[|xs| - 1]);
      assert forall x :: x in xs <==> x in xs[..|xs| - 1] || x == xs[|xs| - 1];
      if last.Some? then rest + [last.value] else rest
  }

  // ----- The renaming of panes -----

  function SessionPanes(mapping: Mapping): map<string, string> {
    if mapping == [] then map[]
    else
      var last := mapping[|mapping| - 1];
      SessionPanes(mapping[..|mapping| - 1])[SessionPaneId(last.0) := SessionPaneId(last.1.id)]
  }

  function FilePanes(files: seq<FileTab>, mapping: Mapping): map<string, string> {
    if files == [] then map[]
    else
      var before := FilePanes(files[..|files| - 1], mapping);
      var tab := files[|files| - 1];
      match RemapFile(tab, mapping)
      case None => before
      case Some(now) => before[FilePaneId(tab.id) := FilePaneId(now.id)]
  }

  function PluginPanes(plugins: seq<PluginTab>, mapping: Mapping): map<string, string> {
    if plugins == [] then map[]
    else
      var before := PluginPanes(plugins[..|plugins| - 1], mapping);
      var tab := plugins[|plugins| - 1];
      match RemapPlugin(tab, mapping)
      case None => before
      case Some(now) => before[PluginPaneId(tab.id) := PluginPaneId(now.id)]
  }

  function PaneNames(layout: Layout, mapping: Mapping): map<string, string> {
    SessionPanes(mapping) + FilePanes(layout.files, mapping) + PluginPanes(layout.plugins, mapping)
  }

  /** The loops that fill one map, session panes first, then files, then plugins. */
  method BuildPaneNames(layout: Layout, mapping: Mapping) returns (ids: map<string, string>)
    ensures ids == PaneNames(layout, mapping)
  {
    hide SessionPaneId, FilePanes, PluginPanes;
    ids := map[];
    for i := 0 to |mapping|
      invariant ids == SessionPanes(mapping[..i])
    {
      assert mapping[..i + 1][..i] == mapping[..i];
      ids := ids[SessionPaneId(mapping[i].0) := SessionPaneId(mapping[i].1.id)];
    }
    assert mapping[..|mapping|] == mapping;
    ids := NameFiles(ids, layout.files, mapping);
    ids := NamePlugins(ids, layout.plugins, mapping);
  }

  method NameFiles(before: map<string, string>, files: seq<FileTab>, mapping: Mapping) returns (ids: map<string, string>)
    ensures ids == before + FilePanes(files, mapping)
  {
    hide FilePaneId, FileTabId, Get;
    ids := before;
    for i := 0 to |files|
      invariant ids == before + FilePanes(files[..i], mapping)
    {
      var tab := files[i];
      assert files[..i + 1][..i] == files[..i];
      if tab.local {
        ids := ids[FilePaneId(tab.id) := FilePaneId(tab.id)];
      } else {
        var session := Get(mapping, tab.sessionId);
        if session.Some? {
          ids := ids[FilePaneId(tab.id) := FilePaneId(FileTabId(session.value.id, tab.path))];
        }
      }
    }
    assert files[..|files|] == files;
  }

  method NamePlugins(before: map<string, string>, plugins: seq<PluginTab>, mapping: Mapping)
    returns (ids: map<string, string>)
    ensures ids == before + PluginPanes(plugins, mapping)
  {
    hide PluginPaneId, PluginTabId, Get;
    ids := before;
    for i := 0 to |plugins|
      invariant ids == before + PluginPanes(plugins[..i], mapping)
    {
      var tab := plugins[i];
      assert plugins[..i + 1][..i] == plugins[..i];
      var session := Get(mapping, tab.sessionId);
      if session.Some? {
        ids := ids[PluginPaneId(tab.id) := PluginPaneId(PluginTabId(session.value.id, tab.pluginId))];
      }
    }
    assert plugins[..|plugins|] == plugins;
  }

  /** Renaming the leaves; a leaf without a name now goes, and its parent closes up. */
  function RenameTree(tree: Tree, ids: map<string, string>): Option<Tree> {
    match tree
    case Leaf(id) => if id in ids then Some(Leaf(ids[id])) else None
    case Split(_, first, second, _) => Join(tree, RenameTree(first, ids), RenameTree(second, ids))
  }

  function Lookup(ids: map<string, string>, key: string): Option<string> {
    if key in ids then Some(ids[key]) else None
  }

  /** A present, non-empty identifier. */
  predicate Truthy(id: Option<string>) {
    id.Some? && id.value != ""
  }

  function RemapWorkspace(layout: Layout, mapping: Mapping): Layout {
    var ids := PaneNames(layout, mapping);
    var filePane := if Truthy(layout.activeFileId) then Lookup(ids, FilePaneId(layout.activeFileId.value)) else None;
    var pluginPane := if Truthy(layout.activePluginId) then Lookup(ids, PluginPaneId(layout.activePluginId.value)) else None;
    var active := if Truthy(layout.activeSessionId) then Get(mapping, layout.activeSessionId.value) else None;
    Layout(
      SanitizeOwn(if layout.tree.None? then None else RenameTree(layout.tree.value, ids)),
      if Truthy(layout.focusedPane) then Lookup(ids, layout.focusedPane.value) else None,
      seq(|mapping|, i requires 0 <= i < |mapping| => mapping[i].1),
      FlatMap(layout.files, (tab: FileTab) => RemapFile(tab, mapping)),
      FlatMap(layout.plugins, (tab: PluginTab) => RemapPlugin(tab, mapping)),
      if active.Some? then Some(active.value.id) else None,
      if filePane.Some? then Some(ParsePaneId(filePane.value).id) else None,
      if pluginPane.Some? then Some(ParsePaneId(pluginPane.value).id) else None,
      FlatMap(layout.detached, (entry: DetachedEntry) => RemapDetached(entry, mapping)))
  }

  // ----- No dangling references -----

  ghost predicate NamesSession(layout: Layout, id: string) {
    exists s :: s in layout.sessions && s.id == id
  }

  ghost predicate NamesFile(layout: Layout, id: string) {
    exists f :: f in layout.files && f.id == id
  }

  ghost predicate NamesPlugin(layout: Layout, id: string) {
    exists p :: p in layout.plugins && p.id == id
  }

  /** The pane shows a session, a file or a plugin of the layout. */
  ghost predicate Shows(layout: Layout, pane: string) {
    match ParsePaneId(pane)
    case SessionPane(id) => NamesSession(layout, id)
    case PluginPane(id) => NamesPlugin(layout, id)
    case FilePane(id) => NamesFile(layout, id)
    case Unknown(_) => false
  }

  lemma {:induction false} SessionPanesMeaning(mapping: Mapping, key: string)
    ensures key in SessionPanes(mapping) ==>
              exists e :: e in mapping && key == SessionPaneId(e.0) && SessionPanes(mapping)[key] == SessionPaneId(e.1.id)
    ensures forall e :: e in mapping ==> SessionPaneId(e.0) in SessionPanes(mapping)
  {
    if mapping != [] {
      var front, last := mapping[..|mapping| - 1], mapping[|mapping| - 1];
      SessionPanesMeaning(front, key);
      assert mapping == front + [last];
    }
  }

  lemma {:induction false} FilePanesMeaning(files: seq<FileTab>, mapping: Mapping, key: string)
    ensures key in FilePanes(files, mapping) ==>
              exists tab :: tab in files && RemapFile(tab, mapping).Some? && key == FilePaneId(tab.id)
                && FilePanes(files, mapping)[key] == FilePaneId(RemapFile(tab, mapping).value.id)
    ensures forall tab :: tab in files && RemapFile(tab, mapping).Some? ==> FilePaneId(tab.id) in FilePanes(files, mapping)
  {
    if files != [] {
      var front, last := files[..|files| - 1], files[|files| - 1];
      FilePanesMeaning(front, mapping, key);
      assert files == front + [last];
    }
  }

  lemma {:induction false} PluginPanesMeaning(plugins: seq<PluginTab>, mapping: Mapping, key: string)
    ensures key in PluginPanes(plugins, mapping) ==>
              exists tab :: tab in plugins && RemapPlugin(tab, mapping).Some? && key == PluginPaneId(tab.id)
                && PluginPanes(plugins, mapping)[key] == PluginPaneId(RemapPlugin(tab, mapping).value.id)
    ensures forall tab :: tab in plugins && RemapPlugin(tab, mapping).Some? ==> PluginPaneId(tab.id) in PluginPanes(plugins, mapping)
  {
    if plugins != [] {
      var front, last := plugins[..|plugins| - 1], plugins[|plugins| - 1];
      PluginPanesMeaning(front, mapping, key);
      assert plugins == front + [last];
    }
  }

  /** Every name a pane is given is the name of something in the new layout, of the same kind. */
  lemma PaneNamesShow(layout: Layout, mapping: Mapping, key: string)
    requires key in PaneNames(layout, mapping)
    ensures Shows(RemapWorkspace(layout, mapping), PaneNames(layout, mapping)[key])
    ensures ParsePaneId(key).SessionPane? <==> ParsePaneId(PaneNames(layout, mapping)[key]).SessionPane?
    ensures ParsePaneId(key).FilePane? <==> ParsePaneId(PaneNames(layout, mapping)[key]).FilePane?
    ensures ParsePaneId(key).PluginPane? <==> ParsePaneId(PaneNames(layout, mapping)[key]).PluginPane?
  {
    var next := RemapWorkspace(layout, mapping);
    if key in PluginPanes(layout.plugins, mapping) {
      PluginPanesMeaning(layout.plugins, mapping, key);
      var tab :| tab in layout.plugins && RemapPlugin(tab, mapping).Some? && key == PluginPaneId(tab.id)
        && PluginPanes(layout.plugins, mapping)[key] == PluginPaneId(RemapPlugin(tab, mapping).value.id);
      PluginShown(layout, mapping, tab);
    } else if key in FilePanes(layout.files, mapping) {
      FilePanesMeaning(layout.files, mapping, key);
      var tab :| tab in layout.files && RemapFile(tab, mapping).Some? && key == FilePaneId(tab.id)
        && FilePanes(layout.files, mapping)[key] == FilePaneId(RemapFile(tab, mapping).value.id);
      FileShown(layout, mapping, tab);
    } else {
      SessionPanesMeaning(mapping, key);
      var e :| e in mapping && key == SessionPaneId(e.0) && SessionPanes(mapping)[key] == SessionPaneId(e.1.id);
      SessionShown(layout, mapping, e);
    }
  }

  lemma SessionShown(layout: Layout, mapping: Mapping, e: (string, Session))
    requires e in mapping
    ensures Shows(RemapWorkspace(layout, mapping), SessionPaneId(e.1.id))
    ensures ParsePaneId(SessionPaneId(e.0)).SessionPane? && ParsePaneId(SessionPaneId(e.1.id)) == SessionPane(e.1.id)
  {
    ParseRoundTrip(e.0);
    ParseRoundTrip(e.1.id);
    var i :| 0 <= i < |mapping| && mapping[i] == e;
    assert RemapWorkspace(layout, mapping).sessions[i] == e.1;
  }

  lemma FileShown(layout: Layout, mapping: Mapping, tab: FileTab)
    requires tab in layout.files && RemapFile(tab, mapping).Some?
    ensures var id := RemapFile(tab, mapping).value.id;
            && Shows(RemapWorkspace(layout, mapping), FilePaneId(id))
            && ParsePaneId(FilePaneId(tab.id)).FilePane? && ParsePaneId(FilePaneId(id)) == FilePane(id)
  {
    var now := RemapFile(tab, mapping).value;
    ParseRoundTrip(tab.id);
    ParseRoundTrip(now.id);
    assert now in RemapWorkspace(layout, mapping).files;
  }

  lemma PluginShown(layout: Layout, mapping: Mapping, tab: PluginTab)
    requires tab in layout.plugins && RemapPlugin(tab, mapping).Some?
    ensures var id := RemapPlugin(tab, mapping).value.id;
            && Shows(RemapWorkspace(layout, mapping), PluginPaneId(id))
            && ParsePaneId(PluginPaneId(tab.id)).PluginPane? && ParsePaneId(PluginPaneId(id)) == PluginPane(id)
  {
    var now := RemapPlugin(tab, mapping).value;
    ParseRoundTrip(tab.id);
    ParseRoundTrip(now.id);
    assert now in RemapWorkspace(layout, mapping).plugins;
  }

  lemma {:induction false} RenamedLeaves(tree: Tree, ids: map<string, string>)
    ensures forall x :: x in GetLeaves(RenameTree(tree, ids)) ==> exists k :: k in ids && k in LeavesOf(tree) && ids[k] == x
    ensures GetLeaves(RenameTree(tree, ids)) == Mapped(LeavesOf(tree), ids)
  {
    match tree
    case Leaf(_) =>
    case Split(_, first, second, _) =>
      RenamedLeaves(first, ids);
      RenamedLeaves(second, ids);
      MappedAppend(LeavesOf(first), LeavesOf(second), ids);
  }

  /** The new names of those leaves that have one, in order. */
  function Mapped(leaves: seq<string>, ids: map<string, string>): seq<string> {
    if leaves == [] then []
    else if leaves[0] in ids then [ids[leaves[0]]] + Mapped(leaves[1..], ids)
    else Mapped(leaves[1..], ids)
  }

  lemma {:induction false} MappedAppend(a: seq<string>, b: seq<string>, ids: map<string, string>)
    ensures Mapped(a + b, ids) == Mapped(a, ids) + Mapped(b, ids)
  {
    if a == [] {
      assert a + b == b;
    } else {
      MappedAppend(a[1..], b, ids);
      assert (a + b)[1..] == a[1..] + b;
      var x, y := Mapped(a[1..], ids), Mapped(b, ids);
      if a[0] in ids {
        assert [ids[a[0]]] + (x + y) == ([ids[a[0]]] + x) + y;
      }
    }
  }

  /** Remapping leaves no dangling reference: every leaf, the focused pane and every active identifier name a
      session, file or plugin of the new layout. */
  lemma NoDanglingReferences(layout: Layout, mapping: Mapping)
    ensures var next := RemapWorkspace(layout, mapping);
            && (forall pane :: pane in GetLeaves(next.tree) ==> Shows(next, pane))
            && (next.focusedPane.Some? ==> Shows(next, next.focusedPane.value))
            && (next.activeSessionId.Some? ==> NamesSession(next, next.activeSessionId.value))
            && (next.activeFileId.Some? ==> NamesFile(next, next.activeFileId.value))
            && (next.activePluginId.Some? ==> NamesPlugin(next, next.activePluginId.value))
            && |next.sessions| == |mapping| && (forall i :: 0 <= i < |mapping| ==> next.sessions[i] == mapping[i].1)
  {
    var next, ids := RemapWorkspace(layout, mapping), PaneNames(layout, mapping);
    forall pane | pane in GetLeaves(next.tree) ensures Shows(next, pane) {
      SanitizeOwnMeaning(RenameTree(layout.tree.value, ids));
      RenamedLeaves(layout.tree.value, ids);
      var k :| k in ids && ids[k] == pane;
      PaneNamesShow(layout, mapping, k);
    }
    if next.focusedPane.Some? {
      PaneNamesShow(layout, mapping, layout.focusedPane.value);
    }
    ActiveIdsNamed(layout, mapping);
  }

  lemma ActiveIdsNamed(layout: Layout, mapping: Mapping)
    ensures var next := RemapWorkspace(layout, mapping);
            && (next.activeSessionId.Some? ==> NamesSession(next, next.activeSessionId.value))
            && (next.activeFileId.Some? ==> NamesFile(next, next.activeFileId.value))
            && (next.activePluginId.Some? ==> NamesPlugin(next, next.activePluginId.value))
  {
    var next := RemapWorkspace(layout, mapping);
    if next.activeSessionId.Some? {
      var e := (layout.activeSessionId.value, Get(mapping, layout.activeSessionId.value).value);
      var i :| 0 <= i < |mapping| && mapping[i] == e;
      assert next.sessions[i] == e.1;
    }
    if next.activeFileId.Some? {
      ParseRoundTrip(layout.activeFileId.value);
      PaneNamesShow(layout, mapping, FilePaneId(layout.activeFileId.value));
    }
    if next.activePluginId.Some? {
      ParseRoundTrip(layout.activePluginId.value);
      PaneNamesShow(layout, mapping, PluginPaneId(layout.activePluginId.value));
    }
  }

  /** Tabs and detached windows keep only live sessions, and carry what the session is called now. */
  lemma TabsFollowSessions(layout: Layout, mapping: Mapping)
    ensures var next := RemapWorkspace(layout, mapping);
            && (forall f :: f in next.files ==> f.local || (NamesSession(next, f.sessionId) && f.id == FileTabId(f.sessionId, f.path)))
            && (forall p :: p in next.plugins ==>
                  p.id == PluginTabId(p.sessionId, p.pluginId)
                  && Carries(next, p.sessionId, p.sessionType, p.serverName))
            && (forall d :: d in next.detached ==>
                  match d.target
                  case FileTarget(id, local, _, _) => local || NamesSession(next, id)
                  case TerminalTarget(id, _) => NamesSession(next, id)
                  case PluginTarget(id, _, name, kind) => Carries(next, id, kind, name))
  {
    var next := RemapWorkspace(layout, mapping);
    forall e | e in mapping ensures e.1 in next.sessions {
      var i :| 0 <= i < |mapping| && mapping[i] == e;
      assert next.sessions[i] == e.1;
    }
  }

  ghost predicate Carries(layout: Layout, sessionId: string, kind: SessionType, name: string) {
    exists s :: s in layout.sessions && s.id == sessionId && s.sessionType == kind && s.serverName == name
  }

  lemma {:induction false} FlatMapAppend<A(!new), B(!new)>(xs: seq<A>, ys: seq<A>, f: A -> Option<B>)
    ensures FlatMap(xs + ys, f) == FlatMap(xs, f) + FlatMap(ys, f)
  {
    if ys == [] {
      assert xs + ys == xs;
    } else {
      var n := |ys| - 1;
      FlatMapAppend(xs, ys[..n], f);
      assert (xs + ys)[..|xs + ys| - 1] == xs + ys[..n];
    }
  }

  lemma FlatMapOne<A(!new), B(!new)>(x: A, f: A -> Option<B>)
    ensures FlatMap([x], f) == if f(x).Some? then [f(x).value] else []
  {
    assert FlatMap([x][..0], f) == [];
  }

  /** A tab that keeps a session keeps its place between its neighbours and all it was, but for the session's
      name; a tab whose session is gone leaves no trace. */
  lemma TabsKeepTheirPlace(layout: Layout, mapping: Mapping, i: nat)
    requires i < |layout.files|
    ensures var files, tab := layout.files, layout.files[i];
            var remap := (t: FileTab) => RemapFile(t, mapping);
            RemapWorkspace(layout, mapping).files
            == FlatMap(files[..i], remap)
               + (if tab.local then [tab]
                  else if Get(mapping, tab.sessionId).None? then []
                  else
                    var id := Get(mapping, tab.sessionId).value.id;
                    [FileTab(FileTabId(id, tab.path), false, id, tab.path, tab.name)])
               + FlatMap(files[i + 1..], remap)
  {
    var files := layout.files;
    var remap := (t: FileTab) => RemapFile(t, mapping);
    assert files == files[..i] + [files[i]] + files[i + 1..];
    FlatMapAppend(files[..i] + [files[i]], files[i + 1..], remap);
    FlatMapAppend(files[..i], [files[i]], remap);
    FlatMapOne(files[i], remap);
  }

  /** The same for plugin tabs: one whose session is gone goes, and any other keeps its place and its plugin under the
      session's new name, type and server. */
  lemma PluginsKeepTheirPlace(layout: Layout, mapping: Mapping, i: nat)
    requires i < |layout.plugins|
    ensures var plugins, tab := layout.plugins, layout.plugins[i];
            var remap := (t: PluginTab) => RemapPlugin(t, mapping);
            RemapWorkspace(layout, mapping).plugins
            == FlatMap(plugins[..i], remap)
               + (match Get(mapping, tab.sessionId)
                  case None => []
                  case Some(now) =>
                    [PluginTab(now.id + "::" + tab.pluginId, tab.pluginId, now.id, now.sessionType, now.serverName)])
               + FlatMap(plugins[i + 1..], remap)
  {
    var plugins := layout.plugins;
    var remap := (t: PluginTab) => RemapPlugin(t, mapping);
    assert plugins == plugins[..i] + [plugins[i]] + plugins[i + 1..];
    FlatMapAppend(plugins[..i] + [plugins[i]], plugins[i + 1..], remap);
    FlatMapAppend(plugins[..i], [plugins[i]], remap);
    FlatMapOne(plugins[i], remap);
  }

  /** What a detached window shows after the restart; nothing when its session is gone. */
  ghost function TargetNow(target: DetachTarget, mapping: Mapping): Option<DetachTarget> {
    if target.FileTarget? && target.local then Some(target)
    else
      match Get(mapping, target.sessionId)
      case None => None
      case Some(now) =>
        Some(match target
             case TerminalTarget(_, title) => TerminalTarget(now.id, title)
             case PluginTarget(_, pluginId, _, _) => PluginTarget(now.id, pluginId, now.serverName, now.sessionType)
             case FileTarget(_, _, path, name) => FileTarget(now.id, false, path, name))
  }

  lemma DetachedNow(entry: DetachedEntry, mapping: Mapping)
    ensures RemapDetached(entry, mapping) ==
            match TargetNow(entry.target, mapping)
            case None => None
            case Some(now) => Some(DetachedEntry(now, entry.geometryKey))
  {
  }

  /** And for detached windows, which keep their geometry. */
  lemma DetachedKeepTheirPlace(layout: Layout, mapping: Mapping, i: nat)
    requires i < |layout.detached|
    ensures var entries, entry := layout.detached, layout.detached[i];
            var remap := (e: DetachedEntry) => RemapDetached(e, mapping);
            RemapWorkspace(layout, mapping).detached
            == FlatMap(entries[..i], remap)
               + (match TargetNow(entry.target, mapping)
                  case None => []
                  case Some(now) => [DetachedEntry(now, entry.geometryKey)])
               + FlatMap(entries[i + 1..], remap)
  {
    var entries := layout.detached;
    var remap := (e: DetachedEntry) => RemapDetached(e, mapping);
    hide RemapDetached, TargetNow;
    DetachedNow(entries[i], mapping);
    assert entries == entries[..i] + [entries[i]] + entries[i + 1..];
    FlatMapAppend(entries[..i] + [entries[i]], entries[i + 1..], remap);
    FlatMapAppend(entries[..i], [entries[i]], remap);
    FlatMapOne(entries[i], remap);
  }

  /** No other tab uses the same identifier. */
  ghost predicate OnlyFile(files: seq<FileTab>, tab: FileTab) {
    tab in files && forall f :: f in files && f.id == tab.id ==> f == tab
  }

  ghost predicate OnlyPlugin(plugins: seq<PluginTab>, tab: PluginTab) {
    tab in plugins && forall p :: p in plugins && p.id == tab.id ==> p == tab
  }

  lemma FileName(layout: Layout, mapping: Mapping, tab: FileTab)
    requires OnlyFile(layout.files, tab) && RemapFile(tab, mapping).Some?
    ensures FilePaneId(tab.id) in PaneNames(layout, mapping)
    ensures PaneNames(layout, mapping)[FilePaneId(tab.id)] == FilePaneId(RemapFile(tab, mapping).value.id)
  {
    var key := FilePaneId(tab.id);
    hide SessionPanes, FilePanes, PluginPanes, FilePaneId, ParsePaneId, RemapFile;
    FilePanesMeaning(layout.files, mapping, key);
    ParseRoundTrip(tab.id);
    KindOfKey(layout, mapping, key);
    var f :| f in layout.files && RemapFile(f, mapping).Some? && key == FilePaneId(f.id)
      && FilePanes(layout.files, mapping)[key] == FilePaneId(RemapFile(f, mapping).value.id);
    ParseRoundTrip(f.id);
  }

  lemma PluginName(layout: Layout, mapping: Mapping, tab: PluginTab)
    requires OnlyPlugin(layout.plugins, tab) && RemapPlugin(tab, mapping).Some?
    ensures PluginPaneId(tab.id) in PaneNames(layout, mapping)
    ensures PaneNames(layout, mapping)[PluginPaneId(tab.id)] == PluginPaneId(RemapPlugin(tab, mapping).value.id)
  {
    var key := PluginPaneId(tab.id);
    hide SessionPanes, FilePanes, PluginPanes, PluginPaneId, ParsePaneId, RemapPlugin;
    PluginPanesMeaning(layout.plugins, mapping, key);
    ParseRoundTrip(tab.id);
    KindOfKey(layout, mapping, key);
    var p :| p in layout.plugins && RemapPlugin(p, mapping).Some? && key == PluginPaneId(p.id)
      && PluginPanes(layout.plugins, mapping)[key] == PluginPaneId(RemapPlugin(p, mapping).value.id);
    ParseRoundTrip(p.id);
  }

  lemma SessionName(layout: Layout, mapping: Mapping, id: string)
    requires MappingKeys(mapping) && Get(mapping, id).Some?
    ensures SessionPaneId(id) in PaneNames(layout, mapping)
    ensures PaneNames(layout, mapping)[SessionPaneId(id)] == SessionPaneId(Get(mapping, id).value.id)
  {
    var key := SessionPaneId(id);
    hide SessionPanes, FilePanes, PluginPanes, SessionPaneId, ParsePaneId;
    SessionPanesMeaning(mapping, key);
    ParseRoundTrip(id);
    KindOfKey(layout, mapping, key);
    var e :| e in mapping && key == SessionPaneId(e.0) && SessionPanes(mapping)[key] == SessionPaneId(e.1.id);
    ParseRoundTrip(e.0);
    var i :| 0 <= i < |mapping| && mapping[i] == e;
    var j :| 0 <= j < |mapping| && mapping[j] == (id, Get(mapping, id).value);
  }

  /** What was active stays active under its new name: the session, the file tab and the plugin tab, and the
      focused pane of a session. */
  lemma ActiveTabsFollow(layout: Layout, mapping: Mapping, file: FileTab, plugin: PluginTab)
    requires MappingKeys(mapping)
    ensures var next := RemapWorkspace(layout, mapping);
            && (Truthy(layout.activeSessionId) && Get(mapping, layout.activeSessionId.value).Some? ==>
                  next.activeSessionId == Some(Get(mapping, layout.activeSessionId.value).value.id))
            && (Truthy(layout.activeFileId) && OnlyFile(layout.files, file) && file.id == layout.activeFileId.value
                && !file.local && Get(mapping, file.sessionId).Some? ==>
                  next.activeFileId == Some(FileTabId(Get(mapping, file.sessionId).value.id, file.path)))
            && (Truthy(layout.activeFileId) && OnlyFile(layout.files, file) && file.id == layout.activeFileId.value
                && file.local ==>
                  next.activeFileId == layout.activeFileId)
            && (Truthy(layout.activePluginId) && OnlyPlugin(layout.plugins, plugin) && plugin.id == layout.activePluginId.value
                && Get(mapping, plugin.sessionId).Some? ==>
                  next.activePluginId == Some(PluginTabId(Get(mapping, plugin.sessionId).value.id, plugin.pluginId)))
  {
    hide PaneNames, FilePaneId, PluginPaneId, ParsePaneId, FlatMap, Get, FileTabId, PluginTabId;
    if OnlyFile(layout.files, file) && RemapFile(file, mapping).Some? {
      FileName(layout, mapping, file);
      ParseRoundTrip(RemapFile(file, mapping).value.id);
    }
    if OnlyPlugin(layout.plugins, plugin) && RemapPlugin(plugin, mapping).Some? {
      PluginName(layout, mapping, plugin);
      ParseRoundTrip(RemapPlugin(plugin, mapping).value.id);
    }
  }

  lemma FocusedSessionFollows(layout: Layout, mapping: Mapping, id: string)
    requires MappingKeys(mapping) && Get(mapping, id).Some?
    requires layout.focusedPane == Some(SessionPaneId(id))
    ensures RemapWorkspace(layout, mapping).focusedPane == Some(SessionPaneId(Get(mapping, id).value.id))
  {
    hide PaneNames, FlatMap;
    SessionName(layout, mapping, id);
  }

  /** The panes that have a name now: those of mapped sessions, and those of tabs that are local or have one. */
  ghost predicate Survives(layout: Layout, mapping: Mapping, pane: string) {
    || (exists e :: e in mapping && pane == SessionPaneId(e.0))
    || (exists f :: f in layout.files && pane == FilePaneId(f.id) && (f.local || Get(mapping, f.sessionId).Some?))
    || (exists p :: p in layout.plugins && pane == PluginPaneId(p.id) && Get(mapping, p.sessionId).Some?)
  }

  lemma NamedExactly(layout: Layout, mapping: Mapping, pane: string)
    ensures pane in PaneNames(layout, mapping) <==> Survives(layout, mapping, pane)
  {
    hide SessionPanes, FilePanes, PluginPanes, SessionPaneId, FilePaneId, PluginPaneId, FileTabId, PluginTabId, Get;
    SessionPanesMeaning(mapping, pane);
    FilePanesMeaning(layout.files, mapping, pane);
    PluginPanesMeaning(layout.plugins, mapping, pane);
  }

  /** What does not survive is neither focused nor active afterwards, nor a pane of the tree. */
  lemma GoneIsForgotten(layout: Layout, mapping: Mapping)
    ensures var next := RemapWorkspace(layout, mapping);
            && (layout.focusedPane.Some? && !Survives(layout, mapping, layout.focusedPane.value) ==> next.focusedPane == None)
            && (layout.focusedPane == None || layout.focusedPane == Some("") ==> next.focusedPane == None)
            && (layout.activeSessionId == None || layout.activeSessionId == Some("") ==> next.activeSessionId == None)
            && (layout.activeFileId == None || layout.activeFileId == Some("") ==> next.activeFileId == None)
            && (layout.activePluginId == None || layout.activePluginId == Some("") ==> next.activePluginId == None)
            && (layout.activeSessionId.Some? && Get(mapping, layout.activeSessionId.value) == None ==> next.activeSessionId == None)
            && (layout.activeFileId.Some? && !Survives(layout, mapping, FilePaneId(layout.activeFileId.value)) ==>
                  next.activeFileId == None)
            && (layout.activePluginId.Some? && !Survives(layout, mapping, PluginPaneId(layout.activePluginId.value)) ==>
                  next.activePluginId == None)
            && (layout.tree.Some? && (forall x :: x in GetLeaves(layout.tree) ==> !Survives(layout, mapping, x)) ==> next.tree == None)
  {
    hide Survives, PaneNames, FilePaneId, PluginPaneId, ParsePaneId, FlatMap, Get, SanitizeOwn;
    if layout.focusedPane.Some? {
      NamedExactly(layout, mapping, layout.focusedPane.value);
    }
    if layout.activeFileId.Some? {
      NamedExactly(layout, mapping, FilePaneId(layout.activeFileId.value));
    }
    if layout.activePluginId.Some? {
      NamedExactly(layout, mapping, PluginPaneId(layout.activePluginId.value));
    }
    if layout.tree.Some? && forall x :: x in GetLeaves(layout.tree) ==> !Survives(layout, mapping, x) {
      forall x | x in LeavesOf(layout.tree.value) ensures x !in PaneNames(layout, mapping) {
        NamedExactly(layout, mapping, x);
      }
      NothingRenamed(layout.tree.value, PaneNames(layout, mapping));
      NothingSanitized();
    }
  }

  lemma {:induction false} NothingRenamed(tree: Tree, ids: map<string, string>)
    requires forall x :: x in LeavesOf(tree) ==> x !in ids
    ensures RenameTree(tree, ids) == None
  {
    match tree
    case Leaf(id) => assert id in LeavesOf(tree);
    case Split(_, first, second, _) =>
      NothingRenamed(first, ids);
      NothingRenamed(second, ids);
  }

  lemma NothingSanitized()
    ensures SanitizeOwn(None) == None
  {
    SanitizeOwnMeaning(None);
  }

  // ----- Order is kept -----

  ghost predicate InjectiveOn(ids: map<string, string>, leaves: seq<string>) {
    forall x, y :: x in leaves && y in leaves && x in ids && y in ids && ids[x] == ids[y] ==> x == y
  }

  lemma {:induction false} MappedMember(leaves: seq<string>, ids: map<string, string>, y: string)
    ensures y in Mapped(leaves, ids) <==> exists x :: x in leaves && x in ids && ids[x] == y
  {
    if leaves != [] {
      MappedMember(leaves[1..], ids, y);
      assert leaves == [leaves[0]] + leaves[1..];
      assert forall x :: x in leaves <==> x == leaves[0] || x in leaves[1..];
    }
  }

  lemma {:induction false} MappedDistinct(leaves: seq<string>, ids: map<string, string>)
    requires Distinct(leaves) && InjectiveOn(ids, leaves)
    ensures Distinct(Mapped(leaves, ids)) && |Mapped(leaves, ids)| <= |leaves|
  {
    if leaves != [] {
      var rest := leaves[1..];
      assert forall x :: x in rest ==> x in leaves;
      MappedDistinct(rest, ids);
      if leaves[0] in ids {
        MappedMember(rest, ids, ids[leaves[0]]);
        assert leaves[0] !in rest by {
          assert forall i :: 0 <= i < |rest| ==> rest[i] == leaves[i + 1];
        }
        assert leaves[0] in leaves;
        assert ids[leaves[0]] !in Mapped(rest, ids);
        PrependDistinct(ids[leaves[0]], Mapped(rest, ids));
      }
    }
  }

  lemma PrependDistinct(x: string, xs: seq<string>)
    requires Distinct(xs) && x !in xs
    ensures Distinct([x] + xs)
  {
  }

  lemma {:induction false} RenamePercentages(tree: Tree, ids: map<string, string>)
    requires Percentages(tree)
    ensures RenameTree(tree, ids).Some? ==> Percentages(RenameTree(tree, ids).value)
  {
    match tree
    case Leaf(_) =>
    case Split(_, first, second, _) =>
      RenamePercentages(first, ids);
      RenamePercentages(second, ids);
  }

  /** The new names of the leaves are different from each other and short enough to be kept. */
  ghost predicate NamesFit(ids: map<string, string>, leaves: seq<string>) {
    InjectiveOn(ids, leaves) && forall x :: x in leaves && x in ids ==> |ids[x]| <= MAX_ID_LENGTH
  }

  /** For a saved tree as `readWorkspaceLayout` gives it, when the new names of its leaves fit, the new tree is the
      saved one with its leaves renamed: order, splits and percentages are kept and only leaves without a name
      drop out. */
  lemma OrderIsKept(layout: Layout, mapping: Mapping)
    requires layout.tree.Some? && Proper(layout.tree, None)
    requires NamesFit(PaneNames(layout, mapping), GetLeaves(layout.tree))
    ensures var next, ids := RemapWorkspace(layout, mapping), PaneNames(layout, mapping);
            && next.tree == RenameTree(layout.tree.value, ids)
            && GetLeaves(next.tree) == Mapped(GetLeaves(layout.tree), ids)
  {
    var ids, leaves := PaneNames(layout, mapping), GetLeaves(layout.tree);
    var renamed := RenameTree(layout.tree.value, ids);
    RenamedLeaves(layout.tree.value, ids);
    RenamePercentages(layout.tree.value, ids);
    MappedDistinct(leaves, ids);
    forall x | x in GetLeaves(renamed) ensures ValidId(None, x) {
      MappedMember(leaves, ids, x);
      var k :| k in leaves && k in ids && ids[k] == x;
      PaneNamesShow(layout, mapping, k);
      assert ParsePaneId("").Unknown?;
    }
    SanitizeOwnMeaning(renamed);
  }

  lemma {:induction false} DistinctMeansInjective(leaves: seq<string>, ids: map<string, string>)
    requires Distinct(Mapped(leaves, ids))
    ensures InjectiveOn(ids, leaves)
  {
    if leaves != [] {
      var rest, names := leaves[1..], Mapped(leaves[1..], ids);
      assert leaves == [leaves[0]] + rest;
      if leaves[0] in ids {
        assert Mapped(leaves, ids) == [ids[leaves[0]]] + names;
        TailDistinct(ids[leaves[0]], names);
        MappedMember(rest, ids, ids[leaves[0]]);
      }
      DistinctMeansInjective(rest, ids);
    }
  }

  lemma TailDistinct(x: string, xs: seq<string>)
    requires Distinct([x] + xs)
    ensures Distinct(xs) && x !in xs
  {
    var all := [x] + xs;
    assert forall i :: 0 <= i < |xs| ==> xs[i] == all[i + 1];
    assert all[0] == x;
  }

  /** The leaf sequence is the saved one renamed exactly when the new names fit. */
  lemma OrderIsKeptExactly(layout: Layout, mapping: Mapping)
    requires layout.tree.Some? && Proper(layout.tree, None)
    ensures GetLeaves(RemapWorkspace(layout, mapping).tree) == Mapped(GetLeaves(layout.tree), PaneNames(layout, mapping))
       <==> NamesFit(PaneNames(layout, mapping), GetLeaves(layout.tree))
  {
    hide PaneNames, FlatMap, InjectiveOn, LeavesOf;
    var ids, leaves := PaneNames(layout, mapping), GetLeaves(layout.tree);
    if NamesFit(ids, leaves) {
      OrderIsKept(layout, mapping);
    }
    if GetLeaves(RemapWorkspace(layout, mapping).tree) == Mapped(leaves, ids) {
      SanitizeOwnMeaning(RenameTree(layout.tree.value, ids));
      DistinctMeansInjective(leaves, ids);
      forall x | x in leaves && x in ids ensures |ids[x]| <= MAX_ID_LENGTH {
        MappedMember(leaves, ids, ids[x]);
      }
    }
  }

  // ----- When new names are distinct -----

  /** Different saved sessions became different sessions. */
  ghost predicate InjectiveMapping(mapping: Mapping) {
    forall i, j :: 0 <= i < j < |mapping| ==> mapping[i].0 != mapping[j].0 && mapping[i].1.id != mapping[j].1.id
  }

  /** Tabs carry the identifiers that the stores give them, and no session identifier contains a separator. */
  ghost predicate CanonicalTabs(layout: Layout, mapping: Mapping) {
    && (forall f :: f in layout.files ==> f.id == FileTabId(f.sessionId, f.path) && '\0' !in f.sessionId)
    && (forall p :: p in layout.plugins ==> p.id == PluginTabId(p.sessionId, p.pluginId) && ':' !in p.pluginId)
    && (forall e :: e in mapping ==> '\0' !in e.1.id)
    && (forall f, e :: f in layout.files && f.local && e in mapping ==> e.1.id != f.sessionId)
  }

  lemma FirstSeparator(a: string, b: string, x: string, y: string)
    requires '\0' !in a && '\0' !in b
    requires FileTabId(a, x) == FileTabId(b, y)
    ensures a == b && x == y
  {
    var s := FileTabId(a, x);
    assert s[|a|] == '\0' && s[|b|] == '\0';
    assert forall k :: 0 <= k < |s| && s[k] == '\0' ==> |a| <= k;
    assert forall k :: 0 <= k < |s| && s[k] == '\0' ==> |b| <= k;
    assert s[..|a|] == a && s[..|b|] == b;
    assert s[|a| + 1..] == x && s[|b| + 1..] == y;
  }

  lemma LastSeparator(a: string, b: string, x: string, y: string)
    requires ':' !in x && ':' !in y
    requires PluginTabId(a, x) == PluginTabId(b, y)
    ensures a == b && x == y
  {
    var s := PluginTabId(a, x);
    assert s[|a| + 1] == ':' && s[|b| + 1] == ':';
    assert forall k :: 0 <= k < |s| && s[k] == ':' ==> k <= |a| + 1;
    assert forall k :: 0 <= k < |s| && s[k] == ':' ==> k <= |b| + 1;
    assert s[..|a|] == a && s[..|b|] == b;
    assert s[|a| + 2..] == x && s[|b| + 2..] == y;
  }

  lemma SameSession(mapping: Mapping, a: string, b: string)
    requires InjectiveMapping(mapping) && Get(mapping, a).Some? && Get(mapping, b).Some?
    requires Get(mapping, a).value.id == Get(mapping, b).value.id
    ensures a == b
  {
    var i :| 0 <= i < |mapping| && mapping[i] == (a, Get(mapping, a).value);
    var j :| 0 <= j < |mapping| && mapping[j] == (b, Get(mapping, b).value);
  }

  lemma FilesRenamedApart(layout: Layout, mapping: Mapping, f: FileTab, g: FileTab)
    requires InjectiveMapping(mapping) && CanonicalTabs(layout, mapping)
    requires f in layout.files && g in layout.files
    requires RemapFile(f, mapping).Some? && RemapFile(g, mapping).Some?
    requires RemapFile(f, mapping).value.id == RemapFile(g, mapping).value.id
    ensures f.id == g.id
  {
    var a := if f.local then f.sessionId else Get(mapping, f.sessionId).value.id;
    var b := if g.local then g.sessionId else Get(mapping, g.sessionId).value.id;
    FirstSeparator(a, b, f.path, g.path);
    if !f.local && !g.local {
      SameSession(mapping, f.sessionId, g.sessionId);
    }
  }

  lemma PluginsRenamedApart(layout: Layout, mapping: Mapping, p: PluginTab, q: PluginTab)
    requires InjectiveMapping(mapping) && CanonicalTabs(layout, mapping)
    requires p in layout.plugins && q in layout.plugins
    requires RemapPlugin(p, mapping).Some? && RemapPlugin(q, mapping).Some?
    requires RemapPlugin(p, mapping).value.id == RemapPlugin(q, mapping).value.id
    ensures p.id == q.id
  {
    LastSeparator(Get(mapping, p.sessionId).value.id, Get(mapping, q.sessionId).value.id, p.pluginId, q.pluginId);
    SameSession(mapping, p.sessionId, q.sessionId);
  }

  /** An injective session map gives different panes different names. */
  lemma RenamingIsInjective(layout: Layout, mapping: Mapping, x: string, y: string)
    requires InjectiveMapping(mapping) && CanonicalTabs(layout, mapping)
    requires var ids := PaneNames(layout, mapping); x in ids && y in ids && ids[x] == ids[y]
    ensures x == y
  {
    PaneNamesShow(layout, mapping, x);
    PaneNamesShow(layout, mapping, y);
    KindOfKey(layout, mapping, x);
    KindOfKey(layout, mapping, y);
    match ParsePaneId(x) {
      case SessionPane(_) =>
        SessionPanesMeaning(mapping, x);
        SessionPanesMeaning(mapping, y);
        var e :| e in mapping && x == SessionPaneId(e.0) && SessionPanes(mapping)[x] == SessionPaneId(e.1.id);
        var f :| f in mapping && y == SessionPaneId(f.0) && SessionPanes(mapping)[y] == SessionPaneId(f.1.id);
        PaneIdsDistinct(e.1.id, f.1.id);
        var i :| 0 <= i < |mapping| && mapping[i] == e;
        var j :| 0 <= j < |mapping| && mapping[j] == f;
      case FilePane(_) =>
        FilePanesMeaning(layout.files, mapping, x);
        FilePanesMeaning(layout.files, mapping, y);
        var f :| f in layout.files && RemapFile(f, mapping).Some? && x == FilePaneId(f.id)
          && FilePanes(layout.files, mapping)[x] == FilePaneId(RemapFile(f, mapping).value.id);
        var g :| g in layout.files && RemapFile(g, mapping).Some? && y == FilePaneId(g.id)
          && FilePanes(layout.files, mapping)[y] == FilePaneId(RemapFile(g, mapping).value.id);
        PaneIdsDistinct(RemapFile(f, mapping).value.id, RemapFile(g, mapping).value.id);
        FilesRenamedApart(layout, mapping, f, g);
      case PluginPane(_) =>
        PluginPanesMeaning(layout.plugins, mapping, x);
        PluginPanesMeaning(layout.plugins, mapping, y);
        var p :| p in layout.plugins && RemapPlugin(p, mapping).Some? && x == PluginPaneId(p.id)
          && PluginPanes(layout.plugins, mapping)[x] == PluginPaneId(RemapPlugin(p, mapping).value.id);
        var q :| q in layout.plugins && RemapPlugin(q, mapping).Some? && y == PluginPaneId(q.id)
          && PluginPanes(layout.plugins, mapping)[y] == PluginPaneId(RemapPlugin(q, mapping).value.id);
        PaneIdsDistinct(RemapPlugin(p, mapping).value.id, RemapPlugin(q, mapping).value.id);
        PluginsRenamedApart(layout, mapping, p, q);
      case Unknown(_) =>
        assert false;
    }
  }

  lemma SessionKey(mapping: Mapping, key: string)
    requires key in SessionPanes(mapping)
    ensures ParsePaneId(key).SessionPane?
  {
    hide SessionPanes, ParsePaneId, SessionPaneId;
    SessionPanesMeaning(mapping, key);
    var e :| e in mapping && key == SessionPaneId(e.0) && SessionPanes(mapping)[key] == SessionPaneId(e.1.id);
    ParseRoundTrip(e.0);
  }

  lemma FileKey(files: seq<FileTab>, mapping: Mapping, key: string)
    requires key in FilePanes(files, mapping)
    ensures ParsePaneId(key).FilePane?
  {
    hide FilePanes, ParsePaneId, FilePaneId;
    FilePanesMeaning(files, mapping, key);
    var tab :| tab in files && RemapFile(tab, mapping).Some? && key == FilePaneId(tab.id)
      && FilePanes(files, mapping)[key] == FilePaneId(RemapFile(tab, mapping).value.id);
    ParseRoundTrip(tab.id);
  }

  lemma PluginKey(plugins: seq<PluginTab>, mapping: Mapping, key: string)
    requires key in PluginPanes(plugins, mapping)
    ensures ParsePaneId(key).PluginPane?
  {
    hide PluginPanes, ParsePaneId, PluginPaneId;
    PluginPanesMeaning(plugins, mapping, key);
    var tab :| tab in plugins && RemapPlugin(tab, mapping).Some? && key == PluginPaneId(tab.id)
      && PluginPanes(plugins, mapping)[key] == PluginPaneId(RemapPlugin(tab, mapping).value.id);
    ParseRoundTrip(tab.id);
  }

  /** A key of one kind comes from the loop of that kind. */
  lemma KindOfKey(layout: Layout, mapping: Mapping, key: string)
    requires key in PaneNames(layout, mapping)
    ensures match ParsePaneId(key)
            case SessionPane(_) => key in SessionPanes(mapping) && PaneNames(layout, mapping)[key] == SessionPanes(mapping)[key]
            case FilePane(_) => key in FilePanes(layout.files, mapping)
                                && PaneNames(layout, mapping)[key] == FilePanes(layout.files, mapping)[key]
            case PluginPane(_) => key in PluginPanes(layout.plugins, mapping)
                                  && PaneNames(layout, mapping)[key] == PluginPanes(layout.plugins, mapping)[key]
            case Unknown(_) => false
  {
    hide SessionPanes, FilePanes, PluginPanes, ParsePaneId;
    if key in SessionPanes(mapping) {
      SessionKey(mapping, key);
    }
    if key in FilePanes(layout.files, mapping) {
      FileKey(layout.files, mapping, key);
    }
    if key in PluginPanes(layout.plugins, mapping) {
      PluginKey(layout.plugins, mapping, key);
    }
  }

  /** For an injective session map and tabs as the stores make them, the leaf sequence is the saved one
      renamed, with unmapped panes dropped and order kept. */
  lemma InjectiveMapKeepsOrder(layout: Layout, mapping: Mapping)
    requires layout.tree.Some? && Proper(layout.tree, None)
    requires InjectiveMapping(mapping) && CanonicalTabs(layout, mapping)
    requires forall x :: x in PaneNames(layout, mapping) ==> |PaneNames(layout, mapping)[x]| <= MAX_ID_LENGTH
    ensures GetLeaves(RemapWorkspace(layout, mapping).tree) == Mapped(GetLeaves(layout.tree), PaneNames(layout, mapping))
  {
    var ids := PaneNames(layout, mapping);
    forall x, y | x in ids && y in ids && ids[x] == ids[y] ensures x == y {
      RenamingIsInjective(layout, mapping, x, y);
    }
    OrderIsKept(layout, mapping);
  }

  // ----- Nothing changed -----

  /** Every saved session is still there under its own identifier. */
  ghost predicate IdentityMapping(mapping: Mapping) {
    forall e :: e in mapping ==> e.1.id == e.0
  }

  lemma IdentityNames(layout: Layout, mapping: Mapping, key: string)
    requires IdentityMapping(mapping) && CanonicalTabs(layout, mapping)
    requires key in PaneNames(layout, mapping)
    ensures PaneNames(layout, mapping)[key] == key
  {
    KindOfKey(layout, mapping, key);
    SessionPanesMeaning(mapping, key);
    FilePanesMeaning(layout.files, mapping, key);
    PluginPanesMeaning(layout.plugins, mapping, key);
  }

  lemma {:induction false} RenameIdentity(tree: Tree, ids: map<string, string>)
    requires forall x :: x in LeavesOf(tree) ==> x in ids && ids[x] == x
    ensures RenameTree(tree, ids) == Some(tree)
  {
    match tree
    case Leaf(_) =>
    case Split(_, first, second, _) =>
      RenameIdentity(first, ids);
      RenameIdentity(second, ids);
  }

  /** The identity map leaves a proper tree whose panes all have names, and its focused pane, unchanged. */
  lemma IdentityKeepsTree(layout: Layout, mapping: Mapping)
    requires layout.tree.Some? && Proper(layout.tree, None)
    requires IdentityMapping(mapping) && CanonicalTabs(layout, mapping)
    requires forall x :: x in GetLeaves(layout.tree) ==> x in PaneNames(layout, mapping)
    ensures RemapWorkspace(layout, mapping).tree == layout.tree
    ensures Truthy(layout.focusedPane) && layout.focusedPane.value in PaneNames(layout, mapping) ==>
              RemapWorkspace(layout, mapping).focusedPane == layout.focusedPane
  {
    var ids := PaneNames(layout, mapping);
    forall x | x in ids ensures ids[x] == x {
      IdentityNames(layout, mapping, x);
    }
    RenameIdentity(layout.tree.value, ids);
    SanitizeOwnMeaning(layout.tree);
  }
}
