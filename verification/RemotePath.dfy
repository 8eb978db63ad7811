/** Remote paths at the file-transfer prompt: `~`, relative paths and `..` resolved to an absolute path. */
module RemotePath {
  import opened Wrappers

  function Split(path: string): (parts: seq<string>)
    ensures |parts| > 0
    ensures forall p :: p in parts ==> '/' !in p
  {
    if path == "" then [""]
    else
      var rest := Split(path[1..]);
      if path[0] == '/' then [""] + rest else [[path[0]] + rest[0]] + rest[1..]
  }

  function Join(parts: seq<string>): string {
    if parts == [] then ""
    else if |parts| == 1 then parts[0]
    else parts[0] + "/" + Join(parts[1..])
  }

  function Push(stack: seq<string>, part: string): seq<string> {
    if part == "" || part == "." then stack
    else if part == ".." then (if stack == [] then [] else stack[..|stack| - 1])
    else stack + [part]
  }

  function Walk(stack: seq<string>, parts: seq<string>): seq<string>
    decreases |parts|
  {
    if parts == [] then stack else Walk(Push(stack, parts[0]), parts[1..])
  }

  function Components(path: string): seq<string> {
    Walk([], Split(path))
  }

  predicate Absolute(path: string) {
    path != "" && path[0] == '/'
  }

  function NormalizePath(path: string): string {
    var parts := Components(path);
    if Absolute(path) then "/" + Join(parts)
    else if parts == [] then "."
    else Join(parts)
  }

  method NormalizeRemotePath(path: string) returns (normalized: string)
    ensures normalized == NormalizePath(path)
  {
    var absolute := Absolute(path);
    var split := Split(path);
    var parts: seq<string> := [];
    for i := 0 to |split|
      invariant Walk([], split) == Walk(parts, split[i..])
    {
      var part := split[i];
      assert split[i..][0] == part && split[i..][1..] == split[i + 1..];
      if part == "" || part == "." {
      } else if part == ".." {
        if parts != [] {
          parts := parts[..|parts| - 1];
        }
      } else {
        parts := parts + [part];
      }
    }
    assert parts == Components(path);
    if absolute {
      if parts == [] {
        return "/";
      }
      return "/" + Join(parts);
    }
    if parts == [] {
      return ".";
    }
    return Join(parts);
  }

  function TrimStart(s: string): string {
    if s != "" && s[0] == '/' then TrimStart(s[1..]) else s
  }

  function TrimEnd(s: string): string {
    if s != "" && s[|s| - 1] == '/' then TrimEnd(s[..|s| - 1]) else s
  }

  function JoinRemotePath(directory: string, child: string): string {
    if child == "" then directory
    else
      var from := if directory == "" then "/" else directory;
      if from == "/" then "/" + TrimStart(child) else TrimEnd(from) + "/" + TrimStart(child)
  }

  predicate HomeRelative(path: string) {
    |path| >= 2 && path[..2] == "~/"
  }

  function ResolveRemoteArg(path: string, home: string, cwd: string): Result<string, string> {
    if path == "" then Err("Remote path cannot be empty")
    else
      var absolute :=
        if Absolute(path) then path
        else if path == "~" then home
        else if HomeRelative(path) then JoinRemotePath(home, path[2..])
        else JoinRemotePath(cwd, path);
      Ok(NormalizePath(absolute))
  }

  // ----- Walking -----

  lemma {:induction false} WalkAppend(stack: seq<string>, a: seq<string>, b: seq<string>)
    ensures Walk(stack, a + b) == Walk(Walk(stack, a), b)
    decreases |a|
  {
    if a == [] {
      assert a + b == b;
    } else {
      assert (a + b)[1..] == a[1..] + b;
      WalkAppend(Push(stack, a[0]), a[1..], b);
    }
  }

  lemma SplitStep(path: string)
    requires path != ""
    ensures var rest := Split(path[1..]);
            Split(path) == if path[0] == '/' then [""] + rest else [[path[0]] + rest[0]] + rest[1..]
  {
  }

  lemma ExtendFirst(c: char, left: seq<string>, right: seq<string>)
    requires left != []
    ensures [""] + (left + right) == ([""] + left) + right
    ensures [[c] + (left + right)[0]] + (left + right)[1..] == ([[c] + left[0]] + left[1..]) + right
  {
    assert (left + right)[1..] == left[1..] + right;
  }

  lemma {:induction false} SplitAppend(a: string, b: string)
    ensures Split(a + "/" + b) == Split(a) + Split(b)
  {
    hide Split;
    var all := a + "/" + b;
    SplitStep(all);
    if a == "" {
      assert all[1..] == b;
      SplitEmpty();
    } else {
      assert all[1..] == a[1..] + "/" + b;
      SplitAppend(a[1..], b);
      SplitStep(a);
      ExtendFirst(a[0], Split(a[1..]), Split(b));
    }
  }

  lemma SplitEmpty()
    ensures Split("") == [""]
  {
  }

  /** A path below another is walked after it. */
  lemma WalkBelow(a: string, b: string)
    ensures Components(a + "/" + b) == Walk(Components(a), Split(b))
  {
    SplitAppend(a, b);
    WalkAppend([], Split(a), Split(b));
  }

  lemma SkipEmpty(stack: seq<string>, b: string)
    ensures Walk(stack, Split("/" + b)) == Walk(stack, Split(b))
  {
    assert ("/" + b)[1..] == b;
    var rest := Split(b);
    assert Split("/" + b) == [""] + rest;
    assert ([""] + rest)[1..] == rest;
    assert Push(stack, "") == stack;
  }

  lemma {:induction false} WalkTrimmedStart(stack: seq<string>, b: string)
    ensures Walk(stack, Split(TrimStart(b))) == Walk(stack, Split(b))
  {
    if b != "" && b[0] == '/' {
      WalkTrimmedStart(stack, b[1..]);
      SkipEmpty(stack, b[1..]);
      assert "/" + b[1..] == b;
    }
  }

  lemma {:induction false} WalkTrimmedEnd(a: string)
    ensures Components(TrimEnd(a)) == Components(a)
    decreases |a|
  {
    if a != "" && a[|a| - 1] == '/' {
      var front := a[..|a| - 1];
      WalkTrimmedEnd(front);
      assert front + "/" + "" == a;
      WalkBelow(front, "");
      EmptyStays(Components(front));
    }
  }

  lemma EmptyStays(stack: seq<string>)
    ensures Walk(stack, Split("")) == stack
  {
    assert Split("") == [""];
    assert [""][1..] == [];
    assert Walk(stack, [""]) == Walk(Push(stack, ""), []);
  }

  /** Joining means walking on from the directory, whatever slashes are written. */
  lemma JoinMeaning(directory: string, child: string)
    ensures Components(JoinRemotePath(directory, child)) == Walk(Components(directory), Split(child))
    ensures Absolute(directory) ==> Absolute(JoinRemotePath(directory, child))
  {
    if child == "" {
      EmptyStays(Components(directory));
    } else {
      WalkTrimmedStart(Components(directory), child);
      var tail := TrimStart(child);
      if directory == "" || directory == "/" {
        RootIsEmpty();
        SkipEmpty([], tail);
      } else {
        WalkTrimmedEnd(directory);
        WalkBelow(TrimEnd(directory), tail);
        TrimKeepsFront(directory);
      }
    }
  }

  lemma RootIsEmpty()
    ensures Components("/") == [] && Components("") == []
  {
    EmptyStays([]);
    SkipEmpty([], "");
    assert "/" + "" == "/";
  }

  lemma {:induction false} TrimKeepsFront(a: string)
    ensures TrimEnd(a) == "" || TrimEnd(a)[0] == a[0]
    decreases |a|
  {
    if a != "" && a[|a| - 1] == '/' {
      TrimKeepsFront(a[..|a| - 1]);
    }
  }

  // ----- Clean paths -----

  predicate CleanPart(part: string) {
    part != "" && part != "." && part != ".." && '/' !in part
  }

  predicate Clean(parts: seq<string>) {
    forall i :: 0 <= i < |parts| ==> CleanPart(parts[i])
  }

  lemma {:induction false} WalkIsClean(stack: seq<string>, parts: seq<string>)
    requires Clean(stack) && forall p :: p in parts ==> '/' !in p
    ensures Clean(Walk(stack, parts))
    decreases |parts|
  {
    if parts != [] {
      assert parts[0] in parts;
      assert forall p :: p in parts[1..] ==> p in parts;
      WalkIsClean(Push(stack, parts[0]), parts[1..]);
    }
  }

  lemma {:induction false} WalkClean(stack: seq<string>, parts: seq<string>)
    requires Clean(parts)
    ensures Walk(stack, parts) == stack + parts
    decreases |parts|
  {
    if parts == [] {
      assert stack + parts == stack;
    } else {
      WalkClean(stack + [parts[0]], parts[1..]);
      assert stack + [parts[0]] + parts[1..] == stack + parts;
    }
  }

  lemma {:induction false} SplitOne(part: string)
    requires '/' !in part
    ensures Split(part) == [part]
  {
    if part != "" {
      assert part == [part[0]] + part[1..];
      SplitOne(part[1..]);
    }
  }

  lemma {:induction false} SplitJoin(parts: seq<string>)
    requires parts != [] && Clean(parts)
    ensures Split(Join(parts)) == parts
  {
    SplitOne(parts[0]);
    if |parts| > 1 {
      SplitJoin(parts[1..]);
      SplitAppend(parts[0], Join(parts[1..]));
      assert [parts[0]] + parts[1..] == parts;
    }
  }

  /** Writing clean components down and reading them back changes nothing. */
  lemma ComponentsOfJoin(parts: seq<string>)
    requires Clean(parts)
    ensures Components(Join(parts)) == parts && Components("/" + Join(parts)) == parts
  {
    SkipEmpty([], Join(parts));
    if parts == [] {
      RootIsEmpty();
    } else {
      SplitJoin(parts);
      WalkClean([], parts);
      assert [] + parts == parts;
    }
  }

  lemma JoinIsRelative(parts: seq<string>)
    requires Clean(parts)
    ensures !Absolute(Join(parts))
  {
    if parts != [] {
      assert CleanPart(parts[0]);
      assert Join(parts)[0] == parts[0][0];
      assert parts[0][0] in parts[0];
    }
  }

  /** A normalized path has no empty, `.` or `..` component but for the single `.` and `/`, and normalizing it
      again changes nothing. */
  lemma NormalizeMeaning(path: string)
    ensures var normalized := NormalizePath(path);
            && Clean(Components(path))
            && Components(normalized) == Components(path)
            && (Absolute(normalized) <==> Absolute(path))
            && normalized == (if Absolute(path) then "/" + Join(Components(path))
                              else if Components(path) == [] then "." else Join(Components(path)))
            && NormalizePath(normalized) == normalized
  {
    var parts := Components(path);
    WalkIsClean([], Split(path));
    ComponentsOfJoin(parts);
    JoinIsRelative(parts);
    if !Absolute(path) && parts == [] {
      SplitOne(".");
      assert Walk([], ["."]) == Walk(Push([], "."), ["."][1..]);
    }
  }

  // ----- Resolving -----

  /** Where a path leads: an absolute one from the root, one that starts with `~` from home, and any other from
      the current directory. */
  function Target(path: string, home: string, cwd: string): seq<string> {
    if Absolute(path) then Components(path)
    else if path == "~" then Components(home)
    else if HomeRelative(path) then Walk(Components(home), Split(path[2..]))
    else Walk(Components(cwd), Split(path))
  }

  /** Resolving writes down where the path leads: an absolute path without empty, `.` or `..` components. */
  lemma ResolveMeaning(path: string, home: string, cwd: string)
    requires path != "" && Absolute(home) && Absolute(cwd)
    ensures Clean(Target(path, home, cwd))
    ensures ResolveRemoteArg(path, home, cwd) == Ok("/" + Join(Target(path, home, cwd)))
    ensures Split(ResolveRemoteArg(path, home, cwd).value)[1..]
         == if Target(path, home, cwd) == [] then [""] else Target(path, home, cwd)
  {
    var absolute :=
      if Absolute(path) then path
      else if path == "~" then home
      else if HomeRelative(path) then JoinRemotePath(home, path[2..])
      else JoinRemotePath(cwd, path);
    if HomeRelative(path) {
      JoinMeaning(home, path[2..]);
    } else {
      JoinMeaning(cwd, path);
    }
    NormalizeMeaning(absolute);
    var parts := Components(absolute);
    assert ("/" + Join(parts))[1..] == Join(parts);
    if parts != [] {
      SplitJoin(parts);
    }
  }

  /** Resolving in two steps and resolving the joined path lead to the same place. */
  lemma ResolveComposes(a: string, b: string, home: string, cwd: string)
    requires Absolute(home) && Absolute(cwd) && a != ""
    requires b != "" && !Absolute(b) && b != "~" && !HomeRelative(b)
    ensures ResolveRemoteArg(a, home, cwd).Ok?
    ensures ResolveRemoteArg(b, home, ResolveRemoteArg(a, home, cwd).value) == ResolveRemoteArg(a + "/" + b, home, cwd)
  {
    ResolveMeaning(a, home, cwd);
    var middle := ResolveRemoteArg(a, home, cwd).value;
    var joined := a + "/" + b;
    ComponentsOfJoin(Target(a, home, cwd));
    ResolveMeaning(b, home, middle);
    ResolveMeaning(joined, home, cwd);
    TargetBelow(a, b, home, cwd);
  }

  lemma TargetBelow(a: string, b: string, home: string, cwd: string)
    requires a != "" && b != ""
    ensures Target(a + "/" + b, home, cwd) == Walk(Target(a, home, cwd), Split(b))
  {
    var joined := a + "/" + b;
    assert joined[0] == a[0];
    if Absolute(a) {
      WalkBelow(a, b);
    } else if a == "~" {
      assert joined[..2] == "~/" && joined[2..] == b;
    } else if HomeRelative(a) {
      assert joined[..2] == a[..2] && joined[2..] == a[2..] + "/" + b;
      SplitAppend(a[2..], b);
      WalkAppend(Components(home), Split(a[2..]), Split(b));
    } else {
      assert |a| >= 2 ==> joined[..2] == a[..2];
      assert joined != "~" && !HomeRelative(joined);
      SplitAppend(a, b);
      WalkAppend(Components(cwd), Split(a), Split(b));
    }
  }

  /** Entering a directory and leaving it again goes nowhere; above the root is the root. */
  lemma ParentUndoesChild(path: string, name: string)
    requires CleanPart(name)
    ensures Components(path + "/" + name + "/" + "..") == Components(path)
    ensures Components(path) == [] ==> Components(path + "/" + "..") == []
  {
    var stack := Components(path);
    WalkBelow(path + "/" + name, "..");
    WalkBelow(path, name);
    WalkBelow(path, "..");
    SplitOne(name);
    SplitOne("..");
    assert [name][1..] == [] && [".."][1..] == [];
    assert Walk(stack, [name]) == Walk(Push(stack, name), []);
    assert Walk(stack + [name], [".."]) == Walk(Push(stack + [name], ".."), []);
    assert Walk(stack, [".."]) == Walk(Push(stack, ".."), []);
    assert (stack + [name])[..|stack|] == stack;
  }
}
