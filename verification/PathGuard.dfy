/**
 * The path guard: whether a requested path lies inside a workspace root, decided by syntax,
 * canonicalisation of the deepest existing ancestor, and component-wise containment.
 */
module PathGuard {
  import opened Common
  import opened FileTree

  const MAX_PATH_BYTES: nat := 4096
  const MAX_PATH_COMPONENTS: nat := 256

  datatype DenyReason =
    | NotUtf8 | NullByte | TooLong | TooManyComponents | NotAbsolute
    | ReservedDeviceName | AlternateDataStream | TrailingDotOrSpace
    | NoRootsConfigured | UnresolvableAncestor | TraversalIntoMissingPath | OutsideRoots

  /** Roots are canonical paths. Text is bytes; the encoding test and the device table are parameters. */
  datatype Guard = Guard(
    roots: seq<seq<string>>,
    windowsNameRules: bool,
    isUtf8: string -> bool,
    isReservedDevice: string -> bool)

  datatype Resolved = Resolved(path: seq<string>, root: seq<string>, present: bool)

  // ----- syntax -----

  function CheckName(g: Guard, name: string): Option<DenyReason> {
    if !g.windowsNameRules then None
    else if ':' in name then Some(AlternateDataStream)
    else if name != "" && (name[|name| - 1] == '.' || name[|name| - 1] == ' ') then Some(TrailingDotOrSpace)
    else if g.isReservedDevice(name) then Some(ReservedDeviceName)
    else None
  }

  /** The first component, counting from `count` already seen, that is one too many or badly named. */
  function CheckComponents(g: Guard, path: seq<Component>, count: nat): Option<DenyReason> {
    if path == [] then None
    else if count + 1 > MAX_PATH_COMPONENTS then Some(TooManyComponents)
    else
      var bad := if path[0].Normal? then CheckName(g, path[0].name) else None;
      if bad.Some? then bad else CheckComponents(g, path[1..], count + 1)
  }

  /** Everything decidable from the text; the root directory is the first component. */
  function CheckSyntax(g: Guard, text: string): Option<DenyReason> {
    if !g.isUtf8(text) then Some(NotUtf8)
    else if '\0' in text then Some(NullByte)
    else if |text| > MAX_PATH_BYTES then Some(TooLong)
    else if !IsAbsolute(text) then Some(NotAbsolute)
    else CheckComponents(g, Components(text), 1)
  }

  // ----- the search for the deepest existing ancestor -----

  /** Strips trailing names until the rest canonicalises; what was stripped is the missing tail. */
  function Deepest(os: Os, cursor: seq<Component>, tail: seq<string>): Result<(seq<string>, seq<string>), DenyReason>
    decreases |cursor|
  {
    match Canonicalize(os, cursor)
    case Ok(canonical) =>
      if tail != [] && Probe(os.tree, canonical, tail[0]) != Err(NotFound) then Err(UnresolvableAncestor)
      else Ok((canonical, tail))
    case Err(NotFound) =>
      if cursor == [] then Err(UnresolvableAncestor)
      else
        var last := cursor[|cursor| - 1];
        if !last.Normal? then Err(TraversalIntoMissingPath)
        else Deepest(os, cursor[..|cursor| - 1], [last.name] + tail)
    case Err(_) => Err(UnresolvableAncestor)
  }

  /** The search for a path as it is spelled: a path that ends as a directory must not be something else. */
  function Search(os: Os, path: seq<Component>, asDirectory: bool): Result<(seq<string>, seq<string>), DenyReason> {
    if asDirectory && Canonicalize(os, path + [Here]) == Err(NotADirectory) then Err(UnresolvableAncestor)
    else Deepest(os, path, [])
  }

  /** The first root that contains the path. */
  function FirstRoot(roots: seq<seq<string>>, path: seq<string>): Option<seq<string>> {
    if roots == [] then None
    else if roots[0] <= path then Some(roots[0])
    else FirstRoot(roots[1..], path)
  }

  function Resolve(os: Os, g: Guard, text: string): Result<Resolved, DenyReason> {
    var bad := CheckSyntax(g, text);
    if bad.Some? then Err(bad.value)
    else if g.roots == [] then Err(NoRootsConfigured)
    else
      match Search(os, Components(text), EndsAsDirectory(text))
      case Err(reason) => Err(reason)
      case Ok((ancestor, tail)) =>
        match FirstRoot(g.roots, ancestor + tail)
        case None => Err(OutsideRoots)
        case Some(root) => Ok(Resolved(ancestor + tail, root, tail == []))
  }

  function ResolveExisting(os: Os, g: Guard, text: string): Result<Resolved, DenyReason> {
    match Resolve(os, g, text)
    case Err(reason) => Err(reason)
    case Ok(r) => if r.present then Ok(r) else Err(OutsideRoots)
  }

  function JoinText(base: seq<string>, relative: string): string {
    if base == [] then "/" + relative else Render(base) + "/" + relative
  }

  function ResolveInRoot(os: Os, g: Guard, root: seq<string>, relative: string): Result<Resolved, DenyReason> {
    if IsAbsolute(relative) then Err(NotAbsolute) else Resolve(os, g, JoinText(root, relative))
  }

  // ----- the loops -----

  /** Containment, one component of each path at a time. */
  method IsWithin(root: seq<string>, candidate: seq<string>) returns (r: bool)
    ensures r <==> root <= candidate
  {
    var i := 0;
    while true
      invariant i <= |root| && i <= |candidate|
      invariant root[..i] == candidate[..i]
      decreases |root| - i
    {
      if i == |root| {
        assert root == root[..i];
        return true;
      }
      if i == |candidate| {
        return false;
      }
      if root[i] != candidate[i] {
        return false;
      }
      i := i + 1;
    }
  }

  method CheckSyntaxLoop(g: Guard, text: string) returns (r: Option<DenyReason>)
    ensures r == CheckSyntax(g, text)
  {
    if !g.isUtf8(text) {
      return Some(NotUtf8);
    }
    if '\0' in text {
      return Some(NullByte);
    }
    if |text| > MAX_PATH_BYTES {
      return Some(TooLong);
    }
    if !IsAbsolute(text) {
      return Some(NotAbsolute);
    }
    var components, count := Components(text), 1;
    for i := 0 to |components|
      invariant count == i + 1
      invariant CheckComponents(g, components, 1) == CheckComponents(g, components[i..], count)
    {
      assert components[i..][1..] == components[i + 1..];
      count := count + 1;
      if count > MAX_PATH_COMPONENTS {
        return Some(TooManyComponents);
      }
      if components[i].Normal? {
        var bad := CheckName(g, components[i].name);
        if bad.Some? {
          return bad;
        }
      }
    }
    r := None;
  }

  function Reversed(s: seq<string>): seq<string> {
    if s == [] then [] else Reversed(s[1..]) + [s[0]]
  }

  lemma {:induction false} ReversedAppend(s: seq<string>, x: string)
    ensures Reversed(s + [x]) == [x] + Reversed(s)
  {
    if s == [] {
      assert s + [x] == [x];
    } else {
      assert (s + [x])[1..] == s[1..] + [x];
      ReversedAppend(s[1..], x);
    }
  }

  /**
   * The bounded search. After the syntax check its bound is never reached: it answers exactly
   * what the unbounded search answers, and that is never `TooManyComponents`.
   */
  method CanonicaliseDeepestAncestor(os: Os, path: seq<Component>, asDirectory: bool)
    returns (r: Result<(seq<string>, seq<string>), DenyReason>)
    requires |path| <= MAX_PATH_COMPONENTS
    ensures r == Search(os, path, asDirectory)
    ensures r != Err(TooManyComponents)
  {
    var tail: seq<string>, cursor := [], path;
    var trailing := asDirectory;
    for i := 0 to MAX_PATH_COMPONENTS + 3
      invariant |cursor| + i == |path|
      invariant trailing ==> asDirectory && cursor == path && tail == []
      invariant !trailing ==> Search(os, path, asDirectory) == Deepest(os, cursor, Reversed(tail))
    {
      var canonical := Canonicalize(os, cursor + (if trailing then [Here] else []));
      WalkHere(os.tree, [], cursor, os.maxLinks);
      assert cursor + [] == cursor;
      match canonical {
        case Ok(ancestor) =>
          tail := Reversed(tail);
          if tail != [] {
            var probe := Probe(os.tree, ancestor, tail[0]);
            if probe != Err(NotFound) {
              return Err(UnresolvableAncestor);
            }
          }
          return Ok((ancestor, tail));
        case Err(NotFound) =>
          if cursor == [] {
            return Err(UnresolvableAncestor);
          }
          var last := cursor[|cursor| - 1];
          if !last.Normal? {
            return Err(TraversalIntoMissingPath);
          }
          ReversedAppend(tail, last.name);
          tail := tail + [last.name];
          cursor := cursor[..|cursor| - 1];
          trailing := false;
        case Err(_) =>
          return Err(UnresolvableAncestor);
      }
    }
    assert false;
  }

  /** The whole pipeline, through the loops above. */
  method ResolvePath(os: Os, g: Guard, text: string) returns (r: Result<Resolved, DenyReason>)
    ensures r == Resolve(os, g, text)
  {
    var bad := CheckSyntaxLoop(g, text);
    if bad.Some? {
      return Err(bad.value);
    }
    CheckedIsShort(g, Components(text), 1);
    if g.roots == [] {
      return Err(NoRootsConfigured);
    }
    var found := CanonicaliseDeepestAncestor(os, Components(text), EndsAsDirectory(text));
    if found.Err? {
      return Err(found.error);
    }
    var (canonical, tail) := found.value;
    var path := canonical;
    for i := 0 to |tail|
      invariant path == canonical + tail[..i]
    {
      path := path + [tail[i]];
    }
    assert tail[..|tail|] == tail;
    for i := 0 to |g.roots|
      invariant FirstRoot(g.roots, path) == FirstRoot(g.roots[i..], path)
    {
      assert g.roots[i..][1..] == g.roots[i + 1..];
      var within := IsWithin(g.roots[i], path);
      if within {
        return Ok(Resolved(path, g.roots[i], tail == []));
      }
    }
    r := Err(OutsideRoots);
  }

  lemma {:induction false} CheckedIsShort(g: Guard, path: seq<Component>, count: nat)
    requires CheckComponents(g, path, count).None? && count <= MAX_PATH_COMPONENTS
    ensures |path| + count <= MAX_PATH_COMPONENTS
  {
    if path != [] {
      CheckedIsShort(g, path[1..], count + 1);
    }
  }
}
