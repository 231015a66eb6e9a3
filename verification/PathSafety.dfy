/** What an approved path is worth: it means itself, inside a root, with no link anywhere on it. */
module PathSafety {
  import opened Common
  import opened FileTree
  import opened PathGuard

  // ----- the search, characterised -----

  /** `cut` components canonicalise; nothing longer does; the rest are the tail's names. */
  ghost predicate SplitsAt(os: Os, path: seq<Component>, cut: nat, ancestor: seq<string>, tail: seq<string>) {
    && cut + |tail| == |path| && path == path[..cut] + Normals(tail)
    && Canonicalize(os, path[..cut]) == Ok(ancestor)
    && (forall j :: cut < j <= |path| ==> Canonicalize(os, path[..j]) == Err(NotFound))
    && (tail != [] ==> ancestor in os.tree && os.tree[ancestor] == Dir && ancestor + [tail[0]] !in os.tree)
  }

  lemma {:induction false} DeepestSplits(os: Os, path: seq<Component>, n: nat, tail: seq<string>)
    requires n + |tail| == |path| && path == path[..n] + Normals(tail)
    requires forall j :: n < j <= |path| ==> Canonicalize(os, path[..j]) == Err(NotFound)
    requires Deepest(os, path[..n], tail).Ok?
    ensures var (ancestor, rest) := Deepest(os, path[..n], tail).value;
            |rest| <= |path| && SplitsAt(os, path, |path| - |rest|, ancestor, rest)
    decreases n
  {
    if Canonicalize(os, path[..n]) == Err(NotFound) {
      DeepestStrips(os, path, n, tail);
      NamePutBack(path[..n - 1], path[n - 1].name, tail);
      assert path[..n] == path[..n - 1] + [path[n - 1]];
      DeepestSplits(os, path, n - 1, [path[n - 1].name] + tail);
    } else {
      DeepestStops(os, path, n, tail);
    }
  }

  lemma NamePutBack(rest: seq<Component>, name: string, tail: seq<string>)
    ensures (rest + [Normal(name)]) + Normals(tail) == rest + Normals([name] + tail)
  {
    assert ([name] + tail)[1..] == tail;
  }

  lemma DeepestStops(os: Os, path: seq<Component>, n: nat, tail: seq<string>)
    requires n <= |path| && Deepest(os, path[..n], tail).Ok? && Canonicalize(os, path[..n]) != Err(NotFound)
    ensures Canonicalize(os, path[..n]).Ok?
    ensures var ancestor := Canonicalize(os, path[..n]).value;
            && Deepest(os, path[..n], tail).value == (ancestor, tail)
            && (tail != [] ==> ancestor in os.tree && os.tree[ancestor] == Dir && ancestor + [tail[0]] !in os.tree)
  {
  }

  lemma DeepestStrips(os: Os, path: seq<Component>, n: nat, tail: seq<string>)
    requires n <= |path| && Canonicalize(os, path[..n]) == Err(NotFound) && Deepest(os, path[..n], tail).Ok?
    ensures n > 0 && path[n - 1].Normal?
    ensures Deepest(os, path[..n], tail) == Deepest(os, path[..n - 1], [path[n - 1].name] + tail)
  {
    assert n > 0 ==> path[..n][n - 1] == path[n - 1] && path[..n][..n - 1] == path[..n - 1];
  }

  /** From the cut on, the path is the names of the tail. */
  predicate Follows(path: seq<Component>, cut: nat, tail: seq<string>) {
    cut + |tail| == |path| && forall i :: cut <= i < |path| ==> path[i] == Normal(tail[i - cut])
  }

  lemma SplitFollows(path: seq<Component>, cut: nat, tail: seq<string>)
    requires cut + |tail| == |path| && path == path[..cut] + Normals(tail)
    ensures Follows(path, cut, tail)
  {
    forall i | cut <= i < |path| ensures path[i] == Normal(tail[i - cut]) {
      JoinedAt(path[..cut], Normals(tail), i);
    }
  }

  lemma JoinedAt(a: seq<Component>, b: seq<Component>, i: nat)
    requires |a| <= i < |a + b|
    ensures (a + b)[i] == b[i - |a|]
  {
  }

  lemma TailFrom(tail: seq<string>, k: nat)
    requires 0 < k <= |tail|
    ensures tail[k - 1..] == [tail[k - 1]] + tail[k..]
  {
  }

  lemma DeepestSkips(os: Os, path: seq<Component>, n: nat, name: string, tail: seq<string>, longer: seq<string>)
    requires 0 < n <= |path| && path[n - 1] == Normal(name) && Canonicalize(os, path[..n]) == Err(NotFound)
    requires longer == [name] + tail
    ensures Deepest(os, path[..n], tail) == Deepest(os, path[..n - 1], longer)
  {
    assert path[..n][n - 1] == path[n - 1] && path[..n][..n - 1] == path[..n - 1];
  }

  lemma DeepestFound(os: Os, path: seq<Component>, ancestor: seq<string>, tail: seq<string>)
    requires Canonicalize(os, path) == Ok(ancestor)
    requires tail != [] ==> ancestor in os.tree && os.tree[ancestor] == Dir && ancestor + [tail[0]] !in os.tree
    ensures Deepest(os, path, tail) == Ok((ancestor, tail))
  {
  }

  lemma {:induction false} DeepestFinds(os: Os, path: seq<Component>, cut: nat, ancestor: seq<string>,
          tail: seq<string>, n: nat)
    requires cut <= n <= |path| && Follows(path, cut, tail)
    requires Deepest(os, path[..cut], tail) == Ok((ancestor, tail))
    requires forall j :: cut < j <= |path| ==> Canonicalize(os, path[..j]) == Err(NotFound)
    ensures Deepest(os, path[..n], tail[n - cut..]) == Ok((ancestor, tail))
    decreases n
  {
    if n == cut {
      assert tail[0..] == tail;
    } else {
      DeepestFinds(os, path, cut, ancestor, tail, n - 1);
      TailFrom(tail, n - cut);
      DeepestSkips(os, path, n, tail[n - cut - 1], tail[n - cut..], tail[n - cut - 1..]);
    }
  }

  /**
   * The search answers `(ancestor, tail)` exactly when the path is an ancestor that canonicalises
   * followed by the names, in order, that do not exist yet.
   */
  lemma DeepestExactly(os: Os, path: seq<Component>, ancestor: seq<string>, tail: seq<string>)
    ensures Deepest(os, path, []) == Ok((ancestor, tail))
       <==> |tail| <= |path| && SplitsAt(os, path, |path| - |tail|, ancestor, tail)
  {
    if Deepest(os, path, []).Ok? {
      WholePath(path, tail);
      DeepestSplits(os, path, |path|, []);
    }
    if |tail| <= |path| && SplitsAt(os, path, |path| - |tail|, ancestor, tail) {
      SplitIsFound(os, path, |path| - |tail|, ancestor, tail);
    }
  }

  lemma SplitIsFound(os: Os, path: seq<Component>, cut: nat, ancestor: seq<string>, tail: seq<string>)
    requires SplitsAt(os, path, cut, ancestor, tail)
    ensures Deepest(os, path, []) == Ok((ancestor, tail))
  {
    WholePath(path, tail);
    SplitFollows(path, cut, tail);
    DeepestFound(os, path[..cut], ancestor, tail);
    DeepestFinds(os, path, cut, ancestor, tail, |path|);
  }

  lemma WholePath(path: seq<Component>, tail: seq<string>)
    ensures path[..|path|] == path && path == path + Normals([]) && tail[|tail|..] == []
  {
  }

  lemma {:induction false} FirstRootContains(roots: seq<seq<string>>, path: seq<string>)
    ensures match FirstRoot(roots, path)
            case Some(root) => root in roots && root <= path
            case None => forall root :: root in roots ==> !(root <= path)
  {
    if roots != [] && !(roots[0] <= path) {
      FirstRootContains(roots[1..], path);
      assert roots == [roots[0]] + roots[1..];
    }
  }

  lemma NoNamesLost(path: seq<Component>, cut: nat, tail: seq<string>)
    requires cut + |tail| == |path| && path == path[..cut] + Normals(tail)
    requires forall c :: c in path && c.Normal? ==> ValidName(c.name)
    ensures ValidNames(tail)
  {
    forall i | 0 <= i < |tail| ensures ValidName(tail[i]) {
      assert path[cut + i] == Normal(tail[i]);
    }
  }

  /** A successful search is one of the components, whose end is a directory if it was spelled as one. */
  lemma SearchFinds(os: Os, path: seq<Component>, asDirectory: bool)
    ensures Search(os, path, asDirectory).Ok? ==> Search(os, path, asDirectory) == Deepest(os, path, [])
    ensures var found := Canonicalize(os, path + (if asDirectory then [Here] else []));
            && (found.Ok? ==> Search(os, path, asDirectory) == Ok((found.value, [])))
            && (found == Err(NotFound) ==> Search(os, path, asDirectory) == Deepest(os, path, []))
  {
    WalkHere(os.tree, [], path, os.maxLinks);
    assert path + [] == path;
  }

  // ----- link safety -----

  /**
   * The first `n` names are there, the next is not, and making the rest puts `leaf` at exactly
   * `path`, reached without a link, and changes no other entry.
   */
  ghost predicate CreatableFrom(t: Tree, path: seq<string>, n: nat, leaf: Node) {
    n < |path| && Real(t, path[..n]) && path[..n + 1] !in t &&
    var made := Create(t, path[..n], path[n..], leaf);
    && WellFormed(made) && path in made && made[path] == leaf
    && Walk(made, [], Normals(path), 0) == Ok(path)
    && (forall p :: p in t ==> p in made && made[p] == t[p])
  }

  /**
   * An approved path lies in a configured root and has only real names in it. If it exists, an
   * operating system that follows no link at all still walks it to exactly itself. If it does not,
   * nothing is there, not even a dangling link, and creating its missing tail makes it exist at
   * exactly that place, again with no link on the way, leaving every other entry as it was.
   */
  lemma ApprovedPathsAreLinkFree(os: Os, g: Guard, text: string, leaf: Node)
    requires WellFormed(os.tree) && Resolve(os, g, text).Ok? && !leaf.Link?
    ensures var r := Resolve(os, g, text).value;
            && r.root in g.roots && r.root <= r.path && ValidNames(r.path)
            && (r.present ==> Walk(os.tree, [], Normals(r.path), 0) == Ok(r.path))
            && (!r.present ==>
                  Walk(os.tree, [], Normals(r.path), 0) == Err(NotFound) &&
                  exists n :: CreatableFrom(os.tree, r.path, n, leaf))
  {
    var t, path := os.tree, Components(text);
    SearchFinds(os, path, EndsAsDirectory(text));
    var (ancestor, tail) := Deepest(os, path, []).value;
    var r := Resolve(os, g, text).value;
    DeepestExactly(os, path, ancestor, tail);
    FirstRootContains(g.roots, ancestor + tail);
    WalkLandsOnReal(t, [], path[..|path| - |tail|], os.maxLinks);
    ComponentsAreValid(text);
    NoNamesLost(path, |path| - |tail|, tail);
    RealIsCanonical(t, ancestor, 0);
    if tail == [] {
      assert ancestor + tail == ancestor;
    } else {
      MissingIsCreatable(t, ancestor, tail, leaf);
    }
  }

  /** Names missing below a real directory are missing to a system following no link, and can be made. */
  lemma MissingIsCreatable(t: Tree, ancestor: seq<string>, tail: seq<string>, leaf: Node)
    requires WellFormed(t) && ancestor in t && t[ancestor] == Dir && !leaf.Link?
    requires tail != [] && ValidNames(tail) && ancestor + [tail[0]] !in t
    ensures Walk(t, [], Normals(ancestor + tail), 0) == Err(NotFound)
    ensures CreatableFrom(t, ancestor + tail, |ancestor|, leaf)
  {
    var n, path := |ancestor|, ancestor + tail;
    assert path[..n] == ancestor && path[n..] == tail && path[..n + 1] == ancestor + [tail[0]];
    RealIsCanonical(t, ancestor, 0);
    NormalsAppend(ancestor, tail);
    WalkIntoMissing(t, [], Normals(ancestor), 0, tail[0], Normals(tail[1..]));
    CreateIsReal(t, ancestor, tail, leaf);
    RealIsCanonical(Create(t, ancestor, tail, leaf), path, 0);
  }

  // ----- completeness -----

  /** A path that exists as it is spelled is approved, as its canonical form, exactly when a root contains that. */
  lemma ExistingPathsResolve(os: Os, g: Guard, text: string, canonical: seq<string>)
    requires CheckSyntax(g, text).None? && Canonicalize(os, Spelled(text)) == Ok(canonical)
    ensures (exists root :: root in g.roots && root <= canonical)
       <==> Resolve(os, g, text).Ok?
    ensures Resolve(os, g, text).Ok? ==>
              var root := FirstRoot(g.roots, canonical);
              root.Some? && Resolve(os, g, text).value == Resolved(canonical, root.value, true)
    ensures ResolveExisting(os, g, text) == Resolve(os, g, text)
  {
    SearchFinds(os, Components(text), EndsAsDirectory(text));
    assert canonical + [] == canonical;
    FirstRootContains(g.roots, canonical);
    FirstRootContains(g.roots, canonical + []);
  }

  /** A path naming something missing below an existing directory is approved where it would be created. */
  lemma MissingPathsResolve(os: Os, g: Guard, text: string, existing: seq<Component>, dir: seq<string>,
          tail: seq<string>)
    requires WellFormed(os.tree) && CheckSyntax(g, text).None?
    requires Components(text) == existing + Normals(tail) && tail != []
    requires Canonicalize(os, existing) == Ok(dir) && dir in os.tree && os.tree[dir] == Dir &&
              dir + [tail[0]] !in os.tree
    ensures (exists root :: root in g.roots && root <= dir + tail) <==> Resolve(os, g, text).Ok?
    ensures Resolve(os, g, text).Ok? ==>
              Resolve(os, g, text).value.path == dir + tail && !Resolve(os, g, text).value.present
    ensures ResolveExisting(os, g, text) == Err(if g.roots == [] then NoRootsConfigured else OutsideRoots)
  {
    var path, cut := Components(text), |existing|;
    MissingFrom(os, existing, Spelled(text), tail[0]);
    SearchFinds(os, path, EndsAsDirectory(text));
    forall j | cut < j <= |path| ensures Canonicalize(os, path[..j]) == Err(NotFound) {
      assert path[..j][..cut] == existing && path[..j][cut] == Normal(tail[0]);
      MissingFrom(os, existing, path[..j], tail[0]);
    }
    assert path[..cut] == existing;
    assert SplitsAt(os, path, cut, dir, tail);
    DeepestExactly(os, path, dir, tail);
    FirstRootContains(g.roots, dir + tail);
  }

  /** Whatever path goes on from a directory by a name it lacks is missing. */
  lemma MissingFrom(os: Os, existing: seq<Component>, path: seq<Component>, name: string)
    requires WellFormed(os.tree) && Canonicalize(os, existing).Ok?
    requires var dir := Canonicalize(os, existing).value;
             dir in os.tree && os.tree[dir] == Dir && dir + [name] !in os.tree
    requires |existing| < |path| && path[..|existing|] == existing && path[|existing|] == Normal(name)
    ensures Canonicalize(os, path) == Err(NotFound)
  {
    assert path == existing + ([Normal(name)] + path[|existing| + 1..]);
    WalkIntoMissing(os.tree, [], existing, os.maxLinks, name, path[|existing| + 1..]);
  }

  /** What stands behind an approval: a real ancestor, and valid names below it of which the first is missing. */
  ghost predicate Rests(os: Os, g: Guard, r: Resolved, ancestor: seq<string>, tail: seq<string>) {
    && Real(os.tree, ancestor) && r == Resolved(ancestor + tail, r.root, tail == [])
    && ValidNames(ancestor + tail) && FirstRoot(g.roots, ancestor + tail) == Some(r.root)
    && (tail != [] ==> os.tree[ancestor] == Dir && ancestor + [tail[0]] !in os.tree)
  }

  lemma ApprovalRests(os: Os, g: Guard, text: string) returns (ancestor: seq<string>, tail: seq<string>)
    requires WellFormed(os.tree) && Resolve(os, g, text).Ok?
    ensures Rests(os, g, Resolve(os, g, text).value, ancestor, tail)
  {
    var path := Components(text);
    SearchFinds(os, path, EndsAsDirectory(text));
    ancestor, tail := Deepest(os, path, []).value.0, Deepest(os, path, []).value.1;
    DeepestExactly(os, path, ancestor, tail);
    WalkLandsOnReal(os.tree, [], path[..|path| - |tail|], os.maxLinks);
    ComponentsAreValid(text);
    NoNamesLost(path, |path| - |tail|, tail);
  }

  /** What the guard returns it would return again: same path, same root, same answer about existence. */
  lemma ResolvingAgainChangesNothing(os: Os, g: Guard, text: string)
    requires WellFormed(os.tree) && Resolve(os, g, text).Ok?
    requires CheckSyntax(g, Render(Resolve(os, g, text).value.path)).None?
    ensures Resolve(os, g, Render(Resolve(os, g, text).value.path)) == Resolve(os, g, text)
  {
    var r := Resolve(os, g, text).value;
    var ancestor, tail := ApprovalRests(os, g, text);
    FirstRootContains(g.roots, r.path);
    if tail == [] {
      assert ancestor + tail == ancestor;
      RenderedIsCanonical(os, ancestor);
      ExistingPathsResolve(os, g, Render(r.path), ancestor);
    } else {
      ComponentsRender(r.path);
      NormalsAppend(ancestor, tail);
      RealIsCanonical(os.tree, ancestor, os.maxLinks);
      MissingPathsResolve(os, g, Render(r.path), Normals(ancestor), ancestor, tail);
    }
  }

  /** A trailing slash changes nothing after a directory and is refused after anything else. */
  lemma TrailingSlash(os: Os, g: Guard, p: seq<string>)
    requires WellFormed(os.tree) && Real(os.tree, p) && p != [] && g.roots != []
    requires CheckSyntax(g, Render(p)).None? && CheckSyntax(g, Render(p) + "/").None?
    ensures Resolve(os, g, Render(p) + "/") ==
            if os.tree[p] == Dir then Resolve(os, g, Render(p)) else Err(UnresolvableAncestor)
  {
    var text := Render(p) + "/";
    assert text == Render(p) + "/" + "";
    ComponentsJoin(Render(p), "");
    SegmentsSlash(Render(p), "");
    ComponentsRender(p);
    assert Components(text) == Normals(p) by {
      assert Components("") == [];
    }
    RealIsCanonical(os.tree, p, os.maxLinks);
    WalkHere(os.tree, [], Normals(p), os.maxLinks);
    if os.tree[p] == Dir {
      RenderedIsCanonical(os, p);
      ExistingPathsResolve(os, g, Render(p), p);
      ExistingPathsResolve(os, g, text, p);
    }
  }

  /** A request that steps up out of something missing is refused: `..` never reaches a tail. */
  lemma TraversalNeverSurvives(os: Os, g: Guard, text: string, n: nat)
    requires n < |Components(text)|
    requires Components(text)[n].ParentDir? && Canonicalize(os, Components(text)[..n]) == Err(NotFound)
    ensures Resolve(os, g, text).Err?
  {
    SearchFinds(os, Components(text), EndsAsDirectory(text));
    NoDeepestPastMissing(os, Components(text), n);
  }

  lemma NoDeepestPastMissing(os: Os, path: seq<Component>, n: nat)
    requires n < |path| && path[n].ParentDir? && Canonicalize(os, path[..n]) == Err(NotFound)
    ensures Deepest(os, path, []).Err?
  {
    if Deepest(os, path, []).Ok? {
      var (ancestor, tail) := Deepest(os, path, []).value;
      DeepestExactly(os, path, ancestor, tail);
      MissingStaysMissing(os, path, n, |path| - |tail|, tail);
    }
  }

  lemma MissingStaysMissing(os: Os, path: seq<Component>, n: nat, cut: nat, tail: seq<string>)
    requires n < |path| && path[n].ParentDir? && Canonicalize(os, path[..n]) == Err(NotFound)
    requires cut + |tail| == |path| && path == path[..cut] + Normals(tail)
    ensures Canonicalize(os, path[..cut]) == Err(NotFound)
  {
    SplitFollows(path, cut, tail);
    assert path[..cut] == path[..n] + path[n..cut];
    WalkFailsOn(os.tree, [], path[..n], path[n..cut], os.maxLinks);
  }

  // ----- paths relative to a root -----

  /** A relative request is the root's components followed by its own, or it is refused. */
  lemma RelativeRequests(os: Os, g: Guard, root: seq<string>, relative: string)
    requires ValidNames(root)
    ensures IsAbsolute(relative) ==> ResolveInRoot(os, g, root, relative) == Err(NotAbsolute)
    ensures !IsAbsolute(relative) ==> Components(JoinText(root, relative)) == Normals(root) + Components(relative)
  {
    if root == [] {
      assert JoinText(root, relative) == "" + "/" + relative;
      ComponentsJoin("", relative);
    } else {
      ComponentsRender(root);
      ComponentsJoin(Render(root), relative);
    }
  }

  // ----- the named root -----

  /** As many steps up as it takes to leave `depth` directories. */
  function Ups(depth: nat): string {
    if depth <= 1 then ".." else "../" + Ups(depth - 1)
  }

  function Climb(depth: nat): (r: seq<Component>)
    ensures |r| == depth && forall i :: 0 <= i < depth ==> r[i] == ParentDir
  {
    seq(depth, _ => ParentDir)
  }

  /** A relative request that climbs out of `p` and names `r` from the top. */
  function Sideways(p: seq<string>, r: seq<string>): string {
    Ups(|p|) + RenderFrom(r)
  }

  lemma {:induction false} UpsClimb(depth: nat)
    requires depth > 0
    ensures Components(Ups(depth)) == Climb(depth)
  {
    SegmentsPlain("..");
    if depth == 1 {
      assert Named([".."][1..]) == [];
      assert Components("..") == [ParentDir] == Climb(1);
    } else {
      UpsClimb(depth - 1);
      assert Ups(depth) == ".." + "/" + Ups(depth - 1);
      ComponentsJoin("..", Ups(depth - 1));
      assert Named([".."][1..]) == [];
      assert Climb(depth) == [ParentDir] + Climb(depth - 1);
    }
  }

  lemma SidewaysComponents(p: seq<string>, r: seq<string>)
    requires p != [] && ValidNames(r)
    ensures Components(Sideways(p, r)) == Climb(|p|) + Normals(r)
    ensures !IsAbsolute(Sideways(p, r))
  {
    UpsClimb(|p|);
    if r == [] {
      assert Sideways(p, r) == Ups(|p|);
    } else {
      var below := RenderFrom(r)[1..];
      assert RenderFrom(r) == "/" + below && Sideways(p, r) == Ups(|p|) + "/" + below;
      ComponentsJoin(Ups(|p|), below);
      ComponentsRender(r);
      assert "" + "/" + below == "/" + below;
      ComponentsJoin("", below);
    }
  }

  lemma {:induction false} ClimbOut(t: Tree, p: seq<string>, rest: seq<Component>, links: nat)
    requires WellFormed(t) && p in t && t[p] == Dir
    ensures Walk(t, p, Climb(|p|) + rest, links) == Walk(t, [], rest, links)
    decreases |p|
  {
    if p == [] {
      assert Climb(0) + rest == rest;
    } else {
      var todo := Climb(|p|) + rest;
      assert todo[0] == ParentDir && todo[1..] == Climb(|p| - 1) + rest;
      assert Parent(p) in t && t[Parent(p)] == Dir;
      ClimbOut(t, Parent(p), rest, links);
    }
  }

  lemma SidewaysWalk(os: Os, p: seq<string>, r: seq<string>)
    requires WellFormed(os.tree) && p in os.tree && os.tree[p] == Dir && Real(os.tree, r)
    ensures Canonicalize(os, Normals(p) + (Climb(|p|) + Normals(r))) == Ok(r)
  {
    WalkReal(os.tree, p, 0, Climb(|p|) + Normals(r), os.maxLinks);
    assert p[..0] == [] && p[0..] == p;
    ClimbOut(os.tree, p, Normals(r), os.maxLinks);
    RealIsCanonical(os.tree, r, os.maxLinks);
  }

  lemma SidewaysPlain(p: seq<string>, r: seq<string>)
    requires p != [] && ValidNames(r)
    ensures !EndsAsDirectory(JoinText(p, Sideways(p, r)))
  {
    if r == [] {
      assert Ups(|p|) + "" == Ups(|p|);
      assert JoinText(p, Sideways(p, r)) == (Render(p) + "/") + Ups(|p|);
      UpsEndPlain(Render(p) + "/", |p|);
    } else {
      var above, name := RenderFrom(r[..|r| - 1]), r[|r| - 1];
      RenderFromSplits(r);
      Regroup(Render(p), Ups(|p|), above, name);
      EndsInName(Render(p) + "/" + Ups(|p|) + above, name);
    }
  }

  lemma Regroup(a: string, b: string, c: string, d: string)
    ensures a + "/" + (b + (c + "/" + d)) == (a + "/" + b + c) + "/" + d
  {
  }

  lemma {:induction false} UpsEndPlain(before: string, depth: nat)
    requires before != "" && before[|before| - 1] == '/' && depth > 0
    ensures !EndsAsDirectory(before + Ups(depth))
    decreases depth
  {
    if depth == 1 {
      var start := before[..|before| - 1];
      assert before + ".." == start + "/" + "..";
      EndsInName(start, "..");
    } else {
      assert before + Ups(depth) == (before + "../") + Ups(depth - 1);
      UpsEndPlain(before + "../", depth - 1);
    }
  }

  /** The root named in a relative request is a starting point: any other root outside it may answer. */
  lemma AnotherRootMayAnswer(os: Os, g: Guard, p: seq<string>, r: seq<string>)
    requires WellFormed(os.tree) && p in os.tree && os.tree[p] == Dir && Real(os.tree, r)
    requires r in g.roots && !(p <= r) && CheckSyntax(g, JoinText(p, Sideways(p, r))).None?
    ensures var answer := ResolveInRoot(os, g, p, Sideways(p, r));
            answer.Ok? && answer.value.path == r && answer.value.present
  {
    var relative := Sideways(p, r);
    var text := JoinText(p, relative);
    SidewaysComponents(p, r);
    RelativeRequests(os, g, p, relative);
    SidewaysPlain(p, r);
    SidewaysWalk(os, p, r);
    assert Spelled(text) == Normals(p) + (Climb(|p|) + Normals(r));
    ExistingPathsResolve(os, g, text, r);
  }

  /** Whatever is on the disk and whatever is asked, an answer lies below the named root. */
  ghost predicate Bounds(g: Guard, p: seq<string>) {
    forall os: Os, relative: string ::
      WellFormed(os.tree) && ResolveInRoot(os, g, p, relative).Ok? ==>
        p <= ResolveInRoot(os, g, p, relative).value.path
  }

  /** The two paths and the directories above them, and nothing else. */
  function Grove(p: seq<string>, r: seq<string>): Tree {
    (map i | 0 <= i <= |p| :: p[..i] := Dir) + (map i | 0 <= i <= |r| :: r[..i] := Dir)
  }

  lemma GroveIsWellFormed(p: seq<string>, r: seq<string>)
    requires ValidNames(p) && ValidNames(r)
    ensures WellFormed(Grove(p, r)) && p in Grove(p, r) && r in Grove(p, r)
    ensures forall q :: q in Grove(p, r) ==> Grove(p, r)[q] == Dir
  {
    assert p[..0] == [] && p[..|p|] == p && r[..|r|] == r;
    forall q {:trigger Parent(q)} | q in Grove(p, r) && q != []
      ensures Parent(q) in Grove(p, r)
    {
      if i :| 0 <= i <= |p| && q == p[..i] {
        assert Parent(q) == p[..i - 1];
      } else {
        var i :| 0 <= i <= |r| && q == r[..i];
        assert Parent(q) == r[..i - 1];
      }
    }
  }

  /** The same with a link in `p` that leads to `r`. */
  function GroveWithLink(p: seq<string>, r: seq<string>, name: string): Tree {
    Grove(p, r)[p + [name] := Link(true, Normals(r))]
  }

  lemma LinkIsWellFormed(p: seq<string>, r: seq<string>, name: string)
    requires ValidNames(p) && ValidNames(r) && ValidName(name) && !(p <= r)
    ensures var t := GroveWithLink(p, r, name);
            WellFormed(t) && p in t && t[p] == Dir && Real(t, r) && t[p + [name]] == Link(true, Normals(r))
  {
    GroveIsWellFormed(p, r);
    NotInGrove(p, r, name);
    LinkKeepsTree(Grove(p, r), p, r, name, Link(true, Normals(r)));
  }

  lemma NotInGrove(p: seq<string>, r: seq<string>, name: string)
    requires !(p <= r)
    ensures p + [name] !in Grove(p, r)
  {
    assert p <= p + [name];
  }

  lemma LinkKeepsTree(t: Tree, p: seq<string>, r: seq<string>, name: string, link: Node)
    requires WellFormed(t) && p in t && r in t && ValidName(name) && p + [name] !in t
    requires forall q :: q in t ==> t[q] == Dir
    ensures var t' := t[p + [name] := link]; WellFormed(t') && p in t' && t'[p] == Dir && Real(t', r)
  {
    assert Parent(p + [name]) == p;
  }

  lemma LinkLeads(os: Os, p: seq<string>, name: string, r: seq<string>)
    requires WellFormed(os.tree) && p in os.tree && os.tree[p] == Dir && Real(os.tree, r) && os.maxLinks > 0
    requires p + [name] in os.tree && os.tree[p + [name]] == Link(true, Normals(r))
    ensures Canonicalize(os, Normals(p) + [Normal(name)]) == Ok(r)
  {
    WalkReal(os.tree, p, 0, [Normal(name)], os.maxLinks);
    assert p[..0] == [] && p[0..] == p && Normals(r) + [] == Normals(r);
    RealIsCanonical(os.tree, r, os.maxLinks - 1);
  }

  lemma NameBelow(p: seq<string>, name: string)
    requires p != [] && ValidNames(p) && ValidName(name)
    ensures Spelled(JoinText(p, name)) == Normals(p) + [Normal(name)] && !IsAbsolute(name)
  {
    ComponentsRender(p);
    ComponentsJoin(Render(p), name);
    SegmentsPlain(name);
    assert [name][1..] == [] && Named([name]) == [Normal(name)] + Named([]);
    EndsInName(Render(p), name);
  }

  /** A link below the named root reaches a root outside it, whatever that one is called. */
  lemma LinkReachesAnotherRoot(os: Os, g: Guard, p: seq<string>, r: seq<string>, name: string)
    requires WellFormed(os.tree) && p in os.tree && os.tree[p] == Dir && Real(os.tree, r) && os.maxLinks > 0
    requires p + [name] in os.tree && os.tree[p + [name]] == Link(true, Normals(r))
    requires p != [] && ValidNames(p) && ValidName(name) && CheckSyntax(g, JoinText(p, name)).None?
    requires r in g.roots
    ensures var answer := ResolveInRoot(os, g, p, name); answer.Ok? && answer.value.path == r
  {
    NameBelow(p, name);
    LinkLeads(os, p, name, r);
    ExistingPathsResolve(os, g, JoinText(p, name), r);
  }

  /**
   * The named root bounds every answer exactly when every configured root lies below it, if any
   * name at all can be asked for below it.
   */
  lemma NamedRootBoundsExactly(g: Guard, p: seq<string>, name: string)
    requires ValidNames(p) && forall r :: r in g.roots ==> ValidNames(r)
    requires ValidName(name) && CheckSyntax(g, JoinText(p, name)).None?
    ensures Bounds(g, p) <==> forall r :: r in g.roots ==> p <= r
  {
    if r :| r in g.roots && !(p <= r) {
      var os := Os(GroveWithLink(p, r, name), 1);
      LinkIsWellFormed(p, r, name);
      LinkReachesAnotherRoot(os, g, p, r, name);
    } else {
      forall os: Os, relative: string | WellFormed(os.tree) && ResolveInRoot(os, g, p, relative).Ok?
        ensures p <= ResolveInRoot(os, g, p, relative).value.path
      {
        RootHoldsAnswer(os, g, JoinText(p, relative));
      }
    }
  }

  lemma RootHoldsAnswer(os: Os, g: Guard, text: string)
    requires Resolve(os, g, text).Ok?
    ensures var r := Resolve(os, g, text).value; r.root in g.roots && r.root <= r.path
  {
    SearchFinds(os, Components(text), EndsAsDirectory(text));
    var (ancestor, tail) := Deepest(os, Components(text), []).value;
    FirstRootContains(g.roots, ancestor + tail);
  }
}
