/**
 * Paths as text and as components, and a filesystem with directories, files and symbolic
 * links in which the operating system resolves them. Unix only: no prefixes, no case folding.
 */
module FileTree {
  import opened Common

  // ----- paths as text -----

  /** A name, a step up, or the place itself, which must then be a directory. */
  datatype Component = Normal(name: string) | ParentDir | Here

  /** The pieces of a path between slashes. */
  function Segments(text: string): (r: seq<string>)
    ensures |r| > 0
  {
    if text == "" then [""]
    else
      var rest := Segments(text[1..]);
      if text[0] == '/' then [""] + rest
      else [[text[0]] + rest[0]] + rest[1..]
  }

  /** Empty pieces and single dots name nothing. */
  function Named(segments: seq<string>): seq<Component> {
    if segments == [] then []
    else
      var rest := Named(segments[1..]);
      if segments[0] == "" || segments[0] == "." then rest
      else if segments[0] == ".." then [ParentDir] + rest
      else [Normal(segments[0])] + rest
  }

  /** The components of a path after its root. */
  function Components(text: string): seq<Component> {
    Named(Segments(text))
  }

  /** A trailing slash or dot says that what is named is a directory. */
  predicate EndsAsDirectory(text: string) {
    var last := Segments(text)[|Segments(text)| - 1];
    last == "" || last == "."
  }

  /** What the operating system is asked to resolve: the components, and whether they must end at a directory. */
  function Spelled(text: string): seq<Component> {
    Components(text) + (if EndsAsDirectory(text) then [Here] else [])
  }

  predicate IsAbsolute(text: string) {
    text != "" && text[0] == '/'
  }

  function Render(path: seq<string>): string {
    if path == [] then "/" else RenderFrom(path)
  }

  function RenderFrom(path: seq<string>): string {
    if path == [] then "" else "/" + path[0] + RenderFrom(path[1..])
  }

  predicate ValidName(name: string) {
    name != "" && name != "." && name != ".." && '/' !in name
  }

  predicate ValidNames(path: seq<string>) {
    forall i :: 0 <= i < |path| ==> ValidName(path[i])
  }

  function Normals(path: seq<string>): (r: seq<Component>)
    ensures |r| == |path| && forall i :: 0 <= i < |r| ==> r[i] == Normal(path[i])
  {
    if path == [] then [] else [Normal(path[0])] + Normals(path[1..])
  }

  lemma NormalsAppend(a: seq<string>, b: seq<string>)
    ensures Normals(a + b) == Normals(a) + Normals(b)
  {
  }

  lemma {:induction false} SegmentsSlash(a: string, b: string)
    ensures Segments(a + "/" + b) == Segments(a) + Segments(b)
  {
    if a == "" {
      assert a + "/" + b == "/" + b;
      assert ("/" + b)[1..] == b;
    } else {
      assert (a + "/" + b)[1..] == a[1..] + "/" + b;
      SegmentsSlash(a[1..], b);
    }
  }

  lemma {:induction false} SegmentsPlain(name: string)
    requires '/' !in name
    ensures Segments(name) == [name]
  {
    if name != "" {
      SegmentsPlain(name[1..]);
      assert [name[0]] + name[1..] == name;
    }
  }

  lemma {:induction false} NamedAppend(a: seq<string>, b: seq<string>)
    ensures Named(a + b) == Named(a) + Named(b)
  {
    if a == [] {
      assert a + b == b;
    } else {
      assert (a + b)[1..] == a[1..] + b;
      NamedAppend(a[1..], b);
    }
  }

  lemma {:induction false} ValidSegments(text: string)
    ensures forall i :: 0 <= i < |Segments(text)| ==> '/' !in Segments(text)[i]
  {
    if text != "" {
      ValidSegments(text[1..]);
    }
  }

  lemma {:induction false} NamedAreValid(segments: seq<string>)
    requires forall i :: 0 <= i < |segments| ==> '/' !in segments[i]
    ensures forall c :: c in Named(segments) && c.Normal? ==> ValidName(c.name)
  {
    if segments != [] {
      NamedAreValid(segments[1..]);
    }
  }

  /** Every name a path mentions is a real entry name: no slash, not empty, not a dot entry. */
  lemma ComponentsAreValid(text: string)
    ensures forall c :: c in Components(text) && c.Normal? ==> ValidName(c.name)
  {
    ValidSegments(text);
    NamedAreValid(Segments(text));
  }

  /** Joining with a slash concatenates components. */
  lemma ComponentsJoin(a: string, b: string)
    ensures Components(a + "/" + b) == Components(a) + Components(b)
  {
    SegmentsSlash(a, b);
    NamedAppend(Segments(a), Segments(b));
  }

  lemma {:induction false} ComponentsRenderFrom(path: seq<string>)
    requires ValidNames(path)
    ensures Components(RenderFrom(path)) == Normals(path)
  {
    if path != [] {
      var rest := RenderFrom(path[1..]);
      ComponentsRenderFrom(path[1..]);
      SegmentsPlain(path[0]);
      assert RenderFrom(path) == "" + "/" + (path[0] + rest);
      SegmentsSlash("", path[0] + rest);
      if path[1..] == [] {
        assert path[0] + rest == path[0];
      } else {
        var tail := rest[1..];
        assert rest == "" + "/" + tail && path[0] + rest == path[0] + "/" + tail;
        SegmentsSlash("", tail);
        SegmentsSlash(path[0], tail);
        assert Named([""] + Segments(tail)) == Named(Segments(tail)) by { NamedAppend([""], Segments(tail)); }
      }
      NamedSkipsEmpty(path[0], if path[1..] == [] then [] else Segments(rest[1..]));
    }
  }

  lemma NamedSkipsEmpty(name: string, rest: seq<string>)
    requires ValidName(name)
    ensures Named([""] + ([name] + rest)) == [Normal(name)] + Named(rest)
  {
    assert ([""] + ([name] + rest))[1..] == [name] + rest;
    assert ([name] + rest)[1..] == rest;
  }

  /** A rendered path reads back as itself. */
  lemma ComponentsRender(path: seq<string>)
    requires ValidNames(path)
    ensures Components(Render(path)) == Normals(path) && IsAbsolute(Render(path))
  {
    if path == [] {
      assert Segments("/") == ["", ""];
    } else {
      ComponentsRenderFrom(path);
    }
  }

  lemma {:induction false} RenderFromSplits(path: seq<string>)
    requires path != []
    ensures RenderFrom(path) == RenderFrom(path[..|path| - 1]) + "/" + path[|path| - 1]
  {
    if |path| > 1 {
      RenderFromSplits(path[1..]);
      assert path[1..][..|path| - 2] == path[..|path| - 1][1..];
      assert path[..|path| - 1][0] == path[0];
    }
  }

  lemma EndsInName(before: string, name: string)
    requires '/' !in name && name != "" && name != "."
    ensures !EndsAsDirectory(before + "/" + name)
  {
    SegmentsSlash(before, name);
    SegmentsPlain(name);
  }

  /** Rendering adds no trailing slash, except to the root directory, which is one. */
  lemma RenderSpelled(path: seq<string>)
    requires ValidNames(path)
    ensures EndsAsDirectory(Render(path)) <==> path == []
    ensures path != [] ==> Spelled(Render(path)) == Normals(path)
    ensures path == [] ==> Spelled(Render(path)) == [Here]
  {
    ComponentsRender(path);
    assert Normals(path) + [] == Normals(path);
    if path == [] {
      assert Segments("/") == ["", ""];
    } else {
      RenderFromSplits(path);
      EndsInName(RenderFrom(path[..|path| - 1]), path[|path| - 1]);
    }
  }

  // ----- the filesystem -----

  datatype Node = Dir | File | Link(absolute: bool, target: seq<Component>)

  /** Every entry by its full name. */
  type Tree = map<seq<string>, Node>

  /** An operating system: a tree, and how many links it follows before giving up. */
  datatype Os = Os(tree: Tree, maxLinks: nat)

  datatype IoError = NotFound | NotADirectory | TooManyLinks

  function Parent(p: seq<string>): seq<string> {
    if p == [] then [] else p[..|p| - 1]
  }

  ghost predicate WellFormed(t: Tree) {
    && [] in t && t[[]] == Dir
    && (forall p :: p in t ==> ValidNames(p))
    && (forall p {:trigger Parent(p)} :: p in t && p != [] ==> Parent(p) in t && t[Parent(p)] == Dir)
  }

  /** Resolves `todo` from `at`, following links while the budget lasts. */
  function Walk(t: Tree, at: seq<string>, todo: seq<Component>, links: nat): Result<seq<string>, IoError>
    decreases links, |todo|
  {
    if todo == [] then Ok(at)
    else if at !in t || t[at] != Dir then Err(NotADirectory)
    else
      match todo[0]
      case Here => Walk(t, at, todo[1..], links)
      case ParentDir => Walk(t, Parent(at), todo[1..], links)
      case Normal(name) =>
        var next := at + [name];
        if next !in t then Err(NotFound)
        else if !t[next].Link? then Walk(t, next, todo[1..], links)
        else if links == 0 then Err(TooManyLinks)
        else Walk(t, if t[next].absolute then [] else at, t[next].target + todo[1..], links - 1)
  }

  function Canonicalize(os: Os, path: seq<Component>): Result<seq<string>, IoError> {
    Walk(os.tree, [], path, os.maxLinks)
  }

  /** Whether an entry is there, without following it, in a directory that was just canonicalised. */
  function Probe(t: Tree, dir: seq<string>, name: string): Result<(), IoError> {
    if dir !in t || t[dir] != Dir then Err(NotADirectory)
    else if dir + [name] in t then Ok(())
    else Err(NotFound)
  }

  /** An entry that is no link; its ancestors are directories because the tree is well formed. */
  predicate Real(t: Tree, p: seq<string>) {
    p in t && !t[p].Link?
  }

  lemma {:induction false} PrefixIsDir(t: Tree, p: seq<string>, k: nat)
    requires WellFormed(t) && p in t && k < |p|
    ensures p[..k] in t && t[p[..k]] == Dir
    decreases |p|
  {
    if k == |p| - 1 {
      assert p[..k] == Parent(p);
    } else {
      PrefixIsDir(t, Parent(p), k);
      assert Parent(p)[..k] == p[..k];
    }
  }

  /** Resolution always ends at a real entry: never at a link, never outside the tree. */
  lemma {:induction false} WalkLandsOnReal(t: Tree, at: seq<string>, todo: seq<Component>, links: nat)
    requires WellFormed(t) && Real(t, at) && Walk(t, at, todo, links).Ok?
    ensures Real(t, Walk(t, at, todo, links).value)
    decreases links, |todo|
  {
    if todo != [] {
      match todo[0]
      case Here =>
        WalkLandsOnReal(t, at, todo[1..], links);
      case ParentDir =>
        assert at != [] ==> t[Parent(at)] == Dir;
        WalkLandsOnReal(t, Parent(at), todo[1..], links);
      case Normal(name) =>
        var next := at + [name];
        if !t[next].Link? {
          WalkLandsOnReal(t, next, todo[1..], links);
        } else {
          WalkLandsOnReal(t, if t[next].absolute then [] else at, t[next].target + todo[1..], links - 1);
        }
    }
  }

  /** Walking a real path meets no link on the way, whatever comes after it and whatever the budget. */
  lemma {:induction false} WalkReal(t: Tree, p: seq<string>, k: nat, rest: seq<Component>, links: nat)
    requires WellFormed(t) && Real(t, p) && k <= |p|
    ensures Walk(t, p[..k], Normals(p[k..]) + rest, links) == Walk(t, p, rest, links)
    decreases |p| - k
  {
    if k == |p| {
      assert p[..k] == p && Normals(p[k..]) + rest == rest;
    } else {
      var todo := Normals(p[k..]) + rest;
      PrefixIsDir(t, p, k);
      PrefixIsReal(t, p, k + 1);
      assert p[..k] + [p[k]] == p[..k + 1];
      assert p[k..][1..] == p[k + 1..];
      assert todo[0] == Normal(p[k]) && todo[1..] == Normals(p[k + 1..]) + rest;
      assert Walk(t, p[..k], todo, links) == Walk(t, p[..k + 1], todo[1..], links);
      WalkReal(t, p, k + 1, rest, links);
    }
  }

  lemma PrefixIsReal(t: Tree, p: seq<string>, k: nat)
    requires WellFormed(t) && Real(t, p) && k <= |p|
    ensures Real(t, p[..k])
  {
    if k < |p| {
      PrefixIsDir(t, p, k);
    } else {
      assert p[..k] == p;
    }
  }

  /** A real path is its own canonical form, and an OS allowed no link at all still reaches it. */
  lemma RealIsCanonical(t: Tree, p: seq<string>, links: nat)
    requires WellFormed(t) && Real(t, p)
    ensures Walk(t, [], Normals(p), links) == Ok(p)
  {
    WalkReal(t, p, 0, [], links);
    assert p[..0] == [] && p[0..] == p && Normals(p) + [] == Normals(p);
  }

  /** Resolving `todo` first and what follows it next, without following any of `more` early. */
  lemma WalkAhead(t: Tree, at: seq<string>, todo: seq<Component>, more: seq<Component>, links: nat)
    requires WellFormed(t) && Real(t, at) && todo != [] && Walk(t, at, todo, links).Ok?
    ensures t[at] == Dir && (todo + more)[0] == todo[0]
    ensures match todo[0]
            case Here =>
              && Walk(t, at, todo, links) == Walk(t, at, todo[1..], links)
              && Walk(t, at, todo + more, links) == Walk(t, at, todo[1..] + more, links)
            case ParentDir =>
              && Real(t, Parent(at)) && Walk(t, at, todo, links) == Walk(t, Parent(at), todo[1..], links)
              && Walk(t, at, todo + more, links) == Walk(t, Parent(at), todo[1..] + more, links)
            case Normal(name) =>
              && at + [name] in t
              && (!t[at + [name]].Link? ==>
                  && Walk(t, at, todo, links) == Walk(t, at + [name], todo[1..], links)
                  && Walk(t, at, todo + more, links) == Walk(t, at + [name], todo[1..] + more, links))
              && (t[at + [name]].Link? ==>
                  var from, target := if t[at + [name]].absolute then [] else at, t[at + [name]].target;
                  && links > 0 && Real(t, from)
                  && Walk(t, at, todo, links) == Walk(t, from, target + todo[1..], links - 1)
                  && Walk(t, at, todo + more, links) == Walk(t, from, (target + todo[1..]) + more, links - 1))
  {
    assert (todo + more)[0] == todo[0] && (todo + more)[1..] == todo[1..] + more;
    match todo[0]
    case Here =>
    case ParentDir =>
      assert at != [] ==> t[Parent(at)] == Dir;
    case Normal(name) =>
      if t[at + [name]].Link? {
        var target := t[at + [name]].target;
        assert target + (todo[1..] + more) == (target + todo[1..]) + more;
      }
  }

  /** Past a directory that lacks the next name there is nothing, however the directory was reached. */
  lemma {:induction false} WalkIntoMissing(t: Tree, at: seq<string>, todo: seq<Component>, links: nat,
          name: string, rest: seq<Component>)
    requires WellFormed(t) && Real(t, at) && Walk(t, at, todo, links).Ok?
    requires var c := Walk(t, at, todo, links).value; c in t && t[c] == Dir && c + [name] !in t
    ensures Walk(t, at, todo + ([Normal(name)] + rest), links) == Err(NotFound)
    decreases links, |todo|
  {
    var more := [Normal(name)] + rest;
    if todo == [] {
      assert todo + more == more;
    } else {
      WalkAhead(t, at, todo, more, links);
      if todo[0].Here? {
        WalkIntoMissing(t, at, todo[1..], links, name, rest);
      } else if todo[0].ParentDir? {
        WalkIntoMissing(t, Parent(at), todo[1..], links, name, rest);
      } else {
        var next := t[at + [todo[0].name]];
        if next.Link? {
          WalkIntoMissing(t, if next.absolute then [] else at, next.target + todo[1..], links - 1, name, rest);
        } else {
          WalkIntoMissing(t, at + [todo[0].name], todo[1..], links, name, rest);
        }
      }
    }
  }

  lemma {:induction false} WalkFailsOn(t: Tree, at: seq<string>, a: seq<Component>, b: seq<Component>, links: nat)
    requires Walk(t, at, a, links).Err?
    ensures Walk(t, at, a + b, links) == Walk(t, at, a, links)
    decreases links, |a|
  {
    assert (a + b)[0] == a[0] && (a + b)[1..] == a[1..] + b;
    if at in t && t[at] == Dir {
      match a[0]
      case Here => WalkFailsOn(t, at, a[1..], b, links);
      case ParentDir => WalkFailsOn(t, Parent(at), a[1..], b, links);
      case Normal(name) =>
        var next := at + [name];
        if next in t && !t[next].Link? {
          WalkFailsOn(t, next, a[1..], b, links);
        } else if next in t && links > 0 {
          assert t[next].target + (a[1..] + b) == (t[next].target + a[1..]) + b;
          WalkFailsOn(t, if t[next].absolute then [] else at, t[next].target + a[1..], b, links - 1);
        }
    }
  }

  /** Asking for a directory changes the answer only where there is something else. */
  lemma {:induction false} WalkHere(t: Tree, at: seq<string>, todo: seq<Component>, links: nat)
    ensures Walk(t, at, todo + [Here], links) ==
            match Walk(t, at, todo, links)
            case Ok(c) => if c in t && t[c] == Dir then Ok(c) else Err(NotADirectory)
            case Err(e) => Err(e)
    decreases links, |todo|
  {
    if Walk(t, at, todo, links).Err? {
      WalkFailsOn(t, at, todo, [Here], links);
    } else if todo == [] {
      assert todo + [Here] == [Here];
    } else {
      assert (todo + [Here])[0] == todo[0] && (todo + [Here])[1..] == todo[1..] + [Here];
      match todo[0]
      case Here => WalkHere(t, at, todo[1..], links);
      case ParentDir => WalkHere(t, Parent(at), todo[1..], links);
      case Normal(name) =>
        var next := at + [name];
        if !t[next].Link? {
          WalkHere(t, next, todo[1..], links);
        } else {
          assert t[next].target + (todo[1..] + [Here]) == (t[next].target + todo[1..]) + [Here];
          WalkHere(t, if t[next].absolute then [] else at, t[next].target + todo[1..], links - 1);
        }
    }
  }

  /** A real path, rendered as text, resolves to itself. */
  lemma RenderedIsCanonical(os: Os, path: seq<string>)
    requires WellFormed(os.tree) && Real(os.tree, path)
    ensures Canonicalize(os, Spelled(Render(path))) == Ok(path)
  {
    RenderSpelled(path);
    RealIsCanonical(os.tree, path, os.maxLinks);
    if path == [] {
      WalkHere(os.tree, [], Normals(path), os.maxLinks);
    } else {
      assert Normals(path) + [] == Normals(path);
    }
  }

  // ----- creating what is missing -----

  /** Creates the directories of `tail` below `base`, the last entry being `leaf`. */
  function Create(t: Tree, base: seq<string>, tail: seq<string>, leaf: Node): Tree
    decreases |tail|
  {
    if tail == [] then t
    else Create(t[base + [tail[0]] := if |tail| == 1 then leaf else Dir], base + [tail[0]], tail[1..], leaf)
  }

  lemma {:induction false} CreateIsReal(t: Tree, base: seq<string>, tail: seq<string>, leaf: Node)
    requires WellFormed(t) && base in t && t[base] == Dir
    requires tail != [] && ValidNames(tail) && base + [tail[0]] !in t && !leaf.Link?
    ensures var t' := Create(t, base, tail, leaf);
            && WellFormed(t') && Real(t', base + tail) && t'[base + tail] == leaf
            && (forall p :: p in t ==> p in t' && t'[p] == t[p])
    decreases |tail|
  {
    var made := base + [tail[0]];
    var t1 := t[made := if |tail| == 1 then leaf else Dir];
    assert Parent(made) == base;
    assert WellFormed(t1) by {
      forall p | p in t1 && p != [] ensures ValidNames(p) && Parent(p) in t1 && t1[Parent(p)] == Dir {
      }
    }
    if |tail| > 1 {
      assert base + tail == made + tail[1..];
      assert Parent(made + [tail[1]]) == made;
      CreateIsReal(t1, made, tail[1..], leaf);
    } else {
      assert tail == [tail[0]];
      assert Create(t, base, tail, leaf) == t1;
    }
  }
}
