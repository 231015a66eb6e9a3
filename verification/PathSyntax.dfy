/** Which requests are refused for their spelling and why, and which for what is on the disk. */
module PathSyntax {
  import opened Common
  import opened FileTree
  import opened PathGuard
  import PathSafety

  // ----- spelling -----

  /** Why a single name is refused while the strict name rules are on. */
  predicate BadName(g: Guard, name: string, reason: DenyReason) {
    g.windowsNameRules &&
    match reason
    case AlternateDataStream => ':' in name
    case TrailingDotOrSpace => ':' !in name && name != "" && name[|name| - 1] in {'.', ' '}
    case ReservedDeviceName =>
      ':' !in name && (name == "" || name[|name| - 1] !in {'.', ' '}) && g.isReservedDevice(name)
    case _ => false
  }

  predicate GoodName(g: Guard, name: string) {
    g.windowsNameRules ==>
      ':' !in name && (name == "" || name[|name| - 1] !in {'.', ' '}) && !g.isReservedDevice(name)
  }

  predicate GoodComponent(g: Guard, c: Component) {
    c.Normal? ==> GoodName(g, c.name)
  }

  predicate GoodUpTo(g: Guard, path: seq<Component>, n: nat)
    requires n <= |path|
  {
    forall i :: 0 <= i < n ==> GoodComponent(g, path[i])
  }

  lemma NamesCheckedExactly(g: Guard, name: string, reason: DenyReason)
    ensures CheckName(g, name) == Some(reason) <==> BadName(g, name, reason)
    ensures CheckName(g, name) == None <==> GoodName(g, name)
  {
  }

  /** At position `n` of the components, counting `count` before them, this is the first thing wrong. */
  predicate FirstFault(g: Guard, path: seq<Component>, count: nat, n: nat, reason: DenyReason) {
    && n < |path| && GoodUpTo(g, path, n) && n + count <= 256
    && (if n + count == 256 then reason == TooManyComponents
        else path[n].Normal? && BadName(g, path[n].name, reason))
  }

  lemma {:induction false} ComponentsFault(g: Guard, path: seq<Component>, count: nat) returns (n: nat)
    requires count <= 256 && CheckComponents(g, path, count).Some?
    ensures FirstFault(g, path, count, n, CheckComponents(g, path, count).value)
  {
    if count == 256 {
      n := 0;
    } else {
      var bad := if path[0].Normal? then CheckName(g, path[0].name) else None;
      if path[0].Normal? {
        NamesCheckedExactly(g, path[0].name, if bad.Some? then bad.value else TooLong);
      }
      if bad.Some? {
        n := 0;
      } else {
        n := ComponentsFault(g, path[1..], count + 1);
        FaultLater(g, path, count, n, CheckComponents(g, path, count).value);
        n := n + 1;
      }
    }
  }

  lemma FaultLater(g: Guard, path: seq<Component>, count: nat, n: nat, reason: DenyReason)
    requires path != [] && count < 256 && GoodComponent(g, path[0])
    ensures FirstFault(g, path[1..], count + 1, n, reason) <==> FirstFault(g, path, count, n + 1, reason)
    ensures GoodUpTo(g, path, |path|) <==> GoodUpTo(g, path[1..], |path| - 1)
  {
    assert forall i :: 0 <= i < |path| - 1 ==> path[1..][i] == path[i + 1];
    if n < |path| - 1 {
      assert GoodUpTo(g, path[1..], n) <==> GoodUpTo(g, path, n + 1) by {
        if GoodUpTo(g, path[1..], n) {
          forall i | 0 <= i < n + 1 ensures GoodComponent(g, path[i]) {
            assert i > 0 ==> GoodComponent(g, path[1..][i - 1]);
          }
        } else {
          var i :| 0 <= i < n && !GoodComponent(g, path[1..][i]);
          assert !GoodComponent(g, path[i + 1]);
        }
      }
    }
    if GoodUpTo(g, path[1..], |path| - 1) {
      forall i | 0 <= i < |path| ensures GoodComponent(g, path[i]) {
        assert i > 0 ==> GoodComponent(g, path[1..][i - 1]);
      }
    } else {
      var i :| 0 <= i < |path| - 1 && !GoodComponent(g, path[1..][i]);
      assert !GoodComponent(g, path[i + 1]);
    }
  }

  lemma {:induction false} FaultFound(g: Guard, path: seq<Component>, count: nat, n: nat, reason: DenyReason)
    requires count <= 256 && FirstFault(g, path, count, n, reason)
    ensures CheckComponents(g, path, count) == Some(reason)
    decreases n
  {
    if count < 256 {
      if path[0].Normal? {
        NamesCheckedExactly(g, path[0].name, reason);
      }
      if n > 0 {
        assert GoodComponent(g, path[0]);
        FaultLater(g, path, count, n - 1, reason);
        FaultFound(g, path[1..], count + 1, n - 1, reason);
      }
    }
  }

  lemma {:induction false} NoFault(g: Guard, path: seq<Component>, count: nat)
    requires count <= 256
    ensures CheckComponents(g, path, count) == None <==> |path| + count <= 256 && GoodUpTo(g, path, |path|)
  {
    if path != [] && count < 256 {
      if path[0].Normal? {
        NamesCheckedExactly(g, path[0].name, TooLong);
      }
      NoFault(g, path[1..], count + 1);
      if GoodComponent(g, path[0]) {
        FaultLater(g, path, count, 0, TooLong);
      }
    }
  }

  /** The spellings that are not refused. The root directory counts as a component. */
  predicate WellSpelled(g: Guard, text: string) {
    && g.isUtf8(text) && '\0' !in text && |text| <= 4096
    && text != "" && text[0] == '/'
    && |Components(text)| + 1 <= 256 && GoodUpTo(g, Components(text), |Components(text)|)
  }

  /** The first reason, in this order, to refuse a text. */
  ghost predicate Misspelled(g: Guard, text: string, reason: DenyReason) {
    if !g.isUtf8(text) then reason == NotUtf8
    else if '\0' in text then reason == NullByte
    else if |text| > 4096 then reason == TooLong
    else if text == "" || text[0] != '/' then reason == NotAbsolute
    else exists n: nat :: FirstFault(g, Components(text), 1, n, reason)
  }

  /** A text passes exactly when it is well spelled, and is otherwise refused for the first thing wrong with it. */
  lemma SyntaxExactly(g: Guard, text: string, reason: DenyReason)
    ensures CheckSyntax(g, text) == None <==> WellSpelled(g, text)
    ensures CheckSyntax(g, text) == Some(reason) <==> Misspelled(g, text, reason)
  {
    var path := Components(text);
    NoFault(g, path, 1);
    if n: nat :| FirstFault(g, path, 1, n, reason) {
      FaultFound(g, path, 1, n, reason);
    } else if CheckComponents(g, path, 1) == Some(reason) {
      var n := ComponentsFault(g, path, 1);
    }
  }

  /** How each further piece of a path is read; a path is its pieces, joined by slashes. */
  lemma PieceRead(before: string, piece: string)
    requires '/' !in piece
    ensures Components(before + "/" + piece) == Components(before) + (
              if piece == "" || piece == "." then [] else if piece == ".." then [ParentDir] else [Normal(piece)])
    ensures Components("") == []
    ensures EndsAsDirectory(before + "/" + piece) <==> piece == "" || piece == "."
  {
    ComponentsJoin(before, piece);
    SegmentsPlain(piece);
    SegmentsSlash(before, piece);
    OnePiece(piece);
    OnePiece("");
  }

  lemma OnePiece(piece: string)
    requires '/' !in piece
    ensures Components(piece) ==
            if piece == "" || piece == "." then [] else if piece == ".." then [ParentDir] else [Normal(piece)]
  {
    SegmentsPlain(piece);
    var rest := Named([piece][1..]);
    assert rest == [] && [ParentDir] + rest == [ParentDir] && [Normal(piece)] + rest == [Normal(piece)];
  }

  // ----- refusals of the whole guard -----

  /** The components from `n` on are names, all the ways to them missing, and before them is a step up. */
  predicate StepsUpBefore(os: Os, path: seq<Component>, n: nat) {
    && 0 < n <= |path| && path[n - 1] == ParentDir
    && (forall i :: n <= i < |path| ==> path[i].Normal?)
    && (forall j :: n <= j <= |path| ==> Canonicalize(os, path[..j]) == Err(NotFound))
  }

  lemma {:induction false} StepUpRefused(os: Os, path: seq<Component>, n: nat, tail: seq<string>)
    requires StepsUpBefore(os, path, n)
    ensures Deepest(os, path, tail) == Err(TraversalIntoMissingPath)
    decreases |path|
  {
    assert path[..|path|] == path;
    if n < |path| {
      var shorter := path[..|path| - 1];
      assert forall j :: n <= j <= |shorter| ==> shorter[..j] == path[..j];
      StepUpRefused(os, shorter, n, [path[|path| - 1].name] + tail);
    }
  }

  lemma {:induction false} StepUpFound(os: Os, path: seq<Component>, tail: seq<string>) returns (n: nat)
    requires Deepest(os, path, tail) == Err(TraversalIntoMissingPath)
    requires forall i :: 0 <= i < |path| ==> path[i] != Here
    ensures StepsUpBefore(os, path, n)
    decreases |path|
  {
    assert path[..|path|] == path;
    if path[|path| - 1].Normal? {
      var shorter := path[..|path| - 1];
      n := StepUpFound(os, shorter, [path[|path| - 1].name] + tail);
      assert forall j :: n <= j <= |shorter| ==> shorter[..j] == path[..j];
    } else {
      n := |path|;
    }
  }

  lemma {:induction false} NamedWithoutHere(segments: seq<string>)
    ensures forall i :: 0 <= i < |Named(segments)| ==> Named(segments)[i] != Here
  {
    if segments != [] {
      NamedWithoutHere(segments[1..]);
    }
  }

  /** The first configured root that contains the path. */
  predicate IsFirstRoot(roots: seq<seq<string>>, path: seq<string>, n: nat) {
    && n < |roots| && roots[n] <= path
    && forall i :: 0 <= i < n ==> !(roots[i] <= path)
  }

  lemma {:induction false} FirstRootExactly(roots: seq<seq<string>>, path: seq<string>) returns (n: nat)
    ensures FirstRoot(roots, path).Some? ==> IsFirstRoot(roots, path, n) && FirstRoot(roots, path) == Some(roots[n])
    ensures FirstRoot(roots, path).None? ==> forall i :: 0 <= i < |roots| ==> !(roots[i] <= path)
  {
    n := 0;
    if roots != [] && !(roots[0] <= path) {
      n := FirstRootExactly(roots[1..], path);
      assert forall i :: 0 < i < |roots| ==> roots[i] == roots[1..][i - 1];
      n := n + 1;
    }
  }

  /** An approved request is well spelled, and is answered with the first of the roots that contain it. */
  lemma ApprovedIsWellSpelled(os: Os, g: Guard, text: string) returns (n: nat)
    requires Resolve(os, g, text).Ok?
    ensures WellSpelled(g, text)
    ensures var r := Resolve(os, g, text).value; IsFirstRoot(g.roots, r.path, n) && r.root == g.roots[n]
  {
    SyntaxExactly(g, text, NotUtf8);
    n := FirstRootExactly(g.roots, Resolve(os, g, text).value.path);
  }

  predicate ForItsSpelling(reason: DenyReason) {
    reason in {NotUtf8, NullByte, TooLong, NotAbsolute, TooManyComponents,
               ReservedDeviceName, AlternateDataStream, TrailingDotOrSpace}
  }

  /** Every refusal, and what it means. */
  ghost predicate Refuses(os: Os, g: Guard, text: string, reason: DenyReason) {
    if !WellSpelled(g, text) then Misspelled(g, text, reason)
    else if g.roots == [] then reason == NoRootsConfigured
    else if EndsAsDirectory(text) && Canonicalize(os, Components(text) + [Here]) == Err(NotADirectory) then
      reason == UnresolvableAncestor
    else
      match Deepest(os, Components(text), [])
      case Ok((ancestor, tail)) =>
        reason == OutsideRoots && forall root :: root in g.roots ==> !(root <= ancestor + tail)
      case Err(_) =>
        if exists n: nat :: StepsUpBefore(os, Components(text), n) then reason == TraversalIntoMissingPath
        else reason == UnresolvableAncestor
  }

  lemma {:induction false} SearchErrors(os: Os, path: seq<Component>, tail: seq<string>)
    ensures Deepest(os, path, tail).Err? ==>
              Deepest(os, path, tail).error in {UnresolvableAncestor, TraversalIntoMissingPath}
    decreases |path|
  {
    if path != [] && path[|path| - 1].Normal? {
      SearchErrors(os, path[..|path| - 1], [path[|path| - 1].name] + tail);
    }
  }

  /**
   * A request is refused for one reason exactly: a misspelled one for its spelling whatever is on
   * the disk, and a well-spelled one never for that.
   */
  lemma RefusedExactly(os: Os, g: Guard, text: string, reason: DenyReason)
    ensures Resolve(os, g, text) == Err(reason) <==> Refuses(os, g, text, reason)
    ensures Resolve(os, g, text) == Err(reason) ==> (ForItsSpelling(reason) <==> !WellSpelled(g, text))
  {
    var path := Components(text);
    SyntaxExactly(g, text, reason);
    SearchErrors(os, path, []);
    StepsUpExactly(os, text);
    if Deepest(os, path, []).Ok? {
      var (ancestor, tail) := Deepest(os, path, []).value;
      PathSafety.FirstRootContains(g.roots, ancestor + tail);
    }
  }

  lemma StepsUpExactly(os: Os, text: string)
    ensures Deepest(os, Components(text), []) == Err(TraversalIntoMissingPath) <==>
            exists n: nat :: StepsUpBefore(os, Components(text), n)
  {
    var path := Components(text);
    NamedWithoutHere(Segments(text));
    if n: nat :| StepsUpBefore(os, path, n) {
      StepUpRefused(os, path, n, []);
    } else if Deepest(os, path, []) == Err(TraversalIntoMissingPath) {
      var n := StepUpFound(os, path, []);
    }
  }
}
