/**
 * The composed authorization decision for paths: capability, presence, path guard, secret
 * denylist; and the filter that a listing goes through.
 */
module Engine {
  import opened Common
  import opened Bytes
  import opened FileTree
  import opened PathGuard
  import PathSafety

  datatype Capability =
    | FsRead | FsWrite | FsSecrets | PtySpawn | ExecAllowlisted | ExecArbitrary
    | GitRead | GitWrite | GitDangerous | AgentSpawn | PolicyWrite

  const DEFAULT_GRANT: set<Capability> :=
    {FsRead, FsWrite, PtySpawn, ExecAllowlisted, GitRead, GitWrite, AgentSpawn}

  predicate RequiresPresence(c: Capability) {
    c == FsSecrets || c == GitDangerous || c == PolicyWrite || c == ExecArbitrary
  }

  datatype ProtoError =
    | Denied(capability: Capability)
    | PresenceRequired(challenge: Data)
    | Missing
    | BadRequest(detail: string)
    | Unsupported(feature: string)
    | Internal(detail: string)
    | Other(code: string)

  datatype DeviceGrant = DeviceGrant(device: DeviceId, capabilities: set<Capability>, revoked: bool)

  datatype Presence = Absent | Signed(digest: Digest)

  function Effective(grant: Option<DeviceGrant>): set<Capability> {
    if grant.Some? && !grant.value.revoked then grant.value.capabilities else {}
  }

  function Check(grant: Option<DeviceGrant>, required: Capability): Result<(), ProtoError> {
    if required in Effective(grant) then Ok(()) else Err(Denied(required))
  }

  function CheckPresence(required: Capability, expected: Digest, presence: Presence): Result<(), ProtoError> {
    if !RequiresPresence(required) || presence == Signed(expected) then Ok(()) else Err(PresenceRequired(expected))
  }

  // ----- the challenge -----

  /** The bytes of `"gonomad/presence/v1"`, then a zero. */
  const DOMAIN: Data :=
    [103, 111, 110, 111, 109, 97, 100, 47, 112, 114, 101, 115, 101, 110, 99, 101, 47, 118, 49, 0]

  function LittleEndian(n: nat, width: nat): (r: Data)
    ensures |r| == width
  {
    if width == 0 then [] else [n % 256] + LittleEndian(n / 256, width - 1)
  }

  /** What is hashed for a presence signature; a length that does not fit is written as the largest that does. */
  function ChallengeBytes(device: DeviceId, method_: Data, args: Digest): Data {
    DOMAIN + device + LittleEndian(Min(|method_|, U32_MAX), 4) + method_ + args
  }

  /** Two operations with the same bytes are the same operation, whatever the length of their methods. */
  lemma ChallengesAreDistinct(d1: DeviceId, m1: Data, a1: Digest, d2: DeviceId, m2: Data, a2: Digest)
    ensures ChallengeBytes(d1, m1, a1) == ChallengeBytes(d2, m2, a2) <==> d1 == d2 && m1 == m2 && a1 == a2
  {
    ChallengeParts(d1, m1, a1);
    ChallengeParts(d2, m2, a2);
  }

  lemma ChallengeParts(d: DeviceId, m: Data, a: Digest)
    ensures var b := ChallengeBytes(d, m, a);
            |b| == 88 + |m| && b[20..52] == d && b[56..|b| - 32] == m && b[|b| - 32..] == a
  {
  }

  // ----- one path -----

  /** A guard, a denylist over path text, and the digest function. */
  datatype Policy = Policy(guard: Guard, isSecret: string -> bool, hash: Data -> Digest)

  datatype PathRequest = PathRequest(
    grant: Option<DeviceGrant>,
    capability: Capability,
    path: string,
    method_: Data,
    args: Digest,
    presence: Presence)

  /** The bytes a presence signature for this request is bound to; a device unknown counts as zeros. */
  function Bound(q: PathRequest): Data {
    ChallengeBytes(if q.grant.Some? then q.grant.value.device else seq(32, _ => 0), q.method_, q.args)
  }

  function Challenge(policy: Policy, q: PathRequest): Digest {
    policy.hash(Bound(q))
  }

  predicate MalformedName(reason: DenyReason) {
    reason in {NotUtf8, NullByte, TooLong, TooManyComponents, NotAbsolute,
               ReservedDeviceName, AlternateDataStream, TrailingDotOrSpace}
  }

  function ToProtoError(reason: DenyReason): ProtoError {
    if MalformedName(reason) then BadRequest("invalid path") else Missing
  }

  /** Capability, then presence for it, before anything touches the disk. */
  function Admit(q: PathRequest, capability: Capability, challenge: Digest): Result<(), ProtoError> {
    match Check(q.grant, capability)
    case Err(e) => Err(e)
    case Ok(_) => CheckPresence(capability, challenge, q.presence)
  }

  function AuthorizePath(os: Os, policy: Policy, q: PathRequest): Result<Resolved, ProtoError> {
    var challenge := Challenge(policy, q);
    match Admit(q, q.capability, challenge)
    case Err(e) => Err(e)
    case Ok(_) =>
      match Resolve(os, policy.guard, q.path)
      case Err(reason) => Err(ToProtoError(reason))
      case Ok(resolved) =>
        if policy.isSecret(Render(resolved.path)) then
          match Admit(q, FsSecrets, challenge)
          case Err(e) => Err(e)
          case Ok(_) => Ok(resolved)
        else Ok(resolved)
  }

  /** The device holds the capability now, and its finger was on this very operation if that is needed. */
  predicate Entitled(policy: Policy, q: PathRequest, capability: Capability) {
    && q.grant.Some? && !q.grant.value.revoked && capability in q.grant.value.capabilities
    && (RequiresPresence(capability) ==>
          q.presence == Signed(policy.hash(ChallengeBytes(q.grant.value.device, q.method_, q.args))))
  }

  /** Authorized exactly when entitled, inside a root, and entitled to secrets if it is one. */
  lemma AuthorizedExactly(os: Os, policy: Policy, q: PathRequest, r: Resolved)
    ensures AuthorizePath(os, policy, q) == Ok(r) <==>
            && Entitled(policy, q, q.capability)
            && Resolve(os, policy.guard, q.path) == Ok(r)
            && (policy.isSecret(Render(r.path)) ==> Entitled(policy, q, FsSecrets))
  {
    AdmittedExactly(policy, q, q.capability);
    AdmittedExactly(policy, q, FsSecrets);
  }

  lemma AdmittedExactly(policy: Policy, q: PathRequest, capability: Capability)
    ensures Admit(q, capability, Challenge(policy, q)).Ok? <==> Entitled(policy, q, capability)
  {
  }

  /**
   * Without both entitlements no spelling of a path, through links or otherwise, opens a secret:
   * an authorized path means itself to a system that follows no links, and that is what was checked.
   */
  lemma SecretsStayShut(os: Os, policy: Policy, q: PathRequest)
    requires WellFormed(os.tree) && AuthorizePath(os, policy, q).Ok?
    requires !Entitled(policy, q, FsSecrets)
    ensures var r := AuthorizePath(os, policy, q).value;
            && (exists root :: root in policy.guard.roots && root <= r.path)
            && !policy.isSecret(Render(r.path))
            && Components(Render(r.path)) == Normals(r.path)
            && (r.present ==> Walk(os.tree, [], Components(Render(r.path)), 0) == Ok(r.path))
  {
    var r := AuthorizePath(os, policy, q).value;
    AuthorizedExactly(os, policy, q, r);
    PathSafety.ApprovedPathsAreLinkFree(os, policy.guard, q.path, File);
    ComponentsRender(r.path);
  }

  /**
   * A signature given for another device, method or arguments is worth no more than none, as long
   * as the digests of these two operations do not collide: it opens only what needs no signature.
   */
  lemma SignaturesDoNotTransfer(os: Os, policy: Policy, q: PathRequest, other: PathRequest)
    requires q.grant.Some? && other.grant.Some?
    requires Challenge(policy, q) == Challenge(policy, other) ==> Bound(q) == Bound(other)
    requires (q.grant.value.device, q.method_, q.args) != (other.grant.value.device, other.method_, other.args)
    ensures var signed := q.(presence := Signed(Challenge(policy, other)));
            && AuthorizePath(os, policy, signed) == AuthorizePath(os, policy, q.(presence := Absent))
            && (AuthorizePath(os, policy, signed).Ok? ==>
                  && !RequiresPresence(q.capability)
                  && !policy.isSecret(Render(AuthorizePath(os, policy, signed).value.path)))
  {
    ChallengesAreDistinct(q.grant.value.device, q.method_, q.args,
                          other.grant.value.device, other.method_, other.args);
  }

  /** A device that is not entitled gets the same answer whatever is on the disk. */
  lemma NotEntitledNotTold(os: Os, elsewhere: Os, policy: Policy, q: PathRequest)
    requires !Entitled(policy, q, q.capability)
    ensures AuthorizePath(os, policy, q) == AuthorizePath(elsewhere, policy, q)
    ensures AuthorizePath(os, policy, q).Err?
  {
    AdmittedExactly(policy, q, q.capability);
  }

  /** To an entitled device a well-spelled path outside the roots looks just like a missing one. */
  lemma OutsideLooksMissing(os: Os, policy: Policy, q: PathRequest)
    requires Entitled(policy, q, q.capability) && CheckSyntax(policy.guard, q.path).None?
    requires Resolve(os, policy.guard, q.path).Err?
    ensures AuthorizePath(os, policy, q) == Err(Missing)
  {
    AdmittedExactly(policy, q, q.capability);
    SearchFailures(os, Components(q.path), []);
  }

  lemma {:induction false} SearchFailures(os: Os, cursor: seq<Component>, tail: seq<string>)
    ensures Deepest(os, cursor, tail).Err? ==> !MalformedName(Deepest(os, cursor, tail).error)
    decreases |cursor|
  {
    if cursor != [] && cursor[|cursor| - 1].Normal? {
      SearchFailures(os, cursor[..|cursor| - 1], [cursor[|cursor| - 1].name] + tail);
    }
  }

  // ----- listings -----

  predicate Within(root: seq<string>, entry: string) {
    IsAbsolute(entry) && Normals(root) <= Components(entry)
  }

  predicate InSomeRoot(guard: Guard, entry: string) {
    exists root :: root in guard.roots && Within(root, entry)
  }

  function InRoots(guard: Guard, entries: seq<string>): seq<string> {
    if entries == [] then []
    else (if InSomeRoot(guard, entries[0]) then [entries[0]] else []) + InRoots(guard, entries[1..])
  }

  function NotSecret(policy: Policy, entries: seq<string>): seq<string> {
    if entries == [] then []
    else (if policy.isSecret(entries[0]) then [] else [entries[0]]) + NotSecret(policy, entries[1..])
  }

  function FilterListing(policy: Policy, grant: Option<DeviceGrant>, entries: seq<string>): seq<string> {
    var inside := InRoots(policy.guard, entries);
    if FsSecrets in Effective(grant) then inside else NotSecret(policy, inside)
  }

  function CountSecrets(policy: Policy, entries: seq<string>): nat {
    if entries == [] then 0
    else (if policy.isSecret(entries[0]) then 1 else 0) + CountSecrets(policy, entries[1..])
  }

  function HiddenCount(policy: Policy, grant: Option<DeviceGrant>, entries: seq<string>): nat {
    if FsSecrets in Effective(grant) then 0 else CountSecrets(policy, entries)
  }

  predicate Visible(policy: Policy, grant: Option<DeviceGrant>, entry: string) {
    InSomeRoot(policy.guard, entry) && (FsSecrets in Effective(grant) || !policy.isSecret(entry))
  }

  /** Of relative entries, and of those in no root, none is listed. */
  lemma OutsidersAreDropped(policy: Policy, grant: Option<DeviceGrant>, entry: string)
    requires entry == "" || entry[0] != '/' || forall root :: root in policy.guard.roots ==>
               !(Normals(root) <= Components(entry))
    ensures FilterListing(policy, grant, [entry]) == []
  {
    assert [entry] + [] == [entry];
    ListingStep(policy, grant, entry, []);
  }

  /** Order is kept, and each entry's fate depends on that entry alone. */
  lemma ListingStep(policy: Policy, grant: Option<DeviceGrant>, entry: string, rest: seq<string>)
    ensures FilterListing(policy, grant, [entry] + rest) ==
            (if Visible(policy, grant, entry) then [entry] else []) + FilterListing(policy, grant, rest)
  {
    var inside := InRoots(policy.guard, rest);
    assert ([entry] + rest)[1..] == rest;
    assert [] + inside == inside && [] + NotSecret(policy, inside) == NotSecret(policy, inside);
    if InSomeRoot(policy.guard, entry) {
      assert InRoots(policy.guard, [entry] + rest) == [entry] + inside;
      assert ([entry] + inside)[1..] == inside;
    } else {
      assert InRoots(policy.guard, [entry] + rest) == inside;
    }
  }

  /** The visible entries, in their order. */
  function Keep(policy: Policy, grant: Option<DeviceGrant>, entries: seq<string>): seq<string> {
    if entries == [] then []
    else (if Visible(policy, grant, entries[0]) then [entries[0]] else []) + Keep(policy, grant, entries[1..])
  }

  lemma {:induction false} ListingKeeps(policy: Policy, grant: Option<DeviceGrant>, entries: seq<string>)
    ensures FilterListing(policy, grant, entries) == Keep(policy, grant, entries)
  {
    if entries != [] {
      assert entries == [entries[0]] + entries[1..];
      ListingStep(policy, grant, entries[0], entries[1..]);
      ListingKeeps(policy, grant, entries[1..]);
    }
  }

  lemma {:induction false} KeepLast(policy: Policy, grant: Option<DeviceGrant>, entries: seq<string>)
    requires entries != []
    ensures var n := |entries| - 1;
            Keep(policy, grant, entries) ==
            Keep(policy, grant, entries[..n]) + (if Visible(policy, grant, entries[n]) then [entries[n]] else [])
  {
    var n := |entries| - 1;
    if n > 0 {
      assert entries[..n][1..] == entries[1..][..n - 1];
      KeepLast(policy, grant, entries[1..]);
    }
  }

  /** Where the visible entries are. */
  function Positions(policy: Policy, grant: Option<DeviceGrant>, entries: seq<string>): (at: seq<nat>)
    ensures forall i :: 0 <= i < |at| ==> at[i] < |entries|
    ensures forall i, j :: 0 <= i < j < |at| ==> at[i] < at[j]
    ensures forall k :: 0 <= k < |entries| ==> (k in at <==> Visible(policy, grant, entries[k]))
  {
    if entries == [] then []
    else
      var n := |entries| - 1;
      var before := Positions(policy, grant, entries[..n]);
      assert forall k :: 0 <= k < n ==> entries[..n][k] == entries[k];
      assert n !in before;
      if Visible(policy, grant, entries[n]) then before + [n] else before
  }

  function Picked(entries: seq<string>, at: seq<nat>): (r: seq<string>)
    requires forall i :: 0 <= i < |at| ==> at[i] < |entries|
    ensures |r| == |at| && forall i :: 0 <= i < |at| ==> r[i] == entries[at[i]]
  {
    seq(|at|, i requires 0 <= i < |at| => entries[at[i]])
  }

  lemma {:induction false} KeepPicks(policy: Policy, grant: Option<DeviceGrant>, entries: seq<string>)
    ensures Keep(policy, grant, entries) == Picked(entries, Positions(policy, grant, entries))
  {
    if entries != [] {
      var n := |entries| - 1;
      KeepLast(policy, grant, entries);
      KeepPicks(policy, grant, entries[..n]);
      PickedLast(entries, Positions(policy, grant, entries[..n]));
    }
  }

  lemma PickedLast(entries: seq<string>, before: seq<nat>)
    requires entries != [] && forall i :: 0 <= i < |before| ==> before[i] < |entries| - 1
    ensures var n := |entries| - 1;
            && Picked(entries, before) == Picked(entries[..n], before)
            && Picked(entries, before + [n]) == Picked(entries[..n], before) + [entries[n]]
  {
  }

  /** The listing is an order-preserving selection: exactly the visible entries, at rising positions. */
  lemma ListingSelects(policy: Policy, grant: Option<DeviceGrant>, entries: seq<string>)
    ensures FilterListing(policy, grant, entries) == Picked(entries, Positions(policy, grant, entries))
  {
    ListingKeeps(policy, grant, entries);
    KeepPicks(policy, grant, entries);
  }

  /** Without `fs:secrets`, two directories that differ only in secret entries list the same. */
  lemma {:induction false} SecretsLeaveNoTrace(policy: Policy, grant: Option<DeviceGrant>, entries: seq<string>)
    requires FsSecrets !in Effective(grant)
    ensures FilterListing(policy, grant, entries) == FilterListing(policy, grant, NotSecret(policy, entries))
  {
    if entries != [] {
      var first, rest := entries[0], entries[1..];
      assert entries == [first] + rest;
      ListingStep(policy, grant, first, rest);
      ListingStep(policy, grant, first, NotSecret(policy, rest));
      SecretsLeaveNoTrace(policy, grant, rest);
      if policy.isSecret(first) {
        assert NotSecret(policy, entries) == NotSecret(policy, rest);
        assert [] + FilterListing(policy, grant, rest) == FilterListing(policy, grant, rest);
      } else {
        assert NotSecret(policy, entries) == [first] + NotSecret(policy, rest);
      }
    }
  }

  /** The request is a read by a device with `fs:read` but not `fs:secrets`. */
  predicate PlainRead(policy: Policy, q: PathRequest) {
    q.capability == FsRead && Entitled(policy, q, FsRead) && FsSecrets !in q.grant.value.capabilities
  }

  lemma RenderedIsWithin(guard: Guard, p: seq<string>)
    requires ValidNames(p)
    ensures InSomeRoot(guard, Render(p)) <==> exists root :: root in guard.roots && root <= p
  {
    ComponentsRender(p);
    forall root
      ensures Within(root, Render(p)) <==> root <= p
    {
      NormalsPrefix(root, p);
    }
  }

  /** However a path is spelled, it may be read exactly when what it leads to would be listed. */
  lemma ReadableExactly(os: Os, policy: Policy, q: PathRequest, target: seq<string>)
    requires WellFormed(os.tree) && CheckSyntax(policy.guard, q.path).None? && PlainRead(policy, q)
    requires Canonicalize(os, Spelled(q.path)) == Ok(target)
    ensures AuthorizePath(os, policy, q).Ok? <==> Visible(policy, q.grant, Render(target))
  {
    WalkLandsOnReal(os.tree, [], Spelled(q.path), os.maxLinks);
    PathSafety.ExistingPathsResolve(os, policy.guard, q.path, target);
    RenderedIsWithin(policy.guard, target);
    if AuthorizePath(os, policy, q).Ok? {
      AuthorizedExactly(os, policy, q, AuthorizePath(os, policy, q).value);
    }
    if Resolve(os, policy.guard, q.path).Ok? {
      AuthorizedExactly(os, policy, q, Resolve(os, policy.guard, q.path).value);
    }
  }

  /** An entry that leads nowhere may not be read: its name is there, so nothing is missing. */
  lemma LeadsNowhere(os: Os, guard: Guard, p: seq<string>)
    requires WellFormed(os.tree) && p in os.tree && Canonicalize(os, Spelled(Render(p))).Err?
    ensures Resolve(os, guard, Render(p)).Err?
  {
    if p == [] {
      RenderedIsCanonical(os, p);
    } else {
      var dir, name := Parent(p), p[|p| - 1];
      RenderSpelled(p);
      ComponentsRender(p);
      NormalsSplit(p);
      assert p == dir + [name];
      RealIsCanonical(os.tree, dir, os.maxLinks);
      NothingMissing(os, dir, name);
      PathSafety.SearchFinds(os, Normals(p), false);
    }
  }

  lemma NormalsSplit(p: seq<string>)
    requires p != []
    ensures Normals(p) == Normals(Parent(p)) + [Normal(p[|p| - 1])]
  {
    NormalsLast(Parent(p), p[|p| - 1]);
    ParentAndName(p);
  }

  lemma ParentAndName(p: seq<string>)
    requires p != []
    ensures p == Parent(p) + [p[|p| - 1]]
  {
  }

  lemma NormalsLast(names: seq<string>, name: string)
    ensures Normals(names + [name]) == Normals(names) + [Normal(name)]
  {
  }

  lemma NothingMissing(os: Os, dir: seq<string>, name: string)
    requires dir in os.tree && os.tree[dir] == Dir && dir + [name] in os.tree
    requires Canonicalize(os, Normals(dir)) == Ok(dir) && Canonicalize(os, Normals(dir) + [Normal(name)]).Err?
    ensures Deepest(os, Normals(dir) + [Normal(name)], []).Err?
  {
    var path := Normals(dir) + [Normal(name)];
    assert path[..|path| - 1] == Normals(dir) && [name] + [] == [name];
  }

  /**
   * An entry of a directory, link or not, is listed by what it is called and read by what it leads
   * to; so the two agree exactly when both are visible or neither, as always for what is no link.
   */
  lemma ListedIsReadable(os: Os, policy: Policy, q: PathRequest, p: seq<string>)
    requires WellFormed(os.tree) && p in os.tree && q.path == Render(p)
    requires CheckSyntax(policy.guard, q.path).None? && PlainRead(policy, q)
    ensures var listed := FilterListing(policy, q.grant, [q.path]) == [q.path];
            var readable := AuthorizePath(os, policy, q).Ok?;
            var target := Canonicalize(os, Spelled(q.path));
            && (listed <==> Visible(policy, q.grant, q.path))
            && (readable <==> target.Ok? && Visible(policy, q.grant, Render(target.value)))
            && (Real(os.tree, p) ==> target == Ok(p) && (listed <==> readable))
  {
    ListingStep(policy, q.grant, q.path, []);
    assert [q.path] + [] == [q.path];
    var target := Canonicalize(os, Spelled(q.path));
    if target.Ok? {
      ReadableExactly(os, policy, q, target.value);
    } else {
      LeadsNowhere(os, policy.guard, p);
    }
    if Real(os.tree, p) {
      RenderedIsCanonical(os, p);
    }
  }

  /** A link from a root to a file outside every root is listed, though it may not be read. */
  lemma LinksOutAreListed(policy: Policy, q: PathRequest)
    requires policy.guard.roots == [["w"]] && q.path == Render(["w", "l"]) && CheckSyntax(policy.guard, q.path).None?
    requires PlainRead(policy, q) && !policy.isSecret(q.path)
    ensures var tree: Tree := map[[] := Dir, ["w"] := Dir, ["w", "l"] := Link(true, [Normal("x")]), ["x"] := File];
            && WellFormed(tree)
            && FilterListing(policy, q.grant, [q.path]) == [q.path]
            && AuthorizePath(Os(tree, 1), policy, q).Err?
  {
    var tree: Tree := map[[] := Dir, ["w"] := Dir, ["w", "l"] := Link(true, [Normal("x")]), ["x"] := File];
    LinkTree(tree);
    LinkWalk(Os(tree, 1));
    OutsideTarget(Os(tree, 1), policy, q, ["w", "l"], ["w"], ["x"]);
  }

  /** An entry below the only root, not secret, that leads to something not below it. */
  lemma OutsideTarget(os: Os, policy: Policy, q: PathRequest, p: seq<string>, root: seq<string>, target: seq<string>)
    requires WellFormed(os.tree) && p in os.tree && q.path == Render(p) && policy.guard.roots == [root]
    requires CheckSyntax(policy.guard, q.path).None? && PlainRead(policy, q) && !policy.isSecret(q.path)
    requires root <= p && Canonicalize(os, Spelled(Render(p))) == Ok(target) && !(root <= target)
    ensures FilterListing(policy, q.grant, [q.path]) == [q.path] && AuthorizePath(os, policy, q).Err?
  {
    WalkLandsOnReal(os.tree, [], Spelled(Render(p)), os.maxLinks);
    ListedIsReadable(os, policy, q, p);
    RenderedIsWithin(policy.guard, p);
    RenderedIsWithin(policy.guard, target);
    assert policy.guard.roots[0] == root && root in policy.guard.roots;
    assert Visible(policy, q.grant, q.path) && !Visible(policy, q.grant, Render(target));
  }

  lemma LinkTree(tree: Tree)
    requires tree == map[[] := Dir, ["w"] := Dir, ["w", "l"] := Link(true, [Normal("x")]), ["x"] := File]
    ensures WellFormed(tree) && ValidNames(["w", "l"])
  {
    assert Parent(["w"]) == [] && Parent(["x"]) == [] && Parent(["w", "l"]) == ["w"];
  }

  lemma LinkWalk(os: Os)
    requires os.tree == map[[] := Dir, ["w"] := Dir, ["w", "l"] := Link(true, [Normal("x")]), ["x"] := File]
    requires os.maxLinks == 1
    ensures Canonicalize(os, Spelled(Render(["w", "l"]))) == Ok(["x"])
  {
    LinkTree(os.tree);
    RenderSpelled(["w", "l"]);
    var w, l, x := Normal("w"), Normal("l"), Normal("x");
    assert Normals(["w", "l"]) + [] == [w, l];
    assert [w, l][1..] == [l] && [l][1..] == [] && [x] + [] == [x] && [x][1..] == [];
    assert [] + ["w"] == ["w"] && ["w"] + ["l"] == ["w", "l"] && [] + ["x"] == ["x"];
    assert Walk(os.tree, [], [x], 0) == Walk(os.tree, ["x"], [], 0) == Ok(["x"]);
    assert Walk(os.tree, ["w"], [l], 1) == Walk(os.tree, [], [x], 0);
  }

  lemma NormalsPrefix(a: seq<string>, b: seq<string>)
    ensures Normals(a) <= Normals(b) <==> a <= b
  {
    if Normals(a) <= Normals(b) {
      forall i | 0 <= i < |a|
        ensures a[i] == b[i]
      {
        assert Normals(a)[i] == Normals(b)[i];
      }
    }
  }

  // ----- the hidden count -----

  /**
   * The count never exceeds what the filter drops, and equals it exactly when every entry
   * outside the roots is itself counted as a secret.
   */
  lemma {:induction false} HiddenCountExactly(policy: Policy, grant: Option<DeviceGrant>, entries: seq<string>)
    ensures var dropped := |entries| - |FilterListing(policy, grant, entries)|;
            && HiddenCount(policy, grant, entries) <= dropped
            && (HiddenCount(policy, grant, entries) == dropped <==>
                  forall entry :: entry in entries ==>
                    InSomeRoot(policy.guard, entry) || (FsSecrets !in Effective(grant) && policy.isSecret(entry)))
  {
    if entries != [] {
      var first, rest := entries[0], entries[1..];
      assert entries == [first] + rest;
      ListingStep(policy, grant, first, rest);
      HiddenCountExactly(policy, grant, rest);
    }
  }

  /** An entry outside every root is dropped but not counted. */
  lemma HiddenCountMissesOutsiders(hash: Data -> Digest, isUtf8: string -> bool, isDevice: string -> bool)
    ensures var policy := Policy(Guard([["w"]], false, isUtf8, isDevice), (p: string) => false, hash);
            var entries := ["/w/a", "/x"];
            HiddenCount(policy, None, entries) == 0 && FilterListing(policy, None, entries) != entries
  {
    var policy := Policy(Guard([["w"]], false, isUtf8, isDevice), (p: string) => false, hash);
    var entries := ["/w/a", "/x"];
    assert entries[1..] == ["/x"] && CountSecrets(policy, entries[1..]) == 0;
    HiddenCountExactly(policy, None, entries);
    assert "/x" in entries && !InSomeRoot(policy.guard, "/x") by {
      ComponentsRender(["x"]);
      assert RenderFrom(["x"]) == "/x" by {
        assert RenderFrom(["x"][1..]) == "";
      }
      assert Normals(["w"])[0] == Normal("w") && Normals(["x"])[0] == Normal("x");
    }
    assert |FilterListing(policy, None, entries)| < |entries|;
  }
}
