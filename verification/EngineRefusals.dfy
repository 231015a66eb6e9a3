/** Which refusal an authorization gives, what a signature must cover, and what a new device may do. */
module EngineRefusals {
  import opened Common
  import opened Bytes
  import opened FileTree
  import opened PathGuard
  import opened PathSyntax
  import opened Engine
  import PathSafety

  // ----- the challenge, byte by byte -----

  const DOMAIN_TEXT: string := "gonomad/presence/v1"

  function FromLittleEndian(b: Data): nat {
    if b == [] then 0 else b[0] + 256 * FromLittleEndian(b[1..])
  }

  lemma {:induction false} LittleEndianRoundTrip(n: nat, width: nat)
    requires n < Pow256(width)
    ensures FromLittleEndian(LittleEndian(n, width)) == n
  {
    if width > 0 {
      LittleEndianRoundTrip(n / 256, width - 1);
      assert LittleEndian(n, width)[1..] == LittleEndian(n / 256, width - 1);
    }
  }

  /**
   * What is signed: a name for the purpose and a zero, the device, the length of the method in
   * four bytes, least significant first, the method, and the digest of the arguments.
   */
  lemma ChallengeLayout(device: DeviceId, method_: Data, args: Digest)
    ensures var b := ChallengeBytes(device, method_, args);
            && |b| == 88 + |method_|
            && |DOMAIN_TEXT| == 19 && (forall i :: 0 <= i < 19 ==> b[i] == DOMAIN_TEXT[i] as int) && b[19] == 0
            && b[20..52] == device
            && FromLittleEndian(b[52..56]) == Min(|method_|, 0xFFFF_FFFF)
            && b[56..|b| - 32] == method_ && b[|b| - 32..] == args
  {
    var b := ChallengeBytes(device, method_, args);
    Widths();
    ChallengeParts(device, method_, args);
    LittleEndianRoundTrip(Min(|method_|, U32_MAX), 4);
    LengthPart(device, method_, args);
    DomainPart(b, device + LittleEndian(Min(|method_|, U32_MAX), 4) + method_ + args);
  }

  lemma LengthPart(device: DeviceId, method_: Data, args: Digest)
    ensures ChallengeBytes(device, method_, args)[52..56] == LittleEndian(Min(|method_|, U32_MAX), 4)
  {
  }

  lemma DomainPart(b: Data, rest: Data)
    requires |b| >= 20 && b[..20] == DOMAIN
    ensures (forall i :: 0 <= i < 19 ==> b[i] == DOMAIN_TEXT[i] as int) && b[19] == 0
  {
    assert forall i :: 0 <= i < 20 ==> b[i] == DOMAIN[i];
  }

  // ----- refusals -----

  predicate Holds(q: PathRequest, capability: Capability) {
    q.grant.Some? && !q.grant.value.revoked && capability in q.grant.value.capabilities
  }

  /** The digest this request must carry where a finger is needed. */
  function Demanded(policy: Policy, q: PathRequest): Digest
    requires q.grant.Some?
  {
    policy.hash(ChallengeBytes(q.grant.value.device, q.method_, q.args))
  }

  /** The device lacks the capability, or its finger on this very operation. */
  predicate Unentitled(policy: Policy, q: PathRequest, capability: Capability, e: ProtoError) {
    if !Holds(q, capability) then e == Denied(capability)
    else RequiresPresence(capability) && q.presence != Signed(Demanded(policy, q)) &&
         e == PresenceRequired(Demanded(policy, q))
  }

  lemma AdmitRefuses(policy: Policy, q: PathRequest, capability: Capability, e: ProtoError)
    ensures Admit(q, capability, Challenge(policy, q)) == Err(e) <==> Unentitled(policy, q, capability, e)
  {
  }

  /** Every refusal, in the order they are looked for. */
  ghost predicate Refuses(os: Os, policy: Policy, q: PathRequest, e: ProtoError) {
    if !Entitled(policy, q, q.capability) then Unentitled(policy, q, q.capability, e)
    else if !WellSpelled(policy.guard, q.path) then e == BadRequest("invalid path")
    else if Resolve(os, policy.guard, q.path).Err? then e == Missing
    else
      && policy.isSecret(Render(Resolve(os, policy.guard, q.path).value.path))
      && Unentitled(policy, q, FsSecrets, e)
  }

  /**
   * A request is refused for exactly one reason. It is asked for a finger only where it holds the
   * capability, and then told exactly what to sign; a path's spelling is told apart from its place,
   * its place not from its absence; and only what is a secret is refused as one.
   */
  lemma RefusedExactly(os: Os, policy: Policy, q: PathRequest, e: ProtoError)
    ensures AuthorizePath(os, policy, q) == Err(e) <==> Refuses(os, policy, q, e)
  {
    AdmittedExactly(policy, q, q.capability);
    AdmitRefuses(policy, q, q.capability, e);
    AdmitRefuses(policy, q, FsSecrets, e);
    match Resolve(os, policy.guard, q.path)
    case Ok(_) => PathRefused(os, policy.guard, q.path, NotUtf8);
    case Err(reason) => PathRefused(os, policy.guard, q.path, reason);
  }

  lemma PathRefused(os: Os, guard: Guard, text: string, reason: DenyReason)
    ensures Resolve(os, guard, text) == Err(reason) ==>
              ToProtoError(reason) == if WellSpelled(guard, text) then Missing else BadRequest("invalid path")
    ensures Resolve(os, guard, text).Ok? ==> WellSpelled(guard, text)
  {
    PathSyntax.RefusedExactly(os, guard, text, reason);
    SyntaxExactly(guard, text, reason);
  }

  // ----- what a new device may do -----

  /** A device that has just paired reads, unsigned, what exists in a root and is no secret, and no secret at all. */
  lemma NewDeviceReads(os: Os, policy: Policy, q: PathRequest, device: DeviceId, target: seq<string>)
    requires WellFormed(os.tree) && WellSpelled(policy.guard, q.path)
    requires Canonicalize(os, Spelled(q.path)) == Ok(target)
    requires q.grant == Some(DeviceGrant(device, DEFAULT_GRANT, false)) && q.capability == FsRead
    ensures (exists root :: root in policy.guard.roots && root <= target) && !policy.isSecret(Render(target)) ==>
              AuthorizePath(os, policy, q).Ok? && AuthorizePath(os, policy, q).value.path == target
    ensures (exists root :: root in policy.guard.roots && root <= target) && policy.isSecret(Render(target)) ==>
              AuthorizePath(os, policy, q) == Err(Denied(FsSecrets))
    ensures !(exists root :: root in policy.guard.roots && root <= target) ==>
              AuthorizePath(os, policy, q) == Err(Missing)
  {
    SyntaxExactly(policy.guard, q.path, NotUtf8);
    PathSafety.ExistingPathsResolve(os, policy.guard, q.path, target);
    RefusedExactly(os, policy, q, Denied(FsSecrets));
    RefusedExactly(os, policy, q, Missing);
  }
}
