/** The authority model (src/model.rs): bodies, leases, the ordered commit oracle, the single-use
    BEGIN/COMMIT transaction and policy compilation. */
module Authority {
  import opened Words

  const MAX_LEASE_NS: u64 := 1_000_000_000
  const MIN_LEASE_NS: u64 := 1
  const MAX_WORK_UNITS: u64 := 1_000_000

  datatype Decision =
    | Allow
    | BlockQuarantine
    | BlockBodyUid
    | BlockEpoch
    | BlockGeneration
    | BlockCertificate
    | BlockExpired
    | BlockPrincipal
    | BlockResource
    | BlockAction
    | BlockNoLease
  {
    /** `self as u8`. */
    function Code(): (r: byte)
      ensures r <= 10
    {
      match this
      case Allow => 0
      case BlockQuarantine => 1
      case BlockBodyUid => 2
      case BlockEpoch => 3
      case BlockGeneration => 4
      case BlockCertificate => 5
      case BlockExpired => 6
      case BlockPrincipal => 7
      case BlockResource => 8
      case BlockAction => 9
      case BlockNoLease => 10
    }

    function Name(): string
    {
      match this
      case Allow => "ALLOW"
      case BlockQuarantine => "BLOCK_QUARANTINE"
      case BlockBodyUid => "BLOCK_BODY_UID"
      case BlockEpoch => "BLOCK_EPOCH"
      case BlockGeneration => "BLOCK_GENERATION"
      case BlockCertificate => "BLOCK_CERTIFICATE"
      case BlockExpired => "BLOCK_EXPIRED"
      case BlockPrincipal => "BLOCK_PRINCIPAL"
      case BlockResource => "BLOCK_RESOURCE"
      case BlockAction => "BLOCK_ACTION"
      case BlockNoLease => "BLOCK_NO_LEASE"
    }
  }

  datatype BodyState = BodyState(
    bodyUid: u64, epoch: u64, generation: u64, certificate: u64, quarantined: bool)

  datatype SafetyLease = SafetyLease(
    bodyUid: u64, epoch: u64, generation: u64, certificate: u64, validUntilNs: u64,
    principalId: u64, resourceId: u64, actionId: u64)

  datatype CommitRequest = CommitRequest(nowNs: u64, principalId: u64, resourceId: u64, actionId: u64)

  function ValidateCommit(body: BodyState, lease: Option<SafetyLease>, request: CommitRequest): (r: Decision)
  {
    match lease
    case None => BlockNoLease
    case Some(l) =>
      if body.quarantined then BlockQuarantine
      else if body.bodyUid != l.bodyUid then BlockBodyUid
      else if body.epoch != l.epoch then BlockEpoch
      else if body.generation != l.generation then BlockGeneration
      else if body.certificate != l.certificate then BlockCertificate
      else if request.nowNs >= l.validUntilNs then BlockExpired
      else if request.principalId != l.principalId then BlockPrincipal
      else if request.resourceId != l.resourceId then BlockResource
      else if request.actionId != l.actionId then BlockAction
      else Allow
  }

  /** The lease names exactly this body and request, and is still in time. */
  predicate Authorizes(body: BodyState, l: SafetyLease, request: CommitRequest)
  {
    && !body.quarantined
    && SafetyLease(body.bodyUid, body.epoch, body.generation, body.certificate, l.validUntilNs,
                   request.principalId, request.resourceId, request.actionId) == l
    && request.nowNs < l.validUntilNs
  }

  lemma ValidateCommitAllows(body: BodyState, lease: Option<SafetyLease>, request: CommitRequest)
    ensures ValidateCommit(body, lease, request) == Allow
            <==> lease.Some? && Authorizes(body, lease.value, request)
  {
    if lease.Some? {
      var l := lease.value;
      assert l == SafetyLease(l.bodyUid, l.epoch, l.generation, l.certificate, l.validUntilNs,
                              l.principalId, l.resourceId, l.actionId);
    }
  }

  /** The condition behind each reason to block, for a body, a lease and a request. */
  predicate Violates(d: Decision, body: BodyState, l: SafetyLease, request: CommitRequest)
  {
    match d
    case Allow => false
    case BlockQuarantine => body.quarantined
    case BlockBodyUid => body.bodyUid != l.bodyUid
    case BlockEpoch => body.epoch != l.epoch
    case BlockGeneration => body.generation != l.generation
    case BlockCertificate => body.certificate != l.certificate
    case BlockExpired => request.nowNs >= l.validUntilNs
    case BlockPrincipal => request.principalId != l.principalId
    case BlockResource => request.resourceId != l.resourceId
    case BlockAction => request.actionId != l.actionId
    case BlockNoLease => false
  }

  /** The oracle reports the violated condition with the least code, so the order of the codes is the
      order of the checks. */
  lemma FirstViolation(body: BodyState, l: SafetyLease, request: CommitRequest, d: Decision)
    ensures var decision := ValidateCommit(body, Some(l), request);
            && (decision != Allow ==> Violates(decision, body, l, request))
            && (Violates(d, body, l, request) ==> decision != Allow && decision.Code() <= d.Code())
  {
  }

  /** The first field in which two leases differ. */
  function LeaseReplacementDecision(captured: SafetyLease, current: SafetyLease): (r: Decision)
  {
    if captured.bodyUid != current.bodyUid then BlockBodyUid
    else if captured.epoch != current.epoch then BlockEpoch
    else if captured.generation != current.generation then BlockGeneration
    else if captured.certificate != current.certificate then BlockCertificate
    else if captured.validUntilNs != current.validUntilNs then BlockExpired
    else if captured.principalId != current.principalId then BlockPrincipal
    else if captured.resourceId != current.resourceId then BlockResource
    else if captured.actionId != current.actionId then BlockAction
    else Allow
  }

  /** The fields of a lease, in the order of the reasons to block from BLOCK_BODY_UID on. */
  function LeaseFieldsOf(l: SafetyLease): (r: seq<u64>)
    ensures |r| == 8
  {
    [l.bodyUid, l.epoch, l.generation, l.certificate, l.validUntilNs, l.principalId, l.resourceId, l.actionId]
  }

  /** The comparison of two leases reports the first differing field, and allows equal leases only. */
  lemma ReplacementOrder(captured: SafetyLease, current: SafetyLease)
    ensures var d, f, g := LeaseReplacementDecision(captured, current), LeaseFieldsOf(captured), LeaseFieldsOf(current);
            && (d == Allow <==> captured == current)
            && (d != Allow ==> 2 <= d.Code() <= 9 && f[d.Code() - 2] != g[d.Code() - 2]
                               && forall i :: 0 <= i < d.Code() - 2 ==> f[i] == g[i])
  {
  }

  // ---------------------------------------------------------------------------------------------
  // The transaction
  // ---------------------------------------------------------------------------------------------

  /** The value of an `AuthorityTransaction`. */
  datatype Transaction = Transaction(pending: bool, captured: Option<SafetyLease>)

  const IDLE := Transaction(false, None)

  function CommitDecision(t: Transaction, body: BodyState, current: Option<SafetyLease>,
                          request: CommitRequest): (r: Decision)
  {
    if !t.pending || current.None? then BlockNoLease
    else
      var d := ValidateCommit(body, t.captured, request);
      if d != Allow then d
      else if t.captured.None? then BlockNoLease
      else LeaseReplacementDecision(t.captured.value, current.value)
  }

  /** What COMMIT may answer. Without a BEGIN, without an active lease and without a captured one there
      is no lease. A captured lease that does not authorize the body and request is refused with the
      violated condition of the least code; one that does, but is no longer the active lease, with the
      reason of the first field in which the two differ. */
  predicate Explained(t: Transaction, body: BodyState, current: Option<SafetyLease>, request: CommitRequest, d: Decision)
  {
    if !t.pending || current.None? || t.captured.None? then d == BlockNoLease
    else if !Authorizes(body, t.captured.value, request) then
      && Violates(d, body, t.captured.value, request)
      && forall e :: Violates(e, body, t.captured.value, request) ==> d.Code() <= e.Code()
    else if t.captured != current then
      var f, g := LeaseFieldsOf(t.captured.value), LeaseFieldsOf(current.value);
      && 2 <= d.Code() <= 9
      && f[d.Code() - 2] != g[d.Code() - 2]
      && forall i :: 0 <= i < d.Code() - 2 ==> f[i] == g[i]
    else d == Allow
  }

  lemma CodeInjective(d: Decision, e: Decision)
    requires d.Code() == e.Code()
    ensures d == e
  {
  }

  lemma ExplainedOnce(t: Transaction, body: BodyState, current: Option<SafetyLease>, request: CommitRequest,
                      d: Decision, d': Decision)
    requires Explained(t, body, current, request, d) && Explained(t, body, current, request, d')
    ensures d == d'
  {
    hide Authorizes, Violates, LeaseFieldsOf, Decision.Code;
    if t.pending && current.Some? && t.captured.Some? && !Authorizes(body, t.captured.value, request) {
      CodeInjective(d, d');
    } else if t.pending && current.Some? && t.captured.Some? && t.captured != current {
      var i, j := d.Code() - 2, d'.Code() - 2;
      assert !(i < j) && !(j < i);
      CodeInjective(d, d');
    }
  }

  lemma NothingCaptured(body: BodyState, request: CommitRequest)
    ensures ValidateCommit(body, None, request) == BlockNoLease
  {
  }

  /** The decision of COMMIT is the one that explains the blocked cases, and no other decision does. */
  lemma CommitExplained(t: Transaction, body: BodyState, current: Option<SafetyLease>, request: CommitRequest, d: Decision)
    ensures Explained(t, body, current, request, d) <==> d == CommitDecision(t, body, current, request)
  {
    hide ValidateCommit, LeaseReplacementDecision, Authorizes, Violates, LeaseFieldsOf;
    var decision := CommitDecision(t, body, current, request);
    ValidateCommitAllows(body, t.captured, request);
    NothingCaptured(body, request);
    if t.pending && t.captured.Some? && current.Some? {
      var l, m := t.captured.value, current.value;
      forall e
        ensures ValidateCommit(body, t.captured, request) != Allow ==>
                  Violates(ValidateCommit(body, t.captured, request), body, l, request)
        ensures Violates(e, body, l, request) ==> ValidateCommit(body, t.captured, request).Code() <= e.Code()
      {
        FirstViolation(body, l, request, e);
      }
      ReplacementOrder(l, m);
    }
    assert Explained(t, body, current, request, decision);
    if Explained(t, body, current, request, d) {
      ExplainedOnce(t, body, current, request, d, decision);
    }
  }

  class AuthorityTransaction {
    var pending: bool
    var captured: Option<SafetyLease>

    ghost function Value(): Transaction
      reads this
    {
      Transaction(pending, captured)
    }

    constructor ()
      ensures Value() == IDLE
    {
      pending, captured := false, None;
    }

    method Begin(active: Option<SafetyLease>) returns (ok: bool)
      modifies this
      ensures ok == !old(pending)
      ensures Value() == if ok then Transaction(true, active) else old(Value())
    {
      if pending {
        return false;
      }
      pending := true;
      captured := active;
      return true;
    }

    method Abort() returns (wasPending: bool)
      modifies this
      ensures wasPending == old(pending) && Value() == IDLE
    {
      wasPending := pending;
      pending := false;
      captured := None;
    }

    /** Single use: whatever the decision, no second COMMIT finds this capture. */
    method Commit(body: BodyState, current: Option<SafetyLease>, request: CommitRequest)
      returns (decision: Decision)
      modifies this
      ensures decision == CommitDecision(old(Value()), body, current, request)
      ensures Value() == if old(pending) then IDLE else old(Value())
      ensures decision == Allow
              <==> old(pending) && current.Some? && old(captured) == current
                   && Authorizes(body, current.value, request)
      ensures Explained(old(Value()), body, current, request, decision)
    {
      hide Explained, ValidateCommit, LeaseReplacementDecision, Authorizes;
      CommitAllows(Value(), body, current, request);
      CommitExplained(Value(), body, current, request, CommitDecision(Value(), body, current, request));
      if !pending {
        return BlockNoLease;
      }
      pending := false;
      var taken := captured;
      captured := None;
      if current.None? {
        return BlockNoLease;
      }
      decision := ValidateCommit(body, taken, request);
      if decision != Allow {
        return decision;
      }
      if taken.None? {
        return BlockNoLease;
      }
      return LeaseReplacementDecision(taken.value, current.value);
    }
  }

  /** COMMIT is allowed exactly when the lease captured at BEGIN is still the active one and
      authorizes the body and request of now. */
  lemma CommitAllows(t: Transaction, body: BodyState, current: Option<SafetyLease>, request: CommitRequest)
    ensures CommitDecision(t, body, current, request) == Allow
            <==> t.pending && current.Some? && t.captured == current
                 && Authorizes(body, current.value, request)
  {
    ValidateCommitAllows(body, t.captured, request);
    if t.captured.Some? && current.Some? {
      assert LeaseReplacementDecision(t.captured.value, current.value) == Allow
        <==> t.captured.value == current.value;
    }
  }

  // ---------------------------------------------------------------------------------------------
  // Policies
  // ---------------------------------------------------------------------------------------------

  datatype Goal = ExecuteChildWork(units: u64) | PauseChild

  datatype PolicyIr = PolicyIr(
    policyId: u64, principalId: u64, resourceId: u64, actionId: u64, goal: Goal, maxUnits: u64,
    leaseNs: u64, rollbackRequired: bool)

  datatype ReflexInstruction = Work(units: u64) | Pause

  datatype ReflexProgram = ReflexProgram(
    reflexId: u64, instructions: seq<ReflexInstruction>, principalId: u64, resourceId: u64,
    actionId: u64, leaseNs: u64)

  predicate InWorkBounds(i: ReflexInstruction)
  {
    i.Work? ==> 1 <= i.units <= MAX_WORK_UNITS
  }

  /** What `verify_reflex` promises. */
  predicate Verified(p: ReflexProgram)
  {
    && 1 <= |p.instructions| <= 8
    && MIN_LEASE_NS <= p.leaseNs <= MAX_LEASE_NS
    && forall i :: 0 <= i < |p.instructions| ==> InWorkBounds(p.instructions[i])
  }

  method VerifyReflex(p: ReflexProgram) returns (ok: bool)
    ensures ok <==> Verified(p)
  {
    if |p.instructions| == 0 || |p.instructions| > 8 || !(MIN_LEASE_NS <= p.leaseNs <= MAX_LEASE_NS) {
      return false;
    }
    for i := 0 to |p.instructions|
      invariant forall j :: 0 <= j < i ==> InWorkBounds(p.instructions[j])
    {
      match p.instructions[i]
      case Work(units) =>
        if units == 0 || units > MAX_WORK_UNITS {
          return false;
        }
      case Pause =>
    }
    return true;
  }

  function CompilePolicy(p: PolicyIr): (r: Result<ReflexProgram>)
  {
    if !p.rollbackRequired || !(MIN_LEASE_NS <= p.leaseNs <= MAX_LEASE_NS) then Err
    else if p.goal.ExecuteChildWork?
            && (p.goal.units == 0 || p.goal.units > p.maxUnits || p.maxUnits > MAX_WORK_UNITS) then Err
    else
      var instruction := match p.goal case ExecuteChildWork(units) => Work(units) case PauseChild => Pause;
      var program := ReflexProgram(p.policyId, [instruction], p.principalId, p.resourceId, p.actionId, p.leaseNs);
      if Verified(program) then Ok(program) else Err
  }

  /** A policy compiles exactly when it asks for rollback, a lease in bounds and work in bounds; the
      program then passes verification, so the last check of the compiler never fails. */
  lemma CompilePolicyExact(p: PolicyIr)
    ensures CompilePolicy(p).Ok? <==>
            && p.rollbackRequired
            && MIN_LEASE_NS <= p.leaseNs <= MAX_LEASE_NS
            && (p.goal.ExecuteChildWork? ==> 1 <= p.goal.units <= p.maxUnits <= MAX_WORK_UNITS)
    ensures CompilePolicy(p).Ok? ==> Verified(CompilePolicy(p).value)
    ensures CompilePolicy(p).Ok? ==>
              var program := CompilePolicy(p).value;
              && program.reflexId == p.policyId && program.leaseNs == p.leaseNs
              && program.principalId == p.principalId && program.resourceId == p.resourceId
              && program.actionId == p.actionId
              && |program.instructions| == 1
              && (program.instructions[0].Pause? <==> p.goal.PauseChild?)
              && (p.goal.ExecuteChildWork? ==> program.instructions[0] == Work(p.goal.units))
  {
  }
}
