/** The guardian set: appointment, deferred removal, and the counters kept beside the accounts
    (state/guardian.rs and the handlers of instructions/admin/guardian.rs). */
module GuardianRegistry {
  import opened Wrappers
  import opened Ints
  import opened Access

  const MIN_ACTIVE_GUARDIANS: u8 := 1
  const GUARDIAN_REMOVE_COOLDOWN_SECONDS := 3600
  const GUARDIAN_REMOVAL_EXEC_WINDOW_SECONDS := 7 * 86400

  datatype GuardianError =
    | Unauthorized
    | GuardianInCooldown
    | ProposalAlreadyActive
    | GuardianCountExceeded
    | GuardianRemovalAlreadyScheduled
    | GuardianRemovalNotScheduled
    | GuardianRemovalExpired
    | TimelockNotElapsed
    | GuardianFloorBreached
    | GuardianSelfCancelExhausted
    | NoSuchAccount
    | ArithmeticOverflow

  datatype Guardian = Guardian(addedAt: i64, cooldownUntil: i64, pendingRemovalAt: i64, selfCancelUsed: bool)

  /** The authorities and the timelock, held constant over a run. */
  datatype Governance = Governance(admin: Pubkey, pendingAdmin: Option<Pubkey>, timelockSeconds: u32, maxGuardianCount: u8)

  datatype Registry = Registry(guardianCount: u8, pendingCount: u8, accounts: map<Pubkey, Guardian>)

  datatype Op =
    | Add(now: i64, guardian: Pubkey, signer: Pubkey)
    | Schedule(now: i64, guardian: Pubkey, signer: Pubkey)
    | Finalize(now: i64, guardian: Pubkey)
    | Cancel(now: i64, guardian: Pubkey, signer: Pubkey)

  // ---- state/guardian.rs ----

  function ActiveNotPending(guardianCount: u8, pendingCount: u8): u8 { Max(guardianCount - pendingCount, 0) }

  predicate MayScheduleRemoval(guardianCount: u8, pendingCount: u8) {
    ActiveNotPending(guardianCount, pendingCount) > MIN_ACTIVE_GUARDIANS
  }

  predicate RemovalScheduleExpired(scheduledAt: i64, now: i64) {
    scheduledAt != 0 && now > SatI64(scheduledAt + GUARDIAN_REMOVAL_EXEC_WINDOW_SECONDS)
  }

  // ---- The handlers, as transitions ----

  const FRESH_ACCOUNT := Guardian(0, 0, 0, false)

  function AddStep(gov: Governance, r: Registry, op: Op): Result<Registry, GuardianError>
    requires op.Add?
  {
    var g := if op.guardian in r.accounts then r.accounts[op.guardian] else FRESH_ACCOUNT;
    if op.signer != gov.admin || op.guardian == gov.admin || gov.pendingAdmin == Some(op.guardian) then Err(Unauthorized)
    else if g.cooldownUntil != 0 && op.now < g.cooldownUntil then Err(GuardianInCooldown)
    else if g.addedAt != 0 && g.cooldownUntil == 0 then Err(ProposalAlreadyActive)
    else if r.guardianCount >= gov.maxGuardianCount then Err(GuardianCountExceeded)
    else if g.pendingRemovalAt != 0 then Err(GuardianRemovalAlreadyScheduled)
    else Ok(r.(guardianCount := Min(r.guardianCount + 1, 0xFF), accounts := r.accounts[op.guardian := Guardian(op.now, 0, 0, false)]))
  }

  function ScheduleStep(gov: Governance, r: Registry, op: Op): Result<Registry, GuardianError>
    requires op.Schedule?
  {
    if op.signer != gov.admin then Err(Unauthorized)
    else if op.guardian !in r.accounts then Err(NoSuchAccount)
    else
      var g := r.accounts[op.guardian];
      if g.cooldownUntil != 0 then Err(GuardianInCooldown)
      else if g.pendingRemovalAt != 0 && !RemovalScheduleExpired(g.pendingRemovalAt, op.now) then Err(GuardianRemovalAlreadyScheduled)
      else if op.now + gov.timelockSeconds > I64_MAX then Err(ArithmeticOverflow)
      else
        var armed := r.(accounts := r.accounts[op.guardian := g.(pendingRemovalAt := op.now + gov.timelockSeconds)]);
        if g.pendingRemovalAt != 0 then Ok(armed)
        else if !MayScheduleRemoval(r.guardianCount, r.pendingCount) then Err(GuardianFloorBreached)
        else if r.pendingCount == 0xFF then Err(ArithmeticOverflow)
        else Ok(armed.(pendingCount := r.pendingCount + 1))
  }

  function FinalizeStep(r: Registry, op: Op): Result<Registry, GuardianError>
    requires op.Finalize?
  {
    if op.guardian !in r.accounts then Err(NoSuchAccount)
    else
      var g := r.accounts[op.guardian];
      if g.cooldownUntil != 0 then Err(GuardianInCooldown)
      else if g.pendingRemovalAt == 0 then Err(GuardianRemovalNotScheduled)
      else if op.now < g.pendingRemovalAt then Err(TimelockNotElapsed)
      else if RemovalScheduleExpired(g.pendingRemovalAt, op.now) then Err(GuardianRemovalExpired)
      else if r.guardianCount <= MIN_ACTIVE_GUARDIANS then Err(GuardianFloorBreached)
      else if op.now + GUARDIAN_REMOVE_COOLDOWN_SECONDS > I64_MAX || r.pendingCount == 0 then Err(ArithmeticOverflow)
      else Ok(Registry(r.guardianCount - 1, r.pendingCount - 1,
                       r.accounts[op.guardian := g.(cooldownUntil := op.now + GUARDIAN_REMOVE_COOLDOWN_SECONDS, pendingRemovalAt := 0)]))
  }

  function CancelStep(gov: Governance, r: Registry, op: Op): Result<Registry, GuardianError>
    requires op.Cancel?
  {
    if op.guardian !in r.accounts then Err(NoSuchAccount)
    else
      var g := r.accounts[op.guardian];
      if g.pendingRemovalAt == 0 then Err(GuardianRemovalNotScheduled)
      else if SpendsSelfVeto(gov, g, op) && g.selfCancelUsed then Err(GuardianSelfCancelExhausted)
      else if !RemovalScheduleExpired(g.pendingRemovalAt, op.now) && op.signer != gov.admin && op.signer != op.guardian then Err(Unauthorized)
      else if r.pendingCount == 0 then Err(ArithmeticOverflow)
      else Ok(r.(pendingCount := r.pendingCount - 1,
                 accounts := r.accounts[op.guardian := g.(pendingRemovalAt := 0, selfCancelUsed := g.selfCancelUsed || SpendsSelfVeto(gov, g, op))]))
  }

  /** The target cancelling its own live notice, in no other role. */
  predicate SpendsSelfVeto(gov: Governance, g: Guardian, op: Op)
    requires op.Cancel?
  {
    !RemovalScheduleExpired(g.pendingRemovalAt, op.now) && op.signer != gov.admin && op.signer == op.guardian
  }

  function Step(gov: Governance, r: Registry, op: Op): Result<Registry, GuardianError> {
    match op
    case Add(_, _, _) => AddStep(gov, r, op)
    case Schedule(_, _, _) => ScheduleStep(gov, r, op)
    case Finalize(_, _) => FinalizeStep(r, op)
    case Cancel(_, _, _) => CancelStep(gov, r, op)
  }

  // ---- The counters and the real sets ----

  function Registered(accounts: map<Pubkey, Guardian>): set<Pubkey> {
    set k | k in accounts && accounts[k].cooldownUntil == 0
  }

  function UnderNotice(accounts: map<Pubkey, Guardian>): set<Pubkey> {
    set k | k in accounts && accounts[k].pendingRemovalAt != 0
  }

  /** The counters are the sizes of the real sets, only registered guardians are under notice, and at
      least one registered guardian is not. */
  ghost predicate Valid(r: Registry) {
    && (forall k | k in r.accounts :: r.accounts[k].addedAt > 0 && r.accounts[k].pendingRemovalAt >= 0)
    && r.guardianCount == |Registered(r.accounts)|
    && r.pendingCount == |UnderNotice(r.accounts)|
    && UnderNotice(r.accounts) <= Registered(r.accounts)
    && r.guardianCount - r.pendingCount >= MIN_ACTIVE_GUARDIANS
  }

  lemma UpdateSets(accounts: map<Pubkey, Guardian>, k: Pubkey, g: Guardian)
    ensures var after := accounts[k := g];
            && Registered(after) == (if g.cooldownUntil == 0 then Registered(accounts) + {k} else Registered(accounts) - {k})
            && UnderNotice(after) == (if g.pendingRemovalAt != 0 then UnderNotice(accounts) + {k} else UnderNotice(accounts) - {k})
  {
  }

  function One(b: bool): int { if b then 1 else 0 }

  lemma SetCounts(s: set<Pubkey>, k: Pubkey)
    ensures |s + {k}| == |s| + 1 - One(k in s)
    ensures |s - {k}| == |s| - One(k in s)
  {
    assert k in s ==> s + {k} == s;
    assert k !in s ==> s - {k} == s;
  }

  /** Writing one account moves each counter by the difference it makes to that account. */
  lemma WriteKeepsValid(r: Registry, k: Pubkey, g: Guardian, after: Registry)
    requires Valid(r) && after.accounts == r.accounts[k := g]
    requires g.addedAt > 0 && g.pendingRemovalAt >= 0 && (g.pendingRemovalAt != 0 ==> g.cooldownUntil == 0)
    requires after.guardianCount == r.guardianCount + One(g.cooldownUntil == 0) - One(k in Registered(r.accounts))
    requires after.pendingCount == r.pendingCount + One(g.pendingRemovalAt != 0) - One(k in UnderNotice(r.accounts))
    requires after.guardianCount - after.pendingCount >= MIN_ACTIVE_GUARDIANS
    ensures Valid(after)
  {
    UpdateSets(r.accounts, k, g);
    SetCounts(Registered(r.accounts), k);
    SetCounts(UnderNotice(r.accounts), k);
    hide Registered, UnderNotice;
  }

  lemma MembersCount(r: Registry, k: Pubkey)
    requires Valid(r)
    ensures k in Registered(r.accounts) <==> k in r.accounts && r.accounts[k].cooldownUntil == 0
    ensures k in UnderNotice(r.accounts) <==> k in r.accounts && r.accounts[k].pendingRemovalAt != 0
    ensures k in UnderNotice(r.accounts) ==> r.pendingCount > 0 && r.accounts[k].cooldownUntil == 0
  {
  }

  /** Every accepted operation keeps the counters exact; the counter underflows and the finalize floor
      are never the reason for a refusal. */
  lemma StepKeepsValid(gov: Governance, r: Registry, op: Op)
    requires Valid(r) && 0 < op.now <= I64_MAX - U32_MAX
    ensures Step(gov, r, op).Ok? ==> Valid(Step(gov, r, op).value)
    ensures Step(gov, r, op) != Err(ArithmeticOverflow)
    ensures op.Finalize? ==> Step(gov, r, op) != Err(GuardianFloorBreached)
  {
    var k := op.guardian;
    MembersCount(r, k);
    assert k in r.accounts ==> r.accounts[k].addedAt > 0 && r.accounts[k].pendingRemovalAt >= 0;
    assert r.guardianCount - r.pendingCount >= MIN_ACTIVE_GUARDIANS;
    hide Valid, Registered, UnderNotice, RemovalScheduleExpired;
    var res := Step(gov, r, op);
    if res.Ok? {
      WriteKeepsValid(r, k, res.value.accounts[k], res.value);
    }
  }

  // ---- Who may do what, and when ----

  function NoticeAt(r: Registry, k: Pubkey): int { if k in r.accounts then r.accounts[k].pendingRemovalAt else 0 }

  function CooldownOf(r: Registry, k: Pubkey): int { if k in r.accounts then r.accounts[k].cooldownUntil else 0 }

  /** The notice is past its execution window of seven days. */
  predicate Lapsed(r: Registry, k: Pubkey, now: int) { now > NoticeAt(r, k) + 7 * 86_400 }

  /** The error an operation meets first, if any, said of the real sets. */
  function Refusal(gov: Governance, r: Registry, op: Op): Option<GuardianError> {
    match op
    case Add(now, k, signer) =>
      Need(signer == gov.admin && k != gov.admin && gov.pendingAdmin != Some(k), Unauthorized,
      Need(now >= CooldownOf(r, k), GuardianInCooldown,
      Need(k !in Registered(r.accounts), ProposalAlreadyActive,
      Need(|Registered(r.accounts)| < gov.maxGuardianCount, GuardianCountExceeded,
      None))))
    case Schedule(now, k, signer) =>
      Need(signer == gov.admin, Unauthorized,
      Need(k in r.accounts, NoSuchAccount,
      Need(k in Registered(r.accounts), GuardianInCooldown,
      Need(k !in UnderNotice(r.accounts) || Lapsed(r, k, now), GuardianRemovalAlreadyScheduled,
      Need(k in UnderNotice(r.accounts) || |Registered(r.accounts)| - |UnderNotice(r.accounts)| >= 2, GuardianFloorBreached,
      None)))))
    case Finalize(now, k) =>
      Need(k in r.accounts, NoSuchAccount,
      Need(k in Registered(r.accounts), GuardianInCooldown,
      Need(k in UnderNotice(r.accounts), GuardianRemovalNotScheduled,
      Need(NoticeAt(r, k) <= now, TimelockNotElapsed,
      Need(!Lapsed(r, k, now), GuardianRemovalExpired,
      None)))))
    case Cancel(now, k, signer) =>
      Need(k in r.accounts, NoSuchAccount,
      Need(k in UnderNotice(r.accounts), GuardianRemovalNotScheduled,
      Need(Lapsed(r, k, now) || signer == gov.admin || signer == k, Unauthorized,
      Need(Lapsed(r, k, now) || signer == gov.admin || (k in r.accounts && !r.accounts[k].selfCancelUsed), GuardianSelfCancelExhausted,
      None))))
  }

  /** What the guardian's account becomes: a fresh mandate, a notice of one timelock, an hour's cooldown, or
      no notice, at the cost of the veto when it is the guardian alone who cancels a live one. */
  function Becomes(gov: Governance, g: Guardian, lapsed: bool, op: Op): (int, int, int, bool) {
    match op
    case Add(now, _, _) => (now, 0, 0, false)
    case Schedule(now, _, _) => (g.addedAt, g.cooldownUntil, now + gov.timelockSeconds, g.selfCancelUsed)
    case Finalize(now, _) => (g.addedAt, now + 3_600, 0, g.selfCancelUsed)
    case Cancel(_, _, signer) => (g.addedAt, g.cooldownUntil, 0, g.selfCancelUsed || (!lapsed && signer != gov.admin))
  }

  /** An operation is accepted exactly when none of these checks refuses it, and otherwise fails with the
      error of the first that does. Accepted, it changes that guardian's account alone. */
  lemma StepExactly(gov: Governance, r: Registry, op: Op)
    requires Valid(r) && 0 < op.now <= I64_MAX - U32_MAX
    ensures match Step(gov, r, op)
            case Ok(_) => Refusal(gov, r, op) == None
            case Err(e) => Refusal(gov, r, op) == Some(e)
    ensures Step(gov, r, op).Ok? ==>
              var k, after := op.guardian, Step(gov, r, op).value.accounts;
              && k in after && after - {k} == r.accounts - {k}
              && var was := if k in r.accounts then r.accounts[k] else FRESH_ACCOUNT;
              (after[k].addedAt, after[k].cooldownUntil, after[k].pendingRemovalAt, after[k].selfCancelUsed)
              == Becomes(gov, was, Lapsed(r, k, op.now), op)
  {
    var k := op.guardian;
    MembersCount(r, k);
    assert k in r.accounts ==> r.accounts[k].addedAt > 0 && r.accounts[k].pendingRemovalAt >= 0;
    assert r.guardianCount - r.pendingCount >= MIN_ACTIVE_GUARDIANS;
    hide Valid, Registered, UnderNotice;
  }

  // ---- Runs ----

  function Run(gov: Governance, r: Registry, ops: seq<Op>): Result<Registry, GuardianError> {
    if ops == [] then Ok(r) else
      var mid :- Run(gov, r, ops[..|ops| - 1]);
      Step(gov, mid, ops[|ops| - 1])
  }

  /** What initialize leaves: one guardian, appointed at `now`. */
  function Genesis(guardian: Pubkey, now: i64): Registry { Registry(1, 0, map[guardian := Guardian(now, 0, 0, false)]) }

  ghost predicate Clocked(ops: seq<Op>) { forall op | op in ops :: 0 < op.now <= I64_MAX - U32_MAX }

  lemma GenesisIsValid(first: Pubkey, at: i64)
    requires at > 0
    ensures Valid(Genesis(first, at))
  {
    var r := Genesis(first, at);
    assert Registered(r.accounts) == {first} && UnderNotice(r.accounts) == {};
  }

  lemma {:induction false} CountersStayExact(gov: Governance, start: Registry, ops: seq<Op>)
    requires Valid(start) && Clocked(ops) && Run(gov, start, ops).Ok?
    ensures Valid(Run(gov, start, ops).value)
  {
    if ops != [] {
      var init, op := ops[..|ops| - 1], ops[|ops| - 1];
      assert op in ops;
      CountersStayExact(gov, start, init);
      StepKeepsValid(gov, Run(gov, start, init).value, op);
    }
  }

  /** The registry after any attempts: a refused one changes nothing. */
  function Attempt(gov: Governance, r: Registry, ops: seq<Op>): Registry {
    if ops == [] then r else
      var mid := Attempt(gov, r, ops[..|ops| - 1]);
      var res := Step(gov, mid, ops[|ops| - 1]);
      if res.Ok? then res.value else mid
  }

  /** The last accepted operation about a guardian. */
  function LastAbout(ops: seq<Op>, guardian: Pubkey): Option<Op> {
    if ops == [] then None
    else if ops[|ops| - 1].guardian == guardian then Some(ops[|ops| - 1])
    else LastAbout(ops[..|ops| - 1], guardian)
  }

  /** A notice in force is the one the last operation about its guardian gave. */
  lemma {:induction false} NoticeIsTheLastWord(gov: Governance, first: Pubkey, at: i64, ops: seq<Op>, guardian: Pubkey)
    requires at > 0 && Clocked(ops) && Run(gov, Genesis(first, at), ops).Ok?
    requires var r := Run(gov, Genesis(first, at), ops).value;
             guardian in r.accounts && r.accounts[guardian].pendingRemovalAt != 0
    ensures var last := LastAbout(ops, guardian);
            && last.Some? && last.value.Schedule?
            && last.value.now + gov.timelockSeconds
               == Run(gov, Genesis(first, at), ops).value.accounts[guardian].pendingRemovalAt
  {
    if ops != [] {
      var init, op := ops[..|ops| - 1], ops[|ops| - 1];
      var r := Run(gov, Genesis(first, at), init).value;
      assert op in ops;
      GenesisIsValid(first, at);
      CountersStayExact(gov, Genesis(first, at), init);
      if op.guardian != guardian {
        NoticeIsTheLastWord(gov, first, at, init, guardian);
      }
    }
  }

  /** A removal is applied only after the full notice, and only inside the execution window: whatever
      happened before, the last operation about that guardian was the admin giving notice. */
  lemma RemovalNeedsFullNotice(gov: Governance, first: Pubkey, at: i64, ops: seq<Op>, op: Op)
    requires at > 0 && Clocked(ops) && op.Finalize? && Run(gov, Genesis(first, at), ops + [op]).Ok?
    ensures var last := LastAbout(ops, op.guardian);
            && last.Some? && last.value.Schedule? && last.value.signer == gov.admin
            && last.value.now + gov.timelockSeconds <= op.now
            && op.now <= last.value.now + gov.timelockSeconds + GUARDIAN_REMOVAL_EXEC_WINDOW_SECONDS
  {
    assert (ops + [op])[..|ops|] == ops;
    NoticeIsTheLastWord(gov, first, at, ops, op.guardian);
    AcceptedScheduleIsAdmin(gov, Genesis(first, at), ops, op.guardian);
  }

  lemma {:induction false} AcceptedScheduleIsAdmin(gov: Governance, start: Registry, ops: seq<Op>, guardian: Pubkey)
    requires Run(gov, start, ops).Ok?
    ensures var last := LastAbout(ops, guardian); last.Some? && last.value.Schedule? ==> last.value.signer == gov.admin
  {
    if ops != [] && ops[|ops| - 1].guardian != guardian {
      AcceptedScheduleIsAdmin(gov, start, ops[..|ops| - 1], guardian);
    }
  }

  /** The operation is a removal after the notice, the admin's cancellation, or the guardian's own veto. */
  predicate EndsNotice(gov: Governance, op: Op, k: Pubkey, noticeAt: int, vetoLeft: bool) {
    op.guardian == k &&
    ((op.Finalize? && noticeAt <= op.now)
     || (op.Cancel? && (op.signer == gov.admin || (op.signer == k && vetoLeft))))
  }

  lemma LiveNoticeStep(gov: Governance, r: Registry, op: Op, k: Pubkey)
    requires Valid(r) && 0 < op.now <= I64_MAX - U32_MAX && Step(gov, r, op).Ok?
    requires k in r.accounts && r.accounts[k].pendingRemovalAt != 0
    requires op.now <= r.accounts[k].pendingRemovalAt + 7 * 86_400
    ensures EndsNotice(gov, op, k, r.accounts[k].pendingRemovalAt, !r.accounts[k].selfCancelUsed)
            || (k in Step(gov, r, op).value.accounts && Step(gov, r, op).value.accounts[k] == r.accounts[k])
  {
    StepExactly(gov, r, op);
    assert k in UnderNotice(r.accounts) && k in Registered(r.accounts);
    hide Valid, Registered, UnderNotice;
  }

  /** Nobody else can save a guardian from a live notice, or touch its account: over any run inside the
      execution window, the account stays as it is unless the removal is applied after the full notice, the
      admin cancels it, or the guardian spends its one veto. */
  lemma {:induction false} LiveNoticeEndsOnlyByRight(gov: Governance, start: Registry, ops: seq<Op>, k: Pubkey)
    requires Valid(start) && Clocked(ops) && Run(gov, start, ops).Ok?
    requires k in start.accounts && start.accounts[k].pendingRemovalAt != 0
    requires forall i | 0 <= i < |ops| :: ops[i].now <= start.accounts[k].pendingRemovalAt + 7 * 86_400
    ensures var g, end := start.accounts[k], Run(gov, start, ops).value;
            || (exists i | 0 <= i < |ops| :: EndsNotice(gov, ops[i], k, g.pendingRemovalAt, !g.selfCancelUsed))
            || (k in end.accounts && end.accounts[k] == g)
  {
    if ops != [] {
      var init, op := ops[..|ops| - 1], ops[|ops| - 1];
      var g := start.accounts[k];
      LiveNoticeEndsOnlyByRight(gov, start, init, k);
      CountersStayExact(gov, start, init);
      assert op in ops;
      hide Step, Valid, EndsNotice;
      if i :| 0 <= i < |init| && EndsNotice(gov, init[i], k, g.pendingRemovalAt, !g.selfCancelUsed) {
        assert ops[i] == init[i];
      } else {
        LiveNoticeStep(gov, Run(gov, start, init).value, op, k);
        assert op == ops[|ops| - 1];
      }
    }
  }

  /** A removed guardian stays out for an hour: until it is appointed again nothing changes its account, and
      no appointment is accepted before the cooldown is over. */
  lemma {:induction false} RemovedStaysOut(gov: Governance, start: Registry, removal: Op, ops: seq<Op>, again: Op)
    requires Valid(start) && 0 < removal.now <= I64_MAX - U32_MAX && removal.Finalize? && Step(gov, start, removal).Ok?
    requires Clocked(ops) && Run(gov, Step(gov, start, removal).value, ops).Ok?
    requires forall o | o in ops :: !(o.Add? && o.guardian == removal.guardian)
    requires again.Add? && again.guardian == removal.guardian && 0 < again.now <= I64_MAX - U32_MAX
    ensures var r := Run(gov, Step(gov, start, removal).value, ops).value;
            && removal.guardian in r.accounts
            && r.accounts[removal.guardian] == Step(gov, start, removal).value.accounts[removal.guardian]
            && removal.guardian !in Registered(r.accounts)
            && (Step(gov, r, again).Ok? ==> again.now >= removal.now + 3_600)
  {
    var removed := Step(gov, start, removal).value;
    StepKeepsValid(gov, start, removal);
    StepExactly(gov, start, removal);
    CountersStayExact(gov, removed, ops);
    StepExactly(gov, Run(gov, removed, ops).value, again);
    if ops != [] {
      var init, op := ops[..|ops| - 1], ops[|ops| - 1];
      assert op in ops;
      RemovedStaysOut(gov, start, removal, init, again);
      CountersStayExact(gov, removed, init);
      StepExactly(gov, Run(gov, removed, init).value, op);
      hide Step, Valid;
      assert removal.guardian !in UnderNotice(Run(gov, removed, init).value.accounts);
    }
    hide Step, Valid;
  }

  lemma {:induction false} SpentStaysSpent(gov: Governance, start: Registry, ops: seq<Op>, guardian: Pubkey)
    requires Run(gov, start, ops).Ok? && guardian in start.accounts && start.accounts[guardian].selfCancelUsed
    requires forall o | o in ops :: !(o.Add? && o.guardian == guardian)
    ensures var r := Run(gov, start, ops).value; guardian in r.accounts && r.accounts[guardian].selfCancelUsed
  {
    if ops != [] {
      assert ops[|ops| - 1] in ops;
      SpentStaysSpent(gov, start, ops[..|ops| - 1], guardian);
    }
  }

  /** The self-veto is spent once: after a guardian has cancelled its own live notice, it can never do so
      again, over any run in which it is not appointed anew. */
  lemma SelfVetoOnlyOnce(gov: Governance, start: Registry, veto: Op, ops: seq<Op>, again: Op)
    requires veto.Cancel? && Step(gov, start, veto).Ok? && SpendsSelfVeto(gov, start.accounts[veto.guardian], veto)
    requires Run(gov, Step(gov, start, veto).value, ops).Ok?
    requires forall o | o in ops :: !(o.Add? && o.guardian == veto.guardian)
    requires again.Cancel? && again.guardian == veto.guardian
    ensures var r := Run(gov, Step(gov, start, veto).value, ops).value;
            && again.guardian in r.accounts
            && (SpendsSelfVeto(gov, r.accounts[again.guardian], again) ==> Step(gov, r, again).Err?)
  {
    SpentStaysSpent(gov, Step(gov, start, veto).value, ops, veto.guardian);
  }

  // ---- The handlers, as they write the accounts ----

  function CheckedSub(a: u8, b: u8): Result<u8, GuardianError> { if b <= a then Ok(a - b) else Err(ArithmeticOverflow) }

  /** The registry as the program runs: each handler writes fields in order, an error may leave writes
      behind, and Submit undoes them, as the runtime does. */
  class GuardianProgram {
    const gov: Governance
    var guardianCount: u8
    var pendingCount: u8
    var accounts: map<Pubkey, Guardian>

    function Abstract(): Registry
      reads this
    {
      Registry(guardianCount, pendingCount, accounts)
    }

    constructor (gov: Governance, first: Pubkey, now: i64)
      ensures this.gov == gov && Abstract() == Genesis(first, now)
      ensures now > 0 ==> Valid(Abstract())
    {
      this.gov := gov;
      guardianCount, pendingCount := 1, 0;
      accounts := map[first := Guardian(now, 0, 0, false)];
      new;
      if now > 0 {
        GenesisIsValid(first, now);
      }
    }

    method AddGuardian(now: i64, guardian: Pubkey, signer: Pubkey) returns (r: Result<(), GuardianError>)
      modifies this
      ensures match AddStep(gov, old(Abstract()), Add(now, guardian, signer))
              case Err(e) => r == Err(e)
              case Ok(after) => r == Ok(()) && Abstract() == after
    {
      if signer != gov.admin || guardian == gov.admin || gov.pendingAdmin == Some(guardian) {
        return Err(Unauthorized);
      }
      var g := if guardian in accounts then accounts[guardian] else FRESH_ACCOUNT;
      if g.cooldownUntil != 0 && now < g.cooldownUntil {
        return Err(GuardianInCooldown);
      }
      if g.addedAt != 0 && g.cooldownUntil == 0 {
        return Err(ProposalAlreadyActive);
      }
      if guardianCount >= gov.maxGuardianCount {
        return Err(GuardianCountExceeded);
      }
      if g.pendingRemovalAt != 0 {
        return Err(GuardianRemovalAlreadyScheduled);
      }
      g := g.(addedAt := now);
      g := g.(cooldownUntil := 0);
      g := g.(selfCancelUsed := false);
      accounts := accounts[guardian := g];
      guardianCount := Min(guardianCount + 1, 0xFF);
      r := Ok(());
    }

    method RemoveGuardian(now: i64, guardian: Pubkey, signer: Pubkey) returns (r: Result<(), GuardianError>)
      modifies this
      ensures match ScheduleStep(gov, old(Abstract()), Schedule(now, guardian, signer))
              case Err(e) => r == Err(e)
              case Ok(after) => r == Ok(()) && Abstract() == after
    {
      if signer != gov.admin {
        return Err(Unauthorized);
      }
      if guardian !in accounts {
        return Err(NoSuchAccount);
      }
      if accounts[guardian].cooldownUntil != 0 {
        return Err(GuardianInCooldown);
      }
      var existing := accounts[guardian].pendingRemovalAt;
      if !(existing == 0 || RemovalScheduleExpired(existing, now)) {
        return Err(GuardianRemovalAlreadyScheduled);
      }
      if now + gov.timelockSeconds > I64_MAX {
        return Err(ArithmeticOverflow);
      }
      var effectiveAt: i64 := now + gov.timelockSeconds;
      if existing == 0 {
        if !MayScheduleRemoval(guardianCount, pendingCount) {
          return Err(GuardianFloorBreached);
        }
        if pendingCount == 0xFF {
          return Err(ArithmeticOverflow);
        }
        pendingCount := pendingCount + 1;
      }
      accounts := accounts[guardian := accounts[guardian].(pendingRemovalAt := effectiveAt)];
      r := Ok(());
    }

    /** The account is closed for the cooldown before the counters are checked. */
    method FinalizeGuardianRemoval(now: i64, guardian: Pubkey) returns (r: Result<(), GuardianError>)
      modifies this
      ensures match FinalizeStep(old(Abstract()), Finalize(now, guardian))
              case Err(e) => r == Err(e)
              case Ok(after) => r == Ok(()) && Abstract() == after
    {
      if guardian !in accounts {
        return Err(NoSuchAccount);
      }
      if accounts[guardian].cooldownUntil != 0 {
        return Err(GuardianInCooldown);
      }
      var scheduled := accounts[guardian].pendingRemovalAt;
      if scheduled == 0 {
        return Err(GuardianRemovalNotScheduled);
      }
      if now < scheduled {
        return Err(TimelockNotElapsed);
      }
      if RemovalScheduleExpired(scheduled, now) {
        return Err(GuardianRemovalExpired);
      }
      if guardianCount <= MIN_ACTIVE_GUARDIANS {
        return Err(GuardianFloorBreached);
      }
      if now + GUARDIAN_REMOVE_COOLDOWN_SECONDS > I64_MAX {
        return Err(ArithmeticOverflow);
      }
      accounts := accounts[guardian := accounts[guardian].(cooldownUntil := now + GUARDIAN_REMOVE_COOLDOWN_SECONDS)];
      accounts := accounts[guardian := accounts[guardian].(pendingRemovalAt := 0)];
      guardianCount := guardianCount - 1;
      var pending :- CheckedSub(pendingCount, 1);
      pendingCount := pending;
      r := Ok(());
    }

    /** The veto is spent and the notice cleared before the counter is checked. */
    method CancelGuardianRemoval(now: i64, guardian: Pubkey, signer: Pubkey) returns (r: Result<(), GuardianError>)
      modifies this
      ensures match CancelStep(gov, old(Abstract()), Cancel(now, guardian, signer))
              case Err(e) => r == Err(e)
              case Ok(after) => r == Ok(()) && Abstract() == after
    {
      if guardian !in accounts {
        return Err(NoSuchAccount);
      }
      var scheduled := accounts[guardian].pendingRemovalAt;
      if scheduled == 0 {
        return Err(GuardianRemovalNotScheduled);
      }
      var expired := RemovalScheduleExpired(scheduled, now);
      if expired {
      } else if signer == gov.admin {
      } else if signer == guardian {
        if accounts[guardian].selfCancelUsed {
          return Err(GuardianSelfCancelExhausted);
        }
        accounts := accounts[guardian := accounts[guardian].(selfCancelUsed := true)];
      } else {
        return Err(Unauthorized);
      }
      accounts := accounts[guardian := accounts[guardian].(pendingRemovalAt := 0)];
      var pending :- CheckedSub(pendingCount, 1);
      pendingCount := pending;
      r := Ok(());
    }

    /** One transaction: it commits the transition, or it fails and changes nothing. */
    method Submit(op: Op) returns (r: Result<(), GuardianError>)
      modifies this
      ensures match Step(gov, old(Abstract()), op)
              case Err(e) => r == Err(e) && Abstract() == old(Abstract())
              case Ok(after) => r == Ok(()) && Abstract() == after
    {
      hide AddStep, ScheduleStep, FinalizeStep, CancelStep;
      var before := Abstract();
      match op {
        case Add(now, guardian, signer) => r := AddGuardian(now, guardian, signer);
        case Schedule(now, guardian, signer) => r := RemoveGuardian(now, guardian, signer);
        case Finalize(now, guardian) => r := FinalizeGuardianRemoval(now, guardian);
        case Cancel(now, guardian, signer) => r := CancelGuardianRemoval(now, guardian, signer);
      }
      if r.Err? {
        guardianCount, pendingCount, accounts := before.guardianCount, before.pendingCount, before.accounts;
      }
    }

    /** Any timeline of transactions, accepted or refused, keeps the counters equal to the real sets and one
        registered guardian free of notice; and none is ever refused for an underflow or at the finalize
        floor. */
    method SubmitAll(ops: seq<Op>) returns (results: seq<Result<(), GuardianError>>)
      modifies this
      ensures Abstract() == Attempt(gov, old(Abstract()), ops)
      ensures |results| == |ops|
      ensures Valid(old(Abstract())) && Clocked(ops) ==>
                && Valid(Abstract())
                && forall i | 0 <= i < |ops| ::
                     results[i] != Err(ArithmeticOverflow) && (ops[i].Finalize? ==> results[i] != Err(GuardianFloorBreached))
    {
      results := [];
      for i := 0 to |ops|
        invariant |results| == i
        invariant Abstract() == Attempt(gov, old(Abstract()), ops[..i])
        invariant Valid(old(Abstract())) && Clocked(ops) ==>
                    && Valid(Abstract())
                    && forall j | 0 <= j < i ::
                         results[j] != Err(ArithmeticOverflow) && (ops[j].Finalize? ==> results[j] != Err(GuardianFloorBreached))
      {
        hide Step, Valid;
        assert ops[..i + 1][..i] == ops[..i];
        if Valid(Abstract()) && Clocked(ops) {
          assert ops[i] in ops;
          StepKeepsValid(gov, Abstract(), ops[i]);
        }
        var r := Submit(ops[i]);
        results := results + [r];
      }
      assert ops[..|ops|] == ops;
    }
  }
}
