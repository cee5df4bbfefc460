/** The remote freshness authority: one record, changed only by full comparison.

  A request names the whole record it expects. Accepted requests drive the
  record through claim, activation, advance and release; the last request may
  be repeated exactly, and nothing else may reuse its operation id. Hashes of
  requests and session tokens are taken as injective: the state keeps the
  request and the token themselves.
 */
module Authority {
  import opened Records
  import opened Namespaces

  const MAX_GENERATION: nat := 0x7FFF_FFFF_FFFF_FFFF

  datatype Error = Invalid | Input | Denied | Conflict | Uncertain

  datatype Result<+T> = Ok(value: T) | Err(error: Error)

  datatype Anchor = Anchor(identity: Id, generation: nat, root: nat)

  datatype Descriptor = Descriptor(anchor: Anchor, epoch: nat, space: string)

  datatype Phase = Released | Claimed | RestoreClaimed | Active

  datatype Role = Writer | Admin

  datatype Authorized = Authorized(
    identity: Id,
    current: Option<Descriptor>,
    fence: nat,
    session: Id,
    phase: Phase,
    restoreSource: Option<Descriptor>,
    lastOperation: Id)

  datatype Action =
    | Inspect
    | Claim
    | Takeover
    | RecoverEnrollment
    | ClaimRestore(source: Descriptor)
    | Activate(descriptor: Descriptor)
    | Advance(anchor: Anchor)
    | Release

  /** Token 0 stands for the all-zero authorization. */
  datatype Request = Request(operation: Id, expected: Option<Authorized>, action: Action, token: Option<nat>)

  datatype State = State(record: Authorized, lastRequest: Option<(Role, Request)>, token: Option<nat>)

  predicate DescriptorOk(d: Descriptor) {
    && d.anchor.identity != NIL
    && d.anchor.generation <= MAX_GENERATION
    && d.epoch <= d.anchor.generation
    && NamespaceFence(d.space).Some?
  }

  /** An earlier descriptor of the same volume, inside the fence. */
  predicate SourceOk(source: Descriptor, current: Descriptor, identity: Id, fence: nat) {
    && DescriptorOk(source)
    && source.anchor.identity == identity
    && source.anchor.generation <= current.anchor.generation
    && source.epoch <= current.epoch
    && NamespaceFence(source.space).value <= fence
  }

  predicate CurrentOk(r: Authorized) {
    match r.current
    case None => !(r.phase.Active? || r.phase.RestoreClaimed?)
    case Some(d) =>
      && DescriptorOk(d)
      && d.anchor.identity == r.identity
      && NamespaceFence(d.space).value <= r.fence
      && (r.phase.Active? ==> d.space == Namespace(r.fence, r.session))
  }

  /** `Record::validate`. */
  predicate Validates(r: Authorized) {
    && r.identity != NIL
    && if r.fence == 0 then
         r.current.None? && r.session == NIL && r.phase.Released? && r.restoreSource.None? && r.lastOperation == NIL
       else
         && r.session != NIL && r.lastOperation != NIL
         && CurrentOk(r)
         && (r.restoreSource.Some? <==> r.phase.RestoreClaimed?)
         && (r.restoreSource.Some? ==>
               r.current.Some? && SourceOk(r.restoreSource.value, r.current.value, r.identity, r.fence))
  }

  /** A state as the authority stores it; counters fit their 64 bits. */
  predicate StateOk(s: State) {
    && Validates(s.record) && s.record.fence <= U64_MAX
    && (s.lastRequest.Some? <==> s.record.fence != 0)
    && (s.token.Some? <==> s.record.fence != 0)
  }

  function Initial(identity: Id): State {
    State(Authorized(identity, None, 0, NIL, Released, None, NIL), None, None)
  }

  function Increment(value: nat, maximum: nat): Result<nat> {
    if value + 1 <= maximum then Ok(value + 1) else Err(Input)
  }

  predicate Installs(action: Action) {
    action.Claim? || action.Takeover? || action.RecoverEnrollment? || action.ClaimRestore?
  }

  /** Claims of every kind: a higher fence and a fresh session. */
  function Install(r: Authorized, role: Role, request: Request): Result<Authorized>
    requires Installs(request.action)
  {
    var action := request.action;
    if action.Claim? && !r.phase.Released? then Err(Conflict)
    else if !action.Claim? && !role.Admin? then Err(Denied)
    else if action.Takeover? && r.current.None? then Err(Input)
    else if action.RecoverEnrollment? && (r.current.Some? || !(r.phase.Released? || r.phase.Claimed?)) then Err(Input)
    else if action.ClaimRestore? && !DescriptorOk(action.source) then Err(Invalid)
    else if action.ClaimRestore? && r.current.None? then Err(Input)
    else if action.ClaimRestore? && !SourceOk(action.source, r.current.value, r.identity, r.fence) then Err(Input)
    else if action.ClaimRestore?
      && (Increment(r.current.value.epoch, MAX_GENERATION).Err? || Increment(r.current.value.anchor.generation, MAX_GENERATION).Err?)
    then Err(Input)
    else
      match Increment(r.fence, U64_MAX)
      case Err(e) => Err(e)
      case Ok(fence) =>
        if action.ClaimRestore? then
          Ok(r.(restoreSource := Some(action.source), phase := RestoreClaimed, fence := fence, session := request.operation))
        else
          Ok(r.(restoreSource := None, phase := Claimed, fence := fence, session := request.operation))
  }

  function ActivateClaim(r: Authorized, role: Role, d: Descriptor): Result<Authorized> {
    if !DescriptorOk(d) then Err(Invalid)
    else if d.anchor.identity != r.identity || d.space != Namespace(r.fence, r.session) then Err(Input)
    else
      var next := r.(current := Some(d), restoreSource := None, phase := Active);
      match r.phase
      case Claimed =>
        if r.current.Some? && (d.anchor != r.current.value.anchor || d.epoch != r.current.value.epoch) then Err(Input)
        else if r.current.None? && (d.anchor.generation != 0 || d.epoch != 0) then Err(Input)
        else Ok(next)
      case RestoreClaimed =>
        if !role.Admin? then Err(Denied)
        else if r.current.None? then Err(Invalid)
        else if Increment(r.current.value.anchor.generation, MAX_GENERATION) != Ok(d.anchor.generation)
          || Increment(r.current.value.epoch, MAX_GENERATION) != Ok(d.epoch) then Err(Input)
        else Ok(next)
      case _ => Err(Input)
  }

  function AdvanceAnchor(r: Authorized, anchor: Anchor): Result<Authorized> {
    if !r.phase.Active? then Err(Input)
    else if r.current.None? then Err(Invalid)
    else if anchor.identity != r.identity
      || Increment(r.current.value.anchor.generation, MAX_GENERATION) != Ok(anchor.generation) then Err(Input)
    else Ok(r.(current := Some(r.current.value.(anchor := anchor))))
  }

  function ReleaseClaim(r: Authorized, role: Role): Result<Authorized> {
    if r.phase.Released? then Err(Input)
    else if r.phase.RestoreClaimed? && !role.Admin? then Err(Denied)
    else Ok(r.(phase := Released, restoreSource := None))
  }

  /** `transition`: what an accepted request makes of the record. */
  function Transition(r: Authorized, role: Role, request: Request): Result<Authorized>
    requires !request.action.Inspect?
  {
    match request.action
    case Activate(d) => ActivateClaim(r, role, d)
    case Advance(anchor) => AdvanceAnchor(r, anchor)
    case Release => ReleaseClaim(r, role)
    case Claim => Install(r, role, request)
    case Takeover => Install(r, role, request)
    case RecoverEnrollment => Install(r, role, request)
    case ClaimRestore(_) => Install(r, role, request)
  }

  /** `CanonicalState::apply`, the final `validate` included. */
  function Apply(s: State, role: Role, request: Request): Result<State> {
    if request.action.Inspect? then
      if request.token.Some? then Err(Input)
      else if request.expected.Some? && request.expected.value != s.record then Err(Conflict)
      else Ok(s)
    else if request.operation == NIL then Err(Input)
    else if request.operation == s.record.lastOperation then
      if s.lastRequest == Some((role, request)) then Ok(s) else Err(Input)
    else if request.expected != Some(s.record) then Err(Conflict)
    else if request.token.None? then Err(Denied)
    else if request.token.value == 0 then Err(Input)
    else if !Installs(request.action) && s.token.None? then Err(Invalid)
    else if !Installs(request.action) && s.token != request.token then Err(Denied)
    else
      match Transition(s.record, role, request)
      case Err(e) => Err(e)
      case Ok(next) =>
        var record := next.(lastOperation := request.operation);
        if !Validates(record) then Err(Invalid)
        else Ok(State(record, Some((role, request)), if Installs(request.action) then request.token else s.token))
  }

  // Validity. -------------------------------------------------------------------

  /** From a valid record every successful transition validates: the final check
      of `apply` never fires. */
  lemma TransitionValidates(r: Authorized, role: Role, request: Request)
    requires Validates(r) && r.fence <= U64_MAX && !request.action.Inspect? && request.operation != NIL
    requires Transition(r, role, request).Ok?
    ensures
      var next := Transition(r, role, request).value.(lastOperation := request.operation);
      Validates(next) && next.fence <= U64_MAX && next.fence != 0
  {
    hide NamespaceFence, Namespace;
    if r.fence > 0 {
      NamespaceRoundTrip(r.fence, r.session);
    }
  }

  lemma ApplyKeepsState(s: State, role: Role, request: Request)
    requires StateOk(s) && Apply(s, role, request).Ok?
    ensures StateOk(Apply(s, role, request).value)
    ensures Apply(s, role, request).value.record.identity == s.record.identity
  {
    hide NamespaceFence, Namespace, Validates, Transition;
    var t := Apply(s, role, request).value;
    if t != s {
      TransitionValidates(s.record, role, request);
      TransitionKeepsIdentity(s.record, role, request);
    }
  }

  lemma TransitionKeepsIdentity(r: Authorized, role: Role, request: Request)
    requires !request.action.Inspect? && Transition(r, role, request).Ok?
    ensures Transition(r, role, request).value.identity == r.identity
  {
    hide NamespaceFence, Namespace;
  }

  lemma InitialOk(identity: Id)
    requires identity != NIL
    ensures StateOk(Initial(identity))
  {
  }

  // No value recurs. --------------------------------------------------------------

  function PhaseRank(phase: Phase): nat {
    match phase
    case Claimed => 0
    case RestoreClaimed => 0
    case Active => 1
    case Released => 2
  }

  function Generation(r: Authorized): nat {
    if r.current.Some? then r.current.value.anchor.generation else 0
  }

  /** The lexicographic order (fence, phase rank, generation). */
  predicate Precedes(a: Authorized, b: Authorized) {
    || a.fence < b.fence
    || (a.fence == b.fence && PhaseRank(a.phase) < PhaseRank(b.phase))
    || (a.fence == b.fence && a.phase == b.phase && Generation(a) < Generation(b))
  }

  lemma TransitionPrecedes(r: Authorized, role: Role, request: Request)
    requires !request.action.Inspect? && Transition(r, role, request).Ok?
    ensures Precedes(r, Transition(r, role, request).value) && NotOlder(r, Transition(r, role, request).value)
    ensures Installs(request.action) ==> Transition(r, role, request).value.fence == r.fence + 1
    ensures !Installs(request.action) ==>
      Transition(r, role, request).value.fence == r.fence && Transition(r, role, request).value.session == r.session
  {
    hide NamespaceFence, Namespace;
  }

  /** A mutation: an accepted request that is not a repetition or an inspection. */
  ghost predicate Mutates(s: State, t: State) {
    exists role, request :: Step(s, t, role, request)
  }

  predicate Step(s: State, t: State, role: Role, request: Request) {
    Apply(s, role, request) == Ok(t) && t != s
  }

  lemma StepFacts(s: State, t: State, role: Role, request: Request)
    requires StateOk(s) && Step(s, t, role, request)
    ensures StateOk(t) && Precedes(s.record, t.record)
    ensures t.record.identity == s.record.identity
    ensures request.expected == Some(s.record) && t.record.lastOperation == request.operation
    ensures if Installs(request.action) then
              t.record.fence == s.record.fence + 1 && t.token == request.token
            else
              t.record.fence == s.record.fence && t.record.session == s.record.session && t.token == s.token == request.token
  {
    hide NamespaceFence, Namespace, Validates, Transition;
    ApplyKeepsState(s, role, request);
    TransitionPrecedes(s.record, role, request);
  }

  // Freshness. -------------------------------------------------------------------

  /** What may be asked of a record, and by whom. */
  predicate Permitted(r: Authorized, role: Role, action: Action) {
    match action
    case Inspect => false
    case Claim => r.phase.Released? && r.fence < U64_MAX
    case Takeover => role.Admin? && r.current.Some? && r.fence < U64_MAX
    case RecoverEnrollment =>
      role.Admin? && r.current.None? && (r.phase.Released? || r.phase.Claimed?) && r.fence < U64_MAX
    case ClaimRestore(source) =>
      && role.Admin? && r.current.Some? && r.fence < U64_MAX
      && SourceOk(source, r.current.value, r.identity, r.fence)
      && r.current.value.anchor.generation < MAX_GENERATION && r.current.value.epoch < MAX_GENERATION
    case Activate(d) =>
      && DescriptorOk(d) && d.anchor.identity == r.identity && d.space == Namespace(r.fence, r.session)
      && (r.phase.Claimed? || (r.phase.RestoreClaimed? && role.Admin?))
      && if r.current.None? then
           r.phase.Claimed? && d.anchor.generation == 0 && d.epoch == 0
         else if r.phase.Claimed? then
           d.anchor == r.current.value.anchor && d.epoch == r.current.value.epoch
         else
           d.anchor.generation == r.current.value.anchor.generation + 1 && d.epoch == r.current.value.epoch + 1
    case Advance(anchor) =>
      && r.phase.Active? && r.current.Some? && anchor.identity == r.identity
      && anchor.generation == r.current.value.anchor.generation + 1 <= MAX_GENERATION
    case Release => !r.phase.Released? && (r.phase.RestoreClaimed? ==> role.Admin?)
  }

  /** A first delivery: a new operation that names the whole record and carries
      the session's token, or a token of its own where it starts a session. */
  predicate Delivered(s: State, request: Request) {
    && !request.action.Inspect?
    && request.operation != NIL && request.operation != s.record.lastOperation
    && request.expected == Some(s.record)
    && request.token.Some? && request.token.value != 0
    && (!Installs(request.action) ==> s.token == request.token)
  }

  /** `apply` accepts exactly the matching inspections, the exact repetition of
      the last request, and what is delivered and permitted. */
  lemma AcceptedExactly(s: State, role: Role, request: Request)
    requires StateOk(s)
    ensures Apply(s, role, request).Ok? <==>
      || (request.action.Inspect? && request.token.None? && (request.expected.Some? ==> request.expected.value == s.record))
      || (!request.action.Inspect? && request.operation != NIL && s.lastRequest == Some((role, request))
          && request.operation == s.record.lastOperation)
      || (Delivered(s, request) && Permitted(s.record, role, request.action))
  {
    hide NamespaceFence, Namespace, Validates;
    if Delivered(s, request) {
      PermittedExactly(s.record, role, request);
      if Transition(s.record, role, request).Ok? {
        TransitionValidates(s.record, role, request);
      }
    }
  }

  lemma PermittedExactly(r: Authorized, role: Role, request: Request)
    requires Validates(r) && r.fence <= U64_MAX && !request.action.Inspect?
    ensures Transition(r, role, request).Ok? <==> Permitted(r, role, request.action)
  {
    hide NamespaceFence, Namespace;
  }

  /** What a mutation makes of the record, action by action. */
  predicate Changes(a: Authorized, b: Authorized, role: Role, request: Request) {
    && b.identity == a.identity && b.lastOperation == request.operation
    && (Installs(request.action) ==>
          b.fence == a.fence + 1 && b.session == request.operation && b.current == a.current)
    && (!Installs(request.action) ==> b.fence == a.fence && b.session == a.session)
    && match request.action
       case Inspect => false
       case Claim => b.phase.Claimed? && b.restoreSource.None?
       case Takeover => b.phase.Claimed? && b.restoreSource.None?
       case RecoverEnrollment => b.phase.Claimed? && b.restoreSource.None?
       case ClaimRestore(source) => b.phase.RestoreClaimed? && b.restoreSource == Some(source)
       case Activate(d) => b.phase.Active? && b.restoreSource.None? && b.current == Some(d)
       case Advance(anchor) =>
         && b.phase.Active? && b.restoreSource == a.restoreSource
         && a.current.Some? && b.current == Some(a.current.value.(anchor := anchor))
       case Release => b.phase.Released? && b.restoreSource.None? && b.current == a.current
  }

  lemma StepExactly(s: State, t: State, role: Role, request: Request)
    requires StateOk(s)
    ensures Step(s, t, role, request) <==>
      && Delivered(s, request) && Permitted(s.record, role, request.action)
      && Changes(s.record, t.record, role, request)
      && t.lastRequest == Some((role, request)) && t.token == request.token
  {
    hide NamespaceFence, Namespace, Validates, Permitted, Transition;
    AcceptedExactly(s, role, request);
    if Delivered(s, request) && Permitted(s.record, role, request.action) {
      PermittedExactly(s.record, role, request);
      TransitionChanges(s.record, role, request);
      ChangesOnce(s.record, t.record, Apply(s, role, request).value.record, role, request);
    }
  }

  lemma TransitionChanges(r: Authorized, role: Role, request: Request)
    requires !request.action.Inspect? && Transition(r, role, request).Ok?
    ensures Changes(r, Transition(r, role, request).value.(lastOperation := request.operation), role, request)
  {
    hide NamespaceFence, Namespace;
  }

  lemma ChangesOnce(a: Authorized, b: Authorized, c: Authorized, role: Role, request: Request)
    requires Changes(a, c, role, request)
    ensures Changes(a, b, role, request) <==> b == c
  {
  }

  /** No older: an enrolled volume stays enrolled, neither counter falls, and one
      generation has one anchor and one epoch. */
  predicate NotOlder(a: Authorized, b: Authorized) {
    a.current.Some? ==>
      && b.current.Some?
      && a.current.value.anchor.generation <= b.current.value.anchor.generation
      && a.current.value.epoch <= b.current.value.epoch
      && (a.current.value.anchor.generation == b.current.value.anchor.generation ==>
            a.current.value.anchor == b.current.value.anchor && a.current.value.epoch == b.current.value.epoch)
  }

  /** How far one mutation moves the counters: an advance and a restore by exactly
      one, the epoch only by a restore, anything else not at all. */
  lemma StepIsFresh(s: State, t: State, role: Role, request: Request)
    requires StateOk(s) && Step(s, t, role, request)
    ensures NotOlder(s.record, t.record)
    ensures s.record.current.None? && t.record.current.Some? ==>
      request.action.Activate? && t.record.current.value.anchor.generation == 0 && t.record.current.value.epoch == 0
    ensures s.record.current.Some? ==>
      var restores := request.action.Activate? && s.record.phase.RestoreClaimed?;
      && t.record.current.value.anchor.generation - s.record.current.value.anchor.generation
         == (if restores || request.action.Advance? then 1 else 0)
      && t.record.current.value.epoch - s.record.current.value.epoch == (if restores then 1 else 0)
      && (restores ==> role.Admin?)
  {
    hide NamespaceFence, Namespace, Validates, Apply, StateOk, Step;
    StepExactly(s, t, role, request);
  }

  /** Repeating the request that led to a state leaves it alone, and a retry after
      an uncertain outcome ends in the same state whether or not it had happened. */
  lemma RetryConverges(s: State, role: Role, request: Request)
    requires StateOk(s) && Apply(s, role, request).Ok?
    ensures
      var t := Apply(s, role, request).value;
      Apply(t, role, request) == Ok(t)
  {
    hide NamespaceFence, Namespace, Validates, Transition;
  }

  /** A run of the authority: every state follows from the one before. */
  ghost predicate IsRun(run: seq<State>) {
    && (|run| > 0 ==> StateOk(run[0]))
    && (forall i :: 0 < i < |run| ==> Mutates(run[i - 1], run[i]))
  }

  lemma {:induction false} RunPrecedes(run: seq<State>, i: nat, j: nat)
    requires IsRun(run) && i <= j < |run|
    ensures StateOk(run[j]) && run[j].record.identity == run[0].record.identity
    ensures i < j ==> Precedes(run[i].record, run[j].record)
    ensures run[i].record.fence <= run[j].record.fence
  {
    if j > 0 {
      RunPrecedes(run, if i < j then i else j - 1, j - 1);
      assert Mutates(run[j - 1], run[j]);
      var role, request :| Step(run[j - 1], run[j], role, request);
      StepFacts(run[j - 1], run[j], role, request);
      PrecedesTransitive(run[if i < j then i else j - 1].record, run[j - 1].record, run[j].record);
    }
  }

  lemma PrecedesTransitive(a: Authorized, b: Authorized, c: Authorized)
    requires Precedes(b, c) && (a == b || Precedes(a, b))
    ensures Precedes(a, c) && a.fence <= c.fence
  {
  }

  /** Over a whole run the certified state never goes back. */
  lemma {:induction false} RunIsFresh(run: seq<State>, i: nat, j: nat)
    requires IsRun(run) && i <= j < |run|
    ensures NotOlder(run[i].record, run[j].record)
  {
    hide StateOk, Step;
    if i < j {
      RunPrecedes(run, i, j - 1);
      RunIsFresh(run, i, j - 1);
      assert Mutates(run[j - 1], run[j]);
      var role, request :| Step(run[j - 1], run[j], role, request);
      StepIsFresh(run[j - 1], run[j], role, request);
    }
  }

  lemma RunEndsFresh(run: seq<State>)
    requires IsRun(run) && |run| > 0
    ensures forall s :: s in run ==> NotOlder(s.record, run[|run| - 1].record)
  {
    hide IsRun, NotOlder;
    forall s | s in run
      ensures NotOlder(s.record, run[|run| - 1].record)
    {
      var i :| 0 <= i < |run| && run[i] == s;
      RunIsFresh(run, i, |run| - 1);
    }
  }

  /** No ABA: a record value never returns, so a stale comparison never succeeds. */
  lemma StaleNeverMatches(run: seq<State>, i: nat, j: nat, role: Role, request: Request)
    requires IsRun(run) && i < j < |run|
    requires request.expected == Some(run[i].record) && !request.action.Inspect?
    ensures run[i].record != run[j].record
    ensures Apply(run[j], role, request).Ok? ==> Apply(run[j], role, request) == Ok(run[j])
    ensures request.operation != NIL && request.operation != run[j].record.lastOperation ==>
      Apply(run[j], role, request) == Err(Conflict)
  {
    hide NamespaceFence, Namespace, Validates, Transition;
    RunPrecedes(run, i, j);
  }

  // Fencing. ------------------------------------------------------------------------

  /** Two sessions of a run, told apart by their fences, never share a namespace. */
  lemma SessionsApart(run: seq<State>, i: nat, j: nat)
    requires IsRun(run) && i <= j < |run| && run[i].record.fence != run[j].record.fence
    ensures Namespace(run[i].record.fence, run[i].record.session) != Namespace(run[j].record.fence, run[j].record.session)
  {
    hide Namespace, NamespaceFence, Validates;
    RunPrecedes(run, i, i);
    RunPrecedes(run, i, j);
    var a, b := run[i].record, run[j].record;
    if Namespace(a.fence, a.session) == Namespace(b.fence, b.session) {
      NamespaceInjective(a.fence, a.session, b.fence, b.session);
    }
  }

  /** While a session is installed, its token and its id stay. */
  lemma {:induction false} SessionStays(run: seq<State>, i: nat, j: nat)
    requires IsRun(run) && i <= j < |run| && run[i].record.fence == run[j].record.fence
    ensures run[j].token == run[i].token && run[j].record.session == run[i].record.session
  {
    if i < j {
      RunPrecedes(run, i, j - 1);
      RunPrecedes(run, j - 1, j);
      SessionStays(run, i, j - 1);
      assert Mutates(run[j - 1], run[j]);
      var role, request :| Step(run[j - 1], run[j], role, request);
      StepFacts(run[j - 1], run[j], role, request);
    }
  }

  /** A token other than the installed session's cannot activate, advance or
      release: at most it sees the last request repeated. */
  lemma OldTokenFenced(run: seq<State>, i: nat, j: nat, role: Role, request: Request)
    requires IsRun(run) && i <= j < |run| && run[i].record.fence == run[j].record.fence
    requires request.action.Activate? || request.action.Advance? || request.action.Release?
    requires request.token != run[i].token
    ensures Apply(run[j], role, request).Err? || Apply(run[j], role, request) == Ok(run[j])
    ensures forall t :: !Step(run[j], t, role, request)
  {
    hide NamespaceFence, Namespace, Validates, Transition;
    SessionStays(run, i, j);
  }

  // The stored authority. -------------------------------------------------------------

  /** The authority and its state file. Until a publication succeeds, a crash may
      show the old or the new state; then the handle is unusable until reopened. */
  class StateStore {
    var stored: State
    var poisoned: bool
    var file: set<State>
    /** The states that were ever the authority's, in order. */
    ghost var run: seq<State>

    ghost predicate Valid()
      reads this
    {
      && IsRun(run) && |run| > 0 && run[|run| - 1] == stored
      && StateOk(stored)
      && stored in file
      && (!poisoned ==> file == {stored})
      && (forall s :: s in file ==> s == stored || Mutates(stored, s))
    }

    constructor (identity: Id)
      requires identity != NIL
      ensures Valid() && !poisoned && stored == Initial(identity)
    {
      stored, poisoned, file := Initial(identity), false, {Initial(identity)};
      run := [Initial(identity)];
      new;
      InitialOk(identity);
    }

    /** `handle`: compare, apply, publish, and only then answer. */
    method Handle(role: Role, request: Request) returns (r: Result<Authorized>)
      requires Valid()
      modifies this
      ensures Valid() && old(run) <= run
      ensures r.Ok? ==> !poisoned && Apply(old(stored), role, request) == Ok(stored) && r.value == stored.record
      ensures r.Err? ==> stored == old(stored)
      ensures r.Err? && !poisoned ==> Apply(old(stored), role, request) == Err(r.error)
      ensures old(poisoned) ==> r == Err(Uncertain) && poisoned && file == old(file)
      ensures forall s :: s in old(run) ==> NotOlder(s.record, stored.record)
      ensures Apply(old(stored), role, request).Err? ==> file == old(file)
      ensures !old(poisoned) && poisoned ==> Apply(old(stored), role, request).Ok? || file == old(file)
    {
      hide Apply, StateOk, IsRun, NotOlder;
      RunEndsFresh(run);
      if poisoned {
        return Err(Uncertain);
      }
      var readable: bool := *;
      if !readable {
        poisoned := true;
        return Err(Uncertain);
      }
      var candidate := Apply(stored, role, request);
      if candidate.Err? {
        return Err(candidate.error);
      }
      var next := candidate.value;
      if next == stored {
        return Ok(stored.record);
      }
      assert Step(stored, next, role, request);
      StepFacts(stored, next, role, request);
      file := file + {next};
      var published: bool := *;
      if !published {
        poisoned := true;
        return Err(Uncertain);
      }
      RunGrows(run, next);
      stored, file, run := next, {next}, run + [next];
      RunEndsFresh(run);
      return Ok(next.record);
    }

    /** Reopen after a crash or a failed publication: what is read is published
        again before anything is acknowledged. */
    method Reopen() returns (ok: bool)
      requires Valid()
      modifies this
      ensures Valid() && (ok ==> !poisoned) && old(run) <= run
      ensures stored == old(stored) || Mutates(old(stored), stored)
      ensures stored in old(file) && (ok ==> file == {stored})
      ensures forall s :: s in old(run) ==> NotOlder(s.record, stored.record)
    {
      hide Apply, StateOk, IsRun, NotOlder;
      RunEndsFresh(run);
      var seen :| seen in file;
      ok := *;
      if !ok {
        poisoned := true;
        return;
      }
      if seen != stored {
        MutationKeepsState(stored, seen);
        RunGrows(run, seen);
        run := run + [seen];
        RunEndsFresh(run);
      }
      stored, file, poisoned := seen, {seen}, false;
    }
  }

  lemma MutationKeepsState(s: State, t: State)
    requires StateOk(s) && Mutates(s, t)
    ensures StateOk(t)
  {
    hide Apply, StateOk;
    var role, request :| Step(s, t, role, request);
    StepFacts(s, t, role, request);
  }

  lemma RunGrows(run: seq<State>, t: State)
    requires IsRun(run) && |run| > 0 && Mutates(run[|run| - 1], t)
    ensures IsRun(run + [t])
  {
    hide Apply, StateOk;
    var grown := run + [t];
    forall i | 0 < i < |grown|
      ensures Mutates(grown[i - 1], grown[i])
    {
      if i < |run| { assert Mutates(run[i - 1], run[i]); }
    }
  }
}
