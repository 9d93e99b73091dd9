/** Selecting one research snapshot for a Matchweek, witnessing it once, and sealing it with a
    receipt: a single-use operation over two reserved slots and one transmission. */
module Seal {
  import opened Wrappers

  datatype Role = Selection | Receipt

  datatype Phase =
    | Fresh | SelectionAttempt | SelectionCommitted | WitnessPhase
    | Acknowledged | ReceiptAttempt | Finished | Revoked

  /** What a selection binds before it is witnessed, and the request that carries it. */
  datatype Binding = Binding(logical: string, selection: string, entropy: string)
  datatype Request = Request(binding: Binding, nonce: nat)

  datatype Selected = Selected(digest: string, causal: bool, root: string, cutoff: nat, created: nat)
  datatype Receipted = Receipted(
    digest: string, causal: bool, refs: set<string>, created: nat, answered: Option<Event>)
  datatype Sent = Sent(logical: string, request: Request)

  /** All that outlives a process: the indexed slots of each logical Matchweek, and what
      already left on the wire. */
  datatype World = World(selections: map<string, Selected>, receipts: map<string, Receipted>, wire: seq<Sent>)

  /** A manifest drafted for one of the two slots. */
  datatype Draft = Draft(
    digest: string, role: Role, logical: string, parented: bool, created: nat, refs: set<string>, root: string,
    cutoff: nat)

  datatype Graph = Graph(logical: string, root: string, refs: set<string>, cutoff: nat)

  datatype Event = Event(request: Request, lower: nat, upper: nat, provenance: string, digests: set<string>)

  datatype Outcome = Qualified(digest: string) | Failed | Crashed

  /** What an operation leaves behind: a slot taken by a draft, or a request sent. */
  datatype Effect = Inserted(draft: Draft) | Transmitted(request: Request) {
    /** The selection comes first, the transmission second, the receipt third. */
    function Stage(): nat {
      if Transmitted? then 1 else if draft.role.Selection? then 0 else 2
    }
  }

  /** Whether the approval still holds at each of its three checks, the connection comes up,
      and what verified event the reply holds, if any. */
  datatype Exchange = Exchange(atObtain: bool, atStart: bool, connected: bool, atDispatch: bool, reply: Option<Event>) {
    predicate Reaches() {
      atStart && connected && atDispatch
    }
  }

  datatype Held = Held(request: Request, sent: bool, started: bool, event: Option<Event>)

  /** The calls an operation takes, with what each of them finds outside the operation. */
  datatype Call =
    | Configure(g: Graph)
    | Start(role: Role)
    | Bind(d: Draft)
    | Authorize(d: Draft, current: bool, free: bool, unsealed: bool)
    | Commit(digest: string)
    | Acknowledge(now: nat, cutoff: nat)
    | BeginWitness(entropy: string, nonce: nat, indexed: Option<string>)
    | Obtain(x: Exchange, alive: bool)
    | AcceptWitness(e: Event, now: nat)

  /** The value of an operation: its fields, the draft behind its expected digest, and its effects. */
  datatype Authority = Authority(
    logical: string, phase: Phase, expected: Option<string>, bound: Option<Draft>, inserted: bool,
    selection: Option<string>, upper: Option<nat>, graph: Option<Graph>, attempt: Option<Held>,
    refs: Option<set<string>>, busy: bool, log: seq<Effect>)
  {
    function Due(): Role {
      if phase.ReceiptAttempt? then Role.Receipt else Role.Selection
    }

    /** A draft is admitted only if it is the one this operation is about to publish. */
    predicate Admits(d: Draft) {
      && (phase.SelectionAttempt? || phase.ReceiptAttempt?)
      && expected.None? && d.logical == logical && d.role == Due()
      && d.parented == phase.ReceiptAttempt?
      && (phase.ReceiptAttempt? ==>
            && Some(d.created) == upper
            && (if graph.Some? then Some(d.refs) == refs else selection.Some? && d.refs == {selection.value}))
      && (phase.SelectionAttempt? && graph.Some? ==> d.refs == graph.value.refs)
    }

    /** The insertion is of the bound draft, and its authority is unspent. */
    predicate Claims(d: Draft) {
      !inserted && expected == Some(d.digest) && d.logical == logical && d.role == Due()
    }

    predicate CanConfigure(g: Graph) {
      phase.Fresh? && graph.None? && g.logical == logical
    }

    predicate CanStart(role: Role) {
      !busy && phase == (if role.Selection? then Fresh else Acknowledged)
    }

    function Started(role: Role): Authority {
      this.(phase := if role.Selection? then SelectionAttempt else ReceiptAttempt,
            expected := None, bound := None, inserted := false)
    }

    function Bound(d: Draft): Authority {
      this.(expected := Some(d.digest), bound := Some(d))
    }

    predicate CanInsert(d: Draft, current: bool, free: bool, unsealed: bool) {
      && Claims(d) && free
      && (d.role.Selection? && graph.Some? ==> unsealed)
      && (d.role.Receipt? && graph.Some? ==> attempt.Some? && current)
    }

    /** A refused insertion spends the authority too, once the draft is the bound one. */
    function Authorized(d: Draft, current: bool, free: bool, unsealed: bool): Authority {
      if !Claims(d) then this
      else
        var lands := CanInsert(d, current, free, unsealed) && bound.Some?;
        this.(inserted := true, log := if lands then log + [Inserted(bound.value)] else log)
    }

    predicate CanCommit(digest: string) {
      inserted && expected == Some(digest) && (phase.SelectionAttempt? || phase.ReceiptAttempt?)
    }

    function Committed(digest: string): Authority {
      if phase.SelectionAttempt? then this.(phase := SelectionCommitted, selection := Some(digest))
      else this.(phase := Finished)
    }

    predicate CanAcknowledge(now: nat, cutoff: nat) {
      graph.None? && phase.SelectionCommitted? && now < cutoff
    }

    predicate CanBegin(indexed: Option<string>) {
      !busy && phase.SelectionCommitted? && attempt.None? && graph.Some? && selection.Some? && indexed == selection
    }

    function Begun(entropy: string, nonce: nat): Authority
      requires selection.Some?
    {
      var request := Request(Binding(logical, selection.value, entropy), nonce);
      this.(phase := WitnessPhase, attempt := Some(Held(request, false, false, None)))
    }

    predicate CanObtain() {
      !busy && phase.WitnessPhase? && attempt.Some? && !attempt.value.sent
    }

    predicate CanAccept(e: Event) {
      && !busy && phase.WitnessPhase? && attempt.Some? && attempt.value.sent
      && attempt.value.event == Some(e) && e.request == attempt.value.request
      && graph.Some? && e.upper < graph.value.cutoff && e.lower <= e.upper && selection.Some?
    }

    function Accepted(e: Event, now: nat): Authority
      requires selection.Some?
    {
      this.(phase := Acknowledged, upper := Some(now), refs := Some({selection.value, e.provenance} + e.digests))
    }

    /** The transport starts at most once, and sends nothing once the process is gone. */
    function Transported(x: Exchange, alive: bool): Authority
      requires attempt.Some?
    {
      var held := attempt.value;
      if !x.atObtain || held.started then this
      else
        var begun := held.(started := true);
        if !x.Reaches() || !alive then this.(attempt := Some(begun))
        else
          var answered := x.reply.Some? && x.reply.value.request == held.request;
          this.(attempt := Some(if answered then begun.(event := x.reply) else begun),
                log := log + [Transmitted(held.request)])
    }

    /** The attempt is consumed first; a crash in the transport leaves the operation busy. */
    function Obtained(x: Exchange, alive: bool): Authority
      requires attempt.Some?
    {
      var held := attempt.value;
      this.(attempt := Some(held.(sent := true))).Transported(x, alive).(
        busy := x.atObtain && !held.started && x.Reaches() && !alive)
    }

    /** Any call, refused or not; `live` says whether the operation still owns the store. */
    function After(live: bool, c: Call): Authority {
      if !live then this
      else match c
        case Configure(g) => if CanConfigure(g) then this.(graph := Some(g)) else this
        case Start(role) => if CanStart(role) then Started(role) else this
        case Bind(d) => if Admits(d) then Bound(d) else this
        case Authorize(d, current, free, unsealed) => Authorized(d, current, free, unsealed)
        case Commit(digest) => if CanCommit(digest) then Committed(digest) else this
        case Acknowledge(now, cutoff) =>
          if CanAcknowledge(now, cutoff) then this.(phase := Acknowledged, upper := Some(now)) else this
        case BeginWitness(entropy, nonce, indexed) => if CanBegin(indexed) then Begun(entropy, nonce) else this
        case Obtain(x, alive) => if CanObtain() then Obtained(x, alive) else this
        case AcceptWitness(e, now) => if CanAccept(e) then Accepted(e, now) else this
    }
  }

  predicate Vacant(w: World, role: Role, logical: string) {
    if role.Receipt? then logical !in w.receipts else logical !in w.selections
  }

  class Store {
    var world: World
    var owner: Operation?
    var budget: nat

    constructor (world: World, budget: nat)
      ensures this.world == world && owner == null && this.budget == budget
    {
      this.world, owner, this.budget := world, null, budget;
    }
  }

  /** The sole witness attempt of an operation. */
  class WitnessAttempt {
    const operation: Operation
    const request: Request
    var sent: bool
    var started: bool
    var dispatchChecked: bool
    var event: Option<Event>

    constructor (operation: Operation, request: Request)
      ensures this.operation == operation && this.request == request
      ensures !sent && !started && !dispatchChecked && event.None?
    {
      this.operation, this.request := operation, request;
      sent, started, dispatchChecked, event := false, false, false, None;
    }
  }

  class Operation {
    const store: Store
    const logical: string
    var phase: Phase
    var expected: Option<string>
    var inserted: bool
    var selection: Option<string>
    var upper: Option<nat>
    var graph: Option<Graph>
    var attempt: WitnessAttempt?
    var refs: Option<set<string>>
    var busy: bool
    ghost var bound: Option<Draft>
    ghost var log: seq<Effect>

    constructor (store: Store, logical: string)
      ensures this.store == store && State() == Opened(logical)
      ensures attempt == null
    {
      this.store, this.logical := store, logical;
      phase, expected, inserted, selection, upper := Fresh, None, false, None, None;
      graph, attempt, refs, busy := None, null, None, false;
      bound, log := None, [];
    }

    predicate Live()
      reads this, store
    {
      store.owner == this && !phase.Revoked?
    }

    ghost function State(): Authority
      reads this, attempt
    {
      var held :=
        if attempt == null then None
        else Some(Held(attempt.request, attempt.sent, attempt.started, attempt.event));
      Authority(logical, phase, expected, bound, inserted, selection, upper, graph, held, refs, busy, log)
    }

    method Configure(g: Graph) returns (ok: bool)
      modifies this`graph
      ensures ok <==> Live() && old(State()).CanConfigure(g)
      ensures State() == if ok then old(State()).(graph := Some(g)) else old(State())
    {
      ok := Live() && phase.Fresh? && graph.None? && g.logical == logical;
      if ok { graph := Some(g); }
    }

    /** Consumes the authority for one role before anything is staged for it. */
    method Start(role: Role) returns (ok: bool)
      modifies this`phase, this`expected, this`inserted, this`bound
      ensures ok <==> old(Live()) && old(State()).CanStart(role)
      ensures State() == if ok then old(State()).Started(role) else old(State())
    {
      ok := Live() && !busy && phase == (if role.Selection? then Fresh else Acknowledged);
      if ok {
        phase := if role.Selection? then SelectionAttempt else ReceiptAttempt;
        expected, inserted, bound := None, false, None;
      }
    }

    method Bind(d: Draft) returns (ok: bool)
      modifies this`expected, this`bound
      ensures ok <==> Live() && old(State()).Admits(d)
      ensures State() == if ok then old(State()).Bound(d) else old(State())
    {
      if !Live() || !(phase.SelectionAttempt? || phase.ReceiptAttempt?) { return false; }
      var receipt := phase.ReceiptAttempt?;
      if expected.Some? || d.logical != logical || d.role != (if receipt then Receipt else Selection)
         || d.parented != receipt {
        return false;
      }
      if receipt && (Some(d.created) != upper
           || !(if graph.Some? then Some(d.refs) == refs else selection.Some? && d.refs == {selection.value})) {
        return false;
      }
      if !receipt && graph.Some? && d.refs != graph.value.refs { return false; }
      expected, bound := Some(d.digest), Some(d);
      ok := true;
    }

    /** Runs inside the transaction: the insertion is this operation's own, once, into a slot
        nobody holds. The authority is spent before the last checks can refuse. */
    method AuthorizeInsert(d: Draft, current: bool) returns (ok: bool)
      modifies this`inserted, this`log
      ensures var free, unsealed := Vacant(store.world, d.role, logical), Vacant(store.world, Receipt, logical);
        && (ok <==> Live() && old(State()).CanInsert(d, current, free, unsealed))
        && State() == (if Live() then old(State()).Authorized(d, current, free, unsealed) else old(State()))
    {
      if !Live() || inserted || expected != Some(d.digest) || d.logical != logical
         || d.role != (if phase.ReceiptAttempt? then Receipt else Selection) {
        return false;
      }
      inserted := true;
      if d.role.Receipt? && graph.Some? && (attempt == null || !current) { return false; }
      if d.role.Selection? && graph.Some? && logical in store.world.receipts { return false; }
      ok := if d.role.Receipt? then logical !in store.world.receipts else logical !in store.world.selections;
      if ok && bound.Some? { log := log + [Inserted(bound.value)]; }
    }

    method Committed(digest: string) returns (ok: bool)
      modifies this`phase, this`selection
      ensures ok <==> old(Live()) && old(State()).CanCommit(digest)
      ensures State() == if ok then old(State()).Committed(digest) else old(State())
    {
      ok := Live() && inserted && expected == Some(digest) && (phase.SelectionAttempt? || phase.ReceiptAttempt?);
      if ok {
        if phase.SelectionAttempt? {
          selection, phase := Some(digest), SelectionCommitted;
        } else {
          phase := Finished;
        }
      }
    }

    /** The uncausal path: an observation of the clock before the cutoff. */
    method Acknowledge(now: nat, cutoff: nat) returns (ok: bool)
      modifies this`phase, this`upper
      ensures ok <==> old(Live()) && old(State()).CanAcknowledge(now, cutoff)
      ensures State() == if ok then old(State()).(phase := Acknowledged, upper := Some(now)) else old(State())
    {
      ok := Live() && graph.None? && phase.SelectionCommitted? && now < cutoff;
      if ok { upper, phase := Some(now), Acknowledged; }
    }

    function Indexed(): Option<string>
      reads store
    {
      if logical in store.world.selections then Some(store.world.selections[logical].digest) else None
    }

    /** Consumes the committed selection for the sole witness attempt. */
    method BeginWitness(entropy: string, nonce: nat) returns (a: WitnessAttempt?)
      modifies this`phase, this`attempt
      ensures a != null <==> old(Live()) && old(State()).CanBegin(Indexed())
      ensures State() == if a != null then old(State()).Begun(entropy, nonce) else old(State())
      ensures if a != null then fresh(a) && a == attempt && a.operation == this else attempt == old(attempt)
      ensures a != null ==>
        logical in store.world.selections && a.request.binding.selection == store.world.selections[logical].digest
    {
      if !Live() || busy || !phase.SelectionCommitted? || attempt != null || graph.None? || selection.None?
         || logical !in store.world.selections || store.world.selections[logical].digest != selection.value {
        return null;
      }
      phase := WitnessPhase;
      a := new WitnessAttempt(this, Request(Binding(logical, selection.value, entropy), nonce));
      attempt := a;
    }

    /** The reply must answer the original request and lie strictly before the cutoff. */
    method AcceptWitness(a: WitnessAttempt, e: Event, now: nat) returns (ok: bool)
      modifies this`phase, this`refs, this`upper
      ensures ok <==> attempt == a && old(Live()) && old(State()).CanAccept(e)
      ensures State() == if ok then old(State()).Accepted(e, now) else old(State())
    {
      ok := Live() && !busy && phase.WitnessPhase? && attempt == a && a.sent && a.event == Some(e)
        && e.request == a.request && graph.Some? && e.upper < graph.value.cutoff && e.lower <= e.upper
        && selection.Some?;
      if ok {
        refs := Some({selection.value, e.provenance} + e.digests);
        upper, phase := Some(now), Acknowledged;
      }
    }
  }

  function Opened(logical: string): Authority {
    Authority(logical, Fresh, None, None, false, None, None, None, None, None, false, [])
  }

  // Any calls in any order --------------------------------------------------

  datatype Made = Made(live: bool, call: Call)

  function Run(s: Authority, calls: seq<Made>): Authority
    decreases |calls|
  {
    if calls == [] then s else Run(s.After(calls[0].live, calls[0].call), calls[1..])
  }

  /** At most one selection, one transmission and one receipt, in this order. */
  predicate InOrder(log: seq<Effect>) {
    forall i, j :: 0 <= i < j < |log| ==> log[i].Stage() < log[j].Stage()
  }

  /** The first stage whose authority is not spent yet. */
  function Unspent(s: Authority): nat {
    match s.phase
    case Fresh => 0
    case SelectionAttempt => if s.inserted then 1 else 0
    case SelectionCommitted => 1
    case WitnessPhase => if s.attempt.Some? && s.attempt.value.sent then 2 else 1
    case Acknowledged => 2
    case ReceiptAttempt => if s.inserted then 3 else 2
    case _ => 3
  }

  /** What every call keeps: only spent stages are in the log, each once and in order. */
  predicate Kept(s: Authority) {
    && !s.phase.Revoked? && InOrder(s.log) && (forall i :: 0 <= i < |s.log| ==> s.log[i].Stage() < Unspent(s))
    && (s.phase.Fresh? ==> s.expected.None?) && (s.busy ==> s.phase.WitnessPhase?)
    && (s.phase.SelectionCommitted? || s.phase.WitnessPhase? || s.phase.Acknowledged? || s.phase.Finished? ==>
          s.inserted)
    && (s.bound.Some? && (s.phase.SelectionAttempt? || s.phase.ReceiptAttempt?) ==> s.bound.value.role == s.Due())
  }

  lemma Extends(log: seq<Effect>, e: Effect, bound: nat)
    requires InOrder(log) && (forall i :: 0 <= i < |log| ==> log[i].Stage() < bound) && bound <= e.Stage()
    ensures InOrder(log + [e]) && forall i :: 0 <= i < |log + [e]| ==> (log + [e])[i].Stage() <= e.Stage()
  {
  }

  lemma CallKeeps(s: Authority, live: bool, c: Call)
    requires Kept(s)
    ensures Kept(s.After(live, c)) && s.log <= s.After(live, c).log && Unspent(s) <= Unspent(s.After(live, c))
  {
    hide InOrder;
    var t := s.After(live, c);
    if t.log != s.log {
      var e := t.log[|s.log|];
      assert t.log == s.log + [e];
      Extends(s.log, e, Unspent(s));
    }
  }

  lemma {:induction false} RunKeeps(s: Authority, calls: seq<Made>)
    requires Kept(s)
    ensures Kept(Run(s, calls))
    decreases |calls|
  {
    if calls != [] {
      CallKeeps(s, calls[0].live, calls[0].call);
      RunKeeps(s.After(calls[0].live, calls[0].call), calls[1..]);
    }
  }

  /** Whatever calls are made on one operation, in any order and with any repetition, and whatever
      each of them meets outside: at most one selection is inserted, one request transmitted and
      one receipt inserted, in this order. */
  lemma OneShot(logical: string, calls: seq<Made>)
    ensures InOrder(Run(Opened(logical), calls).log)
  {
    RunKeeps(Opened(logical), calls);
  }

  /** A commit is reported honestly when the bound draft's insertion is the latest effect. */
  predicate Landed(s: Authority) {
    s.bound.Some? && s.log != [] && s.log[|s.log| - 1] == Inserted(s.bound.value)
  }

  predicate HonestCall(s: Authority, m: Made) {
    m.live && m.call.Commit? && s.CanCommit(m.call.digest) ==> Landed(s)
  }

  predicate Honest(s: Authority, calls: seq<Made>)
    decreases |calls|
  {
    calls != [] ==> HonestCall(s, calls[0]) && Honest(s.After(calls[0].live, calls[0].call), calls[1..])
  }

  predicate FirstEffect(e: Effect, s: Authority) {
    && e.Inserted? && e.draft.role.Selection? && e.draft.logical == s.logical && !e.draft.parented
    && (s.graph.Some? ==> e.draft.refs == s.graph.value.refs)
  }

  predicate LastEffect(e: Effect, s: Authority, selection: string) {
    && e.Inserted? && e.draft.role.Receipt? && e.draft.logical == s.logical && e.draft.parented
    && Some(e.draft.created) == s.upper
    && (if s.graph.Some? then Some(e.draft.refs) == s.refs else e.draft.refs == {selection})
  }

  /** The event accepted answers the request that was sent, lies before the cutoff, and is what
      the receipt refers to beside the selection. */
  predicate Witnessed(s: Authority) {
    && s.graph.Some? && s.attempt.Some? && s.attempt.value.event.Some?
    && var e := s.attempt.value.event.value;
    && |s.log| > 1 && s.log[0].Inserted? && s.log[1] == Transmitted(e.request)
    && e.lower <= e.upper < s.graph.value.cutoff
    && s.refs == Some({s.log[0].draft.digest, e.provenance} + e.digests)
  }

  /** The effects are a beginning of the full chain: the selection, for a causal operation the
      one request bound to that selection, and the receipt that refers to the selection and to an
      event answering the request before the cutoff. */
  predicate Chain(s: Authority) {
    && |s.log| <= (if s.graph.Some? then 3 else 2)
    && (s.graph.Some? ==> s.graph.value.logical == s.logical)
    && (|s.log| > 0 ==> FirstEffect(s.log[0], s))
    && (|s.log| > 1 && s.graph.Some? ==>
          && s.log[1].Transmitted? && s.log[1].request.binding.logical == s.logical
          && s.log[1].request.binding.selection == s.log[0].draft.digest)
    && (|s.log| == (if s.graph.Some? then 3 else 2) ==>
          && LastEffect(s.log[|s.log| - 1], s, s.log[0].draft.digest) && (s.graph.Some? ==> Witnessed(s)))
  }

  /** An attempt's bound draft is the one its role allows, and an insertion needs a bound draft. */
  predicate Bounded(s: Authority) {
    && (s.expected.Some? <==> s.bound.Some?)
    && (s.bound.Some? ==> s.expected == Some(s.bound.value.digest))
    && (s.inserted ==> s.bound.Some?)
    && (s.bound.Some? && s.phase.SelectionAttempt? ==> FirstEffect(Inserted(s.bound.value), s))
  }

  /** How far the chain has come in each phase. */
  predicate Reached(s: Authority)
    requires Chain(s) && Bounded(s)
  {
    var n, acknowledged := |s.log|, if s.graph.Some? then 2 else 1;
    match s.phase
    case Fresh => n == 0 && s.attempt.None?
    case SelectionAttempt =>
      && s.attempt.None? && (n == 0 || (n == 1 && s.inserted && s.log[0] == Inserted(s.bound.value)))
    case SelectionCommitted => n == 1 && s.attempt.None? && Selects(s)
    case WitnessPhase =>
      && s.graph.Some? && s.attempt.Some? && 1 <= n <= 2 && Selects(s)
      && (n == 2 ==> s.attempt.value.sent && s.log[1].request == s.attempt.value.request)
      && (s.attempt.value.event.Some? ==> n == 2)
      && s.attempt.value.request.binding.logical == s.logical
      && s.attempt.value.request.binding.selection == s.log[0].draft.digest
    case Acknowledged => n == acknowledged && Selects(s) && (s.graph.Some? ==> Witnessed(s))
    case ReceiptAttempt =>
      && acknowledged <= n && Selects(s) && (s.graph.Some? ==> Witnessed(s))
      && (n > acknowledged ==> s.inserted && s.log[acknowledged] == Inserted(s.bound.value))
      && (s.bound.Some? ==> LastEffect(Inserted(s.bound.value), s, s.log[0].draft.digest))
    case Finished => n == acknowledged + 1
    case Revoked => false
  }

  predicate Selects(s: Authority)
    requires Chain(s) && |s.log| > 0
  {
    s.selection == Some(s.log[0].draft.digest)
  }

  predicate Carried(s: Authority) {
    Kept(s) && Chain(s) && Bounded(s) && Reached(s)
  }

  predicate Ready(s: Authority) {
    Chain(s) && Bounded(s) && Reached(s)
  }

  lemma AuthorizeCarries(s: Authority, d: Draft, current: bool, free: bool, unsealed: bool)
    requires Carried(s)
    ensures Ready(s.Authorized(d, current, free, unsealed))
  {
  }

  lemma ObtainCarries(s: Authority, x: Exchange, alive: bool)
    requires Carried(s) && s.CanObtain()
    ensures Ready(s.Obtained(x, alive))
  {
    hide Kept;
  }

  lemma CommitCarries(s: Authority, digest: string)
    requires Carried(s) && s.CanCommit(digest) && Landed(s)
    ensures Ready(s.Committed(digest))
  {
    hide InOrder;
  }

  lemma BeginCarries(s: Authority, entropy: string, nonce: nat, indexed: Option<string>)
    requires Carried(s) && s.CanBegin(indexed)
    ensures Ready(s.Begun(entropy, nonce))
  {
    hide Kept;
  }

  lemma CallCarries(s: Authority, m: Made)
    requires Carried(s) && HonestCall(s, m)
    ensures Carried(s.After(m.live, m.call))
  {
    CallKeeps(s, m.live, m.call);
    if m.live {
      match m.call
      case Configure(_) => hide Kept;
      case Start(_) => hide Kept;
      case Bind(_) => hide Kept;
      case Authorize(d, current, free, unsealed) =>
        AuthorizeCarries(s, d, current, free, unsealed);
      case Commit(digest) => if s.CanCommit(digest) { CommitCarries(s, digest); }
      case Acknowledge(_, _) => hide Kept;
      case BeginWitness(entropy, nonce, indexed) => if s.CanBegin(indexed) { BeginCarries(s, entropy, nonce, indexed); }
      case Obtain(x, alive) => if s.CanObtain() { ObtainCarries(s, x, alive); }
      case AcceptWitness(_, _) => hide Kept;
    }
  }

  lemma {:induction false} RunCarries(s: Authority, calls: seq<Made>)
    requires Carried(s) && Honest(s, calls)
    ensures Carried(Run(s, calls))
    decreases |calls|
  {
    if calls != [] {
      CallCarries(s, calls[0]);
      RunCarries(s.After(calls[0].live, calls[0].call), calls[1..]);
    }
  }

  /** A beginning of the full chain, and all of it when finished. */
  predicate Whole(s: Authority) {
    Chain(s) && (s.phase.Finished? ==> |s.log| == if s.graph.Some? then 3 else 2)
  }

  /** When every commit is reported honestly the effects are a beginning of the full chain, and
      all of it once the operation has finished. */
  lemma EffectsChain(logical: string, calls: seq<Made>)
    requires Honest(Opened(logical), calls)
    ensures Whole(Run(Opened(logical), calls))
  {
    RunCarries(Opened(logical), calls);
  }

  lemma CarriedWhole(s: Authority)
    requires Carried(s)
    ensures Whole(s)
  {
  }

  lemma RunNothing(s: Authority)
    ensures Run(s, []) == s && Honest(s, [])
  {
  }

  lemma RunFrom(s: Authority, calls: seq<Made>, k: nat)
    requires k < |calls|
    ensures var t := s.After(calls[k].live, calls[k].call);
      && Run(s, calls[k..]) == Run(t, calls[k + 1..])
      && (HonestCall(s, calls[k]) && Honest(t, calls[k + 1..]) ==> Honest(s, calls[k..]))
  {
    assert calls[k..][1..] == calls[k + 1..];
  }

  /** Commit by commit: one that the operation admits is honest if and only if nothing honest that
      may follow it breaks the chain or finishes with less than all of it. */
  lemma CommitHonestIff(s: Authority, digest: string)
    requires Carried(s) && s.CanCommit(digest)
    ensures Landed(s) <==> forall calls :: Honest(s.Committed(digest), calls) ==> Whole(Run(s.Committed(digest), calls))
  {
    hide Whole, Honest, Run, Carried, Landed;
    var t := s.Committed(digest);
    if Landed(s) {
      CallCarries(s, Made(true, Call.Commit(digest)));
      forall calls | Honest(t, calls) ensures Whole(Run(t, calls)) {
        RunCarries(t, calls);
        CarriedWhole(Run(t, calls));
      }
    } else {
      var calls := BreaksChain(s, digest);
    }
  }

  /** What can follow the report of an insertion that did not land. */
  lemma BreaksChain(s: Authority, digest: string) returns (calls: seq<Made>)
    requires Carried(s) && s.CanCommit(digest) && !Landed(s)
    ensures Honest(s.Committed(digest), calls) && !Whole(Run(s.Committed(digest), calls))
  {
    hide Run, Honest;
    var t := s.Committed(digest);
    if s.phase.ReceiptAttempt? {
      calls := [];
      RunNothing(t);
    } else {
      assert t.log == [];
      calls := if t.graph.Some? then SendsAtOnce(digest) else SealsAtOnce(t.logical, digest);
      hide Carried, Landed;
      if t.graph.Some? {
        SendsUnselected(t, digest);
      } else {
        SealsUnselected(t, digest);
      }
    }
  }

  function SendsAtOnce(digest: string): seq<Made> {
    [Made(true, Call.BeginWitness("", 0, Some(digest))),
     Made(true, Call.Obtain(Exchange(true, true, true, true, None), true))]
  }

  function Seals(logical: string, digest: string): Draft {
    Draft("", Role.Receipt, logical, true, 0, {digest}, "", 0)
  }

  function SealsAtOnce(logical: string, digest: string): seq<Made> {
    [Made(true, Call.Acknowledge(0, 1)), Made(true, Call.Start(Role.Receipt)),
     Made(true, Call.Bind(Seals(logical, digest))),
     Made(true, Call.Authorize(Seals(logical, digest), true, true, true))]
  }

  lemma SendsUnselected(t: Authority, digest: string)
    requires t.phase.SelectionCommitted? && t.log == [] && t.graph.Some? && !t.busy && t.attempt.None?
    requires t.selection == Some(digest)
    ensures Honest(t, SendsAtOnce(digest)) && !Whole(Run(t, SendsAtOnce(digest)))
  {
    hide Run, Honest;
    var calls, begun := SendsAtOnce(digest), t.Begun("", 0);
    var sent := begun.Obtained(calls[1].call.x, true);
    RunFrom(t, calls, 0);
    RunFrom(begun, calls, 1);
    RunNothing(sent);
    assert calls[0..] == calls && calls[2..] == [];
    assert sent.log == [Transmitted(begun.attempt.value.request)];
  }

  lemma SealsUnselected(t: Authority, digest: string)
    requires t.phase.SelectionCommitted? && t.log == [] && t.graph.None? && !t.busy
    requires t.selection == Some(digest)
    ensures Honest(t, SealsAtOnce(t.logical, digest)) && !Whole(Run(t, SealsAtOnce(t.logical, digest)))
  {
    hide Run, Honest;
    var calls, d := SealsAtOnce(t.logical, digest), Seals(t.logical, digest);
    var acknowledged := t.(phase := Acknowledged, upper := Some(0));
    var bound := acknowledged.Started(Role.Receipt).Bound(d);
    var landed := bound.Authorized(d, true, true, true);
    RunFrom(t, calls, 0);
    RunFrom(acknowledged, calls, 1);
    RunFrom(acknowledged.Started(Role.Receipt), calls, 2);
    RunFrom(bound, calls, 3);
    RunNothing(landed);
    assert calls[0..] == calls && calls[4..] == [];
    assert landed.log == [Inserted(d)];
  }

  /** A run in which the insertion is refused and yet reported as committed. */
  function Misreported(g: Graph, d: Draft, entropy: string, nonce: nat): seq<Made> {
    [Made(true, Call.Configure(g)), Made(true, Call.Start(Role.Selection)), Made(true, Call.Bind(d)),
     Made(true, Call.Authorize(d, true, false, true)), Made(true, Call.Commit(d.digest)),
     Made(true, Call.BeginWitness(entropy, nonce, Some(d.digest))),
     Made(true, Call.Obtain(Exchange(true, true, true, true, None), true))]
  }

  /** The configured operation after its insertion was refused. */
  function RefusedInsert(g: Graph, d: Draft): Authority {
    Opened(g.logical).(graph := Some(g)).Started(Role.Selection).Bound(d).(inserted := true)
  }

  lemma MisreportedRefused(g: Graph, d: Draft, entropy: string, nonce: nat)
    requires d == Draft(d.digest, Role.Selection, g.logical, false, d.created, g.refs, g.root, d.cutoff)
    ensures var calls := Misreported(g, d, entropy, nonce);
      Run(Opened(g.logical), calls) == Run(RefusedInsert(g, d), calls[4..])
  {
    hide Run, Honest;
    var calls, start := Misreported(g, d, entropy, nonce), Opened(g.logical);
    var configured := start.(graph := Some(g));
    var started := configured.Started(Role.Selection);
    var bound := started.Bound(d);
    assert start.After(true, calls[0].call) == configured && configured.After(true, calls[1].call) == started;
    assert started.After(true, calls[2].call) == bound;
    assert bound.After(true, calls[3].call) == RefusedInsert(g, d);
    RunFrom(start, calls, 0);
    RunFrom(configured, calls, 1);
    RunFrom(started, calls, 2);
    RunFrom(bound, calls, 3);
    assert calls[0..] == calls;
  }

  lemma MisreportedSends(g: Graph, d: Draft, entropy: string, nonce: nat, s: Authority)
    requires s == RefusedInsert(g, d).Committed(d.digest)
    ensures Run(s, Misreported(g, d, entropy, nonce)[5..]).log ==
      [Transmitted(Request(Binding(g.logical, d.digest, entropy), nonce))]
  {
    hide Run, Honest;
    var calls, begun := Misreported(g, d, entropy, nonce), s.Begun(entropy, nonce);
    assert s.After(true, calls[5].call) == begun;
    RunFrom(s, calls, 5);
    RunFrom(begun, calls, 6);
    var sent := begun.Obtained(calls[6].call.x, true);
    RunNothing(sent);
    assert begun.After(true, calls[6].call) == sent && calls[7..] == [];
    assert sent.log == begun.log + [Transmitted(begun.attempt.value.request)];
  }

  /** The operation cannot tell a refused insertion from a landed one: reporting one as committed
      lets a request be sent with no selection inserted. */
  lemma RefusalIsNotTold(g: Graph, d: Draft, entropy: string, nonce: nat)
    requires d == Draft(d.digest, Role.Selection, g.logical, false, d.created, g.refs, g.root, d.cutoff)
    ensures Run(Opened(g.logical), Misreported(g, d, entropy, nonce)).log ==
      [Transmitted(Request(Binding(g.logical, d.digest, entropy), nonce))]
  {
    MisreportedRefused(g, d, entropy, nonce);
    MisreportedSends(g, d, entropy, nonce, RefusedInsert(g, d).Committed(d.digest));
    assert RefusedInsert(g, d).After(true, Call.Commit(d.digest)) == RefusedInsert(g, d).Committed(d.digest);
    RunFrom(RefusedInsert(g, d), Misreported(g, d, entropy, nonce), 4);
  }
}
