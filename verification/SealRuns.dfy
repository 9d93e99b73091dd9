/** Runs of the sealing protocol: what one run leaves in a Matchweek's two slots and on the wire,
    given what it meets, and what stays true over all runs. */
module SealRuns {
  import opened Wrappers
  import opened Seal

  // One run -----------------------------------------------------------------

  /** How far publishing one draft gets: staged or not, still open and current at the commit,
      and whether a completed commit is also reported as one. */
  datatype Publication = Publication(staged: bool, open: bool, current: bool, reported: bool)

  datatype Published = Confirmed | Refused | Ambiguous | Dead

  function Insert(w: World, d: Draft, causal: bool, answered: Option<Event>): World {
    if d.role.Receipt? then
      w.(receipts := w.receipts[d.logical := Receipted(d.digest, causal, d.refs, d.created, answered)])
    else
      w.(selections := w.selections[d.logical := Selected(d.digest, causal, d.root, d.cutoff, d.created)])
  }

  /** What a draft's insertion rests on: the operation's own unspent authority and free slots. */
  predicate Insertable(s: Authority, w: World, d: Draft) {
    && s.Admits(d) && !s.inserted && Vacant(w, d.role, d.logical)
    && (s.graph.Some? && d.role.Selection? ==> Vacant(w, Receipt, d.logical))
    && (s.graph.Some? && d.role.Receipt? ==> s.attempt.Some?)
  }

  /** The transaction that takes the slot, and its acknowledgement to the operation. */
  method Land(op: Operation, d: Draft, p: Publication, answered: Option<Event>) returns (r: Published)
    modifies op`inserted, op`log, op`phase, op`selection, op.store`world, op.store`budget
    ensures var s, a, b, landed := old(op.State()), old(op.store.world), op.store.world, r.Confirmed? || r.Ambiguous?;
      && (landed <==>
           && old(op.store.budget) > 0 && old(op.Live())
           && s.CanInsert(d, p.current, Vacant(a, d.role, op.logical), Vacant(a, Receipt, op.logical)))
      && b == (if landed then Insert(a, d, op.graph.Some?, answered) else a)
      && op.log == s.log + (if landed && s.bound.Some? then [Inserted(s.bound.value)] else [])
      && (landed ==> op.store.budget == old(op.store.budget) - 1)
    ensures if !r.Confirmed? then op.selection == old(op.selection) && op.phase == old(op.phase)
      else if old(op.phase).SelectionAttempt? then op.phase.SelectionCommitted? && op.selection == Some(d.digest)
      else op.phase.Finished? && op.selection == old(op.selection)
    ensures r.Confirmed? ==> p.reported
    ensures r.Ambiguous? ==> !(p.reported && (old(op.phase).SelectionAttempt? || old(op.phase).ReceiptAttempt?))
    ensures op.store.owner == old(op.store.owner)
    ensures r.Dead? <==> old(op.store.budget) == 0
    ensures op.store.budget <= old(op.store.budget) <= op.store.budget + 1
  {
    if op.store.budget == 0 { return Dead; }
    op.store.budget := op.store.budget - 1;
    var ok := op.AuthorizeInsert(d, p.current);
    if !ok { return Refused; }
    op.store.world := Insert(op.store.world, d, op.graph.Some?, answered);
    if !p.reported { return Ambiguous; }
    ok := op.Committed(d.digest);
    r := if ok then Confirmed else Ambiguous;
  }

  /** Publishes a draft into its slot: free, bound to this operation, staged, committed. */
  method Publish(op: Operation, d: Draft, p: Publication, answered: Option<Event>) returns (r: Published)
    modifies op`expected, op`bound, op`inserted, op`log, op`phase, op`selection, op.store`world, op.store`budget
    ensures var a, b, landed := old(op.store.world), op.store.world, r.Confirmed? || r.Ambiguous?;
      && b == (if landed then Insert(a, d, op.graph.Some?, answered) else a)
      && op.log == old(op.log) + (if landed then [Inserted(d)] else [])
      && (landed <==>
           && old(op.Live()) && Insertable(old(op.State()), a, d) && p.staged && old(op.store.budget) > 0
           && (if d.role.Selection? then p.open else op.graph.Some? ==> p.current))
      && (landed ==> (r.Confirmed? <==> p.reported) && op.store.budget == old(op.store.budget) - 1)
    ensures if !r.Confirmed? then op.selection == old(op.selection) && op.phase == old(op.phase)
      else if d.role.Selection? then op.phase.SelectionCommitted? && op.selection == Some(d.digest)
      else op.phase.Finished? && op.selection == old(op.selection)
    ensures op.store.owner == old(op.store.owner)
    ensures r.Dead? ==> old(op.store.budget) == 0
    ensures op.store.budget <= old(op.store.budget) <= op.store.budget + 1
  {
    if !Vacant(op.store.world, d.role, d.logical) { return Refused; }
    var ok := op.Bind(d);
    if !ok || !p.staged { return Refused; }
    if !p.open && d.role.Selection? { return Refused; }
    r := Land(op, d, p, answered);
  }

  datatype Obtained = Got(event: Event) | NotGot | Lost

  /** Starts the transport once and sends the request over it. */
  method Transport(a: WitnessAttempt, x: Exchange) returns (r: Obtained)
    requires a.operation.attempt == a && a.sent
    modifies a`started, a`dispatchChecked, a`event, a.operation`log
    modifies a.operation.store`world, a.operation.store`budget
    ensures var op, b := a.operation, old(a.operation.store.world);
      && op.State() == old(op.State()).Transported(x, old(op.store.budget) > 0)
      && op.store.world ==
           (if op.log == old(op.log) then b else b.(wire := b.wire + [Sent(op.logical, a.request)]))
      && (r.Got? <==> op.log != old(op.log) && x.reply.Some? && x.reply.value.request == a.request)
    ensures r.Got? ==> x.reply == Some(r.event)
    ensures r.Lost? <==> x.atObtain && !old(a.started) && x.Reaches() && old(a.operation.store.budget) == 0
    ensures a.operation.store.budget ==
      old(a.operation.store.budget) - (if a.operation.log == old(a.operation.log) then 0 else 1)
  {
    r := NotGot;
    var op := a.operation;
    if x.atObtain && !a.started {
      a.started := true;
      if x.Reaches() {
        a.dispatchChecked := true;
        if op.store.budget == 0 { return Lost; }
        op.store.budget := op.store.budget - 1;
        op.store.world := op.store.world.(wire := op.store.world.wire + [Sent(op.logical, a.request)]);
        op.log := op.log + [Transmitted(a.request)];
        if x.reply.Some? && x.reply.value.request == a.request {
          a.event := x.reply;
          r := Got(x.reply.value);
        }
      }
    }
  }

  /** The sole transmission. Authority is consumed before anything can be sent. */
  method Obtain(a: WitnessAttempt, x: Exchange) returns (r: Obtained)
    modifies a`sent, a`started, a`dispatchChecked, a`event, a.operation`busy, a.operation`log
    modifies a.operation.store`world, a.operation.store`budget
    ensures var op, s, b := a.operation, old(a.operation.State()), old(a.operation.store.world);
      && op.State() ==
           (if op.attempt == a && old(op.Live()) && s.CanObtain() then s.Obtained(x, old(op.store.budget) > 0) else s)
      && op.store.world ==
           (if op.log == s.log then b else b.(wire := b.wire + [Sent(op.logical, a.request)]))
      && (r.Got? <==> op.log != s.log && x.reply.Some? && x.reply.value.request == a.request)
    ensures r.Got? ==> x.reply == Some(r.event)
    ensures r.Lost? ==> old(a.operation.store.budget) == 0
    ensures a.operation.store.budget ==
      old(a.operation.store.budget) - (if a.operation.log == old(a.operation.log) then 0 else 1)
  {
    var op := a.operation;
    if !op.Live() || op.attempt != a || !op.phase.WitnessPhase? || op.busy || a.sent { return NotGot; }
    a.sent := true;
    op.busy := true;
    r := Transport(a, x);
    op.busy := r.Lost?;
  }

  /** Reading a sealed selection back: the indexed winner with its indexed receipt. */
  predicate Replays(w: World, logical: string) {
    && logical in w.selections && logical in w.receipts
    && w.receipts[logical].causal == w.selections[logical].causal
    && w.selections[logical].digest in w.receipts[logical].refs
  }

  /** Everything a run is given: the admitted graph, the approvals and clocks it meets, and how
      far each of its steps gets. `intact` is what replay finds beyond the index. */
  datatype Inputs = Inputs(
    graph: Option<Graph>, approved: bool, versions: bool, intact: bool,
    selection: string, created: nat, first: Publication,
    entropy: string, nonce: nat, exchange: Exchange, now: nat, retained: bool,
    receipt: string, second: Publication)

  /** What one run may add to a Matchweek: nothing; or, where no selection was, a selection,
      then for a causal one its one transmission, then the receipt: of an event that answers that
      transmission before the selection's cutoff, or of a clock that did. */
  predicate Added(a: World, b: World, logical: string) {
    || b == a
    || (&& logical !in a.selections && logical in b.selections
        && var s := b.selections[logical];
        && b.selections == a.selections[logical := s]
        && (if s.causal then logical !in a.receipts else s.created < s.cutoff)
        && (b.wire == a.wire || (s.causal && |b.wire| == |a.wire| + 1 && b.wire[..|a.wire|] == a.wire
              && b.wire[|a.wire|].logical == logical
              && b.wire[|a.wire|].request.binding.logical == logical
              && b.wire[|a.wire|].request.binding.selection == s.digest))
        && (b.receipts == a.receipts || (logical !in a.receipts && logical in b.receipts
              && var r := b.receipts[logical];
              && b.receipts == a.receipts[logical := r] && Answers(s, r)
              && (s.causal ==> b.wire != a.wire && r.answered.value.request == b.wire[|a.wire|].request))))
  }

  /** The receipt belongs to the selection and shows it settled before its cutoff. */
  predicate Answers(s: Selected, r: Receipted) {
    && r.causal == s.causal
    && (if s.causal then
          && r.answered.Some?
          && var e := r.answered.value;
          e.lower <= e.upper < s.cutoff && r.refs == {s.digest, e.provenance} + e.digests
        else r.created < s.cutoff && r.refs == {s.digest})
  }

  // What a causal run does, from its inputs alone ----------------------------

  function Sending(g: Graph, i: Inputs): Request {
    Request(Binding(g.logical, i.selection, i.entropy), i.nonce)
  }

  /** How many of the three effects a causal run of an approved free Matchweek has: as far as
      its checks, its publications, its budget and its reply let it go. */
  function Steps(g: Graph, i: Inputs, budget: nat): nat {
    var x := i.exchange;
    if !(i.versions && i.first.staged && i.first.open && budget >= 1) then 0
    else if !(i.first.reported && x.atObtain && x.atStart && x.connected && x.atDispatch && budget >= 2) then 1
    else if !(InTime(x.reply, Sending(g, i), g.cutoff)
              && i.retained && i.second.staged && i.second.current && budget >= 3) then 2
    else 3
  }

  predicate InTime(reply: Option<Event>, request: Request, cutoff: nat) {
    reply.Some? && reply.value.request == request && reply.value.lower <= reply.value.upper < cutoff
  }

  /** A world after the first `n` effects of a causal run. */
  function Grown(a: World, g: Graph, i: Inputs, n: nat): World
    requires n >= 3 ==> i.exchange.reply.Some?
  {
    World(
      if n < 1 then a.selections
      else a.selections[g.logical := Selected(i.selection, true, g.root, g.cutoff, i.created)],
      if n < 3 then a.receipts
      else
        var e := i.exchange.reply.value;
        a.receipts[g.logical :=
          Receipted(i.receipt, true, {i.selection, e.provenance} + e.digests, i.now, Some(e))],
      if n < 2 then a.wire else a.wire + [Sent(g.logical, Sending(g, i))])
  }

  lemma GrownAdded(a: World, g: Graph, i: Inputs, n: nat)
    requires g.logical !in a.selections && g.logical !in a.receipts
    requires n >= 3 ==> InTime(i.exchange.reply, Sending(g, i), g.cutoff)
    ensures Added(a, Grown(a, g, i, n), g.logical)
    ensures n >= 3 ==> Replays(Grown(a, g, i, n), g.logical)
  {
    var b := Grown(a, g, i, n);
    if n == 0 {
      assert b == a;
    } else {
      assert n >= 2 ==> |b.wire| == |a.wire| + 1;
    }
  }

  /** Selects and takes up the sole witness attempt. */
  method SelectCausal(op: Operation, g: Graph, i: Inputs) returns (p: Published, attempt: WitnessAttempt?)
    requires op.store.owner == op && op.phase.Fresh? && op.expected.None? && !op.inserted && op.selection.None?
    requires op.graph == Some(g) && g.logical == op.logical && op.attempt == null && !op.busy && i.versions
    requires op.logical !in op.store.world.receipts && op.logical !in op.store.world.selections
    modifies op, op.store`world, op.store`budget
    ensures op.graph == old(op.graph) && op.refs == old(op.refs) && op.busy == old(op.busy)
    ensures op.store.owner == old(op.store.owner)
    ensures var landed := i.first.staged && i.first.open && old(op.store.budget) >= 1;
      && op.store.world == Grown(old(op.store.world), g, i, if landed then 1 else 0)
      && (attempt != null <==> landed && i.first.reported)
    ensures attempt != null ==>
      && fresh(attempt) && op.attempt == attempt && attempt.operation == op && op.phase.WitnessPhase?
      && op.selection == Some(i.selection) && !attempt.sent && !attempt.started && attempt.event.None?
      && attempt.request == Sending(g, i) && op.store.budget == old(op.store.budget) - 1
    ensures p.Dead? ==> old(op.store.budget) == 0
  {
    var ok := op.Start(Selection);
    attempt := null;
    if !ok { return Refused, null; }
    var d := Draft(i.selection, Selection, op.logical, false, i.created, g.refs, g.root, g.cutoff);
    p := Publish(op, d, i.first, None);
    if p.Confirmed? {
      attempt := op.BeginWitness(i.entropy, i.nonce);
    }
  }

  /** Obtains the witness over the one transmission and accepts it. */
  method WitnessCausal(op: Operation, attempt: WitnessAttempt, i: Inputs) returns (r: Obtained, ok: bool)
    requires op.store.owner == op && op.phase.WitnessPhase? && op.attempt == attempt && attempt.operation == op
    requires !op.busy && op.graph.Some? && op.selection.Some? && !attempt.sent && !attempt.started
    modifies op, attempt, op.store`world, op.store`budget
    ensures op.store.owner == old(op.store.owner) && op.attempt == attempt && op.graph == old(op.graph)
    ensures op.selection == old(op.selection) && op.inserted == old(op.inserted)
    ensures var b, sent, x := old(op.store.world), Sent(op.logical, attempt.request), i.exchange;
      var sends := x.atObtain && x.atStart && x.connected && x.atDispatch && old(op.store.budget) >= 1;
      && op.store.world == (if sends then b.(wire := b.wire + [sent]) else b)
      && (ok <==> sends && InTime(x.reply, attempt.request, op.graph.value.cutoff))
    ensures ok ==>
      && r.Got? && i.exchange.reply == Some(r.event) && op.store.budget == old(op.store.budget) - 1
      && op.phase.Acknowledged? && op.upper == Some(i.now) && !op.busy
      && op.refs == Some({op.selection.value, r.event.provenance} + r.event.digests)
    ensures r.Lost? ==> old(op.store.budget) == 0
  {
    ok := false;
    r := Obtain(attempt, i.exchange);
    if r.Got? {
      ok := op.AcceptWitness(attempt, r.event, i.now);
    }
  }

  /** Seals the witnessed selection with its receipt. */
  method ReceiptCausal(op: Operation, g: Graph, i: Inputs, e: Event) returns (p: Published)
    requires op.store.owner == op && op.phase.Acknowledged? && op.graph == Some(g) && !op.busy
    requires op.attempt != null && op.upper == Some(i.now) && op.logical !in op.store.world.receipts
    requires op.selection == Some(i.selection) && op.refs == Some({i.selection, e.provenance} + e.digests)
    modifies op, op.store`world, op.store`budget
    ensures op.store.owner == old(op.store.owner)
    ensures var a, r := old(op.store.world),
      Receipted(i.receipt, true, {i.selection, e.provenance} + e.digests, i.now, Some(e));
      var landed := i.retained && i.second.staged && i.second.current && old(op.store.budget) >= 1;
      && op.store.world == (if landed then a.(receipts := a.receipts[op.logical := r]) else a)
      && (p.Confirmed? || p.Ambiguous? <==> landed)
    ensures p.Dead? ==> old(op.store.budget) == 0
  {
    var ok := op.Start(Receipt);
    if !ok || !i.retained { return Refused; }
    var refs := {i.selection, e.provenance} + e.digests;
    p := Publish(op, Draft(i.receipt, Receipt, op.logical, true, op.upper.value, refs, g.root, g.cutoff), i.second,
                 Some(e));
  }

  /** The causal operation from its configured start to its end. */
  method DriveCausal(op: Operation, g: Graph, i: Inputs) returns (o: Outcome)
    requires op.store.owner == op && op.phase.Fresh? && op.expected.None? && !op.inserted && op.selection.None?
    requires op.graph == Some(g) && g.logical == op.logical && op.attempt == null && !op.busy && i.versions
    requires op.logical !in op.store.world.receipts && op.logical !in op.store.world.selections
    modifies op, op.store`world, op.store`budget
    ensures var n := Steps(g, i, old(op.store.budget));
      && op.store.world == Grown(old(op.store.world), g, i, n)
      && (o.Qualified? <==> n == 3 && i.intact)
    ensures o.Qualified? ==> o.digest == i.selection
    ensures o.Crashed? ==> old(op.store.budget) < 3
  {
    var p, attempt := SelectCausal(op, g, i);
    if p.Dead? { return Crashed; }
    if attempt == null { return Failed; }
    var event, ok := WitnessCausal(op, attempt, i);
    if event.Lost? { return Crashed; }
    if !ok { return Failed; }
    p := ReceiptCausal(op, g, i, event.event);
    if p.Dead? { return Crashed; }
    if p.Refused? { return Failed; }
    o := if i.intact then Qualified(i.selection) else Failed;
  }

  // And what an uncausal one does --------------------------------------------

  function StepsUncausal(g: Graph, i: Inputs, budget: nat, unsealed: bool): nat {
    if !(i.created < g.cutoff && i.versions && i.first.staged && i.first.open && budget >= 1) then 0
    else if !(i.first.reported && i.now < g.cutoff && unsealed && i.second.staged && budget >= 2) then 1
    else 2
  }

  function GrownUncausal(a: World, g: Graph, i: Inputs, n: nat): World {
    World(
      if n < 1 then a.selections
      else a.selections[g.logical := Selected(i.selection, false, g.root, g.cutoff, i.created)],
      if n < 2 then a.receipts
      else a.receipts[g.logical := Receipted(i.receipt, false, {i.selection}, i.now, None)],
      a.wire)
  }

  lemma GrownUncausalAdded(a: World, g: Graph, i: Inputs, n: nat)
    requires g.logical !in a.selections && (n >= 1 ==> i.created < g.cutoff)
    requires n >= 2 ==> g.logical !in a.receipts && i.now < g.cutoff
    ensures Added(a, GrownUncausal(a, g, i, n), g.logical)
    ensures n >= 2 ==> Replays(GrownUncausal(a, g, i, n), g.logical)
  {
    if n == 0 {
      assert GrownUncausal(a, g, i, n) == a;
    }
  }

  /** Selects and acknowledges by the clock. */
  method SelectUncausal(op: Operation, g: Graph, i: Inputs) returns (p: Published, ok: bool)
    requires op.store.owner == op && op.phase.Fresh? && op.expected.None? && !op.inserted && op.selection.None?
    requires op.graph.None? && g.logical == op.logical && !op.busy && i.created < g.cutoff && i.versions
    requires op.logical !in op.store.world.selections
    modifies op, op.store`world, op.store`budget
    ensures op.store.owner == old(op.store.owner) && op.graph.None? && !op.busy
    ensures var landed := i.first.staged && i.first.open && old(op.store.budget) >= 1;
      && op.store.world == GrownUncausal(old(op.store.world), g, i, if landed then 1 else 0)
      && (ok <==> landed && i.first.reported && i.now < g.cutoff)
    ensures ok ==>
      && op.phase.Acknowledged? && op.upper == Some(i.now) && op.selection == Some(i.selection)
      && op.store.budget == old(op.store.budget) - 1
    ensures p.Dead? ==> old(op.store.budget) == 0
  {
    ok := op.Start(Selection);
    if !ok { return Refused, false; }
    var d := Draft(i.selection, Selection, op.logical, false, i.created, g.refs, g.root, g.cutoff);
    p := Publish(op, d, i.first, None);
    ok := false;
    if p.Confirmed? {
      ok := op.Acknowledge(i.now, g.cutoff);
    }
  }

  /** The uncausal operation: acknowledged by the clock, with no transmission. */
  method DriveUncausal(op: Operation, g: Graph, i: Inputs) returns (o: Outcome)
    requires op.store.owner == op && op.phase.Fresh? && op.expected.None? && !op.inserted && op.selection.None?
    requires op.graph.None? && g.logical == op.logical && !op.busy
    requires op.logical !in op.store.world.selections
    modifies op, op.store`world, op.store`budget
    ensures var n := StepsUncausal(g, i, old(op.store.budget), op.logical !in old(op.store.world).receipts);
      && op.store.world == GrownUncausal(old(op.store.world), g, i, n)
      && (o.Qualified? <==> n == 2 && i.intact)
    ensures o.Qualified? ==> o.digest == i.selection
    ensures o.Crashed? ==> old(op.store.budget) < 2
  {
    if i.created >= g.cutoff || !i.versions { return Failed; }
    var p, ok := SelectUncausal(op, g, i);
    if p.Dead? { return Crashed; }
    if !ok { return Failed; }
    ok := op.Start(Receipt);
    if !ok { return Failed; }
    var receipt := Draft(i.receipt, Receipt, op.logical, true, i.now, {i.selection}, g.root, g.cutoff);
    p := Publish(op, receipt, i.second, None);
    if p.Dead? { return Crashed; }
    if p.Refused? { return Failed; }
    o := if i.intact then Qualified(i.selection) else Failed;
  }

  /** A selection already indexed is handed back exactly when its own receipt stands with it. */
  predicate HandsBack(w: World, g: Graph, causal: bool, intact: bool) {
    && g.logical in w.selections && g.logical in w.receipts && intact
    && var s, r := w.selections[g.logical], w.receipts[g.logical];
    s.causal == causal && r.causal == causal && s.digest in r.refs && s.root == g.root
  }

  /** Seals a Matchweek, or hands back the exact selection already sealed. However it ends, the
      operation's authority is revoked. */
  method SealCausal(store: Store, i: Inputs) returns (o: Outcome)
    modifies store
    ensures i.graph.Some? ==> Added(old(store.world), store.world, i.graph.value.logical)
    ensures i.graph.None? || old(store.owner) != null ==> store.world == old(store.world) && o.Failed?
    ensures old(store.owner) == null ==> store.owner == null
    ensures i.graph.Some? && old(store.owner) == null ==>
      var g, a := i.graph.value, old(store.world);
      if g.logical in a.selections then
        && store.world == a && (o.Qualified? <==> HandsBack(a, g, true, i.intact))
        && (o.Qualified? ==> o.digest == a.selections[g.logical].digest)
      else
        var n := if i.approved && g.logical !in a.receipts then Steps(g, i, old(store.budget)) else 0;
        && store.world == Grown(a, g, i, n) && (o.Qualified? <==> n == 3 && i.intact)
        && (o.Qualified? ==> o.digest == i.selection && Replays(store.world, g.logical))
    ensures o.Crashed? ==> old(store.budget) < 3
  {
    hide Added;
    if i.graph.Some? { NothingAdded(store.world, i.graph.value.logical); }
    if store.owner != null || i.graph.None? { return Failed; }
    var g := i.graph.value;
    if g.logical in store.world.selections {
      var s := store.world.selections[g.logical];
      if !s.causal || !Replays(store.world, g.logical) || !i.intact || s.root != g.root { return Failed; }
      return Qualified(s.digest);
    }
    if g.logical in store.world.receipts || !i.approved { return Failed; }
    ghost var a, budget := store.world, store.budget;
    GrownAdded(a, g, i, Steps(g, i, budget));
    var op := new Operation(store, g.logical);
    store.owner := op;
    var ok := op.Configure(g);
    if i.versions {
      o := DriveCausal(op, g, i);
    } else {
      o := Failed;
    }
    op.phase := Revoked;
    store.owner := null;
  }

  method SealUncausal(store: Store, i: Inputs) returns (o: Outcome)
    modifies store
    ensures i.graph.Some? ==> Added(old(store.world), store.world, i.graph.value.logical)
    ensures i.graph.None? || old(store.owner) != null ==> store.world == old(store.world) && o.Failed?
    ensures old(store.owner) == null ==> store.owner == null
    ensures i.graph.Some? && old(store.owner) == null ==>
      var g, a := i.graph.value, old(store.world);
      if g.logical in a.selections then
        && store.world == a && (o.Qualified? <==> HandsBack(a, g, false, i.intact))
        && (o.Qualified? ==> o.digest == a.selections[g.logical].digest)
      else
        var n := StepsUncausal(g, i, old(store.budget), g.logical !in a.receipts);
        && store.world == GrownUncausal(a, g, i, n) && (o.Qualified? <==> n == 2 && i.intact)
        && (o.Qualified? ==> o.digest == i.selection && Replays(store.world, g.logical))
    ensures o.Crashed? ==> old(store.budget) < 2
  {
    hide Added;
    if i.graph.Some? { NothingAdded(store.world, i.graph.value.logical); }
    if store.owner != null || i.graph.None? { return Failed; }
    var g := i.graph.value;
    if g.logical in store.world.selections {
      var s := store.world.selections[g.logical];
      if s.causal || !Replays(store.world, g.logical) || !i.intact || s.root != g.root { return Failed; }
      return Qualified(s.digest);
    }
    ghost var a, budget := store.world, store.budget;
    GrownUncausalAdded(a, g, i, StepsUncausal(g, i, budget, g.logical !in a.receipts));
    var op := new Operation(store, g.logical);
    store.owner := op;
    o := DriveUncausal(op, g, i);
    op.phase := Revoked;
    store.owner := null;
  }

  lemma NothingAdded(a: World, logical: string)
    ensures Added(a, a, logical)
  {
  }

  // Whole runs --------------------------------------------------------------

  const NOTHING := World(map[], map[], [])

  /** The worlds between runs: each run works on one Matchweek and may stop anywhere. */
  ghost predicate History(worlds: seq<World>, logicals: seq<string>) {
    && |worlds| == |logicals| + 1 && worlds[0] == NOTHING
    && forall i :: 0 <= i < |logicals| ==> Added(worlds[i], worlds[i + 1], logicals[i])
  }

  /** Every transmission belongs to the causal selection indexed for its Matchweek, no Matchweek
      has two, and a receipt never stands without its selection: a causal one is of an event that
      answers the request sent, before the cutoff; an uncausal one was acknowledged before it. */
  predicate Consistent(w: World) {
    && (forall k :: 0 <= k < |w.wire| ==>
          && w.wire[k].logical in w.selections && w.selections[w.wire[k].logical].causal
          && w.wire[k].request.binding == w.wire[k].request.binding.(
               logical := w.wire[k].logical, selection := w.selections[w.wire[k].logical].digest))
    && (forall k, l :: 0 <= k < l < |w.wire| ==> w.wire[k].logical != w.wire[l].logical)
    && (forall m :: m in w.receipts ==>
          && m in w.selections && Answers(w.selections[m], w.receipts[m])
          && (w.receipts[m].causal ==> Sent(m, w.receipts[m].answered.value.request) in w.wire))
  }

  lemma AddedConsistent(a: World, b: World, m: string)
    requires Consistent(a) && Added(a, b, m)
    ensures Consistent(b)
  {
    if b.wire != a.wire {
      assert b.wire == a.wire + [b.wire[|a.wire|]];
    }
    forall n | n in b.receipts && b.receipts[n].causal
      ensures b.receipts[n].answered.Some? && Sent(n, b.receipts[n].answered.value.request) in b.wire
    {
      if n in a.receipts {
        assert b.receipts[n] == a.receipts[n];
        assert Sent(n, a.receipts[n].answered.value.request) in a.wire;
      } else {
        assert b.wire[|a.wire|] == Sent(n, b.receipts[n].answered.value.request);
      }
    }
  }

  /** Later worlds keep every slot and transmission; a Matchweek whose run stopped with its
      selection indexed gets no further transmission and no receipt, so it never qualifies. */
  predicate Settled(a: World, b: World) {
    && (forall m :: m in a.selections ==> m in b.selections && b.selections[m] == a.selections[m])
    && (forall m :: m in a.receipts ==> m in b.receipts && b.receipts[m] == a.receipts[m])
    && a.wire <= b.wire
    && (forall m :: m in a.selections && m !in a.receipts ==> m !in b.receipts && !Replays(b, m))
    && (forall k :: |a.wire| <= k < |b.wire| ==> b.wire[k].logical !in a.selections)
  }

  lemma AddedSettles(a: World, b: World, m: string)
    requires Added(a, b, m)
    ensures Settled(a, b)
  {
  }

  lemma SettledTransitive(a: World, b: World, c: World)
    requires Settled(a, b) && Settled(b, c)
    ensures Settled(a, c)
  {
    forall k | |a.wire| <= k < |c.wire| ensures c.wire[k].logical !in a.selections {
      if k < |b.wire| {
        assert c.wire[k] == b.wire[k];
      }
    }
  }

  lemma {:induction false} HistorySettles(worlds: seq<World>, logicals: seq<string>, i: nat, j: nat)
    requires History(worlds, logicals) && i <= j < |worlds|
    ensures Consistent(worlds[j]) && Settled(worlds[i], worlds[j])
    decreases j
  {
    hide Added, Consistent, Settled;
    if j == 0 {
      NothingConsistent();
    } else {
      HistorySettles(worlds, logicals, if i < j then i else j - 1, j - 1);
      AddedConsistent(worlds[j - 1], worlds[j], logicals[j - 1]);
      AddedSettles(worlds[j - 1], worlds[j], logicals[j - 1]);
      if i < j {
        SettledTransitive(worlds[i], worlds[j - 1], worlds[j]);
      } else {
        SettledItself(worlds[j]);
      }
    }
  }

  lemma NothingConsistent()
    ensures Consistent(NOTHING) && Settled(NOTHING, NOTHING)
  {
  }

  lemma SettledItself(a: World)
    ensures Settled(a, a)
  {
  }
}
