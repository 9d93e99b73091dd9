/** Outcomes attached to an enrollment: a chain of corrections, each with the facts it was
    derived from, and the memoised verifier that replays it. */
module OutcomeChain {
  import opened Wrappers

  /** A settled version of one outcome. */
  datatype Settlement = Settlement(sequence: nat, predecessor: Option<string>, evidence: set<string>, outcome: string)

  datatype Fact = Fact(
    enrollment: string, settlement: string, sequence: nat, predecessor: Option<string>,
    evidence: set<string>, facts: string)

  datatype Attachment = Attachment(
    enrollment: string, settlement: string, outcome: string, sequence: nat,
    predecessor: Option<string>, fact: string)

  /** What is read from elsewhere and never changes: settlements, whether one matches an
      enrollment's lineage, which enrollments are live, the supplementary evidence of their
      fixture, the projection of evidence to facts, the two digests, and a rank of digests. */
  datatype World = World(
    settlement: string -> Option<Settlement>, fits: (string, string) -> bool, live: string -> bool,
    available: string -> set<string>, project: (string, string, set<string>) -> string,
    factDigest: Fact -> string, digest: Attachment -> string, rank: string -> nat)

  datatype State = State(facts: map<string, Fact>, attachments: map<string, Attachment>)

  /** A settlement's own evidence, whole, and any further evidence named and available. */
  function Evidence(own: set<string>, available: set<string>, named: Option<set<string>>): Option<set<string>> {
    if named.None? then Some(own)
    else if named.value * own != {} && named.value * own != own then None
    else if !(named.value - own <= available) then None
    else Some(own + named.value)
  }

  function Successors(s: State, enrollment: string, predecessor: Option<string>): set<string> {
    set d | d in s.attachments
      && s.attachments[d].enrollment == enrollment && s.attachments[d].predecessor == predecessor
  }

  function Candidates(
    s: State, enrollment: string, settlement: string, sequence: nat, predecessor: Option<string>): set<string>
  {
    set d | d in s.facts && s.facts[d].enrollment == enrollment && s.facts[d].settlement == settlement
      && s.facts[d].sequence == sequence && s.facts[d].predecessor == predecessor
  }

  /** No content is its own predecessor, however far back: digests are ranked, and whatever names
      a predecessor has a digest of higher rank. */
  ghost predicate Founded(w: World) {
    && (forall a: Attachment :: a.predecessor.Some? ==> w.rank(a.predecessor.value) < w.rank(w.digest(a)))
    && (forall f: Fact :: f.predecessor.Some? ==> w.rank(f.predecessor.value) < w.rank(w.factDigest(f)))
  }

  /** Everything is stored under the digest of its content. */
  predicate Keyed(w: World, s: State) {
    && (forall d :: d in s.facts ==> w.factDigest(s.facts[d]) == d)
    && (forall d :: d in s.attachments ==> w.digest(s.attachments[d]) == d)
  }

  // Plain verification ------------------------------------------------------

  predicate FactReplays(w: World, f: Fact) {
    && w.live(f.enrollment)
    && var x := w.settlement(f.settlement);
    && x.Some? && x.value.evidence <= f.evidence
    && Evidence(x.value.evidence, w.available(f.enrollment), Some(f.evidence)) == Some(f.evidence)
    && f.facts == w.project(f.enrollment, f.settlement, f.evidence)
    && (if f.sequence == 0 then f.predecessor.None? && x.value.predecessor.None? else f.predecessor.Some?)
  }

  predicate FactVerifies(w: World, s: State, d: string)
    requires Founded(w) && Keyed(w, s)
    decreases w.rank(d)
  {
    && d in s.facts
    && var f := s.facts[d];
    && FactReplays(w, f)
    && (f.sequence > 0 ==>
          && var p := f.predecessor.value;
          && p in s.facts && FactVerifies(w, s, p)
          && s.facts[p].enrollment == f.enrollment && s.facts[p].sequence + 1 == f.sequence
          && w.settlement(f.settlement).value.predecessor == Some(s.facts[p].settlement))
  }

  /** The attachment is what its own settlement says. */
  predicate Replays(w: World, a: Attachment) {
    && w.live(a.enrollment) && w.fits(a.enrollment, a.settlement)
    && var x := w.settlement(a.settlement);
    && x.Some? && a.outcome == x.value.outcome && a.sequence == x.value.sequence
    && (a.predecessor.None? ==> x.value.sequence == 0 && x.value.predecessor.None?)
  }

  /** The facts named are the facts of this attachment, following the predecessor's. */
  predicate FactAgrees(s: State, a: Attachment, previous: Option<string>) {
    && a.fact in s.facts
    && var f := s.facts[a.fact];
    && f.enrollment == a.enrollment && f.settlement == a.settlement
    && f.sequence == a.sequence && f.predecessor == previous
  }

  predicate Verifies(w: World, s: State, d: string)
    requires Founded(w) && Keyed(w, s)
    decreases w.rank(d)
  {
    && d in s.attachments
    && var a := s.attachments[d];
    && Replays(w, a) && Successors(s, a.enrollment, a.predecessor) == {d}
    && FactVerifies(w, s, a.fact)
    && (match a.predecessor
        case None => FactAgrees(s, a, None)
        case Some(p) =>
          && p in s.attachments && Verifies(w, s, p)
          && s.attachments[p].enrollment == a.enrollment
          && w.settlement(a.settlement).value.predecessor == Some(s.attachments[p].settlement)
          && a.sequence == s.attachments[p].sequence + 1
          && FactAgrees(s, a, Some(s.attachments[p].fact)))
  }

  // The memoised verifier ---------------------------------------------------

  /** Remembers what it has verified, so that a chain is walked once. */
  class Verifier {
    const world: World
    const state: State
    var verified: set<string>
    var verifiedFacts: set<string>

    constructor (world: World, state: State)
      requires Founded(world) && Keyed(world, state)
      ensures this.world == world && this.state == state && Remembers()
      ensures verified == {} && verifiedFacts == {}
    {
      this.world, this.state, verified, verifiedFacts := world, state, {}, {};
    }

    ghost predicate Remembers()
      reads this
    {
      && Founded(world) && Keyed(world, state)
      && (forall d :: d in verified ==> Verifies(world, state, d))
      && (forall d :: d in verifiedFacts ==> FactVerifies(world, state, d))
    }

    method VerifyFact(d: string) returns (ok: bool)
      requires Remembers()
      modifies this`verifiedFacts
      ensures Remembers() && old(verifiedFacts) <= verifiedFacts
      ensures ok <==> FactVerifies(world, state, d)
      decreases world.rank(d)
    {
      if d in verifiedFacts { return true; }
      if d !in state.facts { return false; }
      var f := state.facts[d];
      if !FactReplays(world, f) { return false; }
      if f.sequence > 0 {
        var p := f.predecessor.value;
        if p !in state.facts { return false; }
        ok := VerifyFact(p);
        if !ok || state.facts[p].enrollment != f.enrollment || state.facts[p].sequence + 1 != f.sequence
           || world.settlement(f.settlement).value.predecessor != Some(state.facts[p].settlement) {
          return false;
        }
      }
      verifiedFacts := verifiedFacts + {d};
      ok := true;
    }

    method VerifyAttachment(d: string) returns (ok: bool)
      requires Remembers()
      modifies this`verified, this`verifiedFacts
      ensures Remembers() && old(verified) <= verified && old(verifiedFacts) <= verifiedFacts
      ensures ok <==> Verifies(world, state, d)
      ensures ok ==> d in verified
      decreases world.rank(d)
    {
      if d !in state.attachments { return false; }
      var a := state.attachments[d];
      if d in verified {
        return Successors(state, a.enrollment, a.predecessor) == {d};
      }
      if !Replays(world, a) { return false; }
      var previous: Option<string> := None;
      if a.predecessor.Some? {
        var p := a.predecessor.value;
        if p !in state.attachments { return false; }
        ok := VerifyAttachment(p);
        if !ok || state.attachments[p].enrollment != a.enrollment
           || world.settlement(a.settlement).value.predecessor != Some(state.attachments[p].settlement)
           || a.sequence != state.attachments[p].sequence + 1 {
          return false;
        }
        previous := Some(state.attachments[p].fact);
      }
      if Successors(state, a.enrollment, a.predecessor) != {d} { return false; }
      ok := VerifyFact(a.fact);
      if !ok || !FactAgrees(state, a, previous) { return false; }
      verified := verified + {d};
      ok := true;
    }
  }

  // What verification means -------------------------------------------------

  /** What stands at place `i` of a chain: the settlement of that number and the facts projected
      from its evidence, whole, and from nothing else but available supplements; each of the
      three names its predecessor at the place before, and nothing else claims the place. */
  predicate Place(w: World, s: State, c: seq<string>, i: nat)
    requires i < |c|
  {
    && c[i] in s.attachments
    && var a := s.attachments[c[i]];
    && a.fact in s.facts
    && var f := s.facts[a.fact];
    && w.live(a.enrollment) && w.fits(a.enrollment, a.settlement) && w.settlement(a.settlement).Some?
    && var x := w.settlement(a.settlement).value;
    && a.sequence == i && x.sequence == i && f.sequence == i && a.outcome == x.outcome
    && f.enrollment == a.enrollment && f.settlement == a.settlement
    && x.evidence <= f.evidence && f.evidence - x.evidence <= w.available(a.enrollment)
    && f.facts == w.project(a.enrollment, a.settlement, f.evidence)
    && (forall d | d in s.attachments
            && s.attachments[d].enrollment == a.enrollment && s.attachments[d].predecessor == a.predecessor ::
          d == c[i])
    && if i == 0 then a.predecessor.None? && x.predecessor.None? && f.predecessor.None?
       else
         && c[i - 1] in s.attachments
         && var b := s.attachments[c[i - 1]];
         && b.enrollment == a.enrollment && a.predecessor == Some(c[i - 1])
         && x.predecessor == Some(b.settlement) && f.predecessor == Some(b.fact)
  }

  /** A verified attachment takes the place its number gives it. */
  lemma VerifiedPlace(w: World, s: State, c: seq<string>, i: nat)
    requires Founded(w) && Keyed(w, s) && i < |c| && Verifies(w, s, c[i])
    requires s.attachments[c[i]].sequence == i && s.attachments[c[i]].predecessor == Before(c, i)
    ensures Place(w, s, c, i)
  {
    hide Founded, Keyed;
    var a := s.attachments[c[i]];
    FactsMean(w, s, a.fact);
    assert forall d | d in s.attachments && s.attachments[d].enrollment == a.enrollment
        && s.attachments[d].predecessor == a.predecessor :: d in Successors(s, a.enrollment, a.predecessor);
  }

  lemma FactsMean(w: World, s: State, d: string)
    requires Founded(w) && Keyed(w, s) && FactVerifies(w, s, d)
    ensures FactReplays(w, s.facts[d])
    ensures var f := s.facts[d];
      f.evidence - w.settlement(f.settlement).value.evidence <= w.available(f.enrollment)
  {
  }

  /** The chain behind a verified attachment, from the first settlement on. */
  lemma {:induction false} VerifiedChain(w: World, s: State, d: string) returns (c: seq<string>)
    requires Founded(w) && Keyed(w, s) && Verifies(w, s, d)
    ensures c != [] && c[|c| - 1] == d && forall i :: 0 <= i < |c| ==> Place(w, s, c, i)
    decreases w.rank(d)
  {
    hide FactVerifies, FactReplays, FactAgrees, Founded, Keyed, Successors, Place;
    var a := s.attachments[d];
    match a.predecessor {
      case None =>
        c := [d];
      case Some(p) =>
        Below(w, s, d);
        var b := VerifiedChain(w, s, p);
        c := b + [d];
        PlaceNumber(w, s, b, |b| - 1);
        forall i | 0 <= i < |b| ensures Place(w, s, c, i) {
          PlaceStays(w, s, b, c, i);
        }
    }
    VerifiedPlace(w, s, c, |c| - 1);
  }

  lemma Below(w: World, s: State, d: string)
    requires Founded(w) && Keyed(w, s) && d in s.attachments && s.attachments[d].predecessor.Some?
    ensures w.rank(s.attachments[d].predecessor.value) < w.rank(d)
  {
  }

  lemma PlaceNumber(w: World, s: State, c: seq<string>, i: nat)
    requires i < |c| && Place(w, s, c, i)
    ensures c[i] in s.attachments && s.attachments[c[i]].sequence == i
  {
  }

  lemma PlaceStays(w: World, s: State, b: seq<string>, c: seq<string>, i: nat)
    requires i < |b| && b <= c && Place(w, s, b, i)
    ensures Place(w, s, c, i)
  {
  }

  /** Conversely, whatever ends such a chain verifies. */
  lemma {:induction false} ChainVerifies(w: World, s: State, c: seq<string>)
    requires Founded(w) && Keyed(w, s) && c != [] && forall i :: 0 <= i < |c| ==> Place(w, s, c, i)
    ensures Verifies(w, s, c[|c| - 1])
    decreases |c|
  {
    hide Founded, Keyed, FactVerifies, Evidence;
    var n := |c| - 1;
    var d := c[n];
    assert Place(w, s, c, n);
    var a := s.attachments[d];
    if n > 0 {
      var b := c[..n];
      forall i | 0 <= i < |b| ensures Place(w, s, b, i) {
        PlaceEarlier(w, s, b, c, i);
      }
      ChainVerifies(w, s, b);
      assert Place(w, s, c, n - 1);
    }
    ChainFact(w, s, c, n);
    assert Successors(s, a.enrollment, a.predecessor) == {d};
  }

  lemma PlaceEarlier(w: World, s: State, b: seq<string>, c: seq<string>, i: nat)
    requires i < |b| && b <= c && Place(w, s, c, i)
    ensures Place(w, s, b, i)
  {
  }

  lemma {:induction false} ChainFact(w: World, s: State, c: seq<string>, i: nat)
    requires Founded(w) && Keyed(w, s) && i < |c| && forall j :: 0 <= j < |c| ==> Place(w, s, c, j)
    ensures c[i] in s.attachments && FactVerifies(w, s, s.attachments[c[i]].fact)
  {
    hide Founded, Keyed;
    assert Place(w, s, c, i);
    if i > 0 {
      ChainFact(w, s, c, i - 1);
      assert Place(w, s, c, i - 1);
    }
    PlaceFact(w, s, c, i);
  }

  lemma PlaceFact(w: World, s: State, c: seq<string>, i: nat)
    requires i < |c| && Place(w, s, c, i)
    ensures FactReplays(w, s.facts[s.attachments[c[i]].fact])
  {
    var f := s.facts[s.attachments[c[i]].fact];
    var own := w.settlement(f.settlement).value.evidence;
    assert f.evidence * own == own && own + f.evidence == f.evidence;
  }

  // What every attachment keeps ---------------------------------------------

  /** The two digests never collide. */
  ghost predicate Collisionless(w: World) {
    && (forall f, g :: w.factDigest(f) == w.factDigest(g) ==> f == g)
    && (forall a, b :: w.digest(a) == w.digest(b) ==> a == b)
  }

  function Keys(s: State, enrollment: string): set<string> {
    set d | d in s.attachments && s.attachments[d].enrollment == enrollment
  }

  function Before(c: seq<string>, i: nat): Option<string>
    requires i <= |c|
  {
    if i == 0 then None else Some(c[i - 1])
  }

  /** All attachments of an enrollment, unforked, numbered from zero. */
  predicate IsChain(s: State, enrollment: string, c: seq<string>) {
    && Keys(s, enrollment) == (set d | d in c)
    && forall i :: 0 <= i < |c| ==>
         && c[i] in s.attachments && s.attachments[c[i]].sequence == i
         && s.attachments[c[i]].predecessor == Before(c, i)
  }

  ghost predicate Chained(s: State, enrollment: string) {
    exists c: seq<string> :: IsChain(s, enrollment, c)
  }

  /** What an attachment says of itself and of the one it corrects. */
  predicate Linked(w: World, s: State, a: Attachment) {
    && Replays(w, a)
    && (match a.predecessor
        case None => FactAgrees(s, a, None)
        case Some(p) =>
          && p in s.attachments && s.attachments[p].enrollment == a.enrollment
          && w.settlement(a.settlement).value.predecessor == Some(s.attachments[p].settlement)
          && a.sequence == s.attachments[p].sequence + 1
          && FactAgrees(s, a, Some(s.attachments[p].fact)))
  }

  ghost predicate Valid(w: World, s: State) {
    && Founded(w) && Keyed(w, s)
    && (forall d :: d in s.facts ==> FactVerifies(w, s, d))
    && (forall d :: d in s.attachments ==> Linked(w, s, s.attachments[d]))
    && (forall enrollment :: Chained(s, enrollment))
  }

  lemma ChainIndex(s: State, enrollment: string, c: seq<string>, d: string)
    requires IsChain(s, enrollment, c) && d in s.attachments && s.attachments[d].enrollment == enrollment
    ensures var n := s.attachments[d].sequence; n < |c| && c[n] == d && s.attachments[d].predecessor == Before(c, n)
  {
    assert d in Keys(s, enrollment);
    var n :| 0 <= n < |c| && c[n] == d;
  }

  lemma ChainMember(s: State, enrollment: string, c: seq<string>, i: nat)
    requires IsChain(s, enrollment, c) && i < |c|
    ensures c[i] in s.attachments && s.attachments[c[i]].enrollment == enrollment
    ensures s.attachments[c[i]].sequence == i && s.attachments[c[i]].predecessor == Before(c, i)
  {
    assert c[i] in Keys(s, enrollment);
  }

  /** In a chain each attachment has one successor, the next, and the last has none. */
  lemma ChainSuccessors(s: State, enrollment: string, c: seq<string>, i: nat)
    requires IsChain(s, enrollment, c) && i <= |c|
    ensures Successors(s, enrollment, Before(c, i)) == if i < |c| then {c[i]} else {}
  {
    hide IsChain;
    var p := Before(c, i);
    if i > 0 {
      ChainMember(s, enrollment, c, i - 1);
    }
    if i < |c| {
      ChainMember(s, enrollment, c, i);
    }
    forall d | d in Successors(s, enrollment, p) ensures i < |c| && d == c[i] {
      ChainIndex(s, enrollment, c, d);
      var n := s.attachments[d].sequence;
      if n > 0 {
        ChainMember(s, enrollment, c, n - 1);
      }
    }
  }

  /** Every attachment of a valid store verifies. */
  lemma {:induction false} AllVerify(w: World, s: State, d: string)
    requires Valid(w, s) && d in s.attachments
    ensures Verifies(w, s, d)
    decreases s.attachments[d].sequence
  {
    hide Replays, FactVerifies, FactAgrees, Keyed;
    var a := s.attachments[d];
    assert Linked(w, s, a) && Chained(s, a.enrollment);
    var c :| IsChain(s, a.enrollment, c);
    assert d in Keys(s, a.enrollment);
    var i :| 0 <= i < |c| && c[i] == d;
    ChainSuccessors(s, a.enrollment, c, i);
    FactPresent(s, a);
    if a.predecessor.Some? {
      AllVerify(w, s, a.predecessor.value);
    }
  }

  lemma FactPresent(s: State, a: Attachment)
    ensures forall previous :: FactAgrees(s, a, previous) ==> a.fact in s.facts
  {
  }

  /** A fact never before seen, replaying and following its predecessor, keeps the store valid. */
  lemma FactKeeps(w: World, s: State, d: string, f: Fact)
    requires Valid(w, s) && d !in s.facts && w.factDigest(f) == d && FactReplays(w, f)
    requires f.sequence > 0 ==>
      && f.predecessor.value in s.facts && s.facts[f.predecessor.value].enrollment == f.enrollment
      && s.facts[f.predecessor.value].sequence + 1 == f.sequence
      && w.settlement(f.settlement).value.predecessor == Some(s.facts[f.predecessor.value].settlement)
    ensures Valid(w, s.(facts := s.facts[d := f]))
  {
    hide FactReplays, FactVerifies, Founded, Chained, Linked;
    var t := s.(facts := s.facts[d := f]);
    FactPredecessor(w, f);
    forall e | e in t.facts ensures FactVerifies(w, t, e) {
      if e == d {
        NewFactVerifies(w, s, d, f);
      } else {
        FactStays(w, s, t, e);
      }
    }
    forall enrollment ensures Chained(t, enrollment) {
      ChainSame(s, t, enrollment);
    }
    forall e | e in t.attachments ensures Linked(w, t, t.attachments[e]) {
      FactLinked(w, s, d, f, s.attachments[e]);
    }
  }

  lemma FactPredecessor(w: World, f: Fact)
    requires FactReplays(w, f)
    ensures f.sequence > 0 <==> f.predecessor.Some?
  {
  }

  lemma NewFactVerifies(w: World, s: State, d: string, f: Fact)
    requires Valid(w, s) && d !in s.facts && FactReplays(w, f)
    requires f.sequence > 0 ==>
      && f.predecessor.value in s.facts && s.facts[f.predecessor.value].enrollment == f.enrollment
      && s.facts[f.predecessor.value].sequence + 1 == f.sequence
      && w.settlement(f.settlement).value.predecessor == Some(s.facts[f.predecessor.value].settlement)
    requires Keyed(w, s.(facts := s.facts[d := f]))
    ensures FactVerifies(w, s.(facts := s.facts[d := f]), d)
  {
    hide Linked, Chained;
    if f.sequence > 0 {
      FactStays(w, s, s.(facts := s.facts[d := f]), f.predecessor.value);
    }
  }

  lemma ChainSame(s: State, t: State, enrollment: string)
    requires Chained(s, enrollment) && Keys(t, enrollment) == Keys(s, enrollment)
    requires forall e :: e in s.attachments ==> e in t.attachments && t.attachments[e] == s.attachments[e]
    ensures Chained(t, enrollment)
  {
    var c :| IsChain(s, enrollment, c);
    assert IsChain(t, enrollment, c);
  }

  lemma FactLinked(w: World, s: State, d: string, f: Fact, a: Attachment)
    requires Linked(w, s, a) && d !in s.facts
    ensures Linked(w, s.(facts := s.facts[d := f]), a)
  {
    hide Replays;
  }

  lemma {:induction false} FactStays(w: World, s: State, t: State, d: string)
    requires Founded(w) && Keyed(w, s) && Keyed(w, t) && FactVerifies(w, s, d)
    requires forall e :: e in s.facts ==> e in t.facts && t.facts[e] == s.facts[e]
    ensures FactVerifies(w, t, d)
    decreases s.facts[d].sequence
  {
    hide Evidence;
    if s.facts[d].sequence > 0 {
      FactStays(w, s, t, s.facts[d].predecessor.value);
    }
  }

  /** The next attachment of a chain that has none yet keeps the store valid. */
  lemma AttachmentKeeps(w: World, s: State, d: string, a: Attachment)
    requires Valid(w, s) && d !in s.attachments && w.digest(a) == d && Linked(w, s, a)
    requires Successors(s, a.enrollment, a.predecessor) == {}
    ensures Valid(w, s.(attachments := s.attachments[d := a]))
  {
    hide FactReplays, Replays, FactAgrees, FactVerifies;
    var t := s.(attachments := s.attachments[d := a]);
    forall e | e in t.facts ensures FactVerifies(w, t, e) {
      FactStays(w, s, t, e);
    }
    forall enrollment ensures Chained(t, enrollment) {
      ChainGrows(w, s, d, a, enrollment);
    }
    forall e | e in t.attachments ensures Linked(w, t, t.attachments[e]) {
      LinkedStays(w, s, t, t.attachments[e]);
    }
  }

  lemma LinkedStays(w: World, s: State, t: State, a: Attachment)
    requires Linked(w, s, a) && t.facts == s.facts
    requires forall e :: e in s.attachments ==> e in t.attachments && t.attachments[e] == s.attachments[e]
    ensures Linked(w, t, a)
  {
  }

  lemma ChainGrows(w: World, s: State, d: string, a: Attachment, enrollment: string)
    requires Valid(w, s) && d !in s.attachments && Linked(w, s, a)
    requires Successors(s, a.enrollment, a.predecessor) == {}
    ensures Chained(s.(attachments := s.attachments[d := a]), enrollment)
  {
    hide FactAgrees, FactVerifies, IsChain, Linked, Founded, Keyed, Successors;
    var t := s.(attachments := s.attachments[d := a]);
    assert Chained(s, enrollment);
    if enrollment != a.enrollment {
      assert Keys(t, enrollment) == Keys(s, enrollment);
      ChainSame(s, t, enrollment);
    } else {
      var c :| IsChain(s, enrollment, c);
      ChainExtends(w, s, d, a, c);
    }
  }

  lemma ChainExtends(w: World, s: State, d: string, a: Attachment, c: seq<string>)
    requires d !in s.attachments && Linked(w, s, a) && IsChain(s, a.enrollment, c)
    requires Successors(s, a.enrollment, a.predecessor) == {}
    ensures IsChain(s.(attachments := s.attachments[d := a]), a.enrollment, c + [d])
  {
    hide IsChain, Successors;
    LinkedPlace(w, s, a);
    ChainEnd(s, a, c);
    ChainLonger(s, d, a, c);
  }

  lemma LinkedPlace(w: World, s: State, a: Attachment)
    requires Linked(w, s, a)
    ensures match a.predecessor
      case None => a.sequence == 0
      case Some(p) =>
        p in s.attachments && s.attachments[p].enrollment == a.enrollment && a.sequence == s.attachments[p].sequence + 1
  {
    hide FactAgrees;
  }

  /** An attachment whose predecessor has no successor yet comes after the whole chain. */
  lemma ChainEnd(s: State, a: Attachment, c: seq<string>)
    requires IsChain(s, a.enrollment, c) && Successors(s, a.enrollment, a.predecessor) == {}
    requires match a.predecessor
      case None => a.sequence == 0
      case Some(p) =>
        p in s.attachments && s.attachments[p].enrollment == a.enrollment && a.sequence == s.attachments[p].sequence + 1
    ensures a.sequence == |c| && a.predecessor == Before(c, |c|)
  {
    hide Successors, IsChain;
    if a.predecessor.Some? {
      ChainIndex(s, a.enrollment, c, a.predecessor.value);
    }
    if a.sequence < |c| {
      ChainSuccessors(s, a.enrollment, c, a.sequence);
    }
  }

  lemma ChainLonger(s: State, d: string, a: Attachment, c: seq<string>)
    requires d !in s.attachments && IsChain(s, a.enrollment, c)
    requires a.sequence == |c| && a.predecessor == Before(c, |c|)
    ensures IsChain(s.(attachments := s.attachments[d := a]), a.enrollment, c + [d])
  {
    var t, e := s.(attachments := s.attachments[d := a]), c + [d];
    forall i | 0 <= i < |e|
      ensures e[i] in t.attachments && t.attachments[e[i]].sequence == i
      ensures t.attachments[e[i]].predecessor == Before(e, i)
    {
      assert Before(e, i) == Before(c, i);
      if i < |c| {
        assert c[i] in s.attachments && c[i] != d;
      }
    }
    forall k ensures k in Keys(t, a.enrollment) <==> k in e {
      assert k in c <==> k in Keys(s, a.enrollment);
    }
    assert Keys(t, a.enrollment) == set k | k in e;
  }

  // Attaching ---------------------------------------------------------------

  datatype Outcome = Attached(attachment: string, fact: string) | Raised | Crashed

  /** One call's arguments, and whether the enrollment's publication replays. */
  datatype Request = Request(
    enrollment: string, settlement: string, named: Option<set<string>>, predecessor: Option<string>, published: bool)

  /** The settlement continues the chain at the named predecessor, or starts it. */
  predicate Follows(w: World, s: State, r: Request, x: Settlement) {
    match r.predecessor
    case None => x.sequence == 0 && x.predecessor.None?
    case Some(p) =>
      && p in s.attachments
      && var a := s.attachments[p];
      && a.enrollment == r.enrollment && x.predecessor == Some(a.settlement) && x.sequence == a.sequence + 1
      && a.fact in s.facts
      && s.facts[a.fact].enrollment == r.enrollment && s.facts[a.fact].settlement == a.settlement
  }

  function PreviousFact(s: State, r: Request): Option<string>
    requires r.predecessor.Some? ==> r.predecessor.value in s.attachments
  {
    if r.predecessor.None? then None else Some(s.attachments[r.predecessor.value].fact)
  }

  /** The request stands on its own: a live published enrollment, a matching settlement that
      continues the chain, and evidence that can be used. */
  predicate Admitted(w: World, s: State, r: Request) {
    && w.live(r.enrollment) && r.published && w.settlement(r.settlement).Some? && w.fits(r.enrollment, r.settlement)
    && var x := w.settlement(r.settlement).value;
    Evidence(x.evidence, w.available(r.enrollment), r.named).Some? && Follows(w, s, r, x)
  }

  function FactOf(w: World, s: State, r: Request): Fact
    requires Admitted(w, s, r)
  {
    var x := w.settlement(r.settlement).value;
    var evidence := Evidence(x.evidence, w.available(r.enrollment), r.named).value;
    Fact(r.enrollment, r.settlement, x.sequence, PreviousFact(s, r), evidence,
         w.project(r.enrollment, r.settlement, evidence))
  }

  function AttachmentOf(w: World, s: State, r: Request): Attachment
    requires Admitted(w, s, r)
  {
    var x := w.settlement(r.settlement).value;
    Attachment(r.enrollment, r.settlement, x.outcome, x.sequence, r.predecessor, w.factDigest(FactOf(w, s, r)))
  }

  /** No other facts for the same settlement step, and no other attachment in its place. */
  predicate Unrivalled(w: World, s: State, r: Request)
    requires Admitted(w, s, r)
  {
    var f, a := FactOf(w, s, r), AttachmentOf(w, s, r);
    && Candidates(s, r.enrollment, r.settlement, f.sequence, f.predecessor) <= {w.factDigest(f)}
    && Successors(s, r.enrollment, r.predecessor) <= {w.digest(a)}
  }

  predicate Accepted(w: World, s: State, r: Request) {
    Admitted(w, s, r) && Unrivalled(w, s, r)
  }

  /** A request is accepted exactly for a live published enrollment and a settlement that matches
      it and comes next, naming all of the settlement's evidence or none of it and otherwise only
      what is available, while no other facts and no other attachment hold the place. */
  lemma AcceptedIff(w: World, s: State, r: Request)
    requires Collisionless(w) && Valid(w, s)
    ensures Accepted(w, s, r) <==>
      && w.live(r.enrollment) && r.published && w.settlement(r.settlement).Some? && w.fits(r.enrollment, r.settlement)
      && var x := w.settlement(r.settlement).value;
      && (r.named.Some? ==>
           && (r.named.value * x.evidence == {} || r.named.value * x.evidence == x.evidence)
           && r.named.value - x.evidence <= w.available(r.enrollment))
      && (match r.predecessor
          case None => x.sequence == 0 && x.predecessor.None?
          case Some(p) =>
            && p in s.attachments && s.attachments[p].enrollment == r.enrollment
            && x.predecessor == Some(s.attachments[p].settlement) && x.sequence == s.attachments[p].sequence + 1)
      && var previous := if r.predecessor.None? then None else Some(s.attachments[r.predecessor.value].fact);
      && var evidence := x.evidence + if r.named.Some? then r.named.value else {};
      && var f := Fact(r.enrollment, r.settlement, x.sequence, previous, evidence,
                       w.project(r.enrollment, r.settlement, evidence));
      && (forall d | d in s.facts && s.facts[d].enrollment == r.enrollment && s.facts[d].settlement == r.settlement
              && s.facts[d].sequence == x.sequence && s.facts[d].predecessor == previous :: s.facts[d] == f)
      && (forall d | d in s.attachments
              && s.attachments[d].enrollment == r.enrollment && s.attachments[d].predecessor == r.predecessor ::
            s.attachments[d] ==
              Attachment(r.enrollment, r.settlement, x.outcome, x.sequence, r.predecessor, w.factDigest(f)))
  {
    hide FactVerifies, FactReplays, Chained, Founded;
    PlainAdmitted(w, s, r);
    if Admitted(w, s, r) {
      PlainFact(w, s, r);
      PlainUnrivalled(w, s, r);
    }
  }

  lemma PlainAdmitted(w: World, s: State, r: Request)
    requires Valid(w, s)
    ensures Admitted(w, s, r) <==>
      && w.live(r.enrollment) && r.published && w.settlement(r.settlement).Some? && w.fits(r.enrollment, r.settlement)
      && var x := w.settlement(r.settlement).value;
      && (r.named.Some? ==>
           && (r.named.value * x.evidence == {} || r.named.value * x.evidence == x.evidence)
           && r.named.value - x.evidence <= w.available(r.enrollment))
      && (match r.predecessor
          case None => x.sequence == 0 && x.predecessor.None?
          case Some(p) =>
            && p in s.attachments && s.attachments[p].enrollment == r.enrollment
            && x.predecessor == Some(s.attachments[p].settlement) && x.sequence == s.attachments[p].sequence + 1)
  {
    hide FactVerifies, FactReplays, Chained, Founded;
    if r.predecessor.Some? && r.predecessor.value in s.attachments {
      assert Linked(w, s, s.attachments[r.predecessor.value]);
    }
  }

  /** The facts stored are projected from all of the settlement's evidence and all that was named. */
  lemma PlainFact(w: World, s: State, r: Request)
    requires Admitted(w, s, r)
    ensures var x := w.settlement(r.settlement).value;
      var previous := if r.predecessor.None? then None else Some(s.attachments[r.predecessor.value].fact);
      var evidence := x.evidence + if r.named.Some? then r.named.value else {};
      && FactOf(w, s, r) == Fact(r.enrollment, r.settlement, x.sequence, previous, evidence,
                                 w.project(r.enrollment, r.settlement, evidence))
      && AttachmentOf(w, s, r) == Attachment(r.enrollment, r.settlement, x.outcome, x.sequence, r.predecessor,
                                             w.factDigest(FactOf(w, s, r)))
  {
    var own := w.settlement(r.settlement).value.evidence;
    assert own + {} == own;
  }

  lemma PlainUnrivalled(w: World, s: State, r: Request)
    requires Collisionless(w) && Valid(w, s) && Admitted(w, s, r)
    ensures Unrivalled(w, s, r) <==>
      var f, a := FactOf(w, s, r), AttachmentOf(w, s, r);
      && (forall d | d in s.facts && s.facts[d].enrollment == r.enrollment && s.facts[d].settlement == r.settlement
              && s.facts[d].sequence == f.sequence && s.facts[d].predecessor == f.predecessor :: s.facts[d] == f)
      && (forall d | d in s.attachments
              && s.attachments[d].enrollment == r.enrollment && s.attachments[d].predecessor == r.predecessor ::
            s.attachments[d] == a)
  {
    hide FactVerifies, FactReplays, Chained, Founded, Linked, Admitted, FactOf, AttachmentOf;
    var f, a := FactOf(w, s, r), AttachmentOf(w, s, r);
    forall d | d in s.facts ensures s.facts[d] == f <==> d == w.factDigest(f) {
    }
    forall d | d in s.attachments ensures s.attachments[d] == a <==> d == w.digest(a) {
    }
    assert forall d :: d in Candidates(s, r.enrollment, r.settlement, f.sequence, f.predecessor) <==>
        d in s.facts && s.facts[d].enrollment == r.enrollment && s.facts[d].settlement == r.settlement
        && s.facts[d].sequence == f.sequence && s.facts[d].predecessor == f.predecessor;
    assert forall d :: d in Successors(s, r.enrollment, r.predecessor) <==>
        d in s.attachments && s.attachments[d].enrollment == r.enrollment
        && s.attachments[d].predecessor == r.predecessor;
  }

  /** Different supplements make different facts, so only one of the two can ever be stored for
      the same place. */
  lemma SupplementsDiffer(w: World, s: State, r: Request, t: State, q: Request)
    requires Collisionless(w) && Admitted(w, s, r) && Admitted(w, t, q) && r.settlement == q.settlement
    requires r.named.Some? && q.named.Some?
    requires var own := w.settlement(r.settlement).value.evidence; r.named.value - own != q.named.value - own
    ensures FactOf(w, s, r) != FactOf(w, t, q)
    ensures w.factDigest(FactOf(w, s, r)) != w.factDigest(FactOf(w, t, q))
  {
    hide Follows, Evidence;
    PlainFact(w, s, r);
    PlainFact(w, t, q);
    var own := w.settlement(r.settlement).value.evidence;
    var e, g := own + r.named.value, own + q.named.value;
    assert e - own == r.named.value - own && g - own == q.named.value - own;
  }

  function AfterFact(w: World, s: State, r: Request): State
    requires Admitted(w, s, r)
  {
    s.(facts := s.facts[w.factDigest(FactOf(w, s, r)) := FactOf(w, s, r)])
  }

  function AfterBoth(w: World, s: State, r: Request): State
    requires Admitted(w, s, r)
  {
    var t := AfterFact(w, s, r);
    t.(attachments := t.attachments[w.digest(AttachmentOf(w, s, r)) := AttachmentOf(w, s, r)])
  }

  lemma EvidenceStable(own: set<string>, available: set<string>, named: Option<set<string>>)
    requires Evidence(own, available, named).Some?
    ensures var e := Evidence(own, available, named).value;
      own <= e && Evidence(own, available, Some(e)) == Some(e)
  {
    var e := Evidence(own, available, named).value;
    assert e * own == own && own + e == e;
  }

  lemma NewFactReplays(w: World, s: State, r: Request)
    requires Valid(w, s) && Admitted(w, s, r)
    ensures var f := FactOf(w, s, r);
      && FactReplays(w, f)
      && (f.sequence > 0 ==>
        && f.predecessor.value in s.facts && s.facts[f.predecessor.value].enrollment == f.enrollment
        && s.facts[f.predecessor.value].sequence + 1 == f.sequence
        && w.settlement(f.settlement).value.predecessor == Some(s.facts[f.predecessor.value].settlement))
  {
    hide FactVerifies, Chained, Founded, Evidence;
    EvidenceStable(w.settlement(r.settlement).value.evidence, w.available(r.enrollment), r.named);
    if r.predecessor.Some? {
      assert Linked(w, s, s.attachments[r.predecessor.value]);
    }
  }

  lemma AfterFactValid(w: World, s: State, r: Request)
    requires Collisionless(w) && Valid(w, s) && Accepted(w, s, r)
    ensures Valid(w, AfterFact(w, s, r))
    ensures Admitted(w, AfterFact(w, s, r), r) && FactOf(w, AfterFact(w, s, r), r) == FactOf(w, s, r)
  {
    hide FactVerifies, Chained, Founded, Linked, FactReplays, Evidence;
    var f := FactOf(w, s, r);
    NewFactReplays(w, s, r);
    if w.factDigest(f) in s.facts {
      assert AfterFact(w, s, r) == s;
    } else {
      FactKeeps(w, s, w.factDigest(f), f);
    }
  }

  lemma AfterBothValid(w: World, s: State, r: Request)
    requires Collisionless(w) && Valid(w, s) && Accepted(w, s, r)
    ensures Valid(w, AfterBoth(w, s, r))
  {
    hide Valid, Evidence, Collisionless, Linked, Admitted;
    AfterFactValid(w, s, r);
    if AfterBoth(w, s, r).attachments == s.attachments {
      assert AfterBoth(w, s, r) == AfterFact(w, s, r);
    } else {
      NotYet(w, s, r);
      NewLinked(w, s, r);
      var a, t := AttachmentOf(w, s, r), AfterFact(w, s, r);
      assert Successors(t, a.enrollment, a.predecessor) == Successors(s, a.enrollment, a.predecessor);
      AttachmentKeeps(w, t, w.digest(a), a);
    }
  }

  lemma NotYet(w: World, a: State, r: Request)
    requires Collisionless(w) && Valid(w, a) && Accepted(w, a, r)
    requires AfterBoth(w, a, r).attachments != a.attachments
    ensures w.digest(AttachmentOf(w, a, r)) !in a.attachments
    ensures Successors(a, r.enrollment, r.predecessor) == {}
  {
    hide FactVerifies, Founded, Evidence, FactReplays, Linked, Chained, Follows;
    SameAttachment(w, a, AttachmentOf(w, a, r));
  }

  lemma SameAttachment(w: World, s: State, a: Attachment)
    requires Collisionless(w) && Keyed(w, s)
    ensures w.digest(a) in s.attachments ==> s.attachments[w.digest(a)] == a
  {
  }

  lemma NewLinked(w: World, s: State, r: Request)
    requires Collisionless(w) && Valid(w, s) && Accepted(w, s, r)
    ensures Linked(w, AfterFact(w, s, r), AttachmentOf(w, s, r))
  {
    hide FactVerifies, Chained, Founded, FactReplays, Evidence;
    AfterFactValid(w, s, r);
  }

  class Repository {
    const world: World
    var state: State
    var budget: nat

    constructor (world: World, state: State, budget: nat)
      ensures this.world == world && this.state == state && this.budget == budget
    {
      this.world, this.state, this.budget := world, state, budget;
    }

    /** Appends one settled version to its enrollment's chain: the facts first, then the
        attachment naming them. Asking again for what is there verifies it instead. */
    method Attach(r: Request) returns (o: Outcome)
      requires Collisionless(world) && Valid(world, state)
      modifies this`state, this`budget
      ensures Valid(world, state)
      ensures o.Raised? <==> !Accepted(world, old(state), r)
      ensures o.Raised? ==> state == old(state)
      ensures o.Attached? ==>
        && Admitted(world, old(state), r) && state == AfterBoth(world, old(state), r)
        && o.attachment == world.digest(AttachmentOf(world, old(state), r))
        && o.fact == world.factDigest(FactOf(world, old(state), r))
      ensures o.Attached? ==>
        var x := world.settlement(r.settlement).value;
        var previous := if r.predecessor.None? then None else Some(old(state).attachments[r.predecessor.value].fact);
        var evidence := x.evidence + if r.named.Some? then r.named.value else {};
        && state.facts == old(state).facts[o.fact :=
             Fact(r.enrollment, r.settlement, x.sequence, previous, evidence,
                  world.project(r.enrollment, r.settlement, evidence))]
        && state.attachments == old(state).attachments[o.attachment :=
             Attachment(r.enrollment, r.settlement, x.outcome, x.sequence, r.predecessor, o.fact)]
      ensures o.Crashed? ==>
        && old(budget) < 2 && Admitted(world, old(state), r)
        && (state == old(state) || state == AfterFact(world, old(state), r))
    {
      hide Valid, Evidence, Follows, Admitted, Collisionless;
      if !Admitted(world, state, r) { return Raised; }
      AdmittedMeans(world, state, r);
      PlainFact(world, state, r);
      var fact, attachment := FactOf(world, state, r), AttachmentOf(world, state, r);
      var f, d := world.factDigest(fact), world.digest(attachment);
      if !(Candidates(state, r.enrollment, r.settlement, fact.sequence, fact.predecessor) <= {f}) { return Raised; }
      var existing := Successors(state, r.enrollment, r.predecessor);
      if existing != {} {
        if existing != {d} { return Raised; }
        Restored(world, state, r);
        ValidKeyed(world, state);
        var verifier := new Verifier(world, state);
        AllVerify(world, state, d);
        var ok := verifier.VerifyAttachment(d);
        return if ok then Attached(d, f) else Raised;
      }
      AfterFactValid(world, state, r);
      AfterBothValid(world, state, r);
      ghost var a := state;
      if f !in state.facts {
        if budget == 0 { return Crashed; }
        budget := budget - 1;
        state := state.(facts := state.facts[f := fact]);
      } else {
        SameFact(world, state, f, fact);
      }
      if budget == 0 { return Crashed; }
      budget := budget - 1;
      state := state.(attachments := state.attachments[d := attachment]);
      o := Attached(d, f);
    }
  }

  lemma AdmittedMeans(w: World, s: State, r: Request)
    requires Admitted(w, s, r)
    ensures w.settlement(r.settlement).Some?
    ensures r.predecessor.Some? ==> r.predecessor.value in s.attachments
  {
  }

  lemma ValidKeyed(w: World, s: State)
    requires Valid(w, s)
    ensures Founded(w) && Keyed(w, s)
  {
  }

  lemma SameFact(w: World, s: State, d: string, f: Fact)
    requires Collisionless(w) && Valid(w, s) && d in s.facts && w.factDigest(f) == d
    ensures s.facts[d] == f && s.(facts := s.facts[d := f]) == s
  {
    hide FactVerifies, Chained, Founded, Linked;
  }

  /** An attachment already in place is the one asked for, and its facts are there. */
  lemma Restored(w: World, s: State, r: Request)
    requires Collisionless(w) && Valid(w, s) && Admitted(w, s, r)
    requires w.digest(AttachmentOf(w, s, r)) in Successors(s, r.enrollment, r.predecessor)
    ensures w.digest(AttachmentOf(w, s, r)) in s.attachments
    ensures AfterBoth(w, s, r) == s
  {
    hide FactVerifies, Chained, Founded, Evidence, Follows;
    var a := AttachmentOf(w, s, r);
    assert s.attachments[w.digest(a)] == a;
    assert Linked(w, s, a);
    SameFact(w, s, a.fact, FactOf(w, s, r));
  }

  /** A crash between the two publications leaves facts that only the same evidence completes:
      any later request for that step is accepted only if it selects exactly that evidence. */
  lemma HalfAttached(w: World, s: State, r: Request, later: Request)
    requires Collisionless(w) && Valid(w, s) && Accepted(w, s, r)
    requires Accepted(w, AfterFact(w, s, r), later)
    requires later.enrollment == r.enrollment && later.settlement == r.settlement && later.predecessor == r.predecessor
    ensures FactOf(w, AfterFact(w, s, r), later) == FactOf(w, s, r)
    ensures AfterBoth(w, AfterFact(w, s, r), later) == AfterBoth(w, s, r)
  {
    hide Evidence, Follows, Valid;
    var t, f := AfterFact(w, s, r), FactOf(w, s, r);
    assert w.factDigest(f) in Candidates(t, r.enrollment, r.settlement, f.sequence, f.predecessor);
  }

  // Whole runs --------------------------------------------------------------

  /** One call, refused, stopped between its publications, or complete. */
  predicate Step(w: World, a: State, b: State, r: Request) {
    b == a || (Accepted(w, a, r) && (b == AfterFact(w, a, r) || b == AfterBoth(w, a, r)))
  }

  predicate Run(w: World, states: seq<State>, requests: seq<Request>) {
    && |states| == |requests| + 1 && states[0] == State(map[], map[])
    && forall i :: 0 <= i < |requests| ==> Step(w, states[i], states[i + 1], requests[i])
  }

  lemma StepGrows(w: World, a: State, b: State, r: Request, enrollment: string, c: seq<string>)
    returns (longer: seq<string>)
    requires Collisionless(w) && Valid(w, a) && Step(w, a, b, r) && IsChain(a, enrollment, c)
    ensures Valid(w, b) && c <= longer && IsChain(b, enrollment, longer)
  {
    hide FactVerifies, Founded, Evidence, Follows, FactReplays, Linked, Keyed;
    longer := c;
    if b != a {
      var d, x := w.digest(AttachmentOf(w, a, r)), AttachmentOf(w, a, r);
      AfterFactValid(w, a, r);
      AfterBothValid(w, a, r);
      if b.attachments == a.attachments {
        ChainThere(a, b, enrollment, c);
      } else {
        ChainAfter(w, a, r, enrollment, c);
        if enrollment == r.enrollment { longer := c + [d]; }
      }
    }
  }

  lemma ChainThere(a: State, b: State, enrollment: string, c: seq<string>)
    requires IsChain(a, enrollment, c) && b.attachments == a.attachments
    ensures IsChain(b, enrollment, c)
  {
  }

  lemma ChainAfter(w: World, a: State, r: Request, enrollment: string, c: seq<string>)
    requires Collisionless(w) && Valid(w, a) && Accepted(w, a, r) && IsChain(a, enrollment, c)
    requires AfterBoth(w, a, r).attachments != a.attachments
    ensures var longer := if enrollment == r.enrollment then c + [w.digest(AttachmentOf(w, a, r))] else c;
      IsChain(AfterBoth(w, a, r), enrollment, longer)
  {
    hide FactVerifies, Founded, Evidence, FactReplays, Keyed;
    var x, t := AttachmentOf(w, a, r), AfterFact(w, a, r);
    var d, b := w.digest(x), AfterBoth(w, a, r);
    AfterFactValid(w, a, r);
    NotYet(w, a, r);
    ChainThere(a, t, enrollment, c);
    if enrollment == r.enrollment {
      NewLinked(w, a, r);
      assert Successors(t, r.enrollment, r.predecessor) == Successors(a, r.enrollment, r.predecessor);
      ChainExtends(w, t, d, x, c);
    } else {
      assert Keys(b, enrollment) == Keys(a, enrollment);
    }
  }

  /** Over all runs the attachments of an enrollment form one chain that only ever gets longer,
      and every attachment in it verifies and takes its place. */
  lemma {:induction false} RunChains(
    w: World, states: seq<State>, requests: seq<Request>, i: nat, j: nat, enrollment: string)
    returns (c: seq<string>, longer: seq<string>)
    requires Collisionless(w) && Founded(w) && Run(w, states, requests) && i <= j < |states|
    ensures Valid(w, states[j]) && c <= longer
    ensures IsChain(states[i], enrollment, c) && IsChain(states[j], enrollment, longer)
    ensures forall d :: d in longer ==> Verifies(w, states[j], d)
    ensures forall k :: 0 <= k < |longer| ==> Place(w, states[j], longer, k)
    decreases j
  {
    hide Step, Valid, Verifies, IsChain, Place;
    if j == 0 {
      NothingValid(w);
      c, longer := [], [];
      NothingChained(enrollment);
    } else {
      c, longer := RunChains(w, states, requests, if i < j then i else j - 1, j - 1, enrollment);
      longer := StepGrows(w, states[j - 1], states[j], requests[j - 1], enrollment, longer);
      if i == j { c := longer; }
    }
    ValidKeyed(w, states[j]);
    forall d | d in longer ensures Verifies(w, states[j], d) {
      ChainHas(states[j], enrollment, longer, d);
      AllVerify(w, states[j], d);
    }
    forall k | 0 <= k < |longer| ensures Place(w, states[j], longer, k) {
      ChainMember(states[j], enrollment, longer, k);
      VerifiedPlace(w, states[j], longer, k);
    }
  }

  lemma ChainHas(s: State, enrollment: string, c: seq<string>, d: string)
    requires IsChain(s, enrollment, c) && d in c
    ensures d in s.attachments
  {
  }

  lemma NothingChained(enrollment: string)
    ensures IsChain(State(map[], map[]), enrollment, [])
  {
  }

  lemma NothingValid(w: World)
    requires Founded(w)
    ensures Valid(w, State(map[], map[]))
  {
    var s := State(map[], map[]);
    forall enrollment ensures Chained(s, enrollment) {
      NothingChained(enrollment);
    }
  }
}
