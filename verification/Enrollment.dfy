/** Enrolling a fixture batch: at most two timestamp attempts, each sent at most once, retained
    in an append-only catalog that a crash may cut short between any two publications. */
module Enrollment {
  import opened Wrappers
  import opened Order

  datatype Transport = Received | Unavailable | Rejected | Malformed

  /** The retained artifacts. `reasons` is the sorted set of reasons; `detail` stands for the
      parts of a verification or record that no check here reads. */
  datatype Item =
    | Request(batch: string, nonce: string)
    | Attempt(batch: string, request: string, nonce: string, number: nat, predecessor: Option<string>)
    | Response(attempt: string, transport: Transport, reasons: seq<string>)
    | Result(attempt: string, reply: Option<string>, transport: Transport, reasons: seq<string>)
    | Verification(attempt: string, result: string, response: string, verified: bool, detail: string)
    | Record(batch: string, row: string, attempt: string, verification: string, detail: string)
    | Publication(batch: string, verification: string, records: seq<string>)

  /** The catalog by digest, and the attempts whose requests left on the wire. */
  datatype State = State(catalog: map<string, Item>, wire: seq<string>)

  type Catalog = map<string, Item>

  function AttemptKeys(c: Catalog, batch: string): set<string> {
    set d | d in c && c[d].Attempt? && c[d].batch == batch
  }

  function ResultKeys(c: Catalog, attempt: string): set<string> {
    set d | d in c && c[d].Result? && c[d].attempt == attempt
  }

  function ResponseKeys(c: Catalog, attempt: string): set<string> {
    set d | d in c && c[d].Response? && c[d].attempt == attempt
  }

  function VerificationKeys(c: Catalog, attempt: string): set<string> {
    set d | d in c && c[d].Verification? && c[d].attempt == attempt
  }

  function PublicationKeys(c: Catalog, batch: string): set<string> {
    set d | d in c && c[d].Publication? && c[d].batch == batch
  }

  /** Requests retained for a batch that none of its attempts took up. */
  function LooseRequests(c: Catalog, batch: string): set<string> {
    set d | d in c && c[d].Request? && c[d].batch == batch
      && forall a :: a in AttemptKeys(c, batch) ==> c[a].request != d
  }

  predicate First(c: Catalog, a: string) {
    a in c && c[a].Attempt? && c[a].number == 1 && c[a].predecessor.None?
  }

  predicate Second(c: Catalog, b: string, a: string) {
    b in c && c[b].Attempt? && c[b].number == 2 && c[b].predecessor == Some(a)
  }

  /** The attempts of a batch, in order: at most two, numbered from one, each naming the last. */
  predicate Chain(c: Catalog, batch: string, s: seq<string>) {
    && AttemptKeys(c, batch) == (set a | a in s)
    && |s| <= 2
    && (|s| >= 1 ==> First(c, s[0]))
    && (|s| == 2 ==> Second(c, s[1], s[0]))
  }

  predicate AtMostOne(keys: set<string>) {
    forall x, y :: x in keys && y in keys ==> x == y
  }

  // What every step keeps ---------------------------------------------------

  ghost predicate Chained(c: Catalog, batch: string) {
    exists s: seq<string> :: Chain(c, batch, s)
  }

  predicate IsAttempt(c: Catalog, d: string) {
    d in c && c[d].Attempt?
  }

  /** Each item names what it rests on. */
  predicate Linked(c: Catalog, wire: seq<string>, d: string)
    requires d in c
  {
    match c[d]
    case Response(attempt, _, _) => IsAttempt(c, attempt) && attempt in wire
    case Result(attempt, reply, transport, reasons) =>
      && IsAttempt(c, attempt)
      && (match reply
          case None => ResponseKeys(c, attempt) == {}
          case Some(r) => r in c && c[r] == Response(attempt, transport, reasons))
    case Verification(attempt, result, response, verified, _) =>
      && result in c && c[result].Result? && c[result].attempt == attempt
      && c[result].reply == Some(response) && (verified ==> c[result].transport.Received?)
    case Record(batch, _, attempt, verification, _) =>
      VerifiedFor(c, verification, batch) && c[verification].attempt == attempt
    case Publication(batch, verification, _) => VerifiedFor(c, verification, batch)
    case _ => true
  }

  /** A successful verification of an attempt of the batch. */
  predicate VerifiedFor(c: Catalog, verification: string, batch: string) {
    && verification in c && c[verification].Verification? && c[verification].verified
    && IsAttempt(c, c[verification].attempt) && c[c[verification].attempt].batch == batch
  }

  /** At most one result, response and verification for an attempt, and one publication for a
      batch. */
  predicate Singular(c: Catalog, key: string) {
    && AtMostOne(ResultKeys(c, key)) && AtMostOne(ResponseKeys(c, key))
    && AtMostOne(VerificationKeys(c, key)) && AtMostOne(PublicationKeys(c, key))
  }

  ghost predicate Valid(s: State) {
    && (forall batch :: Chained(s.catalog, batch))
    && (forall key :: Singular(s.catalog, key))
    && (forall d :: d in s.catalog ==> Linked(s.catalog, s.wire, d))
    && (forall a :: a in s.wire ==> IsAttempt(s.catalog, a))
    && (forall i, j :: 0 <= i < j < |s.wire| ==> s.wire[i] != s.wire[j])
  }

  /** Nothing retained changes; at most one request leaves, and only for an attempt that was
      not yet retained before. */
  predicate Extends(a: State, b: State) {
    && (forall d :: d in a.catalog ==> d in b.catalog && b.catalog[d] == a.catalog[d])
    && a.wire <= b.wire && |b.wire| <= |a.wire| + 1
    && (forall k :: |a.wire| <= k < |b.wire| ==> b.wire[k] !in a.catalog)
  }

  predicate Grows(a: Catalog, b: Catalog) {
    forall d :: d in a ==> d in b && b[d] == a[d]
  }

  /** A key with a new item of another kind leaves a family of keys as it was. */
  lemma KeysKept(c: Catalog, d: string, item: Item)
    requires d !in c
    ensures !item.Attempt? ==> forall b :: AttemptKeys(c[d := item], b) == AttemptKeys(c, b)
    ensures !item.Result? ==> forall a :: ResultKeys(c[d := item], a) == ResultKeys(c, a)
    ensures !item.Response? ==> forall a :: ResponseKeys(c[d := item], a) == ResponseKeys(c, a)
    ensures !item.Verification? ==> forall a :: VerificationKeys(c[d := item], a) == VerificationKeys(c, a)
    ensures !item.Publication? ==> forall b :: PublicationKeys(c[d := item], b) == PublicationKeys(c, b)
  {
  }

  /** The chain of another batch, or of one that got no new attempt, is unchanged. */
  lemma ChainKept(c: Catalog, e: Catalog, batch: string)
    requires Grows(c, e) && AttemptKeys(e, batch) == AttemptKeys(c, batch) && Chained(c, batch)
    ensures Chained(e, batch)
  {
    var s :| Chain(c, batch, s);
    assert forall a :: a in s ==> a in AttemptKeys(c, batch);
    assert Chain(e, batch, s);
  }

  predicate Admissible(s: State, item: Item) {
    match item
    case Attempt(batch, _, _, number, predecessor) =>
      (number == 1 && predecessor.None? && AttemptKeys(s.catalog, batch) == {})
      || (number == 2 && predecessor.Some? && AttemptKeys(s.catalog, batch) == {predecessor.value}
          && First(s.catalog, predecessor.value))
    case Response(attempt, _, _) =>
      && ResponseKeys(s.catalog, attempt) == {} && ResultKeys(s.catalog, attempt) == {}
      && attempt in s.wire
    case Result(attempt, reply, transport, reasons) =>
      && IsAttempt(s.catalog, attempt) && ResultKeys(s.catalog, attempt) == {}
      && (match reply
          case None => ResponseKeys(s.catalog, attempt) == {}
          case Some(r) => r in s.catalog && s.catalog[r] == Response(attempt, transport, reasons))
    case Verification(attempt, result, response, verified, _) =>
      && VerificationKeys(s.catalog, attempt) == {}
      && result in s.catalog && s.catalog[result].Result? && s.catalog[result].attempt == attempt
      && s.catalog[result].reply == Some(response) && (verified ==> s.catalog[result].transport.Received?)
    case Publication(batch, verification, _) =>
      PublicationKeys(s.catalog, batch) == {} && VerifiedFor(s.catalog, verification, batch)
    case Record(batch, _, attempt, verification, _) =>
      VerifiedFor(s.catalog, verification, batch) && s.catalog[verification].attempt == attempt
    case _ => true
  }

  lemma LinkedKept(s: State, d: string, item: Item)
    requires Valid(s) && d !in s.catalog && Admissible(s, item)
    ensures forall e :: e in s.catalog ==> Linked(s.catalog[d := item], s.wire, e)
    ensures Linked(s.catalog[d := item], s.wire, d)
  {
    var c := s.catalog[d := item];
    KeysKept(s.catalog, d, item);
    forall e | e in s.catalog ensures Linked(c, s.wire, e) {
      assert Linked(s.catalog, s.wire, e);
      if s.catalog[e].Result? {
        var attempt := s.catalog[e].attempt;
        assert e in ResultKeys(s.catalog, attempt);
        ResponsesKept(s.catalog, d, item, attempt);
      }
    }
  }

  lemma ResponsesKept(c: Catalog, d: string, item: Item, attempt: string)
    requires d !in c
    ensures !(item.Response? && item.attempt == attempt) ==>
      ResponseKeys(c[d := item], attempt) == ResponseKeys(c, attempt)
  {
  }

  lemma ChainsKept(s: State, d: string, item: Item, batch: string)
    requires Valid(s) && d !in s.catalog && Admissible(s, item)
    ensures Chained(s.catalog[d := item], batch)
  {
    var c := s.catalog[d := item];
    assert Chained(s.catalog, batch);
    if item.Attempt? && item.batch == batch {
      assert AttemptKeys(c, batch) == AttemptKeys(s.catalog, batch) + {d};
      if item.number == 1 {
        assert Chain(c, batch, [d]);
      } else {
        assert Chain(c, batch, [item.predecessor.value, d]);
      }
    } else {
      assert AttemptKeys(c, batch) == AttemptKeys(s.catalog, batch);
      ChainKept(s.catalog, c, batch);
    }
  }

  lemma SinglesKept(s: State, d: string, item: Item, k: string)
    requires Valid(s) && d !in s.catalog && Admissible(s, item)
    ensures Singular(s.catalog[d := item], k)
  {
    hide Chained, Linked;
    var c := s.catalog[d := item];
    assert Singular(s.catalog, k);
    KeysGrow(s.catalog, d, item, k);
  }

  lemma KeysGrow(b: Catalog, d: string, item: Item, k: string)
    requires d !in b
    ensures var c := b[d := item];
      && ResultKeys(c, k) == ResultKeys(b, k) + (if item.Result? && item.attempt == k then {d} else {})
      && ResponseKeys(c, k) == ResponseKeys(b, k) + (if item.Response? && item.attempt == k then {d} else {})
      && VerificationKeys(c, k) ==
           VerificationKeys(b, k) + (if item.Verification? && item.attempt == k then {d} else {})
      && PublicationKeys(c, k) == PublicationKeys(b, k) + (if item.Publication? && item.batch == k then {d} else {})
  {
  }

  /** Publishing an admissible item keeps the store valid. */
  lemma PublishKeeps(s: State, d: string, item: Item)
    requires Valid(s) && d !in s.catalog && Admissible(s, item)
    ensures Valid(s.(catalog := s.catalog[d := item]))
    ensures Extends(s, s.(catalog := s.catalog[d := item]))
  {
    hide Chained, Linked, Singular, Admissible;
    var c := s.catalog[d := item];
    LinkedKept(s, d, item);
    forall batch ensures Chained(c, batch) {
      ChainsKept(s, d, item, batch);
    }
    forall k ensures Singular(c, k) {
      SinglesKept(s, d, item, k);
    }
  }

  /** Sending a retained attempt that never left keeps the store valid. */
  lemma SendKeeps(s: State, attempt: string)
    requires Valid(s) && IsAttempt(s.catalog, attempt) && attempt !in s.wire
    ensures Valid(s.(wire := s.wire + [attempt]))
  {
    hide Chained, Singular;
    var w := s.wire + [attempt];
    forall d | d in s.catalog ensures Linked(s.catalog, w, d) {
      assert Linked(s.catalog, s.wire, d);
    }
  }

  predicate VerifiedOf(c: Catalog, verification: string, batch: string, attempt: string) {
    VerifiedFor(c, verification, batch) && c[verification].attempt == attempt
  }

  // Content addressing ------------------------------------------------------

  predicate RawItem(item: Item) {
    item.Request? || item.Response?
  }

  /** The digest of raw bytes, which no encoded artifact has. */
  ghost predicate RawKey(digest: Item -> string, key: string) {
    forall x: Item :: digest(x) != key
  }

  /** Encoded artifacts stand under the digest of their content, raw bytes under one no artifact
      has, and no two artifacts share a digest. */
  ghost predicate Addressed(digest: Item -> string, c: Catalog) {
    && (forall x: Item, y: Item :: digest(x) == digest(y) ==> x == y)
    && (forall d :: d in c ==> if RawItem(c[d]) then RawKey(digest, d) else digest(c[d]) == d)
  }

  lemma AddressedNext(digest: Item -> string, c: Catalog, key: string, item: Item)
    requires Addressed(digest, c) && if RawItem(item) then RawKey(digest, key) else key == digest(item)
    ensures Addressed(digest, c[key := item])
    ensures key in c && !RawItem(item) ==> c[key] == item
  {
  }

  /** No verification means no record of the batch either. */
  predicate NoRecords(c: Catalog, batch: string) {
    forall d :: d in c && c[d].Record? ==> c[d].batch != batch
  }

  lemma UnverifiedNoRecords(s: State, batch: string)
    requires Valid(s)
    requires forall a, v :: a in AttemptKeys(s.catalog, batch) && v in VerificationKeys(s.catalog, a) ==>
      !s.catalog[v].verified
    ensures NoRecords(s.catalog, batch)
  {
    hide Valid;
    forall d | d in s.catalog && s.catalog[d].Record? ensures s.catalog[d].batch != batch {
      RecordMeans(s, d);
    }
  }

  lemma RecordMeans(s: State, d: string)
    requires Valid(s) && d in s.catalog && s.catalog[d].Record?
    ensures s.catalog[d].attempt in AttemptKeys(s.catalog, s.catalog[d].batch)
    ensures s.catalog[d].verification in VerificationKeys(s.catalog, s.catalog[d].attempt)
    ensures s.catalog[s.catalog[d].verification].verified
  {
    hide Chained, Singular;
    assert Linked(s.catalog, s.wire, d);
  }

  /** Rows that name one fixture preference twice agree about it. */
  predicate RowsAgree(rows: seq<(string, string)>) {
    forall j, k :: 0 <= j < k < |rows| && rows[j].0 == rows[k].0 ==> rows[j] == rows[k]
  }

  /** Records already retained for these rows are these records. */
  predicate OwnRecords(c: Catalog, batch: string, attempt: string, verification: string, rows: seq<(string, string)>) {
    forall d, k :: d in c && 0 <= k < |rows| && c[d].Record? && c[d].batch == batch && c[d].row == rows[k].0 ==>
      c[d] == Record(batch, rows[k].0, attempt, verification, rows[k].1)
  }

  // The repository ----------------------------------------------------------

  datatype Stored = Kept | Conflict | Cut

  datatype Outcome = Published(digest: string) | Incomplete | Raised | Crashed

  /** What the authority answered, if it could be reached: a transport state, perhaps not one
      of the four, and the digest of the response bytes. */
  datatype Answer = Unreached | Told(state: Option<Transport>, body: Option<string>, reasons: set<string>)

  /** What a run meets outside the catalog: whether sources replay, trust refreshes and loads,
      the request can be made and binds the batch, the answer, and what verification finds in a
      response. */
  datatype Inputs = Inputs(
    prepared: bool, refreshed: bool, created: Option<(string, string)>, nonceValid: bool,
    adoptable: bool, binds: bool, trustLoads: bool, answer: Answer,
    replays: bool, checks: string -> bool, detail: string -> string, rows: seq<(string, string)>)

  /** Only publications happened. */
  predicate Retains(a: State, b: State) {
    Grows(a.catalog, b.catalog) && b.wire == a.wire
  }

  /** None of the new artifacts is an attempt. */
  predicate NoAttempts(a: Catalog, b: Catalog) {
    forall d :: d in b && d !in a ==> !b[d].Attempt?
  }

  /** Publications, and perhaps the one transmission of an attempt not retained before. */
  predicate SendsFresh(a: State, b: State) {
    && Grows(a.catalog, b.catalog)
    && (|| b.wire == a.wire
        || (|b.wire| == |a.wire| + 1 && b.wire[..|a.wire|] == a.wire && b.wire[|a.wire|] !in a.catalog))
  }

  predicate Fresh(s: State, attempt: string) {
    IsAttempt(s.catalog, attempt) && attempt !in s.wire
    && ResultKeys(s.catalog, attempt) == {} && ResponseKeys(s.catalog, attempt) == {}
  }

  /** An attempt just published was never sent and has nothing resting on it. */
  lemma JustPublished(a: State, key: string, item: Item)
    requires Valid(a) && item.Attempt? && key !in a.catalog
    ensures Fresh(a.(catalog := a.catalog[key := item]), key)
  {
    hide Chained, Singular;
    var c := a.catalog[key := item];
    KeysKept(a.catalog, key, item);
    forall d | d in a.catalog ensures d !in ResultKeys(c, key) && d !in ResponseKeys(c, key) {
      assert Linked(a.catalog, a.wire, d);
    }
    assert key !in a.wire;
  }

  /** A new attempt's digest cannot already be there with the same content. */
  lemma NewIsNew(s: State, key: string, item: Item)
    requires Admissible(s, item) && item.Attempt?
    ensures !(key in s.catalog && s.catalog[key] == item)
  {
    assert key in s.catalog && s.catalog[key] == item ==> key in AttemptKeys(s.catalog, item.batch);
  }

  lemma OnlyKey(keys: set<string>)
    ensures Sorted(keys) == [] <==> keys == {}
    ensures AtMostOne(keys) ==> |Sorted(keys)| <= 1
    ensures |Sorted(keys)| == 1 ==> keys == {Sorted(keys)[0]}
  {
    var s := Sorted(keys);
    SortedSize(keys);
    assert |s| >= 2 ==> s[0] in keys && s[1] in keys && Less(s[0], s[1]);
    assert |s| >= 2 ==> s[0] != s[1] by {
      if |s| >= 2 { LessTotal(s[0], s[1]); }
    }
    forall k ensures k in keys <==> k in s {
    }
  }

  function RecordKeys(digest: Item -> string, batch: string, attempt: string, verification: string,
                      rows: seq<(string, string)>): seq<string> {
    seq(|rows|, k requires 0 <= k < |rows| => digest(Record(batch, rows[k].0, attempt, verification, rows[k].1)))
  }

  predicate RecordsKept(digest: Item -> string, c: Catalog, batch: string, attempt: string, verification: string,
                        rows: seq<(string, string)>) {
    forall k :: 0 <= k < |rows| ==>
      var record := Record(batch, rows[k].0, attempt, verification, rows[k].1);
      digest(record) in c && c[digest(record)] == record
  }

  lemma RecordAdmissible(s: State, key: string, record: Item)
    requires record.Record?
    requires VerifiedFor(s.catalog, record.verification, record.batch)
    requires s.catalog[record.verification].attempt == record.attempt
    ensures Admissible(s, record)
    ensures forall b :: PublicationKeys(s.catalog[key := record], b) <= PublicationKeys(s.catalog, b)
    ensures (key in s.catalog ==> s.catalog[key] == record) ==>
      forall b :: PublicationKeys(s.catalog[key := record], b) == PublicationKeys(s.catalog, b)
  {
  }

  lemma PublicationAdmissible(s: State, key: string, p: Item)
    requires p.Publication? && VerifiedFor(s.catalog, p.verification, p.batch)
    requires PublicationKeys(s.catalog, p.batch) == {} || key in s.catalog
    ensures key !in s.catalog ==> Admissible(s, p)
  {
  }

  /** What has been added since are records of the given rows. */
  predicate OnlyRows(a: Catalog, b: Catalog, batch: string, attempt: string, verification: string,
                     rows: seq<(string, string)>) {
    forall d :: d in b && (d !in a || b[d] != a[d]) ==> IsRow(b[d], batch, attempt, verification, rows)
  }

  predicate IsRow(item: Item, batch: string, attempt: string, verification: string, rows: seq<(string, string)>) {
    exists j :: 0 <= j < |rows| && item == Record(batch, rows[j].0, attempt, verification, rows[j].1)
  }

  lemma IsRowNext(item: Item, batch: string, attempt: string, verification: string, rows: seq<(string, string)>, k: nat)
    requires k < |rows|
    ensures IsRow(item, batch, attempt, verification, rows[..k + 1]) <==>
      || IsRow(item, batch, attempt, verification, rows[..k])
      || item == Record(batch, rows[k].0, attempt, verification, rows[k].1)
    ensures IsRow(item, batch, attempt, verification, rows[..k + 1]) ==> IsRow(item, batch, attempt, verification, rows)
  {
    var next := rows[..k + 1];
    assert forall j :: 0 <= j < |next| ==> next[j] == rows[j];
    assert forall j :: 0 <= j < k ==> rows[..k][j] == rows[j] == next[j];
    assert next[k] == rows[k];
  }

  /** Another record of the row than the one under this key. */
  predicate Rivals(c: Catalog, batch: string, row: string, key: string) {
    exists d :: d in c && d != key && c[d].Record? && c[d].batch == batch && c[d].row == row
  }

  lemma OnlyNone(a: Catalog, batch: string, attempt: string, verification: string)
    ensures OnlyRows(a, a, batch, attempt, verification, [])
  {
  }

  lemma StillVerified(a: Catalog, b: Catalog, verification: string, batch: string, attempt: string)
    requires VerifiedOf(a, verification, batch, attempt) && Grows(a, b)
    ensures VerifiedOf(b, verification, batch, attempt)
  {
  }

  /** Among own records of agreeing rows, one row has one record. */
  lemma RowNext(digest: Item -> string, a: Catalog, b: Catalog, c: Catalog, batch: string, attempt: string,
                verification: string, rows: seq<(string, string)>, k: nat)
    requires k < |rows| && OnlyRows(a, b, batch, attempt, verification, rows[..k])
    requires var record := Record(batch, rows[k].0, attempt, verification, rows[k].1);
      c == b || c == b[digest(record) := record]
    ensures OnlyRows(a, c, batch, attempt, verification, rows[..k + 1])
    ensures var record := Record(batch, rows[k].0, attempt, verification, rows[k].1);
      Addressed(digest, b) ==>
        && Addressed(digest, c) && (digest(record) in b ==> b[digest(record)] == record)
        && (OwnRecords(a, batch, attempt, verification, rows) && RowsAgree(rows) ==>
             !Rivals(c, batch, rows[k].0, digest(record)))
  {
    hide IsRow, Addressed;
    var record := Record(batch, rows[k].0, attempt, verification, rows[k].1);
    forall d | d in c && (d !in a || c[d] != a[d])
      ensures IsRow(c[d], batch, attempt, verification, rows[..k + 1])
      ensures IsRow(c[d], batch, attempt, verification, rows)
    {
      IsRowNext(c[d], batch, attempt, verification, rows, k);
    }
    if Addressed(digest, b) {
      AddressedNext(digest, b, digest(record), record);
      forall d | d in c && c[d] == record ensures d == digest(record) {
        AddressedKey(digest, c, d);
      }
      if OwnRecords(a, batch, attempt, verification, rows) && RowsAgree(rows) {
        forall d | d in c && c[d].Record? && c[d].batch == batch && c[d].row == rows[k].0 ensures c[d] == record {
          if d !in a || c[d] != a[d] {
            RowIs(c[d], batch, attempt, verification, rows, k);
          }
        }
      }
    }
  }

  lemma RowIs(item: Item, batch: string, attempt: string, verification: string, rows: seq<(string, string)>, k: nat)
    requires IsRow(item, batch, attempt, verification, rows) && RowsAgree(rows)
    requires k < |rows| && item.row == rows[k].0
    ensures item == Record(batch, rows[k].0, attempt, verification, rows[k].1)
  {
    var j :| 0 <= j < |rows| && item == Record(batch, rows[j].0, attempt, verification, rows[j].1);
  }

  lemma AddressedKey(digest: Item -> string, c: Catalog, d: string)
    requires Addressed(digest, c) && d in c && !RawItem(c[d])
    ensures digest(c[d]) == d
  {
  }

  /** The response digest is that of raw bytes, which no artifact has. */
  ghost predicate RawAnswer(digest: Item -> string, answer: Answer) {
    answer.Told? && answer.body.Some? ==> RawKey(digest, answer.body.value)
  }

  lemma StillHeard(a: Catalog, b: Catalog, attempt: string, answer: Answer)
    requires Heard(a, attempt, answer) && Grows(a, b)
    ensures Heard(b, attempt, answer)
  {
    assert forall r :: r in a.Values ==> r in b.Values by {
      forall r | r in a.Values ensures r in b.Values {
        var d :| d in a && a[d] == r;
        assert b[d] == r;
      }
    }
  }

  predicate NewAnswer(c: Catalog, answer: Answer) {
    answer.Told? && answer.body.Some? ==> answer.body.value !in c
  }

  /** The answer is retained as it came, or as the failure it was. */
  predicate Heard(c: Catalog, attempt: string, answer: Answer) {
    match answer
    case Unreached => Result(attempt, None, Unavailable, Sorted({"TSA_TRANSPORT_UNAVAILABLE"})) in c.Values
    case Told(Some(transport), body, reasons) =>
      && Result(attempt, body, transport, Sorted(reasons)) in c.Values
      && (body.Some? ==> body.value in c && c[body.value] == Response(attempt, transport, Sorted(reasons)))
    case Told(None, body, _) =>
      var reasons := Sorted({"TSA_TRANSPORT_STATE_INVALID"});
      && Result(attempt, body, Malformed, reasons) in c.Values
      && (body.Some? ==> body.value in c && c[body.value] == Response(attempt, Malformed, reasons))
  }

  /** The verification of a retained response. */
  function Verdict(c: Catalog, attempt: string, result: string, i: Inputs): (v: Item)
    requires result in c && c[result].Result? && c[result].reply.Some?
  {
    var r := c[result];
    Verification(attempt, result, r.reply.value, r.transport.Received? && i.checks(r.reply.value) && i.replays,
                 i.detail(r.reply.value))
  }

  /** A verification is refused exactly when another stands, and cut exactly when it is new and
      nothing more can be written. */
  predicate Verified(c: Catalog, budget: nat, left: nat, attempt: string, v: Item, stored: Stored) {
    && (stored.Conflict? <==> exists k :: k in VerificationKeys(c, attempt) && c[k] != v)
    && (!stored.Conflict? ==> (stored.Cut? <==> VerificationKeys(c, attempt) == {} && budget == 0))
    && left == budget - (if stored.Kept? && VerificationKeys(c, attempt) == {} then 1 else 0)
  }

  /** What verifying a retained result comes to, in a content-addressed catalog. */
  ghost predicate Finishes(digest: Item -> string, c: Catalog, budget: nat, d: Catalog, left: nat, batch: string,
                           attempt: string, result: string, i: Inputs, o: Outcome)
    requires result in c && c[result].Result?
  {
    var r := c[result];
    if !Verifies(r, i) then o.Incomplete? && d == c && left == budget
    else
      var v := Verdict(c, attempt, result, i);
      if exists k :: k in VerificationKeys(c, attempt) && c[k] != v then o.Raised? && d == c
      else if !v.verified then
        && (if VerificationKeys(c, attempt) == {} && budget == 0 then o.Crashed? else o.Incomplete?)
        && (o.Incomplete? ==> d == c[digest(v) := v])
        && left == budget - (if o.Incomplete? && VerificationKeys(c, attempt) == {} then 1 else 0)
      else
        && !o.Incomplete?
        && (o.Crashed? ==> budget < |i.rows| + 2)
        && (o.Raised? ==>
              || !OwnRecords(c, batch, attempt, digest(v), i.rows) || !RowsAgree(i.rows)
              || !(PublicationKeys(c, batch)
                     <= {digest(Publication(batch, digest(v), RecordKeys(digest, batch, attempt, digest(v), i.rows)))}))
  }

  /** What sending comes to: the request leaves exactly when it binds the batch and trust loads,
      the answer is retained, and the batch is published exactly when that answer verifies. */
  ghost predicate Sends(digest: Item -> string, a: State, budget: nat, b: State, batch: string, attempt: string,
                        i: Inputs, o: Outcome) {
    && b.wire == (if i.binds && i.trustLoads && budget > 0 then a.wire + [attempt] else a.wire)
    && (!i.binds || !i.trustLoads ==> o.Incomplete? && b == a)
    && (b.wire != a.wire ==> Answered(b.catalog, attempt, i, o))
    && (o.Published? ==> b.wire != a.wire)
    && (&& Addressed(digest, a.catalog) && RawAnswer(digest, i.answer) && NewAnswer(a.catalog, i.answer)
        && i.binds && i.trustLoads && budget >= 5 + |i.rows| && Clear(a.catalog, batch, i)
        ==> o.Published? || o.Incomplete?)
  }

  /** The answer to the request that left is retained, and the batch is published exactly when
      it came with a response that passes every check over replayed sources. */
  predicate Answered(c: Catalog, attempt: string, i: Inputs, o: Outcome) {
    o.Published? || o.Incomplete? ==>
      && Heard(c, attempt, i.answer)
      && (o.Published? <==>
           && i.answer.Told? && i.answer.state == Some(Received) && i.answer.body.Some?
           && i.checks(i.answer.body.value) && i.replays)
  }

  /** Raw bytes met in a run have digests no artifact has. */
  ghost predicate RawInputs(digest: Item -> string, i: Inputs) {
    RawAnswer(digest, i.answer) && (i.created.Some? ==> RawKey(digest, i.created.value.0))
  }

  /** The response is not among what is retained or made before it comes. */
  predicate NewBody(c: Catalog, i: Inputs) {
    i.answer.Told? && i.answer.body.Some? ==>
      i.answer.body.value !in c && (i.created.Some? ==> i.answer.body.value != i.created.value.0)
  }

  /** No record and no publication of the batch stands, and the rows do not contradict. */
  predicate Clear(c: Catalog, batch: string, i: Inputs) {
    NoRecords(c, batch) && PublicationKeys(c, batch) == {} && RowsAgree(i.rows)
  }

  /** What making and sending an attempt comes to. */
  ghost predicate Attempts(a: State, budget: nat, b: State, batch: string, number: nat, predecessor: Option<string>,
                           i: Inputs, o: Outcome) {
    && (b.wire != a.wire <==>
         && i.created.Some? && i.nonceValid && i.binds && i.trustLoads
         && var (request, nonce) := i.created.value;
         && (request in a.catalog ==> a.catalog[request] == Request(batch, nonce))
         && budget >= 2 + if request in a.catalog then 0 else 1)
    && (b.wire != a.wire ==>
         && |b.wire| == |a.wire| + 1 && b.wire == a.wire + [b.wire[|a.wire|]] && b.wire[|a.wire|] in b.catalog
         && b.catalog[b.wire[|a.wire|]] == Attempt(batch, i.created.value.0, i.created.value.1, number, predecessor)
         && Answered(b.catalog, b.wire[|a.wire|], i, o)
         && (NewBody(a.catalog, i) && Clear(a.catalog, batch, i) && budget >= 7 + |i.rows| ==>
              o.Published? || o.Incomplete?))
    && (i.created.None? ==> o.Incomplete? && b == a)
    && (o.Published? ==> b.wire != a.wire)
  }

  /** What going back over a publication comes to: it is published again exactly under the
      checks it was first published under. */
  ghost predicate Replayed(digest: Item -> string, c: Catalog, budget: nat, d: Catalog, publication: string,
                           i: Inputs, o: Outcome) {
    && publication in c && c[publication].Publication?
    && var p := c[publication];
    && p.verification in c && c[p.verification].Verification?
    && var v := c[p.verification];
    && (o.Published? ==> o.digest == publication)
    && if !i.trustLoads then o.Incomplete? && d == c
       else if !(i.checks(v.response) && i.replays && i.detail(v.response) == v.detail) then o.Raised? && d == c
       else
         && !o.Incomplete?
         && (RowsAgree(i.rows) && OwnRecords(c, p.batch, v.attempt, p.verification, i.rows) ==>
              p.records == RecordKeys(digest, p.batch, v.attempt, p.verification, i.rows) ==>
              budget >= |i.rows| + 2 ==> o == Published(publication))
  }

  /** The retained attempt has failed: no response of the authority passes, and what was already
      verified is found to fail in the same way. */
  predicate Failed(c: Catalog, attempt: string, i: Inputs) {
    forall r :: r in ResponseKeys(c, attempt) && (c[r].transport.Received? || c[r].transport.Malformed?) ==>
      && !(c[r].transport.Received? && i.checks(r))
      && forall k :: k in VerificationKeys(c, attempt) ==>
           c[k].response == r && !c[k].verified && c[k].detail == i.detail(r)
  }

  /** The artifacts an attempt without them still needs: a result, and a verification of the
      authority's response. */
  function Needed(c: Catalog, attempt: string): (n: nat)
    ensures n <= 2
  {
    (if ResultKeys(c, attempt) == {} then 1 else 0)
    + if VerificationKeys(c, attempt) == {}
         && exists r :: r in ResponseKeys(c, attempt) && (c[r].transport.Received? || c[r].transport.Malformed?)
      then 1 else 0
  }

  /** What an explicit retry comes to: a second request leaves exactly when the batch has this one
      attempt, that attempt has failed, sources replay, and a fresh request can be made. */
  predicate Retried(a: State, budget: nat, b: State, batch: string, attempt: string, i: Inputs, o: Outcome) {
    && (b.wire != a.wire <==>
         && AttemptKeys(a.catalog, batch) == {attempt} && Failed(a.catalog, attempt, i)
         && i.replays && i.refreshed && i.created.Some? && i.nonceValid && i.binds && i.trustLoads
         && var (request, nonce) := i.created.value;
         && (request in a.catalog ==> a.catalog[request] == Request(batch, nonce))
         && budget >= Needed(a.catalog, attempt) + 2 + if request in a.catalog then 0 else 1)
    && (b.wire != a.wire ==>
         && |b.wire| == |a.wire| + 1 && b.wire == a.wire + [b.wire[|a.wire|]] && b.wire[|a.wire|] in b.catalog
         && b.catalog[b.wire[|a.wire|]] == Attempt(batch, i.created.value.0, i.created.value.1, 2, Some(attempt))
         && Answered(b.catalog, b.wire[|a.wire|], i, o)
         && (NewBody(a.catalog, i) && RowsAgree(i.rows) && budget >= 9 + |i.rows| ==> o.Published? || o.Incomplete?))
  }

  lemma NotRetried(a: State, had: nat, b: State, batch: string, attempt: string, i: Inputs, o: Outcome)
    requires a.wire == b.wire
    requires attempt in AttemptKeys(a.catalog, batch) && i.trustLoads && i.replays ==>
      !(Failed(a.catalog, attempt, i) && had >= Needed(a.catalog, attempt))
    ensures Retried(a, had, b, batch, attempt, i, o)
  {
    hide Failed, Needed;
  }

  lemma AttemptRetries(digest: Item -> string, a: State, had: nat, b: State, left: nat, e: State, batch: string,
                       attempt: string, i: Inputs, o: Outcome)
    requires Addressed(digest, b.catalog) && RawInputs(digest, i)
    requires Grows(a.catalog, b.catalog) && a.wire == b.wire
    requires forall d :: d in b.catalog && d !in a.catalog ==> !RawItem(b.catalog[d])
    requires Attempts(b, left, e, batch, 2, Some(attempt), i, o)
    requires AttemptKeys(a.catalog, batch) == {attempt} && i.refreshed && i.replays
    requires Clear(b.catalog, batch, i) <==> RowsAgree(i.rows)
    requires i.trustLoads ==>
      Failed(a.catalog, attempt, i) && had >= Needed(a.catalog, attempt) && left == had - Needed(a.catalog, attempt)
    ensures Retried(a, had, e, batch, attempt, i, o)
  {
    hide Addressed, RawInputs, Clear, RowsAgree, Failed, Answered, NewBody;
    DrivenRaw(digest, a.catalog, b.catalog, i);
    if i.created.Some? && i.created.value.0 in a.catalog {
      assert b.catalog[i.created.value.0] == a.catalog[i.created.value.0];
    }
  }

  lemma RetryRetries(digest: Item -> string, a: State, had: nat, b: State, left: nat, e: State, batch: string,
                     attempt: string, i: Inputs, o: Outcome)
    requires Valid(a) && Addressed(digest, b.catalog) && RawInputs(digest, i)
    requires Grows(a.catalog, b.catalog) && a.wire == b.wire
    requires forall d :: d in b.catalog && d !in a.catalog ==> !RawItem(b.catalog[d])
    requires AttemptKeys(a.catalog, batch) == AttemptKeys(b.catalog, batch)
    requires Unverified(a.catalog, attempt) ==> Unverified(b.catalog, attempt)
    requires e.wire != b.wire ==>
      AttemptKeys(b.catalog, batch) == {attempt} && i.replays && i.refreshed && Unverified(b.catalog, attempt)
    requires
      AttemptKeys(b.catalog, batch) == {attempt} && i.replays && i.refreshed && Unverified(b.catalog, attempt) ==>
        && (Clear(b.catalog, batch, i) <==> RowsAgree(i.rows))
        && Attempts(b, left, e, batch, 2, Some(attempt), i, o)
    requires i.trustLoads && i.replays ==>
      Failed(a.catalog, attempt, i) && had >= Needed(a.catalog, attempt) && left == had - Needed(a.catalog, attempt)
    ensures Retried(a, had, e, batch, attempt, i, o)
  {
    hide Valid, Addressed, RawInputs, Clear, RowsAgree, Failed, Answered, NewBody, Attempts, Needed, Unverified;
    if Failed(a.catalog, attempt, i) { FailedUnverified(a, attempt, i); }
    if AttemptKeys(b.catalog, batch) == {attempt} && i.replays && i.refreshed && Unverified(b.catalog, attempt) {
      AttemptRetries(digest, a, had, b, left, e, batch, attempt, i, o);
    }
  }

  lemma FailedUnverified(s: State, attempt: string, i: Inputs)
    requires Valid(s) && Failed(s.catalog, attempt, i)
    ensures Unverified(s.catalog, attempt)
  {
    hide Valid;
    ResultLinked(s, attempt);
    forall v | v in VerificationKeys(s.catalog, attempt) ensures !s.catalog[v].verified {
      VerificationLinked(s, v);
    }
  }

  lemma DriveFails(digest: Item -> string, s: State, had: nat, d: Catalog, left: nat, batch: string, attempt: string,
                   i: Inputs, o: Outcome)
    requires Valid(s) && Drives(digest, s.catalog, had, d, left, batch, attempt, i, o) && i.trustLoads && i.replays
    ensures o.Incomplete? <==> Failed(s.catalog, attempt, i) && had >= Needed(s.catalog, attempt)
    ensures o.Incomplete? ==> left == had - Needed(s.catalog, attempt)
  {
    hide Valid;
    OneResponse(s, attempt);
  }

  /** Another attempt's record, or one with another detail, stands for one of the rows. */
  predicate OthersRecorded(c: Catalog, batch: string, attempt: string, rows: seq<(string, string)>) {
    exists d, k :: d in c && 0 <= k < |rows| && c[d].Record? && c[d].batch == batch && c[d].row == rows[k].0
      && !(c[d].attempt == attempt && c[d].detail == rows[k].1)
  }

  /** What taking a retained attempt further comes to, without sending: a response that came is
      verified, one already verified must verify alike, and a success is published. */
  ghost predicate Drives(digest: Item -> string, c: Catalog, budget: nat, d: Catalog, left: nat, batch: string,
                         attempt: string, i: Inputs, o: Outcome) {
    var made := if ResultKeys(c, attempt) == {} then 1 else 0;
    var responses, known := ResponseKeys(c, attempt), VerificationKeys(c, attempt);
    && (!(i.trustLoads && exists r :: r in responses && (c[r].transport.Received? || c[r].transport.Malformed?)) ==>
          if budget < made then o.Crashed? else o.Incomplete? && left == budget - made)
    && (forall r :: i.trustLoads && r in responses && (c[r].transport.Received? || c[r].transport.Malformed?) ==>
          Judged(c, budget, left, batch, attempt, r, made, i, o))
    && (o.Incomplete? ==> forall x :: x in d && x !in c ==> d[x].Result? || (d[x].Verification? && !d[x].verified))
  }

  predicate Judged(c: Catalog, budget: nat, left: nat, batch: string, attempt: string, r: string, made: nat,
                   i: Inputs, o: Outcome)
    requires r in c && c[r].Response?
  {
    var known := VerificationKeys(c, attempt);
    var passes := c[r].transport.Received? && i.checks(r) && i.replays;
    if exists k :: k in known && !(c[k].response == r && c[k].verified == passes && c[k].detail == i.detail(r)) then
      o.Raised?
    else if !passes then
      var needed := made + if known == {} then 1 else 0;
      if budget < needed then o.Crashed? else o.Incomplete? && left == budget - needed
    else
      && !o.Incomplete?
      && (o.Crashed? ==> budget < |i.rows| + 3)
      && (o.Raised? ==>
            OthersRecorded(c, batch, attempt, i.rows) || !RowsAgree(i.rows) || PublicationKeys(c, batch) != {})
  }

  lemma FreshUnanswered(s: State, attempt: string)
    requires Fresh(s, attempt)
    ensures ResultKeys(s.catalog, attempt) == {} && ResponseKeys(s.catalog, attempt) == {}
  {
  }

  lemma DriveAdds(digest: Item -> string, c: Catalog, had: nat, d: Catalog, left: nat, batch: string, attempt: string,
                  i: Inputs, o: Outcome)
    requires Drives(digest, c, had, d, left, batch, attempt, i, o) && o.Incomplete?
    requires Grows(c, d)
    ensures forall x :: x in d && x !in c ==> !RawItem(d[x])
    ensures Unverified(c, attempt) ==> Unverified(d, attempt)
  {
    forall v | Unverified(c, attempt) && v in VerificationKeys(d, attempt) ensures !d[v].verified {
      assert v in c ==> v in VerificationKeys(c, attempt);
    }
  }

  lemma CutDrives(digest: Item -> string, s: State, batch: string, attempt: string, i: Inputs)
    requires Valid(s) && ResultKeys(s.catalog, attempt) == {}
    ensures Drives(digest, s.catalog, 0, s.catalog, 0, batch, attempt, i, Crashed)
  {
    hide Valid, Addressed, RowsAgree, OthersRecorded;
    NotVerifiedYet(s, attempt);
  }

  lemma OneResponse(s: State, attempt: string)
    requires Valid(s)
    ensures AtMostOne(ResponseKeys(s.catalog, attempt))
  {
    hide Chained, Linked;
    assert Singular(s.catalog, attempt);
  }

  lemma NewResult(s: State, key: string, result: Item)
    requires Admissible(s, result) && result.Result?
    ensures key in s.catalog ==> s.catalog[key] != result
  {
    assert key in s.catalog && s.catalog[key] == result ==> key in ResultKeys(s.catalog, result.attempt);
  }

  /** An attempt without a result has no verification. */
  lemma NotVerifiedYet(s: State, attempt: string)
    requires Valid(s) && ResultKeys(s.catalog, attempt) == {}
    ensures VerificationKeys(s.catalog, attempt) == {}
  {
    hide Chained, Singular;
    forall v | v in VerificationKeys(s.catalog, attempt)
      ensures s.catalog[v].result in ResultKeys(s.catalog, s.catalog[v].attempt)
    {
      VerificationLinked(s, v);
    }
  }

  lemma VerificationLinked(s: State, v: string)
    requires Valid(s) && v in s.catalog && s.catalog[v].Verification?
    ensures s.catalog[v].result in ResultKeys(s.catalog, s.catalog[v].attempt)
    ensures s.catalog[s.catalog[v].result].reply == Some(s.catalog[v].response)
    ensures s.catalog[v].verified ==> s.catalog[s.catalog[v].result].transport.Received?
  {
    hide Chained, Singular;
    assert Linked(s.catalog, s.wire, v);
  }

  /** Responses and results leave verifications, records and publications as they are. */
  lemma AnswerChanges(a: Catalog, b: Catalog, batch: string, attempt: string, rows: seq<(string, string)>)
    requires Grows(a, b) && forall d :: d in b && d !in a ==> b[d].Response? || b[d].Result?
    ensures VerificationKeys(b, attempt) == VerificationKeys(a, attempt)
    ensures PublicationKeys(b, batch) == PublicationKeys(a, batch)
    ensures NoRecords(a, batch) ==> forall v :: OwnRecords(b, batch, attempt, v, rows)
  {
  }

  /** What finishing from a result, put now or found, comes to in terms of the responses. */
  lemma FinishDrives(digest: Item -> string, s: State, had: nat, e: State, left: nat, d: Catalog, after: nat,
                     batch: string, attempt: string, result: string, i: Inputs, o: Outcome)
    requires Valid(s) && Valid(e) && Addressed(digest, e.catalog)
    requires result in ResultKeys(e.catalog, attempt)
    requires if ResultKeys(s.catalog, attempt) == {} then
        had == left + 1 && result !in s.catalog && e.catalog == s.catalog[result := e.catalog[result]]
      else e == s && had == left
    requires Finishes(digest, e.catalog, left, d, after, batch, attempt, result, i, o)
    ensures Drives(digest, s.catalog, had, d, after, batch, attempt, i, o)
  {
    hide Valid, Addressed, RowsAgree, OthersRecorded, OwnRecords, Judged;
    var c := e.catalog;
    var r := c[result];
    ResultLinked(e, attempt);
    AnswerChanges(s.catalog, c, batch, attempt, i.rows);
    if e != s { ResponsesKept(s.catalog, result, r, attempt); }
    assert ResponseKeys(s.catalog, attempt) == ResponseKeys(c, attempt);
    if Verifies(r, i) {
      FinishJudges(digest, s, had, e, left, d, after, batch, attempt, result, i, o);
    }
  }

  lemma FinishJudges(digest: Item -> string, s: State, had: nat, e: State, left: nat, d: Catalog, after: nat,
                     batch: string, attempt: string, result: string, i: Inputs, o: Outcome)
    requires Valid(s) && Valid(e) && Addressed(digest, e.catalog)
    requires result in ResultKeys(e.catalog, attempt) && Verifies(e.catalog[result], i)
    requires if ResultKeys(s.catalog, attempt) == {} then
        had == left + 1 && result !in s.catalog && e.catalog == s.catalog[result := e.catalog[result]]
      else e == s && had == left
    requires Finishes(digest, e.catalog, left, d, after, batch, attempt, result, i, o)
    requires e.catalog[result].reply.value in s.catalog
    requires s.catalog[e.catalog[result].reply.value] ==
      Response(attempt, e.catalog[result].transport, e.catalog[result].reasons)
    ensures Judged(s.catalog, had, after, batch, attempt, e.catalog[result].reply.value,
                   if ResultKeys(s.catalog, attempt) == {} then 1 else 0, i, o)
  {
    hide Valid, Addressed, RowsAgree, OthersRecorded, OwnRecords;
    var c := e.catalog;
    var r := c[result];
    var v := Verdict(c, attempt, result, i);
    AnswerChanges(s.catalog, c, batch, attempt, i.rows);
    VerifiedAlike(e, attempt, result, v);
    if forall k :: k in VerificationKeys(c, attempt) ==> c[k] == v {
      OthersHaveRecords(digest, s, e, batch, attempt, v, i.rows);
    }
  }

  /** All verifications of an attempt rest on its one result. */
  lemma VerifiedAlike(s: State, attempt: string, result: string, v: Item)
    requires Valid(s) && result in ResultKeys(s.catalog, attempt)
    requires v.Verification? && v.attempt == attempt && v.result == result
    ensures forall k :: k in VerificationKeys(s.catalog, attempt) ==>
      (s.catalog[k] == v <==>
        s.catalog[k].response == v.response && s.catalog[k].verified == v.verified && s.catalog[k].detail == v.detail)
  {
    hide Valid;
    ResultLinked(s, attempt);
    forall k | k in VerificationKeys(s.catalog, attempt) ensures s.catalog[k].result == result {
      VerificationLinked(s, k);
    }
  }

  /** Where every verification agrees, a record that is not this verification's is another
      attempt's or has another detail. */
  lemma OthersHaveRecords(digest: Item -> string, s: State, e: State, batch: string, attempt: string, v: Item,
                          rows: seq<(string, string)>)
    requires Valid(e) && Addressed(digest, e.catalog) && Grows(s.catalog, e.catalog)
    requires forall d :: d in e.catalog && d !in s.catalog ==> e.catalog[d].Result?
    requires v.Verification? && forall k :: k in VerificationKeys(e.catalog, attempt) ==> e.catalog[k] == v
    ensures !OwnRecords(e.catalog, batch, attempt, digest(v), rows) ==> OthersRecorded(s.catalog, batch, attempt, rows)
  {
    hide Valid, Addressed;
    var c := e.catalog;
    if !OwnRecords(c, batch, attempt, digest(v), rows) {
      var d, k :| d in c && 0 <= k < |rows| && c[d].Record? && c[d].batch == batch && c[d].row == rows[k].0
        && c[d] != Record(batch, rows[k].0, attempt, digest(v), rows[k].1);
      RecordMeans(e, d);
      if c[d].attempt == attempt {
        RetainedVerification(digest, c, attempt, c[d].verification, v);
      }
      assert d in s.catalog;
    }
  }

  /** A result worth verifying: a response of the authority, with trust to verify it under. */
  predicate Verifies(r: Item, i: Inputs)
    requires r.Result?
  {
    r.reply.Some? && (r.transport.Received? || r.transport.Malformed?) && i.trustLoads
  }

  lemma RetainedVerification(digest: Item -> string, c: Catalog, attempt: string, k: string, v: Item)
    requires Addressed(digest, c) && k in VerificationKeys(c, attempt)
    ensures c[k] == v <==> k == digest(v)
  {
  }

  lemma OneVerification(s: State, attempt: string)
    requires Valid(s)
    ensures AtMostOne(VerificationKeys(s.catalog, attempt))
  {
    hide Chained, Linked;
    assert Singular(s.catalog, attempt);
  }

  lemma NothingElse(c: Catalog, key: string, v: Item, batch: string, attempt: string, rows: seq<(string, string)>)
    requires v.Verification? && (key in c ==> c[key] == v)
    ensures PublicationKeys(c[key := v], batch) == PublicationKeys(c, batch)
    ensures OwnRecords(c, batch, attempt, key, rows) ==> OwnRecords(c[key := v], batch, attempt, key, rows)
  {
  }

  const NO_RESPONSE := ["RETAINED_ATTEMPT_HAS_NO_RETAINED_RESPONSE"]

  class Repository {
    const digest: Item -> string
    var state: State
    var budget: nat

    constructor (digest: Item -> string, state: State, budget: nat)
      ensures this.digest == digest && this.state == state && this.budget == budget
    {
      this.digest, this.state, this.budget := digest, state, budget;
    }

    /** Publishes one artifact: a conflict if its digest already names something else. */
    method Put(key: string, item: Item) returns (r: Stored)
      requires Valid(state) && (key !in state.catalog ==> Admissible(state, item))
      modifies this`state, this`budget
      ensures Valid(state) && Retains(old(state), state)
      ensures r.Kept? ==>
        && state == old(state).(catalog := old(state).catalog[key := item])
        && (key in old(state).catalog ==> old(state).catalog[key] == item)
      ensures r.Conflict? <==> key in old(state).catalog && old(state).catalog[key] != item
      ensures r.Cut? <==> key !in old(state).catalog && old(budget) == 0
      ensures !r.Kept? ==> state == old(state)
      ensures budget == old(budget) - if r.Kept? && key !in old(state).catalog then 1 else 0
    {
      hide Valid, Admissible;
      if key in state.catalog {
        return if state.catalog[key] == item then Kept else Conflict;
      }
      if budget == 0 { return Cut; }
      budget := budget - 1;
      PublishKeeps(state, key, item);
      state := state.(catalog := state.catalog[key := item]);
      r := Kept;
    }

    /** The retained attempts of a batch in order, or a refusal of what cannot be a sequence. */
    method AttemptsFor(batch: string) returns (r: Option<seq<string>>)
      ensures r.Some? ==> Chain(state.catalog, batch, r.value)
      ensures Valid(state) ==> r.Some?
    {
      hide Linked, Singular;
      var keys := Sorted(AttemptKeys(state.catalog, batch));
      ListedAttempts(state.catalog, batch);
      if |keys| > 2 { return None; }
      if |keys| == 2 && state.catalog[keys[0]].number > state.catalog[keys[1]].number {
        keys := [keys[1], keys[0]];
      }
      if |keys| >= 1 && !First(state.catalog, keys[0]) { return None; }
      if |keys| == 2 && !Second(state.catalog, keys[1], keys[0]) { return None; }
      r := Some(keys);
    }

    /** The one result of an attempt, checked against the response it rests on. */
    method ResultFor(attempt: string) returns (ok: bool, r: Option<string>)
      ensures Valid(state) ==> ok
      ensures ok && r.None? ==> ResultKeys(state.catalog, attempt) == {}
      ensures ok && r.Some? ==> r.value in ResultKeys(state.catalog, attempt)
    {
      hide Chained;
      var keys, responses := Sorted(ResultKeys(state.catalog, attempt)), Sorted(ResponseKeys(state.catalog, attempt));
      OnlyKey(ResultKeys(state.catalog, attempt));
      OnlyKey(ResponseKeys(state.catalog, attempt));
      if Valid(state) { ResultLinked(state, attempt); }
      if |keys| > 1 || |responses| > 1 { return false, None; }
      if keys == [] { return true, None; }
      assert keys[0] in ResultKeys(state.catalog, attempt);
      var result := state.catalog[keys[0]];
      match result.reply {
        case None => if responses != [] { return false, None; }
        case Some(response) =>
          if responses != [response] || state.catalog[response] != Response(attempt, result.transport, result.reasons) {
            return false, None;
          }
      }
      return true, Some(keys[0]);
    }

    /** Publishes what verifying a retained response comes to; it must agree with what was
        published before. */
    method Verify(attempt: string, result: string, i: Inputs) returns (stored: Stored, key: string)
      requires Valid(state) && result in ResultKeys(state.catalog, attempt)
      requires Verifies(state.catalog[result], i)
      modifies this`state, this`budget
      ensures Valid(state) && Retains(old(state), state) && NoAttempts(old(state).catalog, state.catalog)
      ensures var v := Verdict(old(state).catalog, attempt, result, i);
        && key == digest(v)
        && (stored.Kept? ==>
             && state == old(state).(catalog := old(state).catalog[key := v])
             && (key in old(state).catalog ==> old(state).catalog[key] == v))
        && (!stored.Kept? ==> state == old(state))
      ensures budget + 1 >= old(budget)
      ensures Addressed(digest, old(state).catalog) ==>
        && Addressed(digest, state.catalog)
        && Verified(old(state).catalog, old(budget), budget, attempt,
                    Verdict(old(state).catalog, attempt, result, i), stored)
    {
      hide Valid, Linked, Admissible, Addressed;
      var r := state.catalog[result];
      var verified := i.checks(r.reply.value) && i.replays && !r.transport.Malformed?;
      var v := Verification(attempt, result, r.reply.value, verified, i.detail(r.reply.value));
      key := digest(v);
      var retained := Sorted(VerificationKeys(state.catalog, attempt));
      OnlyKey(VerificationKeys(state.catalog, attempt));
      ghost var c := state.catalog;
      if Addressed(digest, c) {
        AddressedNext(digest, c, key, v);
        assert key in c ==> key in VerificationKeys(c, attempt);
        if retained != [] { RetainedVerification(digest, c, attempt, retained[0], v); }
      }
      OneVerification(state, attempt);
      if |retained| > 1 { return Conflict, key; }
      if retained != [] {
        if retained[0] != key || state.catalog[key] != v { return Conflict, key; }
      }
      VerificationAdmissible(state, key, v);
      stored := Put(key, v);
    }

    /** Verifies a retained response and, if it verifies, publishes the batch. Never sends. */
    method FinishResult(batch: string, attempt: string, result: string, i: Inputs) returns (o: Outcome)
      requires Valid(state) && IsAttempt(state.catalog, attempt) && state.catalog[attempt].batch == batch
      requires result in ResultKeys(state.catalog, attempt)
      modifies this`state, this`budget
      ensures Valid(state) && Retains(old(state), state) && NoAttempts(old(state).catalog, state.catalog)
      ensures o.Published? ==> o.digest in PublicationKeys(state.catalog, batch)
      ensures Addressed(digest, old(state).catalog) ==>
        && Addressed(digest, state.catalog)
        && Finishes(digest, old(state).catalog, old(budget), state.catalog, budget, batch, attempt, result, i, o)
      ensures !Verifies(old(state).catalog[result], i) ==> o.Incomplete? && state == old(state)
      ensures o.Published? || o.Incomplete? ==>
        var r := old(state).catalog[result];
        (o.Published? <==>
          i.trustLoads && r.transport.Received? && r.reply.Some? && i.checks(r.reply.value) && i.replays)
    {
      hide Valid, Linked, Admissible, OwnRecords, RowsAgree, Addressed;
      var r := state.catalog[result];
      if r.reply.None? || r.transport.Unavailable? || r.transport.Rejected? || !i.trustLoads { return Incomplete; }
      ghost var c, v := state.catalog, Verdict(state.catalog, attempt, result, i);
      var stored, key := Verify(attempt, result, i);
      if stored.Cut? { return Crashed; }
      if stored.Conflict? { return Raised; }
      if !state.catalog[key].verified { return Incomplete; }
      NothingElse(c, key, v, batch, attempt, i.rows);
      o := PublishRecords(batch, attempt, key, i.rows);
    }

    /** Publishes the record of one row; another record of the same row is a conflict. */
    method PublishRow(batch: string, row: string, attempt: string, verification: string, detail: string)
      returns (o: Stored, key: string)
      requires Valid(state) && VerifiedOf(state.catalog, verification, batch, attempt)
      modifies this`state, this`budget
      ensures Valid(state) && Retains(old(state), state)
      ensures var record := Record(batch, row, attempt, verification, detail);
        && key == digest(record)
        && (state == old(state) || state == old(state).(catalog := old(state).catalog[key := record]))
        && (o.Kept? ==> key in state.catalog && state.catalog[key] == record)
        && (o.Conflict? ==>
             || (key in old(state).catalog && old(state).catalog[key] != record)
             || Rivals(state.catalog, batch, row, key))
      ensures forall b :: PublicationKeys(state.catalog, b) == PublicationKeys(old(state).catalog, b)
      ensures o.Cut? ==> old(budget) == 0
      ensures old(budget) <= budget + 1
    {
      hide Valid, Linked, Admissible;
      var record := Record(batch, row, attempt, verification, detail);
      key := digest(record);
      RecordAdmissible(state, key, record);
      o := Put(key, record);
      if o.Kept? && Rivals(state.catalog, batch, row, key) {
        o := Conflict;
      }
    }

    /** Publishes one record per row. */
    method PublishRows(batch: string, attempt: string, verification: string, rows: seq<(string, string)>)
      returns (o: Stored, records: seq<string>)
      requires Valid(state) && VerifiedOf(state.catalog, verification, batch, attempt)
      modifies this`state, this`budget
      ensures Valid(state) && Retains(old(state), state) && NoAttempts(old(state).catalog, state.catalog)
      ensures forall b :: PublicationKeys(state.catalog, b) == PublicationKeys(old(state).catalog, b)
      ensures Addressed(digest, old(state).catalog) ==>
        && Addressed(digest, state.catalog)
        && (OwnRecords(old(state).catalog, batch, attempt, verification, rows) && RowsAgree(rows) ==> !o.Conflict?)
      ensures o.Cut? ==> old(budget) < |rows|
      ensures budget + |rows| >= old(budget)
      ensures o.Kept? ==>
        && records == RecordKeys(digest, batch, attempt, verification, rows)
        && RecordsKept(digest, state.catalog, batch, attempt, verification, rows)
    {
      hide Valid, Linked, Addressed, VerifiedOf, OwnRecords, RowsAgree, OnlyRows;
      records := [];
      var k := 0;
      ghost var before := state.catalog;
      OnlyNone(before, batch, attempt, verification);
      while k < |rows|
        invariant 0 <= k <= |rows| && budget + k >= old(budget)
        invariant Addressed(digest, before) ==> Addressed(digest, state.catalog)
        invariant VerifiedOf(state.catalog, verification, batch, attempt)
        invariant OnlyRows(before, state.catalog, batch, attempt, verification, rows[..k])
        invariant records == RecordKeys(digest, batch, attempt, verification, rows[..k])
        invariant RecordsKept(digest, state.catalog, batch, attempt, verification, rows[..k])
        invariant Valid(state) && Retains(old(state), state) && NoAttempts(old(state).catalog, state.catalog)
        invariant forall b :: PublicationKeys(state.catalog, b) == PublicationKeys(old(state).catalog, b)
      {
        ghost var c := state.catalog;
        var stored, key := PublishRow(batch, rows[k].0, attempt, verification, rows[k].1);
        StillVerified(c, state.catalog, verification, batch, attempt);
        RowNext(digest, before, c, state.catalog, batch, attempt, verification, rows, k);
        if !stored.Kept? { return stored, []; }
        assert rows[..k + 1] == rows[..k] + [rows[k]];
        records := records + [key];
        k := k + 1;
      }
      assert rows[..k] == rows;
      o := Kept;
    }

    /** Publishes one record per row, then the receipt, unless another receipt stands. */
    method PublishRecords(batch: string, attempt: string, verification: string, rows: seq<(string, string)>)
      returns (o: Outcome)
      requires Valid(state) && VerifiedOf(state.catalog, verification, batch, attempt)
      modifies this`state, this`budget
      ensures Valid(state) && Retains(old(state), state) && NoAttempts(old(state).catalog, state.catalog)
      ensures o.Published? ==>
        && o.digest in PublicationKeys(state.catalog, batch)
        && state.catalog[o.digest] ==
             Publication(batch, verification, RecordKeys(digest, batch, attempt, verification, rows))
        && RecordsKept(digest, state.catalog, batch, attempt, verification, rows)
        && PublicationKeys(old(state).catalog, batch) <= {o.digest}
      ensures !o.Incomplete?
      ensures Addressed(digest, old(state).catalog) ==>
        && Addressed(digest, state.catalog)
        && (o.Raised? ==>
             || !OwnRecords(old(state).catalog, batch, attempt, verification, rows) || !RowsAgree(rows)
             || !(PublicationKeys(old(state).catalog, batch)
                    <= {digest(Publication(batch, verification,
                                           RecordKeys(digest, batch, attempt, verification, rows)))}))
      ensures o.Crashed? ==> old(budget) < |rows| + 1
    {
      hide Valid, Linked, Admissible, OwnRecords, RowsAgree;
      var stored, records := PublishRows(batch, attempt, verification, rows);
      if stored.Cut? { return Crashed; }
      if stored.Conflict? { return Raised; }
      var publication := Publication(batch, verification, records);
      var key := digest(publication);
      var receipts := Sorted(PublicationKeys(state.catalog, batch));
      OnlyKey(PublicationKeys(state.catalog, batch));
      if receipts != [] && (|receipts| != 1 || receipts[0] != key) { return Raised; }
      PublicationAdmissible(state, key, publication);
      ghost var c := state.catalog;
      stored := Put(key, publication);
      if Addressed(digest, c) { AddressedNext(digest, c, key, publication); }
      if stored.Cut? { return Crashed; }
      if stored.Conflict? { return Raised; }
      o := Published(key);
    }

    /** Publishes the reply's body, if any, and then the result naming it. */
    method RecordAnswer(attempt: string, body: Option<string>, transport: Transport, reasons: seq<string>)
      returns (stored: Stored, key: string)
      requires Valid(state) && IsAttempt(state.catalog, attempt) && attempt in state.wire
      requires ResultKeys(state.catalog, attempt) == {} && ResponseKeys(state.catalog, attempt) == {}
      modifies this`state, this`budget
      ensures Valid(state) && Retains(old(state), state) && NoAttempts(old(state).catalog, state.catalog)
      ensures var c, result := old(state).catalog, Result(attempt, body, transport, reasons);
        var heard := if body.Some? then c[body.value := Response(attempt, transport, reasons)] else c;
        && key == digest(result)
        && (stored.Kept? ==> state.catalog == heard[key := result])
        && (!stored.Kept? ==> state.catalog == c || state.catalog == heard)
      ensures stored.Kept? ==>
        && key in ResultKeys(state.catalog, attempt)
        && (body.Some? ==> body.value in ResponseKeys(state.catalog, attempt))
      ensures Addressed(digest, old(state).catalog) && (body.Some? ==> RawKey(digest, body.value)) ==>
        && Addressed(digest, state.catalog) && (stored.Conflict? ==> body.Some? && body.value in old(state).catalog)
      ensures stored.Cut? ==> old(budget) < 2
      ensures budget + 2 >= old(budget)
    {
      hide Valid, Linked, Admissible, Addressed;
      ghost var sent := state;
      var result := Result(attempt, body, transport, reasons);
      key := digest(result);
      if body.Some? {
        var response := Response(attempt, transport, reasons);
        ResponseAdmissible(state, attempt, response);
        if Addressed(digest, state.catalog) && RawKey(digest, body.value) {
          AddressedNext(digest, state.catalog, body.value, response);
        }
        stored := Put(body.value, response);
        if !stored.Kept? { return; }
      }
      ResultAdmissible(sent, state, attempt, body, transport, reasons);
      ghost var c := state.catalog;
      if Addressed(digest, c) {
        AddressedNext(digest, c, key, result);
        NewResult(state, key, result);
      }
      stored := Put(key, result);
    }

    /** Retains what the authority answered, or that it could not be reached. */
    method RetainAnswer(attempt: string, answer: Answer) returns (stored: Stored, key: string)
      requires Valid(state) && IsAttempt(state.catalog, attempt) && attempt in state.wire
      requires ResultKeys(state.catalog, attempt) == {} && ResponseKeys(state.catalog, attempt) == {}
      modifies this`state, this`budget
      ensures Valid(state) && Retains(old(state), state) && NoAttempts(old(state).catalog, state.catalog)
      ensures stored.Kept? ==>
        && key in ResultKeys(state.catalog, attempt) && Heard(state.catalog, attempt, answer)
        && state.catalog[key].reply == (if answer.Told? then answer.body else None)
        && (state.catalog[key].transport.Received? <==> answer.Told? && answer.state == Some(Received))
      ensures forall d :: d in state.catalog && d !in old(state).catalog ==>
        state.catalog[d].Response? || state.catalog[d].Result?
      ensures Addressed(digest, old(state).catalog) && RawAnswer(digest, answer) ==>
        Addressed(digest, state.catalog) && (stored.Conflict? ==> !NewAnswer(old(state).catalog, answer))
      ensures stored.Cut? ==> old(budget) < 2
      ensures budget + 2 >= old(budget)
    {
      hide Valid, Linked, Addressed, Less;
      var transport, reasons, body: Option<string> := Unavailable, Sorted({"TSA_TRANSPORT_UNAVAILABLE"}), None;
      if answer.Told? {
        body := answer.body;
        if answer.state.Some? {
          transport, reasons := answer.state.value, Sorted(answer.reasons);
        } else {
          transport, reasons := Malformed, Sorted({"TSA_TRANSPORT_STATE_INVALID"});
        }
      }
      stored, key := RecordAnswer(attempt, body, transport, reasons);
    }

    /** Sends the request of an attempt that never left, and retains what comes back. */
    method SendAttempt(batch: string, attempt: string, i: Inputs) returns (o: Outcome)
      requires Valid(state) && Fresh(state, attempt) && state.catalog[attempt].batch == batch
      modifies this`state, this`budget
      ensures Valid(state) && Grows(old(state).catalog, state.catalog)
      ensures NoAttempts(old(state).catalog, state.catalog)
      ensures state.wire == old(state).wire || state.wire == old(state).wire + [attempt]
      ensures Sends(digest, old(state), old(budget), state, batch, attempt, i, o)
      ensures Addressed(digest, old(state).catalog) && RawAnswer(digest, i.answer) ==> Addressed(digest, state.catalog)
      ensures o.Published? ==> o.digest in PublicationKeys(state.catalog, batch)
    {
      hide Valid, Linked, Admissible, Addressed, OwnRecords, RowsAgree, NoRecords, Heard, RawAnswer, NewAnswer;
      if !i.binds || !i.trustLoads { return Incomplete; }
      if budget == 0 { return Crashed; }
      budget := budget - 1;
      SendKeeps(state, attempt);
      NotVerifiedYet(state, attempt);
      state := state.(wire := state.wire + [attempt]);
      ghost var c := state.catalog;
      var stored, key := RetainAnswer(attempt, i.answer);
      if stored.Cut? { return Crashed; }
      if stored.Conflict? { return Raised; }
      ghost var heard := state.catalog;
      AnswerChanges(c, heard, batch, attempt, i.rows);
      o := FinishResult(batch, attempt, key, i);
      StillHeard(heard, state.catalog, attempt, i.answer);
    }

    /** Takes a retained attempt as far as what is retained allows. It is sent only where the
        caller has just published it; otherwise a missing response is recorded as such. */
    method DriveAttempt(batch: string, attempt: string, allowSend: bool, i: Inputs) returns (o: Outcome)
      requires Valid(state) && IsAttempt(state.catalog, attempt) && state.catalog[attempt].batch == batch
      requires allowSend ==> Fresh(state, attempt)
      modifies this`state, this`budget
      ensures Valid(state) && Grows(old(state).catalog, state.catalog)
      ensures NoAttempts(old(state).catalog, state.catalog)
      ensures state.wire == old(state).wire || (allowSend && state.wire == old(state).wire + [attempt])
      ensures allowSend ==> Sends(digest, old(state), old(budget), state, batch, attempt, i, o)
      ensures !allowSend && Addressed(digest, old(state).catalog) ==>
        Drives(digest, old(state).catalog, old(budget), state.catalog, budget, batch, attempt, i, o)
      ensures Addressed(digest, old(state).catalog) && (allowSend ==> RawAnswer(digest, i.answer)) ==>
        Addressed(digest, state.catalog)
      ensures o.Published? ==> o.digest in PublicationKeys(state.catalog, batch)
      ensures (o.Incomplete? || o.Published?) && !allowSend ==> ResultKeys(state.catalog, attempt) != {}
      ensures (
        && o.Incomplete? && !allowSend
        && ResultKeys(old(state).catalog, attempt) == {} && ResponseKeys(old(state).catalog, attempt) == {}
      ) ==>
        exists d :: d in state.catalog && state.catalog[d] == Result(attempt, None, Unavailable, NO_RESPONSE)
    {
      hide Valid, Linked, Admissible, Addressed, Drives, Fresh, Sends, Finishes, RawAnswer, Less;
      ghost var c, had := state.catalog, budget;
      ghost var s := state;
      if allowSend { FreshUnanswered(s, attempt); }
      var ok, found := ResultFor(attempt);
      if !ok { return Raised; }
      if found.None? {
        var responses := Sorted(ResponseKeys(state.catalog, attempt));
        OnlyKey(ResponseKeys(state.catalog, attempt));
        OneResponse(state, attempt);
        var result;
        if |responses| > 1 { return Raised; }
        if responses != [] {
          assert responses[0] in ResponseKeys(state.catalog, attempt);
          var response := state.catalog[responses[0]];
          result := Result(attempt, Some(responses[0]), response.transport, response.reasons);
        } else if allowSend {
          o := SendAttempt(batch, attempt, i);
          return;
        } else {
          result := Result(attempt, None, Unavailable, NO_RESPONSE);
        }
        RetainedAdmissible(state, attempt, result);
        var key := digest(result);
        if Addressed(digest, c) {
          AddressedNext(digest, c, key, result);
          NewResult(state, key, result);
        }
        var stored := Put(key, result);
        if stored.Cut? {
          CutDrives(digest, s, batch, attempt, i);
          return Crashed;
        }
        if stored.Conflict? { return Raised; }
        found := Some(key);
      }
      ghost var e, left := state, budget;
      o := FinishResult(batch, attempt, found.value, i);
      assert found.value in ResultKeys(state.catalog, attempt);
      if Addressed(digest, c) {
        FinishDrives(digest, s, had, e, left, state.catalog, budget, batch, attempt, found.value, i, o);
      }
    }

    /** Retains a request and the attempt made from it. */
    method MakeAttempt(batch: string, request: string, nonce: string, number: nat, predecessor: Option<string>)
      returns (stored: Stored, key: string)
      requires Valid(state)
      requires Admissible(state, Attempt(batch, request, nonce, number, predecessor))
      modifies this`state, this`budget
      ensures Valid(state) && Retains(old(state), state)
      ensures var c, attempt := old(state).catalog, Attempt(batch, request, nonce, number, predecessor);
        && key == digest(attempt)
        && (stored.Kept? ==>
             && Fresh(state, key) && key !in c
             && state.catalog == c[request := Request(batch, nonce)][key := attempt]
             && (request in c ==> c[request] == Request(batch, nonce))
             && key !in c[request := Request(batch, nonce)])
        && (Addressed(digest, c) && RawKey(digest, request) ==>
             && Addressed(digest, state.catalog)
             && (stored.Conflict? <==> request in c && c[request] != Request(batch, nonce))
             && (stored.Cut? ==> old(budget) < 1 + if request in c then 0 else 1)
             && (stored.Kept? ==> budget == old(budget) - (1 + if request in c then 0 else 1)))
    {
      hide Valid, Linked, Fresh, Admissible, Addressed;
      ghost var a := state;
      var attempt := Attempt(batch, request, nonce, number, predecessor);
      key := digest(attempt);
      RequestAdmissible(state, Request(batch, nonce));
      if Addressed(digest, a.catalog) && RawKey(digest, request) {
        AddressedNext(digest, a.catalog, request, Request(batch, nonce));
      }
      stored := Put(request, Request(batch, nonce));
      if !stored.Kept? { return; }
      ghost var b := state;
      RequestChanges(a, b, request, Request(batch, nonce), attempt);
      NewIsNew(state, key, attempt);
      if Addressed(digest, b.catalog) { AddressedNext(digest, b.catalog, key, attempt); }
      stored := Put(key, attempt);
      if stored.Kept? { JustPublished(b, key, attempt); }
    }

    /** Retains a new request and attempt, then sends it. */
    method NewAttempt(batch: string, number: nat, predecessor: Option<string>, i: Inputs) returns (o: Outcome)
      requires Valid(state)
      requires forall request, nonce :: Admissible(state, Attempt(batch, request, nonce, number, predecessor))
      modifies this`state, this`budget
      ensures Valid(state) && SendsFresh(old(state), state)
      ensures Addressed(digest, old(state).catalog) && RawInputs(digest, i) ==>
        && Addressed(digest, state.catalog)
        && Attempts(old(state), old(budget), state, batch, number, predecessor, i, o)
      ensures state.wire != old(state).wire ==>
        var last := state.wire[|old(state).wire|];
        IsAttempt(state.catalog, last) && state.catalog[last].batch == batch
        && state.catalog[last].number == number && state.catalog[last].predecessor == predecessor
      ensures o.Published? ==> o.digest in PublicationKeys(state.catalog, batch)
    {
      hide Valid, Linked, Fresh, Admissible, Addressed, Clear, Answered, NewAnswer, NewBody, RawAnswer;
      if i.created.None? { return Incomplete; }
      if !i.nonceValid { return Raised; }
      ghost var a := state;
      var (request, nonce) := i.created.value;
      assert Admissible(a, Attempt(batch, request, nonce, number, predecessor));
      var stored, key := MakeAttempt(batch, request, nonce, number, predecessor);
      if stored.Cut? { return Crashed; }
      if stored.Conflict? { return Raised; }
      FreshMeans(state, key);
      if Addressed(digest, a.catalog) && RawInputs(digest, i) {
        AttemptClears(digest, a.catalog, a.catalog[request := Request(batch, nonce)], batch,
                      Attempt(batch, request, nonce, number, predecessor), i);
      }
      o := SendAttempt(batch, key, i);
    }

    /** Goes back over a published batch; it only re-verifies what is retained. */
    method ReplayPublication(batch: string, publication: string, i: Inputs) returns (o: Outcome)
      requires Valid(state) && publication in PublicationKeys(state.catalog, batch)
      modifies this`state, this`budget
      ensures Valid(state) && Retains(old(state), state)
      ensures o.Published? ==> o.digest in PublicationKeys(state.catalog, batch)
      ensures Addressed(digest, old(state).catalog) ==>
        && Addressed(digest, state.catalog)
        && Replayed(digest, old(state).catalog, old(budget), state.catalog, publication, i, o)
    {
      hide Valid, Linked, Addressed, OwnRecords, RowsAgree;
      PublicationLinked(state, publication);
      var verification := state.catalog[publication].verification;
      var attempt := state.catalog[verification].attempt;
      PublishedResponse(state, publication);
      var ok, result := ResultFor(attempt);
      if !ok || result.None? || !state.catalog[result.value].transport.Received? { return Raised; }
      ghost var s, had := state, budget;
      o := FinishResult(batch, attempt, result.value, i);
      if Addressed(digest, s.catalog) {
        FinishReplays(digest, s, had, state.catalog, budget, publication, result.value, i, o);
      }
      if o.Published? { o := Published(publication); }
    }

    /** Takes up a retained request as the first attempt and sends it. */
    method AdoptRequest(batch: string, request: string, i: Inputs) returns (o: Outcome)
      requires Valid(state) && AttemptKeys(state.catalog, batch) == {}
      requires request in LooseRequests(state.catalog, batch)
      modifies this`state, this`budget
      ensures Valid(state) && SendsFresh(old(state), state)
      ensures state.wire != old(state).wire ==>
        && First(state.catalog, state.wire[|old(state).wire|])
        && state.catalog[state.wire[|old(state).wire|]].batch == batch
      ensures Addressed(digest, old(state).catalog) && RawInputs(digest, i) ==>
        && Addressed(digest, state.catalog)
        && (state.wire != old(state).wire <==> i.binds && i.trustLoads && old(budget) >= 2)
        && (state.wire != old(state).wire ==>
              var last := state.wire[|old(state).wire|];
              && state.catalog[last] == Attempt(batch, request, old(state).catalog[request].nonce, 1, None)
              && Answered(state.catalog, last, i, o)
              && (NewBody(old(state).catalog, i) && Clear(old(state).catalog, batch, i) ==>
                    old(budget) >= 6 + |i.rows| ==> o.Published? || o.Incomplete?))
      ensures o.Published? ==> o.digest in PublicationKeys(state.catalog, batch)
    {
      hide Valid, Linked, Fresh, Admissible, Addressed, Clear, Answered, NewAnswer, NewBody;
      var attempt := Attempt(batch, request, state.catalog[request].nonce, 1, None);
      var key := digest(attempt);
      ghost var b := state;
      FirstAdmissible(state, batch);
      NewIsNew(state, key, attempt);
      if Addressed(digest, b.catalog) && RawInputs(digest, i) {
        AddressedNext(digest, b.catalog, key, attempt);
        AdoptionClears(digest, b.catalog, batch, attempt, i);
      }
      var stored := Put(key, attempt);
      if stored.Cut? { return Crashed; }
      if stored.Conflict? { return Raised; }
      JustPublished(b, key, attempt);
      FreshMeans(state, key);
      o := DriveAttempt(batch, key, true, i);
    }

    /** Enrols a batch: replays what is published, takes a retained attempt as far as it goes
        without sending, adopts a retained request, or makes the first attempt. */
    method Enroll(batch: string, i: Inputs) returns (o: Outcome)
      requires Valid(state)
      modifies this`state, this`budget
      ensures Valid(state) && SendsFresh(old(state), state)
      ensures state.wire != old(state).wire ==>
        && First(state.catalog, state.wire[|old(state).wire|])
        && state.catalog[state.wire[|old(state).wire|]].batch == batch
      ensures o.Published? ==> o.digest in PublicationKeys(state.catalog, batch)
      ensures Addressed(digest, old(state).catalog) && RawInputs(digest, i) ==>
        var c, loose := old(state).catalog, LooseRequests(old(state).catalog, batch);
        && Addressed(digest, state.catalog)
        && (state.wire != old(state).wire <==>
              && i.prepared && PublicationKeys(c, batch) == {} && AttemptKeys(c, batch) == {}
              && i.binds && i.trustLoads
              && if loose == {} then
                   i.refreshed && i.created.Some? && i.nonceValid && i.created.value.0 !in c && old(budget) >= 3
                 else |loose| == 1 && i.adoptable && old(budget) >= 2)
      ensures Addressed(digest, old(state).catalog) && RawInputs(digest, i) && state.wire != old(state).wire ==>
        var c, loose := old(state).catalog, LooseRequests(old(state).catalog, batch);
        var last := state.wire[|old(state).wire|];
        && state.catalog[last].Attempt?
        && (if loose == {} then
              state.catalog[last] == Attempt(batch, i.created.value.0, i.created.value.1, 1, None)
            else
              && loose == {state.catalog[last].request}
              && state.catalog[last].nonce == c[state.catalog[last].request].nonce)
        && Answered(state.catalog, last, i, o)
        && (NewBody(c, i) && RowsAgree(i.rows) && old(budget) >= 7 + |i.rows| ==> o.Published? || o.Incomplete?)
      ensures Addressed(digest, old(state).catalog) && RawInputs(digest, i) && i.prepared ==>
        var c, attempts := old(state).catalog, AttemptKeys(old(state).catalog, batch);
        && (forall p :: p in PublicationKeys(c, batch) ==>
              Replayed(digest, c, old(budget), state.catalog, p, i, o))
        && (PublicationKeys(c, batch) == {} ==>
             && (forall a :: attempts == {a} ==>
                   Drives(digest, c, old(budget), state.catalog, budget, batch, a, i, o))
             && (attempts == {} && LooseRequests(c, batch) == {} && (!i.refreshed || i.created.None?) ==>
                   o.Incomplete? && state == old(state))
             && (|attempts| == 2 ==> o.Raised?))
    {
      hide Valid, Linked, Fresh, Admissible, Addressed, Clear, Answered, NewAnswer, NewBody, Drives, Replayed;
      hide RawInputs, RowsAgree, Less;
      if !i.prepared { return Raised; }
      var receipts := Sorted(PublicationKeys(state.catalog, batch));
      OnlyKey(PublicationKeys(state.catalog, batch));
      OnePublication(state, batch);
      if receipts != [] {
        if |receipts| != 1 { return Raised; }
        assert receipts[0] in PublicationKeys(state.catalog, batch);
        o := ReplayPublication(batch, receipts[0], i);
        return;
      }
      var attempts := AttemptsFor(batch);
      if attempts.None? { return Raised; }
      if attempts.value != [] {
        assert attempts.value[0] in AttemptKeys(state.catalog, batch);
        ChainIs(state.catalog, batch, attempts.value);
        if |attempts.value| != 1 { return Raised; }
        o := DriveAttempt(batch, attempts.value[0], false, i);
        return;
      }
      assert AttemptKeys(state.catalog, batch) == {};
      NothingOf(state, batch, i);
      var loose := Sorted(LooseRequests(state.catalog, batch));
      OnlyKey(LooseRequests(state.catalog, batch));
      SortedSize(LooseRequests(state.catalog, batch));
      if |loose| > 1 { return Raised; }
      if loose != [] {
        if !i.adoptable { return Raised; }
        assert loose[0] in LooseRequests(state.catalog, batch);
        o := AdoptRequest(batch, loose[0], i);
        return;
      }
      if !i.refreshed { return Incomplete; }
      FirstAdmissible(state, batch);
      if i.created.Some? && i.created.value.0 in state.catalog { NotLoose(state.catalog, batch, i.created.value.0); }
      o := NewAttempt(batch, 1, None, i);
    }

    /** Makes and sends the second attempt, unless the first one has a verified response. */
    method RetryAttempt(batch: string, attempt: string, attempts: seq<string>, i: Inputs) returns (o: Outcome)
      requires Valid(state) && Chain(state.catalog, batch, attempts) && attempt in attempts
      requires ResultKeys(state.catalog, attempt) != {}
      modifies this`state, this`budget
      ensures Valid(state) && SendsFresh(old(state), state)
      ensures o.Published? ==> o.digest in PublicationKeys(state.catalog, batch)
      ensures state.wire != old(state).wire ==>
        && AttemptKeys(old(state).catalog, batch) == {attempt} && i.replays && i.refreshed
        && Unverified(old(state).catalog, attempt)
        && Second(state.catalog, state.wire[|old(state).wire|], attempt)
      ensures Addressed(digest, old(state).catalog) && RawInputs(digest, i) ==>
        && Addressed(digest, state.catalog)
        && (&& AttemptKeys(old(state).catalog, batch) == {attempt} && i.replays && i.refreshed
            && Unverified(old(state).catalog, attempt) ==>
             && (Clear(old(state).catalog, batch, i) <==> RowsAgree(i.rows))
             && Attempts(old(state), old(budget), state, batch, 2, Some(attempt), i, o))
    {
      hide Valid, Linked, Fresh, Admissible, Addressed, Clear, RowsAgree, Attempts, RawInputs;
      ChainIs(state.catalog, batch, attempts);
      assert attempt in AttemptKeys(state.catalog, batch);
      if state.catalog[attempt].number != 1 || |attempts| != 1 { return Raised; }
      var ok, prior := ResultFor(attempt);
      if !ok || prior.None? { return Raised; }
      VerifiedReceived(state, attempt, prior.value);
      if state.catalog[prior.value].transport.Received? {
        var verifications := Sorted(VerificationKeys(state.catalog, attempt));
        OnlyKey(VerificationKeys(state.catalog, attempt));
        OneVerification(state, attempt);
        if |verifications| > 1 { return Raised; }
        if verifications != [] && state.catalog[verifications[0]].verified {
          assert verifications[0] in VerificationKeys(state.catalog, attempt);
          return Raised;
        }
      }
      if !i.replays { return Raised; }
      if !i.refreshed { return Incomplete; }
      NothingOf(state, batch, i);
      SecondAdmissible(state, batch, attempt);
      o := NewAttempt(batch, 2, Some(attempt), i);
    }

    /** Re-verifies one retained attempt, and sends again only on an explicit retry of the
        first attempt after its failure was recorded. */
    method Resume(batch: string, attempt: string, retry: bool, i: Inputs) returns (o: Outcome)
      requires Valid(state)
      modifies this`state, this`budget
      ensures Valid(state) && SendsFresh(old(state), state)
      ensures state.wire != old(state).wire ==>
        && retry && AttemptKeys(old(state).catalog, batch) == {attempt}
        && Second(state.catalog, state.wire[|old(state).wire|], attempt)
        && (forall v :: v in VerificationKeys(old(state).catalog, attempt) ==> !old(state).catalog[v].verified)
      ensures o.Published? ==> o.digest in PublicationKeys(state.catalog, batch)
      ensures attempt !in AttemptKeys(old(state).catalog, batch) ==> o.Raised? && state == old(state)
      ensures Addressed(digest, old(state).catalog) && !retry && attempt in AttemptKeys(old(state).catalog, batch) ==>
        Drives(digest, old(state).catalog, old(budget), state.catalog, budget, batch, attempt, i, o)
      ensures Addressed(digest, old(state).catalog) && RawInputs(digest, i) ==>
        && Addressed(digest, state.catalog)
        && (if retry then Retried(old(state), old(budget), state, batch, attempt, i, o)
            else state.wire == old(state).wire)
    {
      hide Valid, Linked, Fresh, Admissible, Addressed, Clear, Answered, NewAnswer, NewBody, Drives, RawInputs;
      hide RowsAgree, Failed, Needed, Attempts, Unverified, Retried;
      ghost var a, had := state, budget;
      if attempt !in AttemptKeys(a.catalog, batch) { NotRetried(a, had, a, batch, attempt, i, Raised); }
      if !IsAttempt(state.catalog, attempt) || state.catalog[attempt].batch != batch { return Raised; }
      var attempts := AttemptsFor(batch);
      if attempts.None? || attempt !in attempts.value || |attempts.value| > 2 { return Raised; }
      o := DriveAttempt(batch, attempt, false, i);
      ghost var b, left := state, budget;
      if Addressed(digest, a.catalog) && i.trustLoads && i.replays {
        DriveFails(digest, a, had, b.catalog, left, batch, attempt, i, o);
      }
      if Addressed(digest, a.catalog) && !o.Incomplete? { NotRetried(a, had, b, batch, attempt, i, o); }
      if o.Published? || o.Raised? || o.Crashed? || !retry { return; }
      DrivenChain(a.catalog, b.catalog, batch, attempts.value);
      o := RetryAttempt(batch, attempt, attempts.value, i);
      EarlierUnverified(a.catalog, b.catalog, attempt);
      if Addressed(digest, a.catalog) && RawInputs(digest, i) {
        DriveAdds(digest, a.catalog, had, b.catalog, left, batch, attempt, i, Incomplete);
        RetryRetries(digest, a, had, b, left, state, batch, attempt, i, o);
      }
    }
  }

  lemma RequestAdmissible(s: State, item: Item)
    requires item.Request?
    ensures Admissible(s, item)
  {
  }

  lemma RequestChanges(a: State, b: State, key: string, item: Item, attempt: Item)
    requires item.Request? && attempt.Attempt? && Admissible(a, attempt)
    requires b == a.(catalog := a.catalog[key := item]) && (key in a.catalog ==> a.catalog[key] == item)
    ensures Admissible(b, attempt)
  {
    assert AttemptKeys(b.catalog, attempt.batch) == AttemptKeys(a.catalog, attempt.batch);
  }

  /** A batch no attempt of which was verified has no record and no publication. */
  lemma NothingOf(s: State, batch: string, i: Inputs)
    requires Valid(s)
    requires forall a, v :: a in AttemptKeys(s.catalog, batch) && v in VerificationKeys(s.catalog, a) ==>
      !s.catalog[v].verified
    ensures NoRecords(s.catalog, batch) && PublicationKeys(s.catalog, batch) == {}
    ensures Clear(s.catalog, batch, i) <==> RowsAgree(i.rows)
  {
    hide Valid, RowsAgree;
    UnverifiedNoRecords(s, batch);
    forall p | p in s.catalog && s.catalog[p].Publication? ensures s.catalog[p].batch != batch {
      PublishedResponse(s, p);
    }
  }

  lemma OnePublication(s: State, batch: string)
    requires Valid(s)
    ensures AtMostOne(PublicationKeys(s.catalog, batch))
  {
    hide Chained, Linked;
    assert Singular(s.catalog, batch);
  }

  lemma ChainIs(c: Catalog, batch: string, s: seq<string>)
    requires Chain(c, batch, s)
    ensures |s| == |AttemptKeys(c, batch)|
    ensures |s| == 1 ==> AttemptKeys(c, batch) == {s[0]} && First(c, s[0])
  {
    var all := set a | a in s;
    if |s| == 1 {
      assert all == {s[0]};
    } else if |s| == 2 {
      assert all == {s[0], s[1]};
    } else {
      assert all == {};
    }
  }

  lemma NotLoose(c: Catalog, batch: string, request: string)
    requires AttemptKeys(c, batch) == {} && LooseRequests(c, batch) == {} && request in c
    ensures !(c[request].Request? && c[request].batch == batch)
  {
    assert request !in LooseRequests(c, batch);
  }

  /** A publication rests on the one result of its attempt, which is a response received. */
  lemma PublishedResponse(s: State, publication: string)
    requires Valid(s) && publication in s.catalog && s.catalog[publication].Publication?
    ensures var v := s.catalog[publication].verification;
      && VerifiedFor(s.catalog, v, s.catalog[publication].batch)
      && v in VerificationKeys(s.catalog, s.catalog[v].attempt)
      && s.catalog[v].result in ResultKeys(s.catalog, s.catalog[v].attempt)
      && s.catalog[v].attempt in AttemptKeys(s.catalog, s.catalog[publication].batch)
      && forall r :: r in ResultKeys(s.catalog, s.catalog[v].attempt) ==>
           && r == s.catalog[v].result && s.catalog[r].transport.Received?
           && s.catalog[r].reply == Some(s.catalog[v].response)
  {
    hide Chained, Singular;
    assert Linked(s.catalog, s.wire, publication);
    VerificationLinked(s, s.catalog[publication].verification);
    ResultLinked(s, s.catalog[s.catalog[publication].verification].attempt);
  }

  lemma FinishReplays(digest: Item -> string, s: State, had: nat, d: Catalog, left: nat, publication: string,
                      result: string, i: Inputs, o: Outcome)
    requires Valid(s) && Addressed(digest, s.catalog) && publication in s.catalog && s.catalog[publication].Publication?
    requires var v := s.catalog[publication].verification;
      && VerifiedFor(s.catalog, v, s.catalog[publication].batch)
      && result in ResultKeys(s.catalog, s.catalog[v].attempt)
      && Finishes(digest, s.catalog, had, d, left, s.catalog[publication].batch, s.catalog[v].attempt, result, i, o)
    ensures Replayed(digest, s.catalog, had, d, publication, i, if o.Published? then Published(publication) else o)
  {
    hide Valid, Addressed, OwnRecords, RowsAgree;
    var c, p := s.catalog, s.catalog[publication];
    var v := c[p.verification];
    PublishedResponse(s, publication);
    OneVerification(s, v.attempt);
    OnePublication(s, p.batch);
    if i.trustLoads {
      var w := Verdict(c, v.attempt, result, i);
      RetainedVerification(digest, c, v.attempt, p.verification, w);
      assert (exists k :: k in VerificationKeys(c, v.attempt) && c[k] != w) <==> v != w;
      AddressedKey(digest, c, publication);
      assert publication in PublicationKeys(c, p.batch);
    }
  }

  lemma AdoptionClears(digest: Item -> string, c: Catalog, batch: string, attempt: Item, i: Inputs)
    requires RawAnswer(digest, i.answer) && attempt.Attempt? && digest(attempt) !in c
    ensures NewBody(c, i) ==> NewAnswer(c[digest(attempt) := attempt], i.answer)
    ensures Clear(c, batch, i) ==> Clear(c[digest(attempt) := attempt], batch, i)
  {
    hide RowsAgree;
    assert forall k :: PublicationKeys(c[digest(attempt) := attempt], k) == PublicationKeys(c, k);
  }

  /** Driving adds no raw bytes. */
  lemma DrivenRaw(digest: Item -> string, a: Catalog, b: Catalog, i: Inputs)
    requires Addressed(digest, b) && RawInputs(digest, i) && Grows(a, b)
    requires forall d :: d in b && d !in a ==> !RawItem(b[d])
    ensures NewBody(a, i) ==> NewBody(b, i)
    ensures i.created.Some? ==> (i.created.value.0 in b <==> i.created.value.0 in a)
  {
    forall d | d in b && d !in a ensures !RawKey(digest, d) {
      assert digest(b[d]) == d;
    }
  }

  /** A request and an attempt made from it leave the way to publication clear. */
  lemma AttemptClears(digest: Item -> string, a: Catalog, b: Catalog, batch: string, attempt: Item, i: Inputs)
    requires i.created.Some? && b == a[i.created.value.0 := Request(batch, i.created.value.1)]
    requires i.created.value.0 in a ==> a[i.created.value.0].Request?
    requires RawAnswer(digest, i.answer) && attempt.Attempt? && digest(attempt) !in b
    ensures NewBody(a, i) ==> NewAnswer(b[digest(attempt) := attempt], i.answer)
    ensures Clear(a, batch, i) ==> Clear(b[digest(attempt) := attempt], batch, i)
  {
    hide RowsAgree;
    assert forall k :: PublicationKeys(b[digest(attempt) := attempt], k) == PublicationKeys(a, k);
  }

  lemma FreshMeans(s: State, attempt: string)
    requires Fresh(s, attempt)
    ensures IsAttempt(s.catalog, attempt) && attempt !in s.wire
  {
  }

  lemma PublicationLinked(s: State, publication: string)
    requires Valid(s) && publication in s.catalog && s.catalog[publication].Publication?
    ensures var v := s.catalog[publication].verification;
      && v in s.catalog && s.catalog[v].Verification? && IsAttempt(s.catalog, s.catalog[v].attempt)
      && s.catalog[s.catalog[v].attempt].batch == s.catalog[publication].batch
  {
    hide Chained, Singular;
    assert Linked(s.catalog, s.wire, publication);
  }

  lemma FirstAdmissible(s: State, batch: string)
    requires AttemptKeys(s.catalog, batch) == {}
    ensures forall request, nonce :: Admissible(s, Attempt(batch, request, nonce, 1, None))
  {
  }

  lemma SecondAdmissible(s: State, batch: string, attempt: string)
    requires AttemptKeys(s.catalog, batch) == {attempt} && First(s.catalog, attempt)
    ensures forall request, nonce :: Admissible(s, Attempt(batch, request, nonce, 2, Some(attempt)))
  {
  }

  /** Driving an attempt makes no attempt. */
  lemma DrivenChain(a: Catalog, b: Catalog, batch: string, s: seq<string>)
    requires Chain(a, batch, s) && Grows(a, b) && NoAttempts(a, b)
    ensures Chain(b, batch, s) && AttemptKeys(b, batch) == AttemptKeys(a, batch)
  {
    assert forall d :: d in s ==> d in AttemptKeys(a, batch);
    forall d ensures d in AttemptKeys(b, batch) <==> d in AttemptKeys(a, batch) {
      assert d in AttemptKeys(a, batch) ==> d in a;
    }
  }

  predicate Unverified(c: Catalog, attempt: string) {
    forall v :: v in VerificationKeys(c, attempt) ==> !c[v].verified
  }

  lemma EarlierUnverified(a: Catalog, b: Catalog, attempt: string)
    requires Grows(a, b)
    ensures Unverified(b, attempt) ==> Unverified(a, attempt)
  {
    assert forall v :: v in VerificationKeys(a, attempt) ==> v in VerificationKeys(b, attempt) && b[v] == a[v];
  }

  /** Only a received response is ever verified. */
  lemma VerifiedReceived(s: State, attempt: string, prior: string)
    requires Valid(s) && prior in ResultKeys(s.catalog, attempt)
    ensures s.catalog[prior].transport.Received? || Unverified(s.catalog, attempt)
  {
    hide Valid;
    ResultLinked(s, attempt);
    forall v | v in VerificationKeys(s.catalog, attempt)
      ensures s.catalog[v].verified ==> s.catalog[prior].transport.Received?
    {
      VerificationLinked(s, v);
    }
  }

  lemma ResultLinked(s: State, attempt: string)
    requires Valid(s)
    ensures AtMostOne(ResultKeys(s.catalog, attempt)) && AtMostOne(ResponseKeys(s.catalog, attempt))
    ensures forall d :: d in ResultKeys(s.catalog, attempt) ==>
      match s.catalog[d].reply
      case None => ResponseKeys(s.catalog, attempt) == {}
      case Some(r) =>
        && r in ResponseKeys(s.catalog, attempt)
        && s.catalog[r] == Response(attempt, s.catalog[d].transport, s.catalog[d].reasons)
  {
    hide Chained;
    assert Singular(s.catalog, attempt);
    forall d | d in ResultKeys(s.catalog, attempt) ensures Linked(s.catalog, s.wire, d) {
    }
  }

  lemma VerificationAdmissible(s: State, key: string, v: Item)
    requires Valid(s) && v.Verification? && v.result in ResultKeys(s.catalog, v.attempt)
    requires s.catalog[v.result].reply == Some(v.response)
    requires v.verified ==> s.catalog[v.result].transport.Received?
    requires VerificationKeys(s.catalog, v.attempt) == {} || key in s.catalog
    ensures key !in s.catalog ==> Admissible(s, v)
  {
  }

  lemma ResponseAdmissible(s: State, attempt: string, response: Item)
    requires response.Response? && response.attempt == attempt && attempt in s.wire
    requires ResultKeys(s.catalog, attempt) == {} && ResponseKeys(s.catalog, attempt) == {}
    ensures Admissible(s, response)
  {
  }

  lemma ResultAdmissible(
    a: State, b: State, attempt: string, body: Option<string>, transport: Transport, reasons: seq<string>)
    requires IsAttempt(a.catalog, attempt)
    requires ResultKeys(a.catalog, attempt) == {} && ResponseKeys(a.catalog, attempt) == {}
    requires if body.Some? then b == a.(catalog := a.catalog[body.value := Response(attempt, transport, reasons)])
      && (body.value in a.catalog ==> a.catalog[body.value] == Response(attempt, transport, reasons)) else b == a
    ensures Admissible(b, Result(attempt, body, transport, reasons))
  {
    if body.Some? {
      forall d ensures d !in ResultKeys(b.catalog, attempt) {
        assert d !in ResultKeys(a.catalog, attempt);
      }
      assert forall d :: d in a.catalog && a.catalog[d] == Response(attempt, transport, reasons) ==>
          d in ResponseKeys(a.catalog, attempt);
    }
  }

  lemma RetainedAdmissible(s: State, attempt: string, result: Item)
    requires IsAttempt(s.catalog, attempt) && ResultKeys(s.catalog, attempt) == {}
    requires result.Result? && result.attempt == attempt
    requires match result.reply
      case None => ResponseKeys(s.catalog, attempt) == {}
      case Some(r) => r in s.catalog && s.catalog[r] == Response(attempt, result.transport, result.reasons)
    ensures Admissible(s, result)
  {
  }

  lemma FewElements(s: seq<string>)
    requires |s| <= 2
    ensures |set a | a in s| <= 2
  {
    var all := set a | a in s;
    if |s| == 1 {
      assert all == {s[0]};
    } else if |s| == 2 {
      assert all == {s[0], s[1]};
    }
  }

  lemma ListedAttempts(c: Catalog, batch: string)
    ensures var keys := Sorted(AttemptKeys(c, batch));
      && (forall i :: 0 <= i < |keys| ==> IsAttempt(c, keys[i]))
      && AttemptKeys(c, batch) == (set k | k in keys)
      && (Chained(c, batch) ==> |keys| <= 2)
      && (Chained(c, batch) && |keys| == 1 ==> First(c, keys[0]))
      && (Chained(c, batch) && |keys| == 2 ==>
           || (First(c, keys[0]) && Second(c, keys[1], keys[0]))
           || (First(c, keys[1]) && Second(c, keys[0], keys[1])))
  {
    var keys := Sorted(AttemptKeys(c, batch));
    assert forall i :: 0 <= i < |keys| ==> keys[i] in AttemptKeys(c, batch);
    SortedSize(AttemptKeys(c, batch));
    if Chained(c, batch) {
      var s :| Chain(c, batch, s);
      FewElements(s);
      assert forall k :: k in keys <==> k in s;
      forall i, j | 0 <= i < j < |keys| ensures keys[i] != keys[j] {
        LessTotal(keys[i], keys[j]);
      }
      assert forall i :: 0 <= i < |keys| ==> keys[i] in s;
      assert forall i :: 0 <= i < |s| ==> s[i] in keys;
    }
  }

  // Whole runs --------------------------------------------------------------

  /** What the contracts of enrolling and resuming say of the states before and after. */
  ghost predicate Step(a: State, b: State) {
    Valid(a) ==> Valid(b) && SendsFresh(a, b)
  }

  ghost predicate Run(states: seq<State>) {
    && states != [] && states[0] == State(map[], [])
    && forall i :: 0 <= i < |states| - 1 ==> Step(states[i], states[i + 1])
  }

  /** Everything retained stays as it is, and whether an attempt was ever sent is settled by the
      time the run that retained it is over. */
  predicate Settled(a: State, b: State) {
    && Grows(a.catalog, b.catalog) && a.wire <= b.wire
    && forall d :: d in a.catalog ==> (d in b.wire <==> d in a.wire)
  }

  lemma StepSettles(a: State, b: State)
    requires SendsFresh(a, b)
    ensures Settled(a, b)
  {
    if b.wire != a.wire {
      assert b.wire == a.wire + [b.wire[|a.wire|]];
    }
  }

  /** Over all runs, crashes anywhere: a retained attempt that had not been sent when its run
      ended is never sent, and one that had been is never sent again. */
  lemma {:induction false} RunSettles(states: seq<State>, i: nat, j: nat)
    requires Run(states) && i <= j < |states|
    ensures Valid(states[j]) && Settled(states[i], states[j])
    decreases j
  {
    hide Valid, SendsFresh;
    if j == 0 {
      NothingValid();
    } else {
      RunSettles(states, if i < j then i else j - 1, j - 1);
      assert Step(states[j - 1], states[j]);
      StepSettles(states[j - 1], states[j]);
    }
  }

  lemma NothingValid()
    ensures Valid(State(map[], []))
  {
    var c: Catalog := map[];
    forall batch ensures Chained(c, batch) {
      assert Chain(c, batch, []);
    }
  }

  /** What a valid store means for one batch: at most two attempts, at most one publication, and
      a publication rests on a verified response to an attempt of the batch that was sent. */
  lemma BatchBounds(s: State, batch: string)
    requires Valid(s)
    ensures |AttemptKeys(s.catalog, batch)| <= 2 && |PublicationKeys(s.catalog, batch)| <= 1
    ensures forall p :: p in PublicationKeys(s.catalog, batch) ==>
      exists a :: a in AttemptKeys(s.catalog, batch) && a in s.wire && ResponseKeys(s.catalog, a) != {}
  {
    hide Chain;
    assert Chained(s.catalog, batch) && Singular(s.catalog, batch);
    ListedAttempts(s.catalog, batch);
    SortedSize(AttemptKeys(s.catalog, batch));
    OnlyKey(PublicationKeys(s.catalog, batch));
    SortedSize(PublicationKeys(s.catalog, batch));
    forall p | p in PublicationKeys(s.catalog, batch)
      ensures exists a :: a in AttemptKeys(s.catalog, batch) && a in s.wire && ResponseKeys(s.catalog, a) != {}
    {
      PublicationLinked(s, p);
      var v := s.catalog[p].verification;
      var a := s.catalog[v].attempt;
      assert Linked(s.catalog, s.wire, v);
      assert Linked(s.catalog, s.wire, s.catalog[v].result);
      var r := s.catalog[v].response;
      assert r in ResponseKeys(s.catalog, a);
      assert Linked(s.catalog, s.wire, r);
      assert a in AttemptKeys(s.catalog, batch);
    }
  }
}
