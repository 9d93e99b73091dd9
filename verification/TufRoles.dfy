/** Threshold signatures, root rotation and version floors of retained TUF metadata
    (section 5.3 of the TUF specification). Documents are parsed JSON trees; ECDSA,
    SHA-256 and the JSON parser are parameters. */
module TufRoles {
  import opened Wrappers
  import opened Bytes
  import opened TufJson

  /** The foreign calls: signature check, hexadecimal decoding, parser, SHA-256 as a number
      and the hexadecimal text of such a number; the
      packaged bootstrap root; and the TrustedRoot's own endpoint and certificate pins. */
  datatype Env = Env(
    verify: (string, seq<byte>, seq<byte>) -> bool,
    fromHex: string -> Option<seq<byte>>,
    parse: seq<byte> -> Option<Json>,
    digest: seq<byte> -> nat,
    hex: nat -> string,
    bootstrap: seq<byte>,
    pinned: seq<byte> -> bool)

  const MAX_KEYIDS := 16
  const MAX_SIGNATURES := 64

  function Get(v: Json, key: string): Option<Json> {
    if v.Object? && key in v.fields then Some(v.fields[key]) else None
  }

  // One role ----------------------------------------------------------------

  datatype Policy = Policy(keyids: seq<string>, threshold: int, keys: Json)

  predicate Distinct<T(==)>(s: seq<T>) {
    forall i, j :: 0 <= i < j < |s| ==> s[i] != s[j]
  }

  function Strings(items: seq<Json>): Option<seq<string>> {
    if items == [] then Some([])
    else if !items[0].Str? || items[0].s == "" then None
    else
      var rest :- Strings(items[1..]);
      Some([items[0].s] + rest)
  }

  /** The role's keys and threshold as the signed root states them. */
  function RolePolicy(root: Json, role: string): Option<Policy> {
    var signed :- Get(root, "signed");
    SignedPolicy(signed, role)
  }

  function SignedPolicy(signed: Json, role: string): Option<Policy> {
    var roles :- Get(signed, "roles");
    var policy :- Get(roles, role);
    var ids :- Get(policy, "keyids");
    var threshold :- Get(policy, "threshold");
    var keys :- Get(signed, "keys");
    if !ids.List? || ids.items == [] || |ids.items| > MAX_KEYIDS || !threshold.Int? || !keys.Object? then None
    else
      var keyids :- Strings(ids.items);
      if !Distinct(keyids) || threshold.n < 1 || threshold.n > |keyids| then None
      else Some(Policy(keyids, threshold.n, keys))
  }

  /** Key identity and signature text of one signature record. */
  function Signer(signature: Json): Option<(string, string)> {
    var keyid :- Get(signature, "keyid");
    var sig :- Get(signature, "sig");
    if !keyid.Str? || !sig.Str? then None else Some((keyid.s, sig.s))
  }

  /** The PEM text of a supported key. */
  function PublicKey(keys: Json, keyid: string): Option<string> {
    var key :- Get(keys, keyid);
    if Get(key, "keytype") != Some(Str("ecdsa")) || Get(key, "scheme") != Some(Str("ecdsa-sha2-nistp256"))
    then None
    else
      var keyval :- Get(key, "keyval");
      var pem :- Get(keyval, "public");
      if !pem.Str? then None else Some(pem.s)
  }

  /** A record that does not stop verification: a foreign key, or usable key material. */
  predicate Usable(policy: Policy, signature: Json, env: Env) {
    && Signer(signature).Some?
    && (Signer(signature).value.0 in policy.keyids ==>
          && PublicKey(policy.keys, Signer(signature).value.0).Some?
          && env.fromHex(Signer(signature).value.1).Some?)
  }

  /** A record by which an authorised key signs `message`. */
  predicate Counts(policy: Policy, signature: Json, message: seq<byte>, env: Env) {
    && Usable(policy, signature, env)
    && Signer(signature).value.0 in policy.keyids
    && env.verify(PublicKey(policy.keys, Signer(signature).value.0).value, message,
                  env.fromHex(Signer(signature).value.1).value)
  }

  ghost function ValidKeys(policy: Policy, signatures: seq<Json>, message: seq<byte>, env: Env): set<string> {
    set i | 0 <= i < |signatures| && Counts(policy, signatures[i], message, env)
      :: Signer(signatures[i]).value.0
  }

  /** No two records name the same key. */
  ghost predicate OneEach(signatures: seq<Json>) {
    forall i, j :: 0 <= i < j < |signatures| && Signer(signatures[i]).Some? && Signer(signatures[j]).Some? ==>
      Signer(signatures[i]).value.0 != Signer(signatures[j]).value.0
  }

  ghost predicate RoleVerified(document: Json, root: Json, role: string, env: Env) {
    var signed, signatures, policy := Get(document, "signed"), Get(document, "signatures"), RolePolicy(root, role);
    && signed.Some? && signed.value.Object? && Supported(signed.value)
    && signatures.Some? && signatures.value.List?
    && policy.Some?
    && SignaturesSuffice(policy.value, signatures.value.items, Octets(signed.value), env)
  }

  ghost predicate SignaturesSuffice(policy: Policy, signatures: seq<Json>, message: seq<byte>, env: Env) {
    && |signatures| <= MAX_SIGNATURES
    && OneEach(signatures)
    && (forall i :: 0 <= i < |signatures| ==> Usable(policy, signatures[i], env))
    && |ValidKeys(policy, signatures, message, env)| >= policy.threshold
  }

  /** The signature loop: two growing sets of key identities. */
  method CheckSignatures(policy: Policy, signatures: seq<Json>, message: seq<byte>, env: Env) returns (ok: bool)
    ensures ok <==> SignaturesSuffice(policy, signatures, message, env)
  {
    hide PublicKey, Signer, ValidKeys;
    if |signatures| > MAX_SIGNATURES {
      return false;
    }
    ValidKeysNone(policy, message, env);
    var validKeyids: set<string>, signatureKeyids: set<string> := {}, {};
    for i := 0 to |signatures|
      invariant forall j :: 0 <= j < i ==> Usable(policy, signatures[j], env)
      invariant forall j :: 0 <= j < i ==> Signer(signatures[j]).value.0 in signatureKeyids
      invariant forall k :: k in signatureKeyids ==>
        exists j :: 0 <= j < i && Signer(signatures[j]) != None && Signer(signatures[j]).value.0 == k
      invariant OneEach(signatures[..i])
      invariant validKeyids == ValidKeys(policy, signatures[..i], message, env)
    {
      var signature := signatures[i];
      ghost var next := signatures[..i + 1];
      assert next == signatures[..i] + [signature];
      ValidKeysStep(policy, signatures[..i], signature, message, env);
      var signer := Signer(signature);
      if signer.None? {
        return false;
      }
      var (keyid, sig) := signer.value;
      if keyid in signatureKeyids {
        return false;
      }
      signatureKeyids := signatureKeyids + {keyid};
      if keyid in policy.keyids {
        var pem, der := PublicKey(policy.keys, keyid), env.fromHex(sig);
        if pem.None? || der.None? {
          return false;
        }
        if env.verify(pem.value, message, der.value) {
          validKeyids := validKeyids + {keyid};
        }
      }
    }
    assert signatures[..|signatures|] == signatures;
    ok := |validKeyids| >= policy.threshold;
  }

  lemma ValidKeysNone(policy: Policy, message: seq<byte>, env: Env)
    ensures ValidKeys(policy, [], message, env) == {}
  {
  }

  lemma ValidKeysStep(policy: Policy, signatures: seq<Json>, last: Json, message: seq<byte>, env: Env)
    ensures ValidKeys(policy, signatures + [last], message, env)
         == ValidKeys(policy, signatures, message, env)
          + (if Counts(policy, last, message, env) then {Signer(last).value.0} else {})
  {
    var all := signatures + [last];
    forall k ensures k in ValidKeys(policy, all, message, env) <==>
      k in ValidKeys(policy, signatures, message, env)
         + (if Counts(policy, last, message, env) then {Signer(last).value.0} else {})
    {
      if k in ValidKeys(policy, signatures, message, env) {
        var i :| 0 <= i < |signatures| && Counts(policy, signatures[i], message, env)
                 && k == Signer(signatures[i]).value.0;
        assert all[i] == signatures[i];
      }
      if Counts(policy, last, message, env) {
        assert all[|signatures|] == last;
      }
    }
  }

  method VerifyRole(document: Json, root: Json, role: string, env: Env) returns (ok: bool)
    ensures ok <==> RoleVerified(document, root, role, env)
  {
    var signed, signatures := Get(document, "signed"), Get(document, "signatures");
    if signed.None? || !signed.value.Object? || signatures.None? || !signatures.value.List? {
      return false;
    }
    var policy := RolePolicy(root, role);
    if policy.None? {
      return false;
    }
    var message := Canonical(signed.value);
    if message.None? {
      return false;
    }
    ok := CheckSignatures(policy.value, signatures.value.items, message.value, env);
  }

  // Acceptance does not depend on the order of the signature records ---------

  lemma OneEachSplit(s: seq<Json>, k: nat)
    requires k < |s|
    ensures OneEach(s) <==>
      && OneEach(s[..k] + s[k + 1..])
      && (Signer(s[k]).Some? ==> forall y :: y in s[..k] + s[k + 1..] && Signer(y).Some? ==>
            Signer(y).value.0 != Signer(s[k]).value.0)
  {
    hide Signer;
    var rest := s[..k] + s[k + 1..];
    forall i | 0 <= i < |rest| ensures rest[i] == s[if i < k then i else i + 1] {
    }
    if OneEach(s) && Signer(s[k]).Some? {
      forall y | y in rest && Signer(y).Some? ensures Signer(y).value.0 != Signer(s[k]).value.0 {
        var i :| 0 <= i < |rest| && rest[i] == y;
      }
    }
    if OneEach(rest) && (Signer(s[k]).Some? ==> forall y :: y in rest && Signer(y).Some? ==>
            Signer(y).value.0 != Signer(s[k]).value.0) {
      forall i, j | 0 <= i < j < |s| && Signer(s[i]).Some? && Signer(s[j]).Some?
        ensures Signer(s[i]).value.0 != Signer(s[j]).value.0
      {
        if i == k {
          assert rest[j - 1] == s[j];
        } else if j == k {
          assert rest[i] == s[i];
        } else {
          assert rest[if i < k then i else i - 1] == s[i] && rest[if j < k then j else j - 1] == s[j];
        }
      }
    }
  }

  lemma {:induction false} OneEachOrder(s: seq<Json>, t: seq<Json>)
    requires multiset(s) == multiset(t)
    ensures OneEach(s) <==> OneEach(t)
  {
    hide Signer;
    if s == [] {
      assert |multiset(t)| == 0;
    } else {
      assert s[0] in multiset(t);
      var k :| 0 <= k < |t| && t[k] == s[0];
      RemoveOne(s, t, k);
      OneEachSplit(s, 0);
      OneEachSplit(t, k);
      var u, w := s[..0] + s[1..], t[..k] + t[k + 1..];
      forall y ensures y in u <==> y in w {
        assert y in multiset(u) <==> y in multiset(w);
      }
      OneEachOrder(u, w);
    }
  }

  lemma RemoveOne<T>(s: seq<T>, t: seq<T>, k: nat)
    requires multiset(s) == multiset(t) && s != [] && k < |t| && t[k] == s[0]
    ensures multiset(s[..0] + s[1..]) == multiset(t[..k] + t[k + 1..])
  {
    assert s == [s[0]] + s[1..] && s[..0] + s[1..] == s[1..];
    assert t == t[..k] + ([t[k]] + t[k + 1..]);
    assert multiset(s) == multiset{s[0]} + multiset(s[1..]);
    assert multiset(t) == multiset(t[..k]) + (multiset{t[k]} + multiset(t[k + 1..]));
    assert multiset(s[1..]) == multiset(s) - multiset{s[0]};
    assert multiset(t[..k]) + multiset(t[k + 1..]) == multiset(t) - multiset{s[0]};
  }

  lemma SignatureOrderIrrelevant(policy: Policy, s: seq<Json>, t: seq<Json>, message: seq<byte>, env: Env)
    requires multiset(s) == multiset(t)
    ensures SignaturesSuffice(policy, s, message, env) <==> SignaturesSuffice(policy, t, message, env)
  {
    hide Signer, Usable, Counts;
    OneEachOrder(s, t);
    assert |multiset(s)| == |multiset(t)|;
    forall y ensures y in s <==> y in t {
      assert y in multiset(s) <==> y in multiset(t);
    }
    UsableMembers(policy, s, env);
    UsableMembers(policy, t, env);
    ValidMembers(policy, s, t, message, env);
    ValidMembers(policy, t, s, message, env);
    assert ValidKeys(policy, s, message, env) == ValidKeys(policy, t, message, env);
  }

  lemma UsableMembers(policy: Policy, s: seq<Json>, env: Env)
    ensures (forall i :: 0 <= i < |s| ==> Usable(policy, s[i], env)) <==> forall y :: y in s ==> Usable(policy, y, env)
  {
    hide Usable;
  }

  lemma ValidMembers(policy: Policy, s: seq<Json>, t: seq<Json>, message: seq<byte>, env: Env)
    requires forall y :: y in s ==> y in t
    ensures ValidKeys(policy, s, message, env) <= ValidKeys(policy, t, message, env)
  {
    forall k | k in ValidKeys(policy, s, message, env) ensures k in ValidKeys(policy, t, message, env) {
      var i :| 0 <= i < |s| && Counts(policy, s[i], message, env) && k == Signer(s[i]).value.0;
      assert s[i] in s;
      var j :| 0 <= j < |t| && t[j] == s[i];
    }
  }

  // Root rotation -----------------------------------------------------------

  const BOOTSTRAP := 0x836bff947925edfc23eb9ce17af66fb1e43bb5e2bdd240520985ae52b585eae9

  /** A JSON object whose "signed" part is an object. */
  function Parsed(raw: seq<byte>, env: Env): Option<Json> {
    var value :- env.parse(raw);
    var signed :- Get(value, "signed");
    if signed.Object? then Some(value) else None
  }

  function Version(document: Json, role: string): Option<int> {
    var signed :- Get(document, "signed");
    SignedVersion(signed, role)
  }

  function SignedVersion(signed: Json, role: string): Option<int> {
    var version :- Get(signed, "version");
    if Get(signed, "_type") != Some(Str(role)) || !version.Int? then None else Some(version.n)
  }

  /** One rotation: the next number, signed by the old root and by itself. */
  ghost predicate Rotates(prior: Json, number: int, raw: seq<byte>, env: Env) {
    && Parsed(raw, env).Some?
    && Version(Parsed(raw, env).value, "root") == Some(number)
    && RoleVerified(Parsed(raw, env).value, prior, "root", env)
    && RoleVerified(Parsed(raw, env).value, Parsed(raw, env).value, "root", env)
  }

  /** The root in force before rotation i. */
  function Prior(roots: seq<seq<byte>>, i: nat, env: Env): Option<Json>
    requires i <= |roots|
  {
    if i == 0 then Parsed(env.bootstrap, env) else Parsed(roots[i - 1], env)
  }

  ghost predicate Unbroken(roots: seq<seq<byte>>, env: Env) {
    && Prior(roots, 0, env).Some?
    && forall i :: 0 <= i < |roots| ==>
         Prior(roots, i, env).Some? && Rotates(Prior(roots, i, env).value, 11 + i, roots[i], env)
  }

  ghost predicate RootsAccepted(roots: seq<seq<byte>>, env: Env) {
    env.digest(env.bootstrap) == BOOTSTRAP && 5 <= |roots| <= 64 && Unbroken(roots, env)
  }

  /** Walks the rotations, advancing the trusted root; returns the last one. */
  method AuthenticateRoots(roots: seq<seq<byte>>, env: Env) returns (last: Option<Json>)
    ensures last.Some? <==> RootsAccepted(roots, env)
    ensures last.Some? ==> last == Prior(roots, |roots|, env)
  {
    hide RoleVerified, Parsed, Version;
    if env.digest(env.bootstrap) != BOOTSTRAP || !(5 <= |roots| <= 64) {
      return None;
    }
    var start := Parsed(env.bootstrap, env);
    if start.None? {
      return None;
    }
    var prior := start.value;
    for i := 0 to |roots|
      invariant Prior(roots, i, env) == Some(prior)
      invariant forall j :: 0 <= j < i ==>
        Prior(roots, j, env).Some? && Rotates(Prior(roots, j, env).value, 11 + j, roots[j], env)
    {
      var root := Parsed(roots[i], env);
      if root.None? || Version(root.value, "root") != Some(11 + i) {
        return None;
      }
      var byPrior := VerifyRole(root.value, prior, "root", env);
      var bySelf := VerifyRole(root.value, root.value, "root", env);
      if !byPrior || !bySelf {
        return None;
      }
      prior := root.value;
    }
    last := Some(prior);
  }

  // Two accepted chains cannot diverge --------------------------------------

  /** A key that never signs two different root trees of one version. */
  ghost predicate Honest(pem: string, env: Env) {
    forall v, w, a, b :: (&& Supported(v) && Supported(w)
                          && SignedVersion(v, "root") == SignedVersion(w, "root")
                          && SignedVersion(v, "root").Some?
                          && env.verify(pem, Octets(v), a) && env.verify(pem, Octets(w), b))
      ==> Octets(v) == Octets(w)
  }

  ghost function Dishonest(policy: Policy, env: Env): set<string> {
    set k | k in policy.keyids && !(PublicKey(policy.keys, k).Some? && Honest(PublicKey(policy.keys, k).value, env))
  }

  /** Fewer dishonest keys than any two threshold-sized key sets must share. */
  ghost predicate Trustworthy(policy: Policy, env: Env) {
    |Dishonest(policy, env)| < 2 * policy.threshold - |policy.keyids|
  }

  lemma {:induction false} SetOfSeq(s: seq<string>)
    ensures |set k | k in s| <= |s|
  {
    if s != [] {
      SetOfSeq(s[1..]);
      assert (set k | k in s) == {s[0]} + set k | k in s[1..];
    }
  }

  /** Two threshold-sized sets of authorised keys share an honest key. */
  lemma SharedHonestKey(policy: Policy, a: set<string>, b: set<string>, env: Env) returns (k: string)
    requires Trustworthy(policy, env)
    requires |a| >= policy.threshold && |b| >= policy.threshold
    requires forall x :: x in a + b ==> x in policy.keyids
    ensures k in a && k in b && k !in Dishonest(policy, env)
  {
    var all := set x | x in policy.keyids;
    SetOfSeq(policy.keyids);
    SubsetSize(a + b, all);
    assert |a + b| == |a| + |b| - |a * b|;
    var bad := Dishonest(policy, env);
    SubsetSize(a * b, (a * b - bad) + bad);
    k :| k in a * b - bad;
  }

  lemma SubsetSize(a: set<string>, b: set<string>)
    requires a <= b
    ensures |a| <= |b|
  {
    assert b == a + (b - a);
  }

  /** Under one trusted policy all accepted roots of a version carry one signed tree. */
  lemma OneSuccessor(d: Json, e: Json, root: Json, env: Env)
    requires RoleVerified(d, root, "root", env) && RoleVerified(e, root, "root", env)
    requires Version(d, "root") == Version(e, "root") && Version(d, "root").Some?
    requires Trustworthy(RolePolicy(root, "root").value, env)
    ensures Get(d, "signed") == Get(e, "signed")
  {
    hide Octets, Supported, SignedPolicy, SignedVersion, PublicKey;
    var policy := RolePolicy(root, "root").value;
    var v, w := Get(d, "signed").value, Get(e, "signed").value;
    var s, t := Get(d, "signatures").value.items, Get(e, "signatures").value.items;
    var a, b := ValidKeys(policy, s, Octets(v), env), ValidKeys(policy, t, Octets(w), env);
    var k := SharedHonestKey(policy, a, b, env);
    var i :| 0 <= i < |s| && Counts(policy, s[i], Octets(v), env) && k == Signer(s[i]).value.0;
    var j :| 0 <= j < |t| && Counts(policy, t[j], Octets(w), env) && k == Signer(t[j]).value.0;
    assert Usable(policy, s[i], env) && Usable(policy, t[j], env);
    var pem := PublicKey(policy.keys, k).value;
    assert Honest(pem, env);
    CanonicalInjective(v, w);
  }

  /** If every policy along one accepted chain is trustworthy, every accepted chain agrees
      with it, signed tree by signed tree, for as long as both run. */
  lemma {:induction false} ChainsAgree(r: seq<seq<byte>>, s: seq<seq<byte>>, i: nat, env: Env)
    requires Unbroken(r, env) && Unbroken(s, env) && i <= |r| && i <= |s|
    requires forall j :: 0 <= j < |r| && Prior(r, j, env).Some? && RolePolicy(Prior(r, j, env).value, "root").Some? ==>
      Trustworthy(RolePolicy(Prior(r, j, env).value, "root").value, env)
    ensures Prior(r, i, env).Some? && Prior(s, i, env).Some?
    ensures Get(Prior(r, i, env).value, "signed") == Get(Prior(s, i, env).value, "signed")
  {
    hide RoleVerified, Trustworthy, Version, Parsed, RolePolicy, Get;
    if i > 0 {
      ChainsAgree(r, s, i - 1, env);
      StepAgrees(Prior(r, i - 1, env).value, Prior(s, i - 1, env).value, 10 + i, r[i - 1], s[i - 1], env);
    }
  }

  lemma StepAgrees(p: Json, q: Json, number: int, x: seq<byte>, y: seq<byte>, env: Env)
    requires Rotates(p, number, x, env) && Rotates(q, number, y, env)
    requires Get(p, "signed") == Get(q, "signed")
    requires RolePolicy(p, "root").Some? ==> Trustworthy(RolePolicy(p, "root").value, env)
    ensures Get(Parsed(x, env).value, "signed") == Get(Parsed(y, env).value, "signed")
  {
    hide RoleVerified, Trustworthy, Version, Parsed, RolePolicy, Get;
    var d, e := Parsed(x, env).value, Parsed(y, env).value;
    PolicyOnly(e, q, p, env);
    VerifiedPolicy(d, p, env);
    OneSuccessor(d, e, p, env);
  }

  lemma PolicyOnly(d: Json, root: Json, other: Json, env: Env)
    requires RoleVerified(d, root, "root", env) && Get(root, "signed") == Get(other, "signed")
    ensures RoleVerified(d, other, "root", env)
  {
    hide SignaturesSuffice, SignedPolicy;
  }

  lemma VerifiedPolicy(d: Json, root: Json, env: Env)
    requires RoleVerified(d, root, "root", env)
    ensures RolePolicy(root, "root").Some?
  {
  }

  // What acceptance means ---------------------------------------------------

  /** `keys` are distinct authorised keys, each with a record signing the document's text. */
  ghost predicate SignedBy(document: Json, policy: Policy, keys: set<string>, env: Env) {
    && Get(document, "signed").Some? && Get(document, "signatures").Some?
    && Get(document, "signatures").value.List?
    && forall k :: k in keys ==> k in policy.keyids && SignedWith(document, policy, k, env)
  }

  ghost predicate SignedWith(document: Json, policy: Policy, k: string, env: Env)
    requires Get(document, "signed").Some? && Get(document, "signatures").Some?
    requires Get(document, "signatures").value.List?
  {
    exists x, sig, der, pem :: x in Get(document, "signatures").value.items && Signer(x) == Some((k, sig))
      && PublicKey(policy.keys, k) == Some(pem) && env.fromHex(sig) == Some(der)
      && env.verify(pem, Octets(Get(document, "signed").value), der)
  }

  lemma VerifiedBy(document: Json, root: Json, role: string, env: Env) returns (keys: set<string>)
    requires RoleVerified(document, root, role, env)
    ensures SignedBy(document, RolePolicy(root, role).value, keys, env)
    ensures |keys| >= RolePolicy(root, role).value.threshold >= 1
  {
    hide Octets, Supported, PublicKey, Signer;
    var policy := RolePolicy(root, role).value;
    var message, items := Octets(Get(document, "signed").value), Get(document, "signatures").value.items;
    keys := ValidKeys(policy, items, message, env);
    forall k | k in keys ensures k in policy.keyids && SignedWith(document, policy, k, env) {
      var i :| 0 <= i < |items| && Counts(policy, items[i], message, env) && k == Signer(items[i]).value.0;
      var sig := Signer(items[i]).value.1;
      assert items[i] in items && Signer(items[i]) == Some((k, sig));
      assert PublicKey(policy.keys, k) == Some(PublicKey(policy.keys, k).value);
      assert env.fromHex(sig) == Some(env.fromHex(sig).value);
    }
  }

  /** Rotation i is numbered 11 + i and carries at least its predecessor's threshold, and
      its own, of verifying signatures by distinct authorised keys. */
  lemma RotationSigned(roots: seq<seq<byte>>, i: nat, env: Env) returns (byPrior: set<string>, own: set<string>)
    requires RootsAccepted(roots, env) && i < |roots|
    ensures Prior(roots, i, env).Some? && Prior(roots, i + 1, env).Some?
    ensures var prior, root := Prior(roots, i, env).value, Prior(roots, i + 1, env).value;
      && Version(root, "root") == Some(11 + i)
      && RolePolicy(prior, "root").Some? && RolePolicy(root, "root").Some?
      && SignedBy(root, RolePolicy(prior, "root").value, byPrior, env)
      && |byPrior| >= RolePolicy(prior, "root").value.threshold
      && SignedBy(root, RolePolicy(root, "root").value, own, env)
      && |own| >= RolePolicy(root, "root").value.threshold
  {
    hide Version, Parsed, SignedBy, SignaturesSuffice, RolePolicy;
    var prior := Prior(roots, i, env).value;
    var root := Parsed(roots[i], env).value;
    assert Rotates(prior, 11 + i, roots[i], env);
    byPrior := VerifiedBy(root, prior, "root", env);
    own := VerifiedBy(root, root, "root", env);
  }

  /** Permuting a document's signature records changes nothing. */
  lemma DocumentOrderIrrelevant(d: Json, e: Json, root: Json, role: string, env: Env)
    requires Get(d, "signed") == Get(e, "signed")
    requires Get(d, "signatures").Some? && Get(d, "signatures").value.List?
    requires Get(e, "signatures").Some? && Get(e, "signatures").value.List?
    requires multiset(Get(d, "signatures").value.items) == multiset(Get(e, "signatures").value.items)
    ensures RoleVerified(d, root, role, env) <==> RoleVerified(e, root, role, env)
  {
    hide SignaturesSuffice, Octets, Supported, SignedPolicy;
    if RolePolicy(root, role).Some? && Get(d, "signed").Some? {
      SignatureOrderIrrelevant(RolePolicy(root, role).value, Get(d, "signatures").value.items,
        Get(e, "signatures").value.items, Octets(Get(d, "signed").value), env);
    }
  }

  /** Other bytes for the same signed tree, with the same signature records in any order. */
  ghost predicate Reorders(raw: seq<byte>, original: seq<byte>, env: Env) {
    && Parsed(raw, env).Some? && Parsed(original, env).Some?
    && var d, e := Parsed(original, env).value, Parsed(raw, env).value;
    && Get(d, "signed") == Get(e, "signed")
    && Get(d, "signatures").Some? && Get(d, "signatures").value.List?
    && Get(e, "signatures").Some? && Get(e, "signatures").value.List?
    && multiset(Get(d, "signatures").value.items) == multiset(Get(e, "signatures").value.items)
  }

  lemma VersionOnly(d: Json, e: Json, role: string)
    requires Get(d, "signed") == Get(e, "signed")
    ensures Version(d, role) == Version(e, role)
  {
  }

  /** A rotation stays one when it, its predecessor or both are such other bytes. */
  lemma RotatesReordered(prior: Json, other: Json, number: int, raw: seq<byte>, original: seq<byte>, env: Env)
    requires Rotates(prior, number, original, env) && Get(prior, "signed") == Get(other, "signed")
    requires raw == original || Reorders(raw, original, env)
    ensures Rotates(other, number, raw, env)
  {
    hide RoleVerified, Parsed, Version, Get;
    var d, e := Parsed(original, env).value, Parsed(raw, env).value;
    if raw != original {
      VersionOnly(d, e, "root");
      DocumentOrderIrrelevant(d, e, prior, "root", env);
      DocumentOrderIrrelevant(d, e, d, "root", env);
      PolicyOnly(e, d, e, env);
    }
    PolicyOnly(e, prior, other, env);
  }

  /** An authentic chain stays authentic when one root is replaced by other bytes for the same
      signed tree: chains do not determine the bytes of their roots. */
  lemma ChainReordered(roots: seq<seq<byte>>, k: nat, raw: seq<byte>, env: Env)
    requires Unbroken(roots, env) && k < |roots| && Reorders(raw, roots[k], env)
    ensures Unbroken(roots[k := raw], env)
  {
    hide Rotates, Parsed;
    var after := roots[k := raw];
    forall i | 0 <= i < |after|
      ensures Prior(after, i, env).Some? && Rotates(Prior(after, i, env).value, 11 + i, after[i], env)
    {
      assert Rotates(Prior(roots, i, env).value, 11 + i, roots[i], env);
      RotatesReordered(Prior(roots, i, env).value, Prior(after, i, env).value, 11 + i, after[i], roots[i], env);
    }
  }

  // The whole retained bundle -----------------------------------------------

  datatype Bundle = Bundle(roots: seq<seq<byte>>, timestamp: seq<byte>, snapshot: seq<byte>,
                           targets: seq<byte>, trustedRoot: seq<byte>)

  datatype Floor = Floor(role: string, version: int, digest: nat)

  const FLOORS: seq<Floor> := [
    Floor("root", 15, 0x73747011d0857ada15479a16c4cae0f3ed03aac698b523b97e1de314ac9d9ca8),
    Floor("timestamp", 799, 0xb8cd928494ed0736a71f93bf0bcb0e1d5bcfc4b871bc564b235306dac513b783),
    Floor("snapshot", 165, 0x8f784ab614ec62bfdd5f568eb2a2e3011668449ba235ed4eb7befa99f8469933),
    Floor("targets", 14, 0x6a697f7f8908c8ab26c11786ecb490b54acec97fa8c802e399f065f8a0cc1acd)]

  /** Raw bytes in the order of FLOORS. */
  function Raws(bundle: Bundle): seq<seq<byte>>
    requires bundle.roots != []
  {
    [bundle.roots[|bundle.roots| - 1], bundle.timestamp, bundle.snapshot, bundle.targets]
  }

  ghost predicate RoleAccepted(floor: Floor, raw: seq<byte>, last: Json, env: Env) {
    && Parsed(raw, env).Some?
    && Version(Parsed(raw, env).value, floor.role).Some?
    && AtLeast(Version(Parsed(raw, env).value, floor.role).value, env.digest(raw), floor)
    && (floor.role != "root" ==> RoleVerified(Parsed(raw, env).value, last, floor.role, env))
  }

  /** A positive version at or above the floor, with the pinned identity when it is the floor. */
  predicate AtLeast(version: int, digest: nat, floor: Floor) {
    version >= 1 && version >= floor.version && (version == floor.version ==> digest == floor.digest)
  }

  /** The parent names exactly this version and, when it says so, this length and hash. */
  predicate Names(parent: Json, filename: string, version: int, content: seq<byte>, env: Env) {
    var signed := Get(parent, "signed");
    signed.Some? &&
    var meta := Get(signed.value, "meta");
    meta.Some? &&
    var reference := Get(meta.value, filename);
    reference.Some? &&
    var length, hashes := Get(reference.value, "length"), Get(reference.value, "hashes");
    && Get(reference.value, "version") == Some(Int(version))
    && (length.Some? ==> length.value == Int(|content|) && |content| >= 1)
    && (hashes.Some? && hashes.value != Null ==> Get(hashes.value, "sha256") == Some(Str(env.hex(env.digest(content)))))
  }

  /** The targets document names the TrustedRoot's exact length and hash. */
  predicate NamesTarget(targets: Json, content: seq<byte>, env: Env) {
    var signed := Get(targets, "signed");
    signed.Some? &&
    var all := Get(signed.value, "targets");
    all.Some? &&
    var entry := Get(all.value, "trusted_root.json");
    entry.Some? &&
    var hashes := Get(entry.value, "hashes");
    && Get(entry.value, "length") == Some(Int(|content|)) && |content| >= 1
    && hashes.Some? && Get(hashes.value, "sha256") == Some(Str(env.hex(env.digest(content))))
  }

  function Entry(floor: Floor, raw: seq<byte>, env: Env): Floor {
    var document := Parsed(raw, env);
    var version := if document.Some? then Version(document.value, floor.role) else None;
    Floor(floor.role, if version.Some? then version.value else 0, env.digest(raw))
  }

  /** Every document above its floor and signed, and each one named by its parent. */
  ghost predicate Closed(raws: seq<seq<byte>>, last: Json, trustedRoot: seq<byte>, env: Env)
    requires |raws| == 4
  {
    && (forall i :: 0 <= i < 4 ==> RoleAccepted(FLOORS[i], raws[i], last, env))
    && var docs := seq(4, i requires 0 <= i < 4 && Parsed(raws[i], env).Some? => Parsed(raws[i], env).value);
    && Names(docs[1], "snapshot.json", Entry(FLOORS[2], raws[2], env).version, raws[2], env)
    && Names(docs[2], "targets.json", Entry(FLOORS[3], raws[3], env).version, raws[3], env)
    && NamesTarget(docs[3], trustedRoot, env) && env.pinned(trustedRoot)
  }

  /** The versions of an accepted bundle. */
  ghost function Authentic(bundle: Bundle, env: Env): Option<seq<Floor>> {
    var last := Prior(bundle.roots, |bundle.roots|, env);
    if bundle.roots == [] || last.None? || !RootsAccepted(bundle.roots, env)
      || !Closed(Raws(bundle), last.value, bundle.trustedRoot, env)
    then None
    else Some(Entries(Raws(bundle), env))
  }

  function Entries(raws: seq<seq<byte>>, env: Env): seq<Floor>
    requires |raws| == 4
  {
    [ Entry(FLOORS[0], raws[0], env), Entry(FLOORS[1], raws[1], env),
      Entry(FLOORS[2], raws[2], env), Entry(FLOORS[3], raws[3], env) ]
  }

  method Authenticate(bundle: Bundle, env: Env) returns (r: Option<seq<Floor>>)
    ensures r == Authentic(bundle, env)
  {
    hide RootsAccepted, RoleVerified, Names, NamesTarget, Version, Parsed;
    var last := AuthenticateRoots(bundle.roots, env);
    if last.None? {
      return None;
    }
    assert |bundle.roots| > 0 by { RootsNonempty(bundle.roots, env); }
    var raws := Raws(bundle);
    var versions: seq<Floor>, docs: seq<Json> := [], [];
    for i := 0 to 4
      invariant |versions| == |docs| == i
      invariant forall j :: 0 <= j < i ==>
        && RoleAccepted(FLOORS[j], raws[j], last.value, env)
        && Some(docs[j]) == Parsed(raws[j], env)
        && versions[j] == Entry(FLOORS[j], raws[j], env)
    {
      var floor, doc := FLOORS[i], Parsed(raws[i], env);
      if doc.None? {
        return None;
      }
      var version := Version(doc.value, floor.role);
      if version.None? || !AtLeast(version.value, env.digest(raws[i]), floor) {
        return None;
      }
      if floor.role != "root" {
        var ok := VerifyRole(doc.value, last.value, floor.role, env);
        if !ok {
          return None;
        }
      }
      docs := docs + [doc.value];
      versions := versions + [Floor(floor.role, version.value, env.digest(raws[i]))];
    }
    if !Names(docs[1], "snapshot.json", versions[2].version, raws[2], env)
      || !Names(docs[2], "targets.json", versions[3].version, raws[3], env)
      || !NamesTarget(docs[3], bundle.trustedRoot, env) || !env.pinned(bundle.trustedRoot)
    {
      return None;
    }
    assert versions == Entries(raws, env);
    r := Some(versions);
  }

  /** Replacing an earlier root of an accepted bundle by such other bytes leaves the bundle
      accepted, with the same versions and digests. */
  lemma BundleReordered(bundle: Bundle, k: nat, raw: seq<byte>, env: Env)
    requires Authentic(bundle, env).Some? && k < |bundle.roots| - 1 && Reorders(raw, bundle.roots[k], env)
    ensures Authentic(bundle.(roots := bundle.roots[k := raw]), env) == Authentic(bundle, env)
  {
    hide Unbroken, Closed, Reorders, Parsed;
    ChainReordered(bundle.roots, k, raw, env);
    assert Raws(bundle.(roots := bundle.roots[k := raw])) == Raws(bundle);
  }

  lemma RootsNonempty(roots: seq<seq<byte>>, env: Env)
    requires RootsAccepted(roots, env)
    ensures |roots| >= 5
  {
  }

  /** Accepted versions never lie below the reviewed floors, and the root's own version is
      its place in the unbroken chain. */
  lemma AuthenticFloors(bundle: Bundle, env: Env)
    requires Authentic(bundle, env).Some?
    ensures var versions := Authentic(bundle, env).value;
      && |versions| == 4
      && (forall i :: 0 <= i < 4 ==> versions[i].role == FLOORS[i].role)
      && (forall i :: 0 <= i < 4 ==> AtLeast(versions[i].version, versions[i].digest, FLOORS[i]))
      && versions[0].version == 10 + |bundle.roots|
  {
    hide RoleVerified, Names, Version, Parsed;
    var raws := Raws(bundle);
    var last := Prior(bundle.roots, |bundle.roots|, env).value;
    var n := |bundle.roots| - 1;
    assert Rotates(Prior(bundle.roots, n, env).value, 11 + n, bundle.roots[n], env);
    forall i | 0 <= i < 4
      ensures var e := Entry(FLOORS[i], raws[i], env);
        e.role == FLOORS[i].role && AtLeast(e.version, e.digest, FLOORS[i])
    {
      assert RoleAccepted(FLOORS[i], raws[i], last, env);
    }
  }
}
