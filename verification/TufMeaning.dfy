/** What accepted TUF metadata says, read off its JSON trees: which keys signed a role, which
    version each parent names, and that two bundles under one parent carry one child. */
module TufMeaning {
  import opened Wrappers
  import opened Bytes
  import opened TufJson
  import opened TufRoles

  /** The value at a path of object keys. */
  function Look(v: Json, path: seq<string>): Option<Json> {
    if path == [] then Some(v)
    else if v.Object? && path[0] in v.fields then Look(v.fields[path[0]], path[1..])
    else None
  }

  lemma LookOne(v: Json, a: string)
    ensures Look(v, [a]) == Get(v, a)
  {
    assert [a][1..] == [];
  }

  lemma LookTwo(v: Json, a: string, b: string)
    ensures Look(v, [a, b]) == if Get(v, a).None? then None else Get(Get(v, a).value, b)
  {
    assert [a, b][1..] == [b];
    if Get(v, a).Some? { LookOne(Get(v, a).value, b); }
  }

  lemma LookMore(v: Json, a: string, path: seq<string>)
    ensures Look(v, [a] + path) == if Get(v, a).None? then None else Look(Get(v, a).value, path)
  {
    assert ([a] + path)[1..] == path;
  }

  lemma LookSigned(v: Json, path: seq<string>)
    ensures Look(v, ["signed"] + path) == if Get(v, "signed").None? then None else Look(Get(v, "signed").value, path)
  {
    LookMore(v, "signed", path);
  }

  /** A path through the document's signed part, a map in it and one of its entries. */
  lemma LookEntry(v: Json, name: string, key: string, path: seq<string>)
    ensures Look(v, ["signed", name, key] + path) ==
      var signed := Get(v, "signed");
      var all := if signed.None? then None else Get(signed.value, name);
      var entry := if all.None? then None else Get(all.value, key);
      if entry.None? then None else Look(entry.value, path)
  {
    var signed := Get(v, "signed");
    assert ["signed", name, key] + path == ["signed"] + ([name] + ([key] + path));
    LookSigned(v, [name] + ([key] + path));
    if signed.Some? {
      LookMore(signed.value, name, [key] + path);
      if Get(signed.value, name).Some? { LookMore(Get(signed.value, name).value, key, path); }
    }
  }

  lemma EntryPaths(v: Json, name: string, key: string)
    ensures var signed := Get(v, "signed");
      var all := if signed.None? then None else Get(signed.value, name);
      var entry := if all.None? then None else Get(all.value, key);
      && (entry.None? ==> forall path :: Look(v, ["signed", name, key] + path).None?)
      && (forall field :: Look(v, ["signed", name, key, field]) ==
            if entry.None? then None else Get(entry.value, field))
      && Look(v, ["signed", name, key, "hashes", "sha256"]) ==
           if entry.None? || Get(entry.value, "hashes").None? then None
           else Get(Get(entry.value, "hashes").value, "sha256")
  {
    var signed := Get(v, "signed");
    var all := if signed.None? then None else Get(signed.value, name);
    var entry := if all.None? then None else Get(all.value, key);
    forall path | entry.None? ensures Look(v, ["signed", name, key] + path).None? {
      LookEntry(v, name, key, path);
    }
    forall field ensures Look(v, ["signed", name, key, field]) ==
        if entry.None? then None else Get(entry.value, field)
    {
      assert ["signed", name, key, field] == ["signed", name, key] + [field];
      LookEntry(v, name, key, [field]);
      if entry.Some? { LookOne(entry.value, field); }
    }
    assert ["signed", name, key, "hashes", "sha256"] == ["signed", name, key] + ["hashes", "sha256"];
    LookEntry(v, name, key, ["hashes", "sha256"]);
    if entry.Some? { LookTwo(entry.value, "hashes", "sha256"); }
  }

  // Who signed --------------------------------------------------------------

  function Text(v: Option<Json>): string {
    if v.Some? && v.value.Str? then v.value.s else ""
  }

  predicate IsText(v: Option<Json>) {
    v.Some? && v.value.Str?
  }

  /** The root holds usable key material under this identity. */
  predicate HasKey(root: Json, id: string) {
    && Look(root, ["signed", "keys", id, "keytype"]) == Some(Str("ecdsa"))
    && Look(root, ["signed", "keys", id, "scheme"]) == Some(Str("ecdsa-sha2-nistp256"))
    && IsText(Look(root, ["signed", "keys", id, "keyval", "public"]))
  }

  /** The record carries a signature of the message by the root's key of its identity. */
  predicate Signs(root: Json, record: Json, message: seq<byte>, env: Env) {
    var id := Text(Look(record, ["keyid"]));
    && HasKey(root, id) && env.fromHex(Text(Look(record, ["sig"]))).Some?
    && env.verify(Text(Look(root, ["signed", "keys", id, "keyval", "public"])), message,
                  env.fromHex(Text(Look(record, ["sig"]))).value)
  }

  /** At most 16 distinct keys and a threshold between one and their number. */
  predicate WellFormed(root: Json, role: string) {
    var ids := Look(root, ["signed", "roles", role, "keyids"]);
    var threshold := Look(root, ["signed", "roles", role, "threshold"]);
    && ids.Some? && ids.value.List? && 1 <= |ids.value.items| <= 16
    && (forall i :: 0 <= i < |ids.value.items| ==> ids.value.items[i].Str? && ids.value.items[i].s != "")
    && (forall i, j :: 0 <= i < j < |ids.value.items| ==> ids.value.items[i] != ids.value.items[j])
    && threshold.Some? && threshold.value.Int? && 1 <= threshold.value.n <= |ids.value.items|
    && Look(root, ["signed", "keys"]).Some? && Look(root, ["signed", "keys"]).value.Object?
  }

  lemma {:induction false} StringsMean(items: seq<Json>)
    ensures Strings(items).Some? <==> forall i :: 0 <= i < |items| ==> items[i].Str? && items[i].s != ""
    ensures Strings(items).Some? ==>
      |Strings(items).value| == |items| && forall i :: 0 <= i < |items| ==> items[i] == Str(Strings(items).value[i])
  {
    if items != [] {
      StringsMean(items[1..]);
      assert items == [items[0]] + items[1..];
    }
  }

  /** A role has a policy exactly where the root states a well formed one. */
  lemma PolicyIff(root: Json, role: string)
    ensures RolePolicy(root, role).Some? <==> WellFormed(root, role)
    ensures RolePolicy(root, role).Some? ==>
      var p := RolePolicy(root, role).value;
      && Look(root, ["signed", "roles", role, "keyids"]).Some?
      && Look(root, ["signed", "roles", role, "keyids"]).value.List?
      && Look(root, ["signed", "roles", role, "threshold"]) == Some(Int(p.threshold))
      && Look(root, ["signed", "keys"]) == Some(p.keys)
      && |p.keyids| == |Look(root, ["signed", "roles", role, "keyids"]).value.items|
      && forall i :: 0 <= i < |p.keyids| ==>
           Look(root, ["signed", "roles", role, "keyids"]).value.items[i] == Str(p.keyids[i])
  {
    EntryPaths(root, "roles", role);
    LookTwo(root, "signed", "keys");
    if Get(root, "signed").Some? {
      var ids := Look(root, ["signed", "roles", role, "keyids"]);
      if ids.Some? && ids.value.List? {
        StringsMean(ids.value.items);
      }
    }
  }

  lemma KeyPaths(root: Json, id: string)
    requires Look(root, ["signed", "keys"]).Some?
    ensures PublicKey(Look(root, ["signed", "keys"]).value, id).Some? <==> HasKey(root, id)
    ensures PublicKey(Look(root, ["signed", "keys"]).value, id).Some? ==>
      PublicKey(Look(root, ["signed", "keys"]).value, id).value ==
        Text(Look(root, ["signed", "keys", id, "keyval", "public"]))
  {
    var keys := Look(root, ["signed", "keys"]).value;
    forall path ensures Look(root, ["signed", "keys"] + path) == Look(keys, path) {
      assert ["signed", "keys"] + path == ["signed"] + (["keys"] + path);
      LookSigned(root, ["keys"] + path);
      LookTwo(root, "signed", "keys");
      LookMore(Get(root, "signed").value, "keys", path);
    }
    assert ["signed", "keys", id, "keytype"] == ["signed", "keys"] + [id, "keytype"];
    assert ["signed", "keys", id, "scheme"] == ["signed", "keys"] + [id, "scheme"];
    assert ["signed", "keys", id, "keyval", "public"] == ["signed", "keys"] + [id, "keyval", "public"];
    assert [id, "keyval", "public"] == [id] + ["keyval", "public"];
    LookTwo(keys, id, "keytype");
    LookTwo(keys, id, "scheme");
    LookMore(keys, id, ["keyval", "public"]);
    if Get(keys, id).Some? { LookTwo(Get(keys, id).value, "keyval", "public"); }
  }

  lemma RecordPaths(x: Json)
    ensures Signer(x).Some? <==> IsText(Look(x, ["keyid"])) && IsText(Look(x, ["sig"]))
    ensures Signer(x).Some? ==> Signer(x).value == (Text(Look(x, ["keyid"])), Text(Look(x, ["sig"])))
  {
    LookOne(x, "keyid");
    LookOne(x, "sig");
  }

  predicate Harmless(root: Json, ids: seq<Json>, x: Json, env: Env) {
    && IsText(Look(x, ["keyid"])) && IsText(Look(x, ["sig"]))
    && (Str(Text(Look(x, ["keyid"]))) in ids ==>
          && HasKey(root, Text(Look(x, ["keyid"])))
          && env.fromHex(Text(Look(x, ["sig"]))).Some?)
  }

  lemma RecordIff(root: Json, role: string, x: Json, message: seq<byte>, env: Env)
    requires RolePolicy(root, role).Some?
    requires Look(root, ["signed", "roles", role, "keyids"]).Some?
    requires Look(root, ["signed", "roles", role, "keyids"]).value.List?
    ensures var ids, p := Look(root, ["signed", "roles", role, "keyids"]).value.items, RolePolicy(root, role).value;
      && (Usable(p, x, env) <==> Harmless(root, ids, x, env))
      && (Usable(p, x, env) ==>
            && Look(x, ["keyid"]).Some?
            && (Counts(p, x, message, env) <==> Look(x, ["keyid"]).value in ids && Signs(root, x, message, env)))
  {
    hide SignedPolicy, PublicKey, HasKey, WellFormed, Look;
    PolicyIff(root, role);
    RecordPaths(x);
    var ids, p := Look(root, ["signed", "roles", role, "keyids"]).value.items, RolePolicy(root, role).value;
    KeyPaths(root, Text(Look(x, ["keyid"])));
    forall k: string ensures k in p.keyids <==> Str(k) in ids {
      if k in p.keyids {
        var i :| 0 <= i < |p.keyids| && p.keyids[i] == k;
        assert ids[i] == Str(k);
      }
      if Str(k) in ids {
        var i :| 0 <= i < |ids| && ids[i] == Str(k);
        assert Str(p.keyids[i]) == Str(k);
      }
    }
  }

  lemma RecordsIff(records: seq<Json>, root: Json, role: string, message: seq<byte>, env: Env)
    requires RolePolicy(root, role).Some?
    requires Look(root, ["signed", "roles", role, "keyids"]).Some?
    requires Look(root, ["signed", "roles", role, "keyids"]).value.List?
    ensures SignaturesSuffice(RolePolicy(root, role).value, records, message, env) <==>
      && |records| <= 64
      && var ids := Look(root, ["signed", "roles", role, "keyids"]).value.items;
      && (forall i :: 0 <= i < |records| ==> Harmless(root, ids, records[i], env))
      && (forall i, j :: 0 <= i < j < |records| ==> Look(records[i], ["keyid"]) != Look(records[j], ["keyid"]))
      && |set x | x in records && Look(x, ["keyid"]).Some? && Look(x, ["keyid"]).value in ids
                 && Signs(root, x, message, env) :: Text(Look(x, ["keyid"]))|
           >= RolePolicy(root, role).value.threshold
  {
    hide RolePolicy, HasKey, WellFormed, Signs, Usable, Counts, Harmless, Signer, Look;
    var ids, p := Look(root, ["signed", "roles", role, "keyids"]).value.items, RolePolicy(root, role).value;
    forall i | 0 <= i < |records|
      ensures Usable(p, records[i], env) <==> Harmless(root, ids, records[i], env)
      ensures Usable(p, records[i], env) ==>
        && Look(records[i], ["keyid"]).Some?
        && (Counts(p, records[i], message, env) <==>
          Look(records[i], ["keyid"]).value in ids && Signs(root, records[i], message, env))
      ensures Harmless(root, ids, records[i], env) ==> Signer(records[i]).Some? && IsText(Look(records[i], ["keyid"]))
      ensures Signer(records[i]).Some? ==> Signer(records[i]).value.0 == Text(Look(records[i], ["keyid"]))
    {
      RecordIff(root, role, records[i], message, env);
      if Harmless(root, ids, records[i], env) { HarmlessMeans(root, ids, records[i], env); }
      RecordPaths(records[i]);
    }
    if forall i :: 0 <= i < |records| ==> Usable(p, records[i], env) {
      var all := set x | x in records && Look(x, ["keyid"]).Some? && Look(x, ["keyid"]).value in ids
                   && Signs(root, x, message, env) :: Text(Look(x, ["keyid"]));
      SameSigners(records, root, ids, p, message, env);
      assert all == ValidKeys(p, records, message, env);
      forall i, j | 0 <= i < j < |records|
        ensures Look(records[i], ["keyid"]) == Look(records[j], ["keyid"]) <==>
          Signer(records[i]).value.0 == Signer(records[j]).value.0
      {
      }
    }
  }

  lemma HarmlessMeans(root: Json, ids: seq<Json>, x: Json, env: Env)
    requires Harmless(root, ids, x, env)
    ensures Signer(x).Some? && IsText(Look(x, ["keyid"]))
  {
    RecordPaths(x);
  }

  lemma SameSigners(records: seq<Json>, root: Json, ids: seq<Json>, p: Policy, message: seq<byte>, env: Env)
    requires forall i :: 0 <= i < |records| ==>
      && Signer(records[i]).Some? && Look(records[i], ["keyid"]).Some?
      && Signer(records[i]).value.0 == Text(Look(records[i], ["keyid"]))
      && (Counts(p, records[i], message, env) <==>
           Look(records[i], ["keyid"]).value in ids && Signs(root, records[i], message, env))
    ensures ValidKeys(p, records, message, env) ==
      set x | x in records && Look(x, ["keyid"]).Some? && Look(x, ["keyid"]).value in ids
                 && Signs(root, x, message, env) :: Text(Look(x, ["keyid"]))
  {
    hide Signer, Counts, Signs, Look, Text;
    var all := set x | x in records && Look(x, ["keyid"]).Some? && Look(x, ["keyid"]).value in ids
                 && Signs(root, x, message, env) :: Text(Look(x, ["keyid"]));
    forall k ensures k in all <==> k in ValidKeys(p, records, message, env) {
      if k in all {
        var x :| x in records && Look(x, ["keyid"]).Some? && Look(x, ["keyid"]).value in ids
                 && Signs(root, x, message, env) && k == Text(Look(x, ["keyid"]));
        var i :| 0 <= i < |records| && records[i] == x;
        assert Counts(p, records[i], message, env);
      }
      if k in ValidKeys(p, records, message, env) {
        var i :| 0 <= i < |records| && Counts(p, records[i], message, env) && k == Signer(records[i]).value.0;
        assert records[i] in records;
      }
    }
  }

  /** A document is accepted for a role exactly when its signed part can be written canonically,
      the root's policy is well formed, none of at most 64 records is malformed or repeats a key,
      and enough of the role's own keys signed the canonical text. */
  lemma RoleVerifiedIff(document: Json, root: Json, role: string, env: Env)
    ensures RoleVerified(document, root, role, env) <==>
      var signed, signatures := Look(document, ["signed"]), Look(document, ["signatures"]);
      && signed.Some? && signed.value.Object? && Supported(signed.value)
      && signatures.Some? && signatures.value.List? && |signatures.value.items| <= 64
      && WellFormed(root, role)
      && var records := signatures.value.items;
      && var ids := Look(root, ["signed", "roles", role, "keyids"]).value.items;
      && (forall i :: 0 <= i < |records| ==>
            && IsText(Look(records[i], ["keyid"])) && IsText(Look(records[i], ["sig"]))
            && (Str(Text(Look(records[i], ["keyid"]))) in ids ==>
                  && HasKey(root, Text(Look(records[i], ["keyid"])))
                  && env.fromHex(Text(Look(records[i], ["sig"]))).Some?))
      && (forall i, j :: 0 <= i < j < |records| ==> Look(records[i], ["keyid"]) != Look(records[j], ["keyid"]))
      && |set x | x in records && Look(x, ["keyid"]).Some? && Look(x, ["keyid"]).value in ids
                 && Signs(root, x, Octets(signed.value), env) :: Text(Look(x, ["keyid"]))|
           >= Look(root, ["signed", "roles", role, "threshold"]).value.n
  {
    hide Octets, Supported, SignedPolicy, PublicKey, HasKey, WellFormed, Signs, ValidKeys, Look;
    LookOne(document, "signed");
    LookOne(document, "signatures");
    PolicyIff(root, role);
    if RolePolicy(root, role).Some? && Get(document, "signed").Some? && Get(document, "signatures").Some?
       && Get(document, "signatures").value.List? {
      RecordsIff(Get(document, "signatures").value.items, root, role, Octets(Get(document, "signed").value), env);
    }
  }

  // What a bundle says ------------------------------------------------------

  /** Signed metadata of a role and version: a parsed object whose "signed" part is one. */
  predicate Says(raw: seq<byte>, role: string, version: int, env: Env) {
    && env.parse(raw).Some?
    && Look(env.parse(raw).value, ["signed"]).Some? && Look(env.parse(raw).value, ["signed"]).value.Object?
    && Look(env.parse(raw).value, ["signed", "_type"]) == Some(Str(role))
    && Look(env.parse(raw).value, ["signed", "version"]) == Some(Int(version))
  }

  /** The parent names this version of the file, and this length and hash where it gives them. */
  predicate Refers(parent: Json, file: string, version: int, content: seq<byte>, env: Env) {
    var length := Look(parent, ["signed", "meta", file, "length"]);
    var hashes := Look(parent, ["signed", "meta", file, "hashes"]);
    && Look(parent, ["signed", "meta", file, "version"]) == Some(Int(version))
    && (length.Some? ==> |content| >= 1 && length.value == Int(|content|))
    && (hashes.Some? && hashes.value != Null ==>
          Look(parent, ["signed", "meta", file, "hashes", "sha256"]) == Some(Str(env.hex(env.digest(content)))))
  }

  /** The targets document names the TrustedRoot's length and hash. */
  predicate RefersToTarget(targets: Json, content: seq<byte>, env: Env) {
    && |content| >= 1
    && Look(targets, ["signed", "targets", "trusted_root.json", "length"]) == Some(Int(|content|))
    && Look(targets, ["signed", "targets", "trusted_root.json", "hashes", "sha256"])
         == Some(Str(env.hex(env.digest(content))))
  }

  lemma SaysIff(raw: seq<byte>, role: string, version: int, env: Env)
    ensures Says(raw, role, version, env) <==>
      Parsed(raw, env).Some? && Version(Parsed(raw, env).value, role) == Some(version)
    ensures Parsed(raw, env).Some? ==> env.parse(raw) == Parsed(raw, env)
  {
    if env.parse(raw).Some? {
      var v := env.parse(raw).value;
      LookOne(v, "signed");
      LookTwo(v, "signed", "_type");
      LookTwo(v, "signed", "version");
    }
  }

  lemma RefersIff(parent: Json, file: string, version: int, content: seq<byte>, env: Env)
    ensures Names(parent, file, version, content, env) <==> Refers(parent, file, version, content, env)
  {
    hide Look;
    EntryPaths(parent, "meta", file);
  }

  lemma TargetIff(targets: Json, content: seq<byte>, env: Env)
    ensures NamesTarget(targets, content, env) <==> RefersToTarget(targets, content, env)
  {
    hide Look;
    EntryPaths(targets, "targets", "trusted_root.json");
  }

  /** Root i is numbered 11 + i and signed under its predecessor and under itself. */
  ghost predicate Succeeds(roots: seq<seq<byte>>, i: nat, env: Env)
    requires i < |roots|
  {
    var prior := if i == 0 then env.bootstrap else roots[i - 1];
    && Says(roots[i], "root", 11 + i, env) && env.parse(prior).Some?
    && RoleVerified(env.parse(roots[i]).value, env.parse(prior).value, "root", env)
    && RoleVerified(env.parse(roots[i]).value, env.parse(roots[i]).value, "root", env)
  }

  /** Five to 64 rotations from the reviewed bootstrap root. */
  ghost predicate Rotations(roots: seq<seq<byte>>, env: Env) {
    && env.digest(env.bootstrap) == 0x836bff947925edfc23eb9ce17af66fb1e43bb5e2bdd240520985ae52b585eae9
    && 5 <= |roots| <= 64
    && env.parse(env.bootstrap).Some?
    && Look(env.parse(env.bootstrap).value, ["signed"]).Some?
    && Look(env.parse(env.bootstrap).value, ["signed"]).value.Object?
    && forall i :: 0 <= i < |roots| ==> Succeeds(roots, i, env)
  }

  lemma SucceedsIff(roots: seq<seq<byte>>, i: nat, env: Env)
    requires i < |roots| && Parsed(env.bootstrap, env).Some?
    ensures Prior(roots, i, env).Some? ==>
      (Succeeds(roots, i, env) <==> Rotates(Prior(roots, i, env).value, 11 + i, roots[i], env))
    ensures Succeeds(roots, i, env) ==> Parsed(roots[i], env).Some?
  {
    hide RoleVerified, Version, Parsed, Says;
    SaysIff(roots[i], "root", 11 + i, env);
    BootstrapIff(env);
    if i > 0 { SaysIff(roots[i - 1], "root", 11, env); }
  }

  lemma RotationsIff(roots: seq<seq<byte>>, env: Env)
    ensures RootsAccepted(roots, env) <==> Rotations(roots, env)
    ensures RootsAccepted(roots, env) ==> Prior(roots, |roots|, env) == env.parse(roots[|roots| - 1])
    ensures RootsAccepted(roots, env) ==>
      env.parse(roots[|roots| - 1]).Some? && Says(roots[|roots| - 1], "root", 10 + |roots|, env)
  {
    hide Rotates, Parsed, Succeeds, Says, Look;
    BootstrapIff(env);
    if Parsed(env.bootstrap, env).Some? {
      forall i | 0 <= i < |roots|
        ensures Prior(roots, i, env).Some? ==>
          (Succeeds(roots, i, env) <==> Rotates(Prior(roots, i, env).value, 11 + i, roots[i], env))
        ensures Succeeds(roots, i, env) ==> Parsed(roots[i], env).Some?
      {
        SucceedsIff(roots, i, env);
      }
      if Rotations(roots, env) {
        forall i | 0 <= i < |roots| ensures Prior(roots, i, env).Some? {
          assert i > 0 ==> Succeeds(roots, i - 1, env);
        }
      }
      if Rotations(roots, env) {
        assert Succeeds(roots, |roots| - 1, env);
        SucceedsMeans(roots, |roots| - 1, env);
      }
    }
  }

  lemma SucceedsMeans(roots: seq<seq<byte>>, i: nat, env: Env)
    requires i < |roots| && Succeeds(roots, i, env)
    ensures Says(roots[i], "root", 11 + i, env) && env.parse(roots[i]) == Parsed(roots[i], env)
  {
    hide RoleVerified;
    SaysIff(roots[i], "root", 11 + i, env);
  }

  lemma BootstrapIff(env: Env)
    ensures Parsed(env.bootstrap, env).Some? <==>
      && env.parse(env.bootstrap).Some?
      && Look(env.parse(env.bootstrap).value, ["signed"]).Some?
      && Look(env.parse(env.bootstrap).value, ["signed"]).value.Object?
    ensures Parsed(env.bootstrap, env).Some? ==> env.parse(env.bootstrap) == Parsed(env.bootstrap, env)
  {
    if env.parse(env.bootstrap).Some? { LookOne(env.parse(env.bootstrap).value, "signed"); }
  }

  /** What the four versions of an accepted bundle are, and what makes it accepted. */
  ghost predicate Holds(bundle: Bundle, root: int, timestamp: int, snapshot: int, targets: int, env: Env) {
    && Rotations(bundle.roots, env)
    && root == 10 + |bundle.roots| && Says(bundle.roots[|bundle.roots| - 1], "root", root, env)
    && Says(bundle.timestamp, "timestamp", timestamp, env)
    && Says(bundle.snapshot, "snapshot", snapshot, env)
    && Says(bundle.targets, "targets", targets, env)
    && var last := env.parse(bundle.roots[|bundle.roots| - 1]).value;
    && RoleVerified(env.parse(bundle.timestamp).value, last, "timestamp", env)
    && RoleVerified(env.parse(bundle.snapshot).value, last, "snapshot", env)
    && RoleVerified(env.parse(bundle.targets).value, last, "targets", env)
    && (root == 15 ==> env.digest(bundle.roots[|bundle.roots| - 1])
                         == 0x73747011d0857ada15479a16c4cae0f3ed03aac698b523b97e1de314ac9d9ca8)
    && timestamp >= 799 && snapshot >= 165 && targets >= 14
    && (timestamp == 799 ==>
          env.digest(bundle.timestamp) == 0xb8cd928494ed0736a71f93bf0bcb0e1d5bcfc4b871bc564b235306dac513b783)
    && (snapshot == 165 ==>
          env.digest(bundle.snapshot) == 0x8f784ab614ec62bfdd5f568eb2a2e3011668449ba235ed4eb7befa99f8469933)
    && (targets == 14 ==>
          env.digest(bundle.targets) == 0x6a697f7f8908c8ab26c11786ecb490b54acec97fa8c802e399f065f8a0cc1acd)
    && Refers(env.parse(bundle.timestamp).value, "snapshot.json", snapshot, bundle.snapshot, env)
    && Refers(env.parse(bundle.snapshot).value, "targets.json", targets, bundle.targets, env)
    && RefersToTarget(env.parse(bundle.targets).value, bundle.trustedRoot, env) && env.pinned(bundle.trustedRoot)
  }

  lemma EntryIs(i: nat, raw: seq<byte>, env: Env)
    requires i < 4
    ensures Entry(FLOORS[i], raw, env) == Floor(FLOORS[i].role, Entry(FLOORS[i], raw, env).version, env.digest(raw))
  {
  }

  /** The closure of four documents, in terms of their versions. */
  lemma ClosedIff(raws: seq<seq<byte>>, last: Json, trustedRoot: seq<byte>, v: seq<int>, env: Env)
    requires |raws| == 4 && |v| == 4 && Says(raws[0], "root", v[0], env)
    ensures Closed(raws, last, trustedRoot, env) && Entries(raws, env) == seq(4, i requires 0 <= i < 4 =>
                Floor(FLOORS[i].role, v[i], env.digest(raws[i]))) <==>
      && (forall i :: 0 <= i < 4 ==> Floored(i, raws[i], last, v[i], env))
      && Refers(env.parse(raws[1]).value, "snapshot.json", v[2], raws[2], env)
      && Refers(env.parse(raws[2]).value, "targets.json", v[3], raws[3], env)
      && RefersToTarget(env.parse(raws[3]).value, trustedRoot, env) && env.pinned(trustedRoot)
  {
    hide RoleAccepted, Names, NamesTarget, Refers, RefersToTarget, Entry, Says, Parsed, Floored;
    forall i | 0 <= i < 4
      ensures RoleAccepted(FLOORS[i], raws[i], last, env) && Entry(FLOORS[i], raws[i], env).version == v[i] <==>
        Floored(i, raws[i], last, v[i], env)
      ensures Entry(FLOORS[i], raws[i], env) ==
        Floor(FLOORS[i].role, Entry(FLOORS[i], raws[i], env).version, env.digest(raws[i]))
      ensures Floored(i, raws[i], last, v[i], env) ==>
        Parsed(raws[i], env).Some? && env.parse(raws[i]) == Parsed(raws[i], env)
    {
      FlooredIff(i, raws[i], last, v[i], env);
      EntryIs(i, raws[i], env);
    }
    if forall i :: 0 <= i < 4 ==> Floored(i, raws[i], last, v[i], env) {
      RefersIff(env.parse(raws[1]).value, "snapshot.json", v[2], raws[2], env);
      RefersIff(env.parse(raws[2]).value, "targets.json", v[3], raws[3], env);
      TargetIff(env.parse(raws[3]).value, trustedRoot, env);
    }
    EntriesIff(raws, v, env);
  }

  lemma EntriesIff(raws: seq<seq<byte>>, v: seq<int>, env: Env)
    requires |raws| == 4 && |v| == 4
    ensures Entries(raws, env) == seq(4, i requires 0 <= i < 4 => Floor(FLOORS[i].role, v[i], env.digest(raws[i]))) <==>
      forall i :: 0 <= i < 4 ==> Entry(FLOORS[i], raws[i], env).version == v[i]
  {
    hide Entry;
    var e, f := Entries(raws, env),
      seq(4, i requires 0 <= i < 4 => Floor(FLOORS[i].role, v[i], env.digest(raws[i])));
    forall i | 0 <= i < 4 ensures e[i] == Entry(FLOORS[i], raws[i], env)
      ensures e[i] == Floor(FLOORS[i].role, e[i].version, env.digest(raws[i]))
    {
      EntryIs(i, raws[i], env);
    }
    if e == f {
      forall i | 0 <= i < 4 ensures Entry(FLOORS[i], raws[i], env).version == v[i] {
        assert e[i] == f[i];
      }
    }
  }

  ghost predicate Floored(i: nat, raw: seq<byte>, last: Json, version: int, env: Env)
    requires i < 4
  {
    && Says(raw, FLOORS[i].role, version, env) && version >= FLOORS[i].version
    && (version == FLOORS[i].version ==> env.digest(raw) == FLOORS[i].digest)
    && (i > 0 ==> RoleVerified(env.parse(raw).value, last, FLOORS[i].role, env))
  }

  lemma FlooredIff(i: nat, raw: seq<byte>, last: Json, version: int, env: Env)
    requires i < 4 && (i == 0 ==> Says(raw, "root", version, env))
    ensures RoleAccepted(FLOORS[i], raw, last, env) && Entry(FLOORS[i], raw, env).version == version <==>
      Floored(i, raw, last, version, env)
    ensures Floored(i, raw, last, version, env) ==> Parsed(raw, env).Some? && env.parse(raw) == Parsed(raw, env)
  {
    hide RoleVerified, Version, Parsed, Says;
    SaysIff(raw, FLOORS[i].role, version, env);
  }

  lemma RootVersion(raw: seq<byte>, version: int, env: Env)
    requires Says(raw, "root", version, env)
    ensures Entry(FLOORS[0], raw, env) == Floor("root", version, env.digest(raw))
  {
    hide Version, Parsed, Says;
    SaysIff(raw, "root", version, env);
  }

  lemma FlooredAll(raws: seq<seq<byte>>, last: Json, v: seq<int>, env: Env)
    requires |raws| == 4 && |v| == 4 && Says(raws[0], "root", v[0], env) && v[0] >= 15
    ensures (forall i :: 0 <= i < 4 ==> Floored(i, raws[i], last, v[i], env)) <==>
      && (v[0] == 15 ==> env.digest(raws[0]) == 0x73747011d0857ada15479a16c4cae0f3ed03aac698b523b97e1de314ac9d9ca8)
      && v[1] >= 799 && v[2] >= 165 && v[3] >= 14
      && (v[1] == 799 ==> env.digest(raws[1]) == 0xb8cd928494ed0736a71f93bf0bcb0e1d5bcfc4b871bc564b235306dac513b783)
      && (v[2] == 165 ==> env.digest(raws[2]) == 0x8f784ab614ec62bfdd5f568eb2a2e3011668449ba235ed4eb7befa99f8469933)
      && (v[3] == 14 ==> env.digest(raws[3]) == 0x6a697f7f8908c8ab26c11786ecb490b54acec97fa8c802e399f065f8a0cc1acd)
      && Says(raws[1], "timestamp", v[1], env) && Says(raws[2], "snapshot", v[2], env)
      && Says(raws[3], "targets", v[3], env)
      && RoleVerified(env.parse(raws[1]).value, last, "timestamp", env)
      && RoleVerified(env.parse(raws[2]).value, last, "snapshot", env)
      && RoleVerified(env.parse(raws[3]).value, last, "targets", env)
  {
    hide RoleVerified, Look;
    assert FLOORS[0].role == "root" && FLOORS[1].role == "timestamp";
    assert FLOORS[2].role == "snapshot" && FLOORS[3].role == "targets";
    if forall i :: 0 <= i < 4 ==> Floored(i, raws[i], last, v[i], env) {
      assert Floored(1, raws[1], last, v[1], env);
      assert Floored(2, raws[2], last, v[2], env);
      assert Floored(3, raws[3], last, v[3], env);
      assert Floored(0, raws[0], last, v[0], env);
    }
  }

  /** A bundle is accepted exactly when it holds, with the versions it holds. */
  lemma AuthenticIff(bundle: Bundle, root: int, timestamp: int, snapshot: int, targets: int, env: Env)
    ensures Holds(bundle, root, timestamp, snapshot, targets, env) <==>
      && bundle.roots != []
      && Authentic(bundle, env) == Some([
           Floor("root", root, env.digest(bundle.roots[|bundle.roots| - 1])),
           Floor("timestamp", timestamp, env.digest(bundle.timestamp)),
           Floor("snapshot", snapshot, env.digest(bundle.snapshot)),
           Floor("targets", targets, env.digest(bundle.targets))])
  {
    hide Rotations, Closed, Says, Refers, RefersToTarget, RoleVerified, Unbroken, Entries, Floored;
    RotationsIff(bundle.roots, env);
    if bundle.roots != [] && RootsAccepted(bundle.roots, env) {
      var raws, v := Raws(bundle), [root, timestamp, snapshot, targets];
      var last := env.parse(bundle.roots[|bundle.roots| - 1]).value;
      RootVersion(raws[0], 10 + |bundle.roots|, env);
      var floors := seq(4, i requires 0 <= i < 4 => Floor(FLOORS[i].role, v[i], env.digest(raws[i])));
      assert floors == [
        Floor("root", root, env.digest(raws[0])), Floor("timestamp", timestamp, env.digest(raws[1])),
        Floor("snapshot", snapshot, env.digest(raws[2])), Floor("targets", targets, env.digest(raws[3]))];
      FirstEntry(raws, env);
      if root == 10 + |bundle.roots| {
        ClosedIff(raws, last, bundle.trustedRoot, v, env);
        FlooredAll(raws, last, v, env);
      }
    }
  }

  lemma FirstEntry(raws: seq<seq<byte>>, env: Env)
    requires |raws| == 4
    ensures Entries(raws, env)[0] == Entry(FLOORS[0], raws[0], env)
  {
  }

  /** Whatever is accepted holds, with the versions and digests that come back. */
  lemma AuthenticHolds(bundle: Bundle, env: Env)
    requires Authentic(bundle, env).Some?
    ensures bundle.roots != []
    ensures var v := Authentic(bundle, env).value;
      && |v| == 4
      && Holds(bundle, v[0].version, v[1].version, v[2].version, v[3].version, env)
      && v == [Floor("root", v[0].version, env.digest(bundle.roots[|bundle.roots| - 1])),
               Floor("timestamp", v[1].version, env.digest(bundle.timestamp)),
               Floor("snapshot", v[2].version, env.digest(bundle.snapshot)),
               Floor("targets", v[3].version, env.digest(bundle.targets))]
  {
    hide Holds, Closed, RootsAccepted, Entry;
    var raws, v := Raws(bundle), Authentic(bundle, env).value;
    EntryIs(0, raws[0], env);
    EntryIs(1, raws[1], env);
    EntryIs(2, raws[2], env);
    EntryIs(3, raws[3], env);
    AuthenticIff(bundle, v[0].version, v[1].version, v[2].version, v[3].version, env);
  }

  /** No two contents have one digest, and no two digests one text. */
  ghost predicate Injective(env: Env) {
    && (forall x, y :: env.digest(x) == env.digest(y) ==> x == y)
    && (forall m, n :: env.hex(m) == env.hex(n) ==> m == n)
  }

  /** The parent gives a hash of the file. */
  predicate Hashes(parent: Json, file: string) {
    var hashes := Look(parent, ["signed", "meta", file, "hashes"]);
    hashes.Some? && hashes.value != Null
  }

  lemma OneChild(parent: Json, file: string, m: int, x: seq<byte>, n: int, y: seq<byte>, env: Env)
    requires Refers(parent, file, m, x, env) && Refers(parent, file, n, y, env)
    ensures m == n
    ensures Look(parent, ["signed", "meta", file, "length"]).Some? ==> |x| == |y|
    ensures Hashes(parent, file) && Injective(env) ==> x == y
  {
    hide Look;
  }

  lemma OneTarget(targets: Json, x: seq<byte>, y: seq<byte>, env: Env)
    requires RefersToTarget(targets, x, env) && RefersToTarget(targets, y, env)
    ensures |x| == |y| && (Injective(env) ==> x == y)
  {
    hide Look;
  }

  /** Under one timestamp tree there is one snapshot version, and under one snapshot tree one
      targets version; where the parent gives a hash there is one such document. Under one
      targets tree there is one TrustedRoot. */
  lemma OneUnderParent(a: Bundle, b: Bundle, env: Env)
    requires Authentic(a, env).Some? && Authentic(b, env).Some?
    ensures env.parse(a.timestamp).Some? && env.parse(a.snapshot).Some?
    ensures env.parse(a.targets) == env.parse(b.targets) && Injective(env) ==> a.trustedRoot == b.trustedRoot
    ensures env.parse(a.timestamp) == env.parse(b.timestamp) ==>
      && Authentic(a, env).value[2].version == Authentic(b, env).value[2].version
      && (Hashes(env.parse(a.timestamp).value, "snapshot.json") && Injective(env) ==> a.snapshot == b.snapshot)
    ensures env.parse(a.snapshot) == env.parse(b.snapshot) ==>
      && Authentic(a, env).value[3].version == Authentic(b, env).value[3].version
      && (Hashes(env.parse(a.snapshot).value, "targets.json") && Injective(env) ==> a.targets == b.targets)
  {
    hide Authentic, Rotations, RoleVerified, Look, Refers, RefersToTarget, Hashes, Injective;
    AuthenticHolds(a, env);
    AuthenticHolds(b, env);
    var v, w := Authentic(a, env).value, Authentic(b, env).value;
    if env.parse(a.targets) == env.parse(b.targets) {
      OneTarget(env.parse(a.targets).value, a.trustedRoot, b.trustedRoot, env);
    }
    if env.parse(a.timestamp) == env.parse(b.timestamp) {
      OneChild(env.parse(a.timestamp).value, "snapshot.json", v[2].version, a.snapshot, w[2].version, b.snapshot, env);
    }
    if env.parse(a.snapshot) == env.parse(b.snapshot) {
      OneChild(env.parse(a.snapshot).value, "targets.json", v[3].version, a.targets, w[3].version, b.targets, env);
    }
  }
}
