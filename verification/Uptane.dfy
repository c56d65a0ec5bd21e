/** Verification of signed roles, of the image repository's hash chain, and target selection (akt_uptane.c). */
module Uptane {
  import opened Wrappers
  import opened Bits
  import opened Json
  import CanonicalJson
  import Dates

  // The result codes.
  datatype Rc = Ok | Parse | NoRole | Threshold | Expired | Rollback | NoTarget | Internal | CrossRepo

  // What comes from other libraries: the "%.17g" format, the JSON parser, sscanf on a timestamp, the
  // check of a base64 signature over a text with a key object, SHA-256, hexadecimal decoding, and
  // how much memory a canonical text may take.
  datatype Library = Library(general: real -> string, parse: seq<Byte> -> Option<Json>, scan: Text -> Option<Dates.Stamp>,
                             verify: (Json, string, Text) -> bool, sha256: seq<Byte> -> seq<Byte>,
                             unhex: Text -> Option<seq<Byte>>, memory: nat)

  datatype Target = Target(path: Text, sha256: seq<Byte>, length: int)

  // ----- signatures -----

  // find_sig: the first signature entry with this key id.
  function FindSig(signatures: Items, keyid: Text): Option<Json> {
    if signatures.NoItem? then None
    else if Get(Some(signatures.value), "keyid") == Some(Str(keyid)) then Some(signatures.value)
    else FindSig(signatures.next, keyid)
  }

  // Whether the envelope carries a valid signature of this key id over the text.
  predicate Signs(lib: Library, keys: Json, signatures: Items, canon: string, keyid: Text) {
    var entry, key := FindSig(signatures, keyid), Get(Some(keys), keyid);
    entry.Some? && key.Some? && key.value.Obj?
    && var sig := Get(entry, "sig"); sig.Some? && sig.value.Str? && lib.verify(key.value, canon, sig.value.str)
  }

  // The strings among the items.
  function Strings(c: Items): seq<Text> {
    if c.NoItem? then [] else (if c.value.Str? then [c.value.str] else []) + Strings(c.next)
  }

  lemma {:induction false} StringsAre(c: Items, id: Text)
    ensures id in Strings(c) <==> Str(id) in List(c)
    decreases c
  {
    if c.Item? {
      StringsAre(c.next, id);
    }
  }

  // No string is listed twice.
  ghost predicate ListedOnce(c: seq<Json>) {
    forall i, j :: 0 <= i < j < |c| ==> c[i] != c[j] || !c[i].Str?
  }

  lemma {:induction false} ListedOnceIs(c: Items)
    ensures NoRepeats(Strings(c)) <==> ListedOnce(List(c))
    decreases c
  {
    if c.Item? {
      var l, t := List(c), List(c.next);
      ListedOnceIs(c.next);
      assert l[0] == c.value && forall i :: 1 <= i < |l| ==> l[i] == t[i - 1];
      assert ListedOnce(t) ==> forall i, j :: 1 <= i < j < |l| ==> l[i] != l[j] || !l[i].Str?;
      if ListedOnce(l) {
        forall i, j | 0 <= i < j < |t| ensures t[i] != t[j] || !t[i].Str? {
          assert l[i + 1] == t[i] && l[j + 1] == t[j];
        }
      }
      if c.value.Str? {
        StringsAre(c.next, c.value.str);
        assert Strings(c)[0] == c.value.str && Strings(c)[1..] == Strings(c.next);
        if c.value in t {
          var k :| 0 <= k < |t| && t[k] == c.value;
          assert l[k + 1] == l[0];
        }
      } else {
        assert Strings(c) == Strings(c.next);
      }
    }
  }

  // The entry that counts for a key id: the first one with this id.
  lemma {:induction false} FindSigIsFirst(signatures: Items, keyid: Text) returns (i: nat)
    ensures var c := List(signatures);
            if FindSig(signatures, keyid).Some? then
              i < |c| && c[i] == FindSig(signatures, keyid).value && Get(Some(c[i]), "keyid") == Some(Str(keyid))
              && forall j :: 0 <= j < i ==> Get(Some(c[j]), "keyid") != Some(Str(keyid))
            else forall j :: 0 <= j < |c| ==> Get(Some(c[j]), "keyid") != Some(Str(keyid))
    decreases signatures
  {
    hide Get;
    i := 0;
    if signatures.Item? && Get(Some(signatures.value), "keyid") != Some(Str(keyid)) {
      var c, d := List(signatures), List(signatures.next);
      i := FindSigIsFirst(signatures.next, keyid);
      assert c[0] == signatures.value && forall j :: 1 <= j < |c| ==> c[j] == d[j - 1];
      i := i + 1;
    }
  }

  // A signature by a key id: the first entry with that id holds a string that the key object of that id
  // verifies over the text.
  lemma SignsIff(lib: Library, keys: Json, signatures: Items, canon: string, id: Text)
    ensures var c, key := List(signatures), Get(Some(keys), id);
            Signs(lib, keys, signatures, canon, id) <==>
              key.Some? && key.value.Obj?
              && exists i :: 0 <= i < |c| && Get(Some(c[i]), "keyid") == Some(Str(id))
                             && (forall j :: 0 <= j < i ==> Get(Some(c[j]), "keyid") != Some(Str(id)))
                             && Get(Some(c[i]), "sig").Some? && Get(Some(c[i]), "sig").value.Str?
                             && lib.verify(key.value, canon, Get(Some(c[i]), "sig").value.str)
  {
    hide Get, FindSig;
    var c, e := List(signatures), FindSig(signatures, id);
    var k := FindSigIsFirst(signatures, id);
    if e.Some? {
      forall i | 0 <= i < |c| && Get(Some(c[i]), "keyid") == Some(Str(id))
                 && (forall j :: 0 <= j < i ==> Get(Some(c[j]), "keyid") != Some(Str(id)))
        ensures i == k
      {}
    }
  }

  // How many entries of ids satisfy ok, repetitions included.
  function CountOk(ids: seq<Text>, ok: Text -> bool): nat {
    if ids == [] then 0 else (if ok(ids[0]) then 1 else 0) + CountOk(ids[1..], ok)
  }

  // The key ids that satisfy ok.
  ghost function Signers(ids: seq<Text>, ok: Text -> bool): set<Text> {
    set id | id in ids && ok(id)
  }

  predicate NoRepeats(ids: seq<Text>) {
    ids == [] || (ids[0] !in ids[1..] && NoRepeats(ids[1..]))
  }

  lemma SignersUnfold(ids: seq<Text>, ok: Text -> bool)
    requires ids != []
    ensures Signers(ids, ok) == (if ok(ids[0]) then {ids[0]} else {}) + Signers(ids[1..], ok)
  {
    assert ids == [ids[0]] + ids[1..];
  }

  lemma {:induction false} CountAtLeastSigners(ids: seq<Text>, ok: Text -> bool)
    ensures CountOk(ids, ok) >= |Signers(ids, ok)|
    decreases ids
  {
    if ids != [] {
      SignersUnfold(ids, ok);
      CountAtLeastSigners(ids[1..], ok);
    }
  }

  lemma {:induction false} CountIsSigners(ids: seq<Text>, ok: Text -> bool)
    requires NoRepeats(ids)
    ensures CountOk(ids, ok) == |Signers(ids, ok)|
    decreases ids
  {
    if ids != [] {
      SignersUnfold(ids, ok);
      CountIsSigners(ids[1..], ok);
      assert ids[0] !in Signers(ids[1..], ok);
    }
  }

  lemma {:induction false} RepeatsCountTwice(ids: seq<Text>, ok: Text -> bool)
    requires !NoRepeats(ids) && forall id :: ok(id)
    ensures CountOk(ids, ok) > |Signers(ids, ok)|
    decreases ids
  {
    SignersUnfold(ids, ok);
    if ids[0] in ids[1..] {
      CountAtLeastSigners(ids[1..], ok);
      assert Signers(ids, ok) == Signers(ids[1..], ok);
    } else {
      RepeatsCountTwice(ids[1..], ok);
    }
  }

  // The loop counts distinct signers, whoever signs, if and only if the role lists no key id twice.
  lemma CountExact(ids: seq<Text>)
    ensures NoRepeats(ids) <==> forall ok: Text -> bool :: CountOk(ids, ok) == |Signers(ids, ok)|
  {
    if NoRepeats(ids) {
      forall ok: Text -> bool ensures CountOk(ids, ok) == |Signers(ids, ok)| {
        CountIsSigners(ids, ok);
      }
    } else {
      var ok: Text -> bool := (id: Text) => true;
      RepeatsCountTwice(ids, ok);
    }
  }

  // ----- akt_verify_role -----

  function Version(signed: Option<Json>): int {
    var v := Get(signed, "version");
    if v.Some? && v.value.Num? then Trunc(v.value.value) else 0
  }

  // The role of this name in the root metadata, if it is well formed.
  predicate HasRole(root: Option<Json>, role: Text) {
    var roles, keys := Get(root, "roles"), Get(root, "keys");
    roles.Some? && roles.value.Obj? && keys.Some? && keys.value.Obj?
    && var r := Get(roles, role);
       r.Some? && r.value.Obj?
       && var keyids, threshold := Get(r, "keyids"), Get(r, "threshold");
          keyids.Some? && keyids.value.Arr? && threshold.Some? && threshold.value.Num?
  }

  function Keyids(root: Option<Json>, role: Text): seq<Text>
    requires HasRole(root, role)
  {
    Strings(Get(Get(Get(root, "roles"), role), "keyids").value.items)
  }

  function ThresholdOf(root: Option<Json>, role: Text): int
    requires HasRole(root, role)
  {
    Trunc(Get(Get(Get(root, "roles"), role), "threshold").value.value)
  }

  predicate IsEnvelope(env: Json) {
    var signed, signatures := Get(Some(env), "signed"), Get(Some(env), "signatures");
    signed.Some? && signed.value.Obj? && signatures.Some? && signatures.value.Arr?
  }

  // Who has signed the canonical text of the envelope's content, by the keys of the root metadata.
  function SignedBy(lib: Library, root: Option<Json>, env: Json): Text -> bool
    requires IsEnvelope(env) && Get(root, "keys").Some?
  {
    var keys, signatures := Get(root, "keys").value, Get(Some(env), "signatures").value.items;
    var canon := CanonicalJson.Canonical(Get(Some(env), "signed").value, lib.general);
    (id: Text) => Signs(lib, keys, signatures, canon, id)
  }

  predicate ThresholdMet(lib: Library, root: Option<Json>, role: Text, env: Json)
    requires HasRole(root, role) && IsEnvelope(env)
  {
    CountOk(Keyids(root, role), SignedBy(lib, root, env)) >= ThresholdOf(root, role) > 0
  }

  // The expiry time of the content, if there is a well-formed one.
  function Expires(lib: Library, signed: Option<Json>): Option<int> {
    var e := Get(signed, "expires");
    if e.Some? && e.value.Str? then
      var stamp := lib.scan(e.value.str);
      if stamp.Some? then Dates.Seconds(stamp.value) else None
    else None
  }

  // Everything an accepted envelope has gone through.
  predicate Accepted(lib: Library, root: Option<Json>, role: Text, env: Json, now: int, minVersion: int) {
    HasRole(root, role) && IsEnvelope(env)
    && var signed := Get(Some(env), "signed");
       ThresholdMet(lib, root, role, env) && Version(signed) >= minVersion
       && (now != 0 ==> var e := Expires(lib, signed); e.Some? && e.value > now)
  }

  // Expiry and version of a signed part whose signatures are sufficient.
  function ClaimsRefusal(lib: Library, signed: Option<Json>, now: int): Rc {
    if now != 0 && Expires(lib, signed) == None then Parse
    else if now != 0 && Expires(lib, signed).value <= now then Expired
    else Rollback
  }

  // What is wrong with an envelope that is not accepted: the first check that fails.
  function Refusal(lib: Library, root: Option<Json>, role: Text, env: Json, now: int): Rc {
    var roles, keys := Get(root, "roles"), Get(root, "keys");
    if !(roles.Some? && roles.value.Obj? && keys.Some? && keys.value.Obj?) then Parse
    else if !(Get(roles, role).Some? && Get(roles, role).value.Obj?) then NoRole
    else if !HasRole(root, role) || !IsEnvelope(env) then Parse
    else if !ThresholdMet(lib, root, role, env) then Threshold
    else ClaimsRefusal(lib, Get(Some(env), "signed"), now)
  }

  method CountSignatures(lib: Library, keyids: Items, keys: Json, signatures: Items, canon: string) returns (count: nat)
    ensures count == CountOk(Strings(keyids), (id: Text) => Signs(lib, keys, signatures, canon, id))
  {
    ghost var ok: Text -> bool := (id: Text) => Signs(lib, keys, signatures, canon, id);
    count := 0;
    var kid := keyids;
    while kid.Item?
      invariant count + CountOk(Strings(kid), ok) == CountOk(Strings(keyids), ok)
      decreases kid
    {
      if kid.value.Str? {
        CountFirst(kid.value.str, Strings(kid.next), ok);
        var entry := FindSig(signatures, kid.value.str);
        if entry.Some? {
          var key := Get(Some(keys), kid.value.str);
          if key.Some? && key.value.Obj? {
            var sig := Get(entry, "sig");
            if sig.Some? && sig.value.Str? && lib.verify(key.value, canon, sig.value.str) {
              count := count + 1;
            }
          }
        }
      } else {
        assert Strings(kid) == Strings(kid.next);
      }
      kid := kid.next;
    }
  }

  lemma CountFirst(id: Text, rest: seq<Text>, ok: Text -> bool)
    ensures CountOk([id] + rest, ok) == (if ok(id) then 1 else 0) + CountOk(rest, ok)
  {
    assert ([id] + rest)[1..] == rest;
  }

  method CheckClaims(lib: Library, signed: Option<Json>, now: int, minVersion: int) returns (rc: Rc)
    ensures rc == Ok <==> Version(signed) >= minVersion && (now != 0 ==> var e := Expires(lib, signed); e.Some? && e.value > now)
    ensures rc != Ok ==> rc == ClaimsRefusal(lib, signed, now) && rc != Internal
  {
    if now != 0 {
      var exp := Get(signed, "expires");
      if !(exp.Some? && exp.value.Str?) {
        return Parse;
      }
      var stamp := lib.scan(exp.value.str);
      var t := if stamp.Some? then Dates.Seconds(stamp.value) else None;
      if t == None {
        return Parse;
      }
      if t.value <= now {
        return Expired;
      }
    }
    if Version(signed) < minVersion {
      return Rollback;
    }
    return Ok;
  }

  // akt_verify_role: accepts exactly the envelopes that pass every check, unless memory runs out.
  method VerifyRole(lib: Library, root: Option<Json>, role: Text, env: Json, now: int, minVersion: int) returns (rc: Rc)
    ensures rc == Ok ==> Accepted(lib, root, role, env, now, minVersion)
    ensures rc != Ok && rc != Internal ==>
              !Accepted(lib, root, role, env, now, minVersion) && rc == Refusal(lib, root, role, env, now)
    ensures rc == Internal ==> IsEnvelope(env) && var signed := Get(Some(env), "signed").value;
              lib.memory < CanonicalJson.Need(|CanonicalJson.Canonical(signed, lib.general)|)
  {
    hide CanonicalJson.Canonical, CanonicalJson.Need, Get, Expires, Version, ClaimsRefusal, Signs, CountOk, Strings, Trunc;
    var roles, keys := Get(root, "roles"), Get(root, "keys");
    if !(roles.Some? && roles.value.Obj?) || !(keys.Some? && keys.value.Obj?) {
      return Parse;
    }
    var r := Get(roles, role);
    if !(r.Some? && r.value.Obj?) {
      return NoRole;
    }
    var keyids, thresholdJ := Get(r, "keyids"), Get(r, "threshold");
    if !(keyids.Some? && keyids.value.Arr?) || !(thresholdJ.Some? && thresholdJ.value.Num?) {
      return Parse;
    }
    var threshold := Trunc(thresholdJ.value.value);
    var signed, signatures := Get(Some(env), "signed"), Get(Some(env), "signatures");
    if !(signed.Some? && signed.value.Obj?) || !(signatures.Some? && signatures.value.Arr?) {
      return Parse;
    }
    var canon := CanonicalJson.CanonicalText(signed.value, lib.memory, lib.general);
    if canon == None {
      return Internal;
    }
    var count := CountSignatures(lib, keyids.value.items, keys.value, signatures.value.items, canon.value);
    assert count == CountOk(Keyids(root, role), SignedBy(lib, root, env));
    if !(threshold > 0 && count >= threshold) {
      return Threshold;
    }
    rc := CheckClaims(lib, signed, now, minVersion);
  }

  lemma AcceptedLower(lib: Library, root: Option<Json>, role: Text, env: Json, now: int, minVersion: nat)
    requires Accepted(lib, root, role, env, now, minVersion)
    ensures Accepted(lib, root, role, env, now, 0) && Version(Get(Some(env), "signed")) >= minVersion
  {}

  // The code of a refusal says how far the envelope has got.
  lemma RefusalCodes(lib: Library, root: Option<Json>, role: Text, env: Json, now: int, minVersion: int)
    requires !Accepted(lib, root, role, env, now, minVersion)
    ensures var rc, roles, keys := Refusal(lib, root, role, env, now), Get(root, "roles"), Get(root, "keys");
            var tables := roles.Some? && roles.value.Obj? && keys.Some? && keys.value.Obj?;
            var shaped := HasRole(root, role) && IsEnvelope(env);
            var expires := Expires(lib, Get(Some(env), "signed"));
            && (rc == NoRole <==> tables && !(Get(roles, role).Some? && Get(roles, role).value.Obj?))
            && (rc == Threshold <==> shaped && !ThresholdMet(lib, root, role, env))
            && (rc == Expired <==> shaped && ThresholdMet(lib, root, role, env) && now != 0 && expires.Some? && expires.value <= now)
            && (rc == Rollback <==> shaped && ThresholdMet(lib, root, role, env)
                                    && (now == 0 || (expires.Some? && expires.value > now)))
            && rc in {Parse, NoRole, Threshold, Expired, Rollback}
  {
    hide Expires, ThresholdMet, Version;
  }

  // With no key id listed twice, an accepted envelope carries valid signatures by at least
  // threshold > 0 different key ids of the role, all over the same canonical text.
  lemma AcceptedSigners(lib: Library, root: Option<Json>, role: Text, env: Json, now: int, minVersion: int)
    requires Accepted(lib, root, role, env, now, minVersion) && NoRepeats(Keyids(root, role))
    ensures |Signers(Keyids(root, role), SignedBy(lib, root, env))| >= ThresholdOf(root, role) > 0
  {
    CountIsSigners(Keyids(root, role), SignedBy(lib, root, env));
  }

  // ----- a root that lists a key id twice -----

  // Root metadata with the one key "k", and these key ids and this threshold for its own role.
  function PlainSigned(version: int, ids: Items, threshold: int): Json {
    Obj(Member("version", Num(version as real),
        Member("keys", Obj(Member("k", Obj(NoMember), NoMember)),
        Member("roles", Obj(Member("root", PlainRole(ids, threshold), NoMember)), NoMember))))
  }

  function PlainRole(ids: Items, threshold: int): Json {
    Obj(Member("keyids", Arr(ids), Member("threshold", Num(threshold as real), NoMember)))
  }

  // One signature, by "k".
  function PlainSignatures(): Json {
    Arr(Item(Obj(Member("keyid", Str("k"), Member("sig", Str("s"), NoMember))), NoItem))
  }

  function PlainEnvelope(version: int, ids: Items, threshold: int): Json {
    Obj(Member("signed", PlainSigned(version, ids, threshold), Member("signatures", PlainSignatures(), NoMember)))
  }

  // The one signature of such an envelope is valid.
  predicate PlainSigns(lib: Library, version: int, ids: Items, threshold: int) {
    lib.verify(Obj(NoMember), CanonicalJson.Canonical(PlainSigned(version, ids, threshold), lib.general), "s")
  }

  lemma FindNext(name: Text, value: Json, rest: Members, key: Text)
    requires |name| != |key| || (name != [] && name[|name| - 1] != key[|key| - 1])
    ensures Find(Member(name, value, rest), key) == Find(rest, key)
  {}

  lemma PlainParts(v: int, ids: Items, t: int)
    ensures var root, env := Some(PlainSigned(v, ids, t)), PlainEnvelope(v, ids, t);
            Get(Some(env), "signed") == root && Get(Some(env), "signatures") == Some(PlainSignatures())
            && Version(root) == v && HasRole(root, "root") && IsEnvelope(env)
            && Keyids(root, "root") == Strings(ids) && ThresholdOf(root, "root") == t
            && Get(Get(root, "keys"), "k") == Some(Obj(NoMember))
  {
    var root := Some(PlainSigned(v, ids, t));
    var m2 := Member("roles", Obj(Member("root", PlainRole(ids, t), NoMember)), NoMember);
    var m1 := Member("keys", Obj(Member("k", Obj(NoMember), NoMember)), m2);
    FindNext("version", Num(v as real), m1, "keys");
    FindNext("version", Num(v as real), m1, "roles");
    FindNext("keys", m1.value, m2, "roles");
    assert Get(root, "keys") == Some(m1.value) && Get(root, "roles") == Some(m2.value);
    FindNext("signed", PlainSigned(v, ids, t), Member("signatures", PlainSignatures(), NoMember), "signatures");
    FindNext("keyids", Arr(ids), Member("threshold", Num(t as real), NoMember), "threshold");
    assert Get(Get(root, "roles"), "root") == Some(PlainRole(ids, t));
  }

  lemma PlainSigner(lib: Library, v: int, w: int, ids: Items, t: int)
    requires PlainSigns(lib, w, ids, t)
    ensures IsEnvelope(PlainEnvelope(w, ids, t)) && Get(Some(PlainSigned(v, ids, t)), "keys").Some?
    ensures SignedBy(lib, Some(PlainSigned(v, ids, t)), PlainEnvelope(w, ids, t))("k")
  {
    PlainParts(v, ids, t);
    PlainParts(w, ids, t);
    var entry := Obj(Member("keyid", Str("k"), Member("sig", Str("s"), NoMember)));
    FindNext("keyid", Str("k"), Member("sig", Str("s"), NoMember), "sig");
    assert Get(Some(entry), "keyid") == Some(Str("k")) && Get(Some(entry), "sig") == Some(Str("s"));
    assert FindSig(PlainSignatures().items, "k") == Some(entry);
  }

  lemma {:induction false} CountAll(ids: seq<Text>, ok: Text -> bool)
    requires forall i :: 0 <= i < |ids| ==> ok(ids[i])
    ensures CountOk(ids, ok) == |ids|
    decreases ids
  {
    if ids != [] {
      CountAll(ids[1..], ok);
    }
  }

  // An envelope of version w is accepted under a root that lists "k" as often as its threshold asks.
  lemma PlainAccepted(lib: Library, v: int, w: int, ids: Items, t: int, minVersion: int)
    requires PlainSigns(lib, w, ids, t) && |Strings(ids)| >= t > 0 && forall i :: 0 <= i < |Strings(ids)| ==> Strings(ids)[i] == "k"
    ensures Accepted(lib, Some(PlainSigned(v, ids, t)), "root", PlainEnvelope(w, ids, t), 0, minVersion) <==> w >= minVersion
  {
    PlainParts(v, ids, t);
    PlainParts(w, ids, t);
    PlainSigner(lib, v, w, ids, t);
    CountAll(Strings(ids), SignedBy(lib, Some(PlainSigned(v, ids, t)), PlainEnvelope(w, ids, t)));
  }

  // One signature meets a threshold of two when the role lists its key id twice.
  lemma OneSignerMeetsTwo(lib: Library)
    requires PlainSigns(lib, 1, Item(Str("k"), Item(Str("k"), NoItem)), 2)
    ensures var ids := Item(Str("k"), Item(Str("k"), NoItem)); var root, env := Some(PlainSigned(1, ids, 2)), PlainEnvelope(1, ids, 2);
            Accepted(lib, root, "root", env, 0, 1) && !NoRepeats(Keyids(root, "root"))
            && |Signers(Keyids(root, "root"), SignedBy(lib, root, env))| == 1 < ThresholdOf(root, "root") == 2
  {
    hide CanonicalJson.Canonical, PlainSigns, SignedBy, Accepted, PlainEnvelope, PlainSigned;
    var ids := Item(Str("k"), Item(Str("k"), NoItem));
    assert Strings(ids.next) == ["k"] + Strings(NoItem) && Strings(ids) == ["k", "k"];
    PlainAccepted(lib, 1, 1, ids, 2, 1);
    PlainParts(1, ids, 2);
    PlainSigner(lib, 1, 1, ids, 2);
    var root, env := Some(PlainSigned(1, ids, 2)), PlainEnvelope(1, ids, 2);
    OneSigner(["k", "k"], SignedBy(lib, root, env), "k");
  }

  lemma OneSigner(ids: seq<Text>, ok: Text -> bool, id: Text)
    requires ids == [id, id] && ok(id)
    ensures Signers(ids, ok) == {id} && |Signers(ids, ok)| == 1 && !NoRepeats(ids)
  {
    assert ids[1..] == [id] && id in ids[1..] && ids[0] == id;
    assert Signers(ids, ok) == {id};
  }

  // ----- acceptance, in terms of the JSON values -----

  // The threshold is met by the counting loop exactly when that many listed key ids have signed.
  lemma EnoughSigners(lib: Library, keys: Json, keyids: Items, signatures: Items, canon: string, t: int)
    requires ListedOnce(List(keyids))
    ensures CountOk(Strings(keyids), (id: Text) => Signs(lib, keys, signatures, canon, id)) >= t <==>
              exists ids: set<Text> :: |ids| >= t && forall id :: id in ids ==>
                var c, key := List(signatures), Get(Some(keys), id);
                && Str(id) in List(keyids) && key.Some? && key.value.Obj?
                && exists i :: 0 <= i < |c| && Get(Some(c[i]), "keyid") == Some(Str(id))
                               && (forall j :: 0 <= j < i ==> Get(Some(c[j]), "keyid") != Some(Str(id)))
                               && Get(Some(c[i]), "sig").Some? && Get(Some(c[i]), "sig").value.Str?
                               && lib.verify(key.value, canon, Get(Some(c[i]), "sig").value.str)
  {
    hide Get, Signs, Strings, List;
    var ok: Text -> bool := (id: Text) => Signs(lib, keys, signatures, canon, id);
    ListedOnceIs(keyids);
    CountIsSigners(Strings(keyids), ok);
    forall id: Text ensures id in Strings(keyids) <==> Str(id) in List(keyids) {
      StringsAre(keyids, id);
    }
    forall id: Text
      ensures var c, key := List(signatures), Get(Some(keys), id);
              Signs(lib, keys, signatures, canon, id) <==>
                key.Some? && key.value.Obj?
                && exists i :: 0 <= i < |c| && Get(Some(c[i]), "keyid") == Some(Str(id))
                               && (forall j :: 0 <= j < i ==> Get(Some(c[j]), "keyid") != Some(Str(id)))
                               && Get(Some(c[i]), "sig").Some? && Get(Some(c[i]), "sig").value.Str?
                               && lib.verify(key.value, canon, Get(Some(c[i]), "sig").value.str)
    {
      SignsIff(lib, keys, signatures, canon, id);
    }
    SubsetsOfSigners(Strings(keyids), ok, t);
  }

  lemma SubsetsOfSigners(ids: seq<Text>, ok: Text -> bool, t: int)
    ensures |Signers(ids, ok)| >= t <==> exists s: set<Text> :: |s| >= t && forall id :: id in s ==> id in ids && ok(id)
  {
    var all := Signers(ids, ok);
    assert |all| >= t ==> forall id :: id in all ==> id in ids && ok(id);
    if s: set<Text> :| |s| >= t && forall id :: id in s ==> id in ids && ok(id) {
      assert all == s + (all - s);
    }
  }

  // Where a role lists no key id twice, acceptance means: a positive threshold, and at least that many
  // listed key ids whose first signature entry the key object of that id verifies over the canonical text;
  // a version of at least the minimum; and, unless the time is zero, an expiry after it.
  lemma AcceptedIff(lib: Library, root: Option<Json>, role: Text, env: Json, now: int, minVersion: int)
    requires var k := Get(Get(Get(root, "roles"), role), "keyids"); k.Some? && k.value.Arr? ==> ListedOnce(List(k.value.items))
    ensures var r, keys := Get(Get(root, "roles"), role), Get(root, "keys");
            var keyids, threshold := Get(r, "keyids"), Get(r, "threshold");
            var signed, signatures := Get(Some(env), "signed"), Get(Some(env), "signatures");
            var version, expires := Get(signed, "version"), Get(signed, "expires");
            Accepted(lib, root, role, env, now, minVersion) <==>
              && keys.Some? && keys.value.Obj? && keyids.Some? && keyids.value.Arr? && threshold.Some? && threshold.value.Num?
              && signed.Some? && signed.value.Obj? && signatures.Some? && signatures.value.Arr?
              && minVersion <= (if version.Some? && version.value.Num? then Trunc(version.value.value) else 0)
              && (now != 0 ==> expires.Some? && expires.value.Str? && lib.scan(expires.value.str).Some?
                               && var t := Dates.Seconds(lib.scan(expires.value.str).value); t.Some? && t.value > now)
              && Trunc(threshold.value.value) > 0
              && exists ids: set<Text> :: |ids| >= Trunc(threshold.value.value) && forall id :: id in ids ==>
                   var c, key := List(signatures.value.items), Get(keys, id);
                   && Str(id) in List(keyids.value.items) && key.Some? && key.value.Obj?
                   && exists i :: 0 <= i < |c| && Get(Some(c[i]), "keyid") == Some(Str(id))
                                  && (forall j :: 0 <= j < i ==> Get(Some(c[j]), "keyid") != Some(Str(id)))
                                  && Get(Some(c[i]), "sig").Some? && Get(Some(c[i]), "sig").value.Str?
                                  && lib.verify(key.value, CanonicalJson.Canonical(signed.value, lib.general),
                                                Get(Some(c[i]), "sig").value.str)
  {
    hide CanonicalJson.Canonical, Dates.Seconds, Trunc;
    if HasRole(root, role) && IsEnvelope(env) {
      ListedOnceIs(Get(Get(Get(root, "roles"), role), "keyids").value.items);
      var keyids := Get(Get(Get(root, "roles"), role), "keyids").value.items;
      EnoughSigners(lib, Get(root, "keys").value, keyids, Get(Some(env), "signatures").value.items,
                    CanonicalJson.Canonical(Get(Some(env), "signed").value, lib.general), ThresholdOf(root, role));
    }
  }

  // Without a valid signature nothing is accepted, whatever else the envelope holds.
  lemma NothingUnsigned(lib: Library, root: Option<Json>, role: Text, env: Json, now: int, minVersion: int)
    requires forall key, canon, sig :: !lib.verify(key, canon, sig)
    ensures !Accepted(lib, root, role, env, now, minVersion)
  {
    hide CanonicalJson.Canonical;
    if Accepted(lib, root, role, env, now, minVersion) {
      NoneCounted(Keyids(root, role), SignedBy(lib, root, env));
    }
  }

  lemma {:induction false} NoneCounted(ids: seq<Text>, ok: Text -> bool)
    requires forall id :: !ok(id)
    ensures CountOk(ids, ok) == 0
    decreases ids
  {
    if ids != [] {
      NoneCounted(ids[1..], ok);
    }
  }

  // ----- what a signature covers -----

  // Reordering the members of the signed content changes nothing for the signatures.
  lemma SameContentSameSigners(lib: Library, root: Option<Json>, env: Json, env': Json, id: Text)
    requires IsEnvelope(env) && IsEnvelope(env') && Get(root, "keys").Some?
    requires Get(Some(env), "signatures") == Get(Some(env'), "signatures")
    requires var a, b := Get(Some(env), "signed").value, Get(Some(env'), "signed").value;
             CanonicalJson.DistinctNames(a) && CanonicalJson.DistinctNames(b) && CanonicalJson.Exact(a) && CanonicalJson.Exact(b)
             && CanonicalJson.Same(a, b)
    ensures SignedBy(lib, root, env)(id) == SignedBy(lib, root, env')(id)
  {
    CanonicalJson.CanonicalEqualIffSame(Get(Some(env), "signed").value, Get(Some(env'), "signed").value, lib.general);
  }

  // The expiry gate is open exactly for content whose valid timestamp is later than now.
  lemma ExpiryGate(lib: Library, root: Option<Json>, role: Text, env: Json, now: Dates.Stamp, at: Dates.Stamp, minVersion: int)
    requires Dates.ValidStamp(now) && Dates.ValidStamp(at) && Dates.Seconds(now) != Some(0)
    requires Accepted(lib, root, role, env, 0, minVersion)
    requires var e := Get(Get(Some(env), "signed"), "expires"); e.Some? && e.value.Str? && lib.scan(e.value.str) == Some(at)
    ensures Accepted(lib, root, role, env, Dates.Seconds(now).value, minVersion) <==> Dates.Before(now, at)
  {
    Dates.SecondsInOrder(now, at);
  }

  // ----- target selection -----

  predicate IsStr(j: Option<Json>, s: Text) {
    j == Some(Str(s))
  }

  predicate AnyItem(c: Items, hwid: Text) {
    c.Item? && (c.value == Str(hwid) || AnyItem(c.next, hwid))
  }

  predicate AnyEcu(m: Members, hwid: Text) {
    m.Member? && (IsStr(Get(Some(m.value), "hardwareId"), hwid) || AnyEcu(m.next, hwid))
  }

  // hwid_matches
  predicate HwidMatches(custom: Option<Json>, hwid: Text) {
    custom.Some? && custom.value.Obj?
    && var ids, ecus := Get(custom, "hardwareIds"), Get(custom, "ecuIdentifiers");
       IsStr(Get(custom, "hardwareIdentifier"), hwid)
       || (ids.Some? && ids.value.Arr? && AnyItem(ids.value.items, hwid))
       || (ecus.Some? && ecus.value.Obj? && AnyEcu(ecus.value.members, hwid))
  }

  predicate HasDotDot(s: Text) {
    exists i :: 0 <= i < |s| - 1 && s[i] == '.' == s[i + 1]
  }

  const PATH_MAX := 253

  function Truncated(s: Text): Text {
    if |s| <= PATH_MAX then s else s[..PATH_MAX]
  }

  // The hash and the length a target entry states.
  function HashOf(lib: Library, t: Option<Json>): Option<(seq<Byte>, int)> {
    var length, hashes := Get(t, "length"), Get(t, "hashes");
    if !(length.Some? && length.value.Num? && hashes.Some? && hashes.value.Obj?) then None
    else
      var sha := Get(hashes, "sha256");
      if !(sha.Some? && sha.value.Str?) then None
      else
        var bytes := lib.unhex(sha.value.str);
        if bytes.Some? && |bytes.value| == 32 then Some((bytes.value, Trunc(length.value.value))) else None
  }

  datatype Selection = Selected(target: Target) | Refused(rc: Rc)

  // akt_select_target over the members of `targets`.
  method SelectAmong(lib: Library, members: Members, hwid: Text) returns (s: Selection)
    ensures s == Choice(lib, FirstMatch(members, hwid))
  {
    var t := members;
    while t.Member?
      invariant FirstMatch(t, hwid) == FirstMatch(members, hwid)
      decreases t
    {
      if HwidMatches(Get(Some(t.value), "custom"), hwid) {
        var length, hashes := Get(Some(t.value), "length"), Get(Some(t.value), "hashes");
        if !(length.Some? && length.value.Num?) || !(hashes.Some? && hashes.value.Obj?) {
          return Refused(Parse);
        }
        var sha := Get(hashes, "sha256");
        if !(sha.Some? && sha.value.Str?) {
          return Refused(Parse);
        }
        if HasDotDot(t.name) {
          return Refused(Parse);
        }
        var bytes := lib.unhex(sha.value.str);
        if bytes == None || |bytes.value| != 32 {
          return Refused(Parse);
        }
        return Selected(Target(Truncated(t.name), bytes.value, Trunc(length.value.value)));
      }
      t := t.next;
    }
    return Refused(NoTarget);
  }

  // The first target that names our hardware.
  function FirstMatch(m: Members, hwid: Text): Option<(Text, Json)> {
    if m.NoMember? then None
    else if HwidMatches(Get(Some(m.value), "custom"), hwid) then Some((m.name, m.value))
    else FirstMatch(m.next, hwid)
  }

  function Choice(lib: Library, first: Option<(Text, Json)>): Selection {
    if first == None then Refused(NoTarget)
    else
      var (name, t) := first.value;
      var h := HashOf(lib, Some(t));
      if h == None || HasDotDot(name) then Refused(Parse)
      else Selected(Target(Truncated(name), h.value.0, h.value.1))
  }

  predicate IsMember(m: Members, name: Text, value: Json) {
    m.Member? && ((m.name == name && m.value == value) || IsMember(m.next, name, value))
  }

  lemma {:induction false} FirstMatchMatches(m: Members, hwid: Text)
    ensures var f := FirstMatch(m, hwid);
            f.Some? ==> IsMember(m, f.value.0, f.value.1) && HwidMatches(Get(Some(f.value.1), "custom"), hwid)
    decreases m
  {
    if m.Member? {
      FirstMatchMatches(m.next, hwid);
    }
  }

  // What it takes for a target to be selected from this content.
  predicate Assigned(lib: Library, signed: Option<Json>, hwid: Text, t: Target) {
    var targets := Get(signed, "targets");
    targets.Some? && targets.value.Obj? && Choice(lib, FirstMatch(targets.value.members, hwid)) == Selected(t)
  }

  // Well-formed targets none of which names our hardware.
  predicate NothingForUs(signed: Option<Json>, hwid: Text) {
    var targets := Get(signed, "targets");
    targets.Some? && targets.value.Obj? && FirstMatch(targets.value.members, hwid) == None
  }

  method SelectTarget(lib: Library, signed: Option<Json>, hwid: Text) returns (s: Selection)
    ensures forall t :: s == Selected(t) <==> Assigned(lib, signed, hwid, t)
    ensures s.Refused? ==> s.rc == if NothingForUs(signed, hwid) then NoTarget else Parse
  {
    var targets := Get(signed, "targets");
    if !(targets.Some? && targets.value.Obj?) {
      return Refused(Parse);
    }
    s := SelectAmong(lib, targets.value.members, hwid);
  }

  // A selected target is a member for our hardware, with its stated hash and length, whose path does
  // not climb out of the target directory.
  lemma AssignedIsOurs(lib: Library, signed: Option<Json>, hwid: Text, t: Target)
    requires Assigned(lib, signed, hwid, t)
    ensures exists name, j :: IsMember(Get(signed, "targets").value.members, name, j) && HwidMatches(Get(Some(j), "custom"), hwid)
              && HashOf(lib, Some(j)) == Some((t.sha256, t.length)) && t.path == Truncated(name) && !HasDotDot(t.path)
    ensures |t.sha256| == 32 && |t.path| <= PATH_MAX
  {
    var m := Get(signed, "targets").value.members;
    FirstMatchMatches(m, hwid);
    TruncatedDotDot(FirstMatch(m, hwid).value.0);
  }

  lemma TruncatedDotDot(name: Text)
    ensures HasDotDot(Truncated(name)) ==> HasDotDot(name)
  {
    var s := Truncated(name);
    if HasDotDot(s) {
      var i :| 0 <= i < |s| - 1 && s[i] == '.' == s[i + 1];
      assert name[i] == '.' == name[i + 1];
    }
  }

  // ----- the image repository -----

  // akt_verify_meta_link: the referrer pins this file's bytes, and its version if one is given.
  function MetaLink(lib: Library, referrer: Option<Json>, file: Text, bytes: seq<Byte>, version: int): Rc {
    var meta := Get(referrer, "meta");
    if !(meta.Some? && meta.value.Obj?) then Parse
    else
      var entry := Get(meta, file);
      if !(entry.Some? && entry.value.Obj?) then Parse
      else
        var hashes, length := Get(entry, "hashes"), Get(entry, "length");
        if !(hashes.Some? && hashes.value.Obj? && length.Some? && length.value.Num?) then Parse
        else
          var sha := Get(hashes, "sha256");
          if !(sha.Some? && sha.value.Str?) then Parse
          else if Trunc(length.value.value) != |bytes| then CrossRepo
          else
            var want := lib.unhex(sha.value.str);
            if want == None || |want.value| != 32 then Parse
            else if want.value != lib.sha256(bytes) then CrossRepo
            else if version >= 0 && PinnedVersion(entry) != version then CrossRepo
            else Ok
  }

  function PinnedVersion(entry: Option<Json>): int {
    var v := Get(entry, "version");
    if v.Some? && v.value.Num? then Trunc(v.value.value) else -1
  }

  predicate Pins(lib: Library, referrer: Option<Json>, file: Text, bytes: seq<Byte>) {
    HashOf(lib, Get(Get(referrer, "meta"), file)) == Some((lib.sha256(bytes), |bytes|))
  }

  // A link holds exactly when hash, length and version agree.
  lemma MetaLinkPins(lib: Library, referrer: Option<Json>, file: Text, bytes: seq<Byte>, version: int)
    ensures MetaLink(lib, referrer, file, bytes, version) == Ok
            <==> Pins(lib, referrer, file, bytes) && (version >= 0 ==> PinnedVersion(Get(Get(referrer, "meta"), file)) == version)
  {}

  // akt_image_target_matches
  function ImageTargetMatches(lib: Library, signed: Option<Json>, t: Target): Rc {
    var targets := Get(signed, "targets");
    if !(targets.Some? && targets.value.Obj?) then Parse
    else
      var entry := Get(targets, t.path);
      if !(entry.Some? && entry.value.Obj?) then NoTarget
      else
        var length, hashes := Get(entry, "length"), Get(entry, "hashes");
        if !(length.Some? && length.value.Num? && hashes.Some? && hashes.value.Obj?) then Parse
        else
          var sha := Get(hashes, "sha256");
          if !(sha.Some? && sha.value.Str?) then Parse
          else if Trunc(length.value.value) != t.length then CrossRepo
          else
            var bytes := lib.unhex(sha.value.str);
            if bytes == None || |bytes.value| != 32 then Parse
            else if bytes.value != t.sha256 then CrossRepo
            else Ok
  }

  predicate Lists(lib: Library, signed: Option<Json>, t: Target) {
    HashOf(lib, Get(Get(signed, "targets"), t.path)) == Some((t.sha256, t.length))
  }

  // The image repository lists the target under the same path with the same hash and length.
  lemma MatchesIsListed(lib: Library, signed: Option<Json>, t: Target)
    requires |t.sha256| == 32
    ensures ImageTargetMatches(lib, signed, t) == Ok <==> Lists(lib, signed, t)
  {}

  // ----- targets, in terms of the JSON values -----

  lemma {:induction false} AnyItemIff(c: Items, hwid: Text)
    ensures AnyItem(c, hwid) <==> Str(hwid) in List(c)
    decreases c
  {
    if c.Item? {
      AnyItemIff(c.next, hwid);
    }
  }

  lemma {:induction false} AnyEcuIff(m: Members, hwid: Text)
    ensures AnyEcu(m, hwid) <==> exists e :: e in Children(m) && Get(Some(e.1), "hardwareId") == Some(Str(hwid))
    decreases m
  {
    hide Get;
    if m.Member? {
      AnyEcuIff(m.next, hwid);
      assert Children(m) == [(m.name, m.value)] + Children(m.next);
      assert (m.name, m.value) in Children(m) && forall e :: e in Children(m.next) ==> e in Children(m);
    }
  }

  // A target is for our hardware when one of three members names it.
  lemma HwidIff(custom: Option<Json>, hwid: Text)
    ensures HwidMatches(custom, hwid) <==>
              var ids, ecus := Get(custom, "hardwareIds"), Get(custom, "ecuIdentifiers");
              || Get(custom, "hardwareIdentifier") == Some(Str(hwid))
              || (ids.Some? && ids.value.Arr? && Str(hwid) in List(ids.value.items))
              || (ecus.Some? && ecus.value.Obj?
                  && exists e :: e in Children(ecus.value.members) && Get(Some(e.1), "hardwareId") == Some(Str(hwid)))
  {
    var ids, ecus := Get(custom, "hardwareIds"), Get(custom, "ecuIdentifiers");
    if ids.Some? && ids.value.Arr? {
      AnyItemIff(ids.value.items, hwid);
    }
    if ecus.Some? && ecus.value.Obj? {
      AnyEcuIff(ecus.value.members, hwid);
    }
  }

  // The hash and the length an entry states.
  lemma HashOfIff(lib: Library, t: Option<Json>, hash: seq<Byte>, length: int)
    ensures HashOf(lib, t) == Some((hash, length)) <==>
              var l, sha := Get(t, "length"), Get(Get(t, "hashes"), "sha256");
              && l.Some? && l.value.Num? && Trunc(l.value.value) == length
              && sha.Some? && sha.value.Str? && lib.unhex(sha.value.str) == Some(hash) && |hash| == 32
  {
    hide Trunc;
  }

  lemma {:induction false} FirstMatchIs(m: Members, hwid: Text) returns (i: nat)
    ensures var c, f := Children(m), FirstMatch(m, hwid);
            if f.Some? then
              i < |c| && c[i] == f.value && HwidMatches(Get(Some(c[i].1), "custom"), hwid)
              && forall j :: 0 <= j < i ==> !HwidMatches(Get(Some(c[j].1), "custom"), hwid)
            else forall j :: 0 <= j < |c| ==> !HwidMatches(Get(Some(c[j].1), "custom"), hwid)
    decreases m
  {
    hide Get, HwidMatches;
    i := 0;
    if m.Member? && !HwidMatches(Get(Some(m.value), "custom"), hwid) {
      var c, d := Children(m), Children(m.next);
      i := FirstMatchIs(m.next, hwid);
      assert c[0] == (m.name, m.value) && forall j :: 1 <= j < |c| ==> c[j] == d[j - 1];
      i := i + 1;
    }
  }

  // The target that is assigned: the first one for our hardware, if its name has no double dot and its hash
  // and length are stated; the name is cut after 253 bytes.
  lemma AssignedIff(lib: Library, signed: Option<Json>, hwid: Text, t: Target)
    ensures var targets := Get(signed, "targets");
            Assigned(lib, signed, hwid, t) <==>
              && targets.Some? && targets.value.Obj?
              && var c := Children(targets.value.members);
              exists i :: 0 <= i < |c| && HwidMatches(Get(Some(c[i].1), "custom"), hwid)
                          && (forall j :: 0 <= j < i ==> !HwidMatches(Get(Some(c[j].1), "custom"), hwid))
                          && (forall k :: 0 <= k < |c[i].0| - 1 ==> !(c[i].0[k] == '.' && c[i].0[k + 1] == '.'))
                          && HashOf(lib, Some(c[i].1)) == Some((t.sha256, t.length))
                          && t.path == if |c[i].0| <= 253 then c[i].0 else c[i].0[..253]
  {
    hide HwidMatches, HashOf;
    var targets := Get(signed, "targets");
    if targets.Some? && targets.value.Obj? {
      var c := Children(targets.value.members);
      var f := FirstMatchIs(targets.value.members, hwid);
      if FirstMatch(targets.value.members, hwid).Some? {
        forall i | 0 <= i < |c| && HwidMatches(Get(Some(c[i].1), "custom"), hwid)
                   && (forall j :: 0 <= j < i ==> !HwidMatches(Get(Some(c[j].1), "custom"), hwid))
          ensures i == f
        {}
        DotDotIff(c[f].0);
      }
    }
  }

  lemma DotDotIff(s: Text)
    ensures HasDotDot(s) <==> !forall k :: 0 <= k < |s| - 1 ==> !(s[k] == '.' && s[k + 1] == '.')
  {}

  // A link holds exactly when the entry of the file under "meta" states the hash, the length and the version.
  lemma MetaLinkIff(lib: Library, referrer: Option<Json>, file: Text, bytes: seq<Byte>, version: int)
    ensures var entry := Get(Get(referrer, "meta"), file);
            var v := Get(entry, "version");
            MetaLink(lib, referrer, file, bytes, version) == Ok <==>
              HashOf(lib, entry) == Some((lib.sha256(bytes), |bytes|))
              && (version >= 0 ==> (if v.Some? && v.value.Num? then Trunc(v.value.value) else -1) == version)
  {
    hide Trunc;
  }

  // The image repository agrees exactly when the entry of the path under "targets" states hash and length.
  lemma TargetMatchesIff(lib: Library, signed: Option<Json>, t: Target)
    requires |t.sha256| == 32
    ensures ImageTargetMatches(lib, signed, t) == Ok <==>
              HashOf(lib, Get(Get(signed, "targets"), t.path)) == Some((t.sha256, t.length))
  {
    MatchesIsListed(lib, signed, t);
  }
}
