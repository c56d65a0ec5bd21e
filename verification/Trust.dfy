/** What the update client relies on (aktualino_core.c): chains of roots, accepted metadata, and the record of
    what was installed and why. */
module Trust {
  import opened Wrappers
  import opened Bits
  import opened Json
  import opened Uptane
  import CanonicalJson

  datatype Repo = Director | Image

  function Other(r: Repo): Repo {
    if r == Director then Image else Director
  }

  datatype Role = Timestamp | Snapshot | Targets

  function RoleName(r: Role): Text {
    match r
    case Timestamp => "timestamp"
    case Snapshot => "snapshot"
    case Targets => "targets"
  }

  // The files of a repository, and what its server answers: nothing, or a body with status 200.
  datatype File = LatestRoot | NumberedRoot(n: int) | RoleFile(role: Role)

  type Server = (Repo, File) -> Option<seq<Byte>>

  function SignedPart(env: Json): Option<Json> {
    Get(Some(env), "signed")
  }

  // Memory suffices for the canonical text of the signed part.
  ghost predicate Fits(lib: Library, env: Json) {
    IsEnvelope(env) && CanonicalJson.Need(|CanonicalJson.Canonical(SignedPart(env).value, lib.general)|) <= lib.memory
  }

  // What a file of a repository parses to; null if it is not there.
  function Served(lib: Library, server: Server, repo: Repo, file: File): Json {
    var body := server(repo, file);
    if body.Some? && lib.parse(body.value).Some? then lib.parse(body.value).value else Null
  }

  predicate IsServed(lib: Library, server: Server, repo: Repo, file: File) {
    var body := server(repo, file); body.Some? && lib.parse(body.value).Some?
  }

  // ----- chains of roots -----

  // A root that a repository's chain may start from: stored when the device was set up, or embedded in
  // its firmware.
  datatype Anchor = Anchor(repo: Repo, env: Json)

  // What trust goes back to: the anchors, and the times at which the device has polled.
  datatype Ground = Ground(anchors: set<Anchor>, times: set<int>)

  ghost predicate Extends(g: Ground, g': Ground) {
    g.anchors <= g'.anchors && g.times <= g'.times
  }

  // A root envelope with the index and the time it was adopted under.
  datatype Adopted = Adopted(env: Json, index: int, now: int)

  // b meets the threshold of a's root role and of its own, with a version of at least its index.
  ghost predicate Link(lib: Library, a: Adopted, b: Adopted) {
    && Accepted(lib, SignedPart(a.env), "root", b.env, b.now, b.index)
    && Accepted(lib, SignedPart(b.env), "root", b.env, b.now, b.index)
    && a.index < b.index
  }

  // From an anchor of this repository, link by link, each adopted at the time of a poll.
  ghost predicate Chain(lib: Library, g: Ground, repo: Repo, c: seq<Adopted>)
    decreases |c|
  {
    c != [] &&
    if |c| == 1 then c[0].index == RootVersion(c[0]) && Anchor(repo, c[0].env) in g.anchors
    else Link(lib, c[|c| - 2], c[|c| - 1]) && c[|c| - 1].now in g.times && Chain(lib, g, repo, c[..|c| - 1])
  }

  function RootVersion(a: Adopted): int {
    Version(SignedPart(a.env))
  }

  function Last(c: seq<Adopted>): Adopted
    requires c != []
  {
    c[|c| - 1]
  }

  lemma ChainGrows(lib: Library, g: Ground, repo: Repo, c: seq<Adopted>, b: Adopted)
    requires Chain(lib, g, repo, c) && Link(lib, Last(c), b) && b.now in g.times
    ensures Chain(lib, g, repo, c + [b])
  {
    assert (c + [b])[..|c|] == c;
  }

  ghost predicate Linked(lib: Library, times: set<int>, c: seq<Adopted>) {
    && (forall i, j :: 0 <= i && j == i + 1 && j < |c| ==> Link(lib, c[i], c[j]))
    && (forall j :: 1 <= j < |c| ==> c[j].now in times)
  }

  // A chain starts from an anchor of its repository and goes on by links, each adopted at the time of a poll.
  lemma {:induction false} ChainIs(lib: Library, g: Ground, repo: Repo, c: seq<Adopted>)
    requires c != []
    ensures Chain(lib, g, repo, c) <==>
              c[0].index == RootVersion(c[0]) && Anchor(repo, c[0].env) in g.anchors && Linked(lib, g.times, c)
    decreases |c|
  {
    hide Link, RootVersion;
    if |c| > 1 {
      var p, n := c[..|c| - 1], |c| - 1;
      ChainIs(lib, g, repo, p);
      assert p[0] == c[0];
      if Linked(lib, g.times, c) {
        assert forall i, j :: 0 <= i && j == i + 1 && j < |p| ==> p[i] == c[i] && p[j] == c[j];
        assert Link(lib, c[n - 1], c[n]);
      }
      if Chain(lib, g, repo, c) {
        forall i, j | 0 <= i && j == i + 1 && j < |c| ensures Link(lib, c[i], c[j]) {
          if j < n {
            assert Link(lib, p[i], p[j]);
          }
        }
        forall j | 1 <= j < |c| ensures c[j].now in g.times {
          if j < n {
            assert p[j].now in g.times;
          }
        }
      }
    }
  }

  // More anchors and more polls take nothing away.
  lemma {:induction false} ChainKept(lib: Library, g: Ground, g': Ground, repo: Repo, c: seq<Adopted>)
    requires Chain(lib, g, repo, c) && Extends(g, g')
    ensures Chain(lib, g', repo, c)
    decreases |c|
  {
    hide Link, RootVersion;
    if |c| > 1 {
      ChainKept(lib, g, g', repo, c[..|c| - 1]);
    }
  }

  lemma LinkOrders(lib: Library, a: Adopted, b: Adopted)
    requires Link(lib, a, b)
    ensures a.index < b.index <= RootVersion(b)
  {}

  // The roots of a chain were adopted under growing indices, and none claims less than its index.
  lemma {:induction false} IndicesGrow(lib: Library, g: Ground, repo: Repo, c: seq<Adopted>, i: nat, j: nat)
    requires Chain(lib, g, repo, c) && i <= j < |c|
    ensures c[i].index <= c[j].index <= RootVersion(c[j]) && (i < j ==> c[i].index < c[j].index)
    decreases |c|
  {
    if |c| > 1 {
      var p, n := c[..|c| - 1], |c| - 1;
      LinkOrders(lib, c[n - 1], c[n]);
      assert p[n - 1] == c[n - 1];
      if j < n {
        IndicesGrow(lib, g, repo, p, i, j);
      } else if i < n {
        IndicesGrow(lib, g, repo, p, i, n - 1);
      }
    }
  }

  lemma EndVersion(lib: Library, g: Ground, repo: Repo, c: seq<Adopted>)
    requires Chain(lib, g, repo, c)
    ensures RootVersion(Last(c)) >= Last(c).index
  {
    IndicesGrow(lib, g, repo, c, 0, |c| - 1);
  }

  // What one link does to a chain: nothing, or a new root adopted now under index i.
  ghost predicate Step(c: seq<Adopted>, c': seq<Adopted>, i: int, now: int) {
    c' == c || (|c'| == |c| + 1 && c <= c' && Last(c').index == i && Last(c').now == now)
  }

  // What a walk leaves behind, finished or not: the old chain, with new links above its version, all of
  // them adopted now.
  ghost predicate Walked(c0: seq<Adopted>, c: seq<Adopted>, now: int) {
    && c0 != [] && c0 <= c && (c0 < c ==> RootVersion(Last(c0)) < Last(c).index)
    && forall i :: |c0| <= i < |c| ==> c[i].now == now
  }

  lemma WalkedStep(c0: seq<Adopted>, c: seq<Adopted>, c': seq<Adopted>, i: int, now: int)
    requires Walked(c0, c, now) && Step(c, c', i, now) && RootVersion(Last(c0)) < i
    ensures Walked(c0, c', now)
  {}

  // A walk that has adopted a root leaves a higher version behind.
  lemma WalkRaises(lib: Library, g: Ground, repo: Repo, c0: seq<Adopted>, c: seq<Adopted>, now: int)
    requires Walked(c0, c, now) && Chain(lib, g, repo, c)
    ensures if c == c0 then RootVersion(Last(c)) == RootVersion(Last(c0)) else RootVersion(Last(c)) > RootVersion(Last(c0))
  {
    EndVersion(lib, g, repo, c);
  }

  // ----- which walks succeed -----

  // Root number i, as served, may follow cur.
  ghost predicate Adoptable(lib: Library, server: Server, repo: Repo, now: int, cur: Json, i: int) {
    IsServed(lib, server, repo, NumberedRoot(i))
    && var env := Served(lib, server, repo, NumberedRoot(i));
       Accepted(lib, SignedPart(cur), "root", env, now, i) && Accepted(lib, SignedPart(env), "root", env, now, i) && Fits(lib, env)
  }

  // So may all roots from i to l, one after the other.
  ghost predicate Rotation(lib: Library, server: Server, repo: Repo, now: int, cur: Json, i: int, l: int)
    decreases l - i
  {
    i > l || (Adoptable(lib, server, repo, now, cur, i)
              && Rotation(lib, server, repo, now, Served(lib, server, repo, NumberedRoot(i)), i + 1, l))
  }

  // The root after the ones up to l have followed cur, which has number n.
  function RotatedTo(lib: Library, server: Server, repo: Repo, cur: Json, n: int, l: int): Json {
    if l <= n then cur else Served(lib, server, repo, NumberedRoot(l))
  }

  // A stored root that fits the buffer it is read into.
  const ROOT_READ_CAP := 8192

  predicate Readable(roots: map<Repo, seq<Byte>>, r: Repo) {
    r in roots && 0 < |roots[r]| <= ROOT_READ_CAP
  }

  // The root before the walk.
  function StoredRoot(lib: Library, roots: map<Repo, seq<Byte>>, repo: Repo): Json {
    if repo in roots && lib.parse(roots[repo]).Some? then lib.parse(roots[repo]).value else Null
  }

  // The number of the latest root the walk learns of; without an answer it is that of the stored root.
  function LatestVersion(lib: Library, roots: map<Repo, seq<Byte>>, repo: Repo, server: Server): int {
    if server(repo, LatestRoot) == None then Version(SignedPart(StoredRoot(lib, roots, repo)))
    else if IsServed(lib, server, repo, LatestRoot) then Version(SignedPart(Served(lib, server, repo, LatestRoot)))
    else 0
  }

  ghost predicate Walkable(lib: Library, roots: map<Repo, seq<Byte>>, repo: Repo, server: Server, now: int) {
    Readable(roots, repo) && lib.parse(roots[repo]).Some?
    && var cur := StoredRoot(lib, roots, repo);
       Rotation(lib, server, repo, now, cur, Version(SignedPart(cur)) + 1, LatestVersion(lib, roots, repo, server))
  }

  function WalkEnd(lib: Library, roots: map<Repo, seq<Byte>>, repo: Repo, server: Server): Json {
    var cur := StoredRoot(lib, roots, repo);
    RotatedTo(lib, server, repo, cur, Version(SignedPart(cur)), LatestVersion(lib, roots, repo, server))
  }

  // Two writes for each link.
  function WalkCost(lib: Library, roots: map<Repo, seq<Byte>>, repo: Repo, server: Server): nat {
    var n, l := Version(SignedPart(StoredRoot(lib, roots, repo))), LatestVersion(lib, roots, repo, server);
    if l <= n then 0 else 2 * (l - n)
  }

  // Only the repository's own root matters.
  lemma WalkFrame(lib: Library, roots: map<Repo, seq<Byte>>, roots': map<Repo, seq<Byte>>, repo: Repo, server: Server,
                  now: int)
    requires (repo in roots <==> repo in roots') && (repo in roots ==> roots[repo] == roots'[repo])
    ensures Walkable(lib, roots, repo, server, now) == Walkable(lib, roots', repo, server, now)
    ensures WalkEnd(lib, roots, repo, server) == WalkEnd(lib, roots', repo, server)
    ensures WalkCost(lib, roots, repo, server) == WalkCost(lib, roots', repo, server)
  {
    hide Rotation, Version, Get, IsServed;
  }

  // ----- inside one walk the claimed version can go down -----

  // A root with one key that signs for itself.
  function OneKeyRoot(version: int): Json {
    PlainEnvelope(version, Item(Str("k"), NoItem), 1)
  }

  lemma PlainLink(lib: Library, v: int, i: int, w: int)
    requires PlainSigns(lib, w, Item(Str("k"), NoItem), 1)
    ensures Link(lib, Adopted(OneKeyRoot(v), i, 0), Adopted(OneKeyRoot(w), i + 1, 0)) <==> w >= i + 1
  {
    var ids := Item(Str("k"), NoItem);
    PlainParts(v, ids, 1);
    PlainParts(w, ids, 1);
    PlainAccepted(lib, v, w, ids, 1, i + 1);
    PlainAccepted(lib, w, w, ids, 1, i + 1);
  }

  // After a root of version v was adopted under index i, the next link of the same walk can lower the
  // stored version exactly when v is above i + 1.
  lemma NextLinkCanLower(lib: Library, v: int, i: int)
    requires PlainSigns(lib, i + 1, Item(Str("k"), NoItem), 1)
    ensures (exists w: int :: w < v && Link(lib, Adopted(OneKeyRoot(v), i, 0), Adopted(OneKeyRoot(w), i + 1, 0))) <==> v > i + 1
  {
    forall w: int ensures Link(lib, Adopted(OneKeyRoot(v), i, 0), Adopted(OneKeyRoot(w), i + 1, 0)) ==> w >= i + 1 {
      PlainParts(w, Item(Str("k"), NoItem), 1);
    }
    var w := i + 1;
    PlainLink(lib, v, i, w);
    assert Link(lib, Adopted(OneKeyRoot(v), i, 0), Adopted(OneKeyRoot(w), i + 1, 0));
  }

  // For every pair of roots: a version that does not exceed the next index is not lowered.
  lemma NextLinkKeeps(lib: Library, a: Adopted, b: Adopted)
    requires Link(lib, a, b) && RootVersion(a) <= a.index + 1
    ensures RootVersion(a) <= RootVersion(b)
  {
    LinkOrders(lib, a, b);
  }

  // ----- why an image may be installed -----

  // Accepted metadata of both repositories: timestamp, snapshot and targets of each, those of the image
  // repository also as they were served.
  datatype Evidence = Evidence(dirChain: seq<Adopted>, dirTs: Json, dirSnap: Json, dirTargets: Json, dirNow: int,
                               imgChain: seq<Adopted>, ts: Json, snapRaw: seq<Byte>, tgtRaw: seq<Byte>, imgNow: int)

  ghost predicate AcceptedRole(lib: Library, chain: seq<Adopted>, role: Role, env: Json, now: int) {
    chain != [] && Accepted(lib, SignedPart(Last(chain).env), RoleName(role), env, now, 0)
  }

  // The Director's metadata, by the root at the end of a chain from one of the Director's anchors, at
  // the time of a poll.
  ghost predicate DirectorVerified(lib: Library, g: Ground, e: Evidence) {
    && Chain(lib, g, Director, e.dirChain) && e.dirNow in g.times
    && AcceptedRole(lib, e.dirChain, Timestamp, e.dirTs, e.dirNow)
    && AcceptedRole(lib, e.dirChain, Snapshot, e.dirSnap, e.dirNow)
    && AcceptedRole(lib, e.dirChain, Targets, e.dirTargets, e.dirNow)
  }

  ghost predicate DirectorAssigned(lib: Library, g: Ground, hwid: Text, e: Evidence, t: Target) {
    DirectorVerified(lib, g, e) && Assigned(lib, SignedPart(e.dirTargets), hwid, t)
  }

  // The referrer pins the file's bytes and the version it claims.
  ghost predicate Referred(lib: Library, referrer: Json, file: Text, raw: seq<Byte>, env: Json) {
    && Pins(lib, SignedPart(referrer), file, raw)
    && (Version(SignedPart(env)) >= 0 ==>
          PinnedVersion(Get(Get(SignedPart(referrer), "meta"), file)) == Version(SignedPart(env)))
  }

  ghost predicate ImageFilesAccepted(lib: Library, e: Evidence, snap: Json, tgt: Json) {
    && AcceptedRole(lib, e.imgChain, Timestamp, e.ts, e.imgNow)
    && AcceptedRole(lib, e.imgChain, Snapshot, snap, e.imgNow)
    && AcceptedRole(lib, e.imgChain, Targets, tgt, e.imgNow)
  }

  ghost predicate ImageFilesTied(lib: Library, e: Evidence, snap: Json, tgt: Json) {
    Referred(lib, e.ts, "snapshot.json", e.snapRaw, snap) && Referred(lib, snap, "targets.json", e.tgtRaw, tgt)
  }

  // The image repository's metadata, by the root at the end of a chain from one of its own anchors, at the
  // time of a poll.
  ghost predicate ImageVerified(lib: Library, g: Ground, e: Evidence) {
    && Chain(lib, g, Image, e.imgChain) && e.imgNow in g.times
    && var snap, tgt := lib.parse(e.snapRaw), lib.parse(e.tgtRaw);
       snap.Some? && tgt.Some? && ImageFilesAccepted(lib, e, snap.value, tgt.value) && ImageFilesTied(lib, e, snap.value, tgt.value)
  }

  // Both repositories vouch for this path, hash and length.
  ghost predicate Justified(lib: Library, g: Ground, hwid: Text, e: Evidence, t: Target) {
    && DirectorAssigned(lib, g, hwid, e, t) && ImageVerified(lib, g, e)
    && Lists(lib, SignedPart(lib.parse(e.tgtRaw).value), t)
  }

  lemma JustifiedKept(lib: Library, g: Ground, g': Ground, hwid: Text, e: Evidence, t: Target)
    requires Justified(lib, g, hwid, e, t) && Extends(g, g')
    ensures Justified(lib, g', hwid, e, t)
  {
    hide Chain, AcceptedRole, Assigned, Referred, Lists;
    ChainKept(lib, g, g', Director, e.dirChain);
    ChainKept(lib, g, g', Image, e.imgChain);
  }

  // A chain, link by link.
  lemma ChainMeans(lib: Library, g: Ground, repo: Repo, c: seq<Adopted>)
    requires Chain(lib, g, repo, c)
    ensures c != [] && Anchor(repo, c[0].env) in g.anchors
    ensures forall i, j :: 0 <= i && j == i + 1 && j < |c| ==>
              && Accepted(lib, Get(Some(c[i].env), "signed"), "root", c[j].env, c[j].now, c[j].index)
              && Accepted(lib, Get(Some(c[j].env), "signed"), "root", c[j].env, c[j].now, c[j].index)
              && c[i].index < c[j].index && c[j].now in g.times
  {
    hide Accepted, Chain;
    ChainNonempty(lib, g, repo, c);
    ChainIs(lib, g, repo, c);
    forall i, j | 0 <= i && j == i + 1 && j < |c|
      ensures && Accepted(lib, Get(Some(c[i].env), "signed"), "root", c[j].env, c[j].now, c[j].index)
              && Accepted(lib, Get(Some(c[j].env), "signed"), "root", c[j].env, c[j].now, c[j].index)
              && c[i].index < c[j].index && c[j].now in g.times
    {
      assert Link(lib, c[i], c[j]);
    }
  }

  // A role is accepted by the last root of the chain, under its name.
  lemma RoleIff(lib: Library, chain: seq<Adopted>, role: Role, env: Json, now: int)
    ensures AcceptedRole(lib, chain, role, env, now) <==>
              && chain != []
              && var name := match role case Timestamp => "timestamp" case Snapshot => "snapshot" case Targets => "targets";
                 Accepted(lib, Get(Some(chain[|chain| - 1].env), "signed"), name, env, now, 0)
  {
    hide Accepted;
  }

  lemma JustifiedParses(lib: Library, g: Ground, hwid: Text, e: Evidence, t: Target)
    requires Justified(lib, g, hwid, e, t)
    ensures lib.parse(e.snapRaw).Some? && lib.parse(e.tgtRaw).Some?
  {}

  // What stands behind an installation: two chains of roots, three roles accepted by the last root of each, the
  // image repository's files pinned by one another, and the target in the targets files of both.
  lemma JustifiedIff(lib: Library, g: Ground, hwid: Text, e: Evidence, snap: Json, tgt: Json, t: Target)
    requires lib.parse(e.snapRaw) == Some(snap) && lib.parse(e.tgtRaw) == Some(tgt)
    ensures Justified(lib, g, hwid, e, t) <==>
              && Referred(lib, e.ts, "snapshot.json", e.snapRaw, snap)
              && Referred(lib, snap, "targets.json", e.tgtRaw, tgt)
              && Lists(lib, SignedPart(tgt), t) && Assigned(lib, SignedPart(e.dirTargets), hwid, t)
              && Chain(lib, g, Director, e.dirChain) && e.dirNow in g.times
              && AcceptedRole(lib, e.dirChain, Timestamp, e.dirTs, e.dirNow)
              && AcceptedRole(lib, e.dirChain, Snapshot, e.dirSnap, e.dirNow)
              && AcceptedRole(lib, e.dirChain, Targets, e.dirTargets, e.dirNow)
              && Chain(lib, g, Image, e.imgChain) && e.imgNow in g.times
              && AcceptedRole(lib, e.imgChain, Timestamp, e.ts, e.imgNow)
              && AcceptedRole(lib, e.imgChain, Snapshot, snap, e.imgNow)
              && AcceptedRole(lib, e.imgChain, Targets, tgt, e.imgNow)
  {
    hide AcceptedRole, Assigned, Chain, Referred, Lists;
  }

  lemma ReferredIff(lib: Library, referrer: Json, file: Text, raw: seq<Byte>, env: Json)
    ensures Referred(lib, referrer, file, raw, env) <==>
              MetaLink(lib, Get(Some(referrer), "signed"), file, raw, Version(Get(Some(env), "signed"))) == Ok
  {
    MetaLinkPins(lib, Get(Some(referrer), "signed"), file, raw, Version(Get(Some(env), "signed")));
    hide HashOf, Version, PinnedVersion, MetaLink, Pins;
  }

  lemma ChainNonempty(lib: Library, g: Ground, repo: Repo, c: seq<Adopted>)
    requires Chain(lib, g, repo, c)
    ensures c != []
  {}

  // ----- versions of roles -----

  type Versions = map<(Repo, Role), int>

  // No stored version is lower than before.
  ghost predicate VersionsKept(old': Versions, new': Versions) {
    forall k {:trigger k in old'} :: k in old' ==> k in new' && old'[k] <= new'[k]
  }

  lemma VersionsKeptTwice(a: Versions, b: Versions, c: Versions)
    requires VersionsKept(a, b) && VersionsKept(b, c)
    ensures VersionsKept(a, c)
  {}

  lemma VersionsKeptIs(a: Versions, b: Versions)
    requires VersionsKept(a, b)
    ensures forall k :: k in a ==> k in b && a[k] <= b[k]
  {}

  lemma VersionsKeptSame(a: Versions)
    ensures VersionsKept(a, a)
  {}

  function Floor(versions: Versions, repo: Repo, role: Role): int {
    if (repo, role) in versions then versions[(repo, role)] else 0
  }

  // verify_role_fetch takes the file of a role.
  ghost predicate Fetchable(lib: Library, versions: Versions, repo: Repo, role: Role, root: Json, server: Server,
                            now: int) {
    IsServed(lib, server, repo, RoleFile(role))
    && var env := Served(lib, server, repo, RoleFile(role));
       Accepted(lib, SignedPart(root), RoleName(role), env, now, Floor(versions, repo, role)) && Fits(lib, env)
  }

  ghost predicate RolesFetchable(lib: Library, versions: Versions, repo: Repo, root: Json, server: Server, now: int) {
    && Fetchable(lib, versions, repo, Timestamp, root, server, now)
    && Fetchable(lib, versions, repo, Snapshot, root, server, now)
    && Fetchable(lib, versions, repo, Targets, root, server, now)
  }

  // The versions of this repository's roles.
  ghost predicate SameVersions(versions: Versions, versions': Versions, repo: Repo) {
    forall r: Role :: ((repo, r) in versions <==> (repo, r) in versions') && Floor(versions, repo, r) == Floor(versions', repo, r)
  }

  lemma FetchFrame(lib: Library, versions: Versions, versions': Versions, repo: Repo, role: Role, root: Json,
                   server: Server, now: int)
    requires Floor(versions, repo, role) == Floor(versions', repo, role)
    ensures Fetchable(lib, versions, repo, role, root, server, now) == Fetchable(lib, versions', repo, role, root, server, now)
  {}

  // ----- what was installed -----

  // The metadata of a role among the evidence.
  function EvidenceRole(lib: Library, e: Evidence, repo: Repo, role: Role): Json {
    match (repo, role)
    case (Director, Timestamp) => e.dirTs
    case (Director, Snapshot) => e.dirSnap
    case (Director, Targets) => e.dirTargets
    case (Image, Timestamp) => e.ts
    case (Image, Snapshot) => if lib.parse(e.snapRaw).Some? then lib.parse(e.snapRaw).value else Null
    case (Image, Targets) => if lib.parse(e.tgtRaw).Some? then lib.parse(e.tgtRaw).value else Null
  }

  function EvidenceVersion(lib: Library, e: Evidence, repo: Repo, role: Role): int {
    Version(SignedPart(EvidenceRole(lib, e, repo, role)))
  }

  // The stored versions of a repository are those of the evidence.
  ghost predicate Matches(lib: Library, e: Evidence, repo: Repo, versions: Versions) {
    forall r: Role ::
      (repo, r) in versions && versions[(repo, r)] == EvidenceVersion(lib, e, repo, r)
  }

  // The stored versions are not below those of the evidence.
  ghost predicate Reached(lib: Library, e: Evidence, versions: Versions) {
    forall k: Repo, r: Role ::
      (k, r) in versions && EvidenceVersion(lib, e, k, r) <= versions[(k, r)]
  }

  // The evidence is not below the stored versions.
  ghost predicate UpToDate(lib: Library, e: Evidence, versions: Versions) {
    forall k: Repo, r: Role ::
      (k, r) in versions ==> versions[(k, r)] <= EvidenceVersion(lib, e, k, r)
  }

  // No role is older in the second.
  ghost predicate NotOlder(lib: Library, e: Evidence, e': Evidence) {
    forall k: Repo, r: Role ::
      EvidenceVersion(lib, e, k, r) <= EvidenceVersion(lib, e', k, r)
  }

  // The six roles, one by one.
  lemma UpToDateMeans(lib: Library, e: Evidence, versions: Versions)
    requires UpToDate(lib, e, versions) && lib.parse(e.snapRaw).Some? && lib.parse(e.tgtRaw).Some?
    ensures (Director, Timestamp) in versions ==>
              versions[(Director, Timestamp)] <= Version(Get(Some(e.dirTs), "signed"))
    ensures (Director, Snapshot) in versions ==>
              versions[(Director, Snapshot)] <= Version(Get(Some(e.dirSnap), "signed"))
    ensures (Director, Targets) in versions ==>
              versions[(Director, Targets)] <= Version(Get(Some(e.dirTargets), "signed"))
    ensures (Image, Timestamp) in versions ==> versions[(Image, Timestamp)] <= Version(Get(Some(e.ts), "signed"))
    ensures (Image, Snapshot) in versions ==>
              versions[(Image, Snapshot)] <= Version(Get(lib.parse(e.snapRaw), "signed"))
    ensures (Image, Targets) in versions ==> versions[(Image, Targets)] <= Version(Get(lib.parse(e.tgtRaw), "signed"))
  {
    hide Version, Get;
  }

  lemma NotOlderMeans(lib: Library, a: Evidence, b: Evidence)
    requires NotOlder(lib, a, b) && lib.parse(a.snapRaw).Some? && lib.parse(b.snapRaw).Some?
    requires lib.parse(a.tgtRaw).Some? && lib.parse(b.tgtRaw).Some?
    ensures Version(Get(Some(a.dirTs), "signed")) <= Version(Get(Some(b.dirTs), "signed"))
    ensures Version(Get(Some(a.dirSnap), "signed")) <= Version(Get(Some(b.dirSnap), "signed"))
    ensures Version(Get(Some(a.dirTargets), "signed")) <= Version(Get(Some(b.dirTargets), "signed"))
    ensures Version(Get(Some(a.ts), "signed")) <= Version(Get(Some(b.ts), "signed"))
    ensures Version(Get(lib.parse(a.snapRaw), "signed")) <= Version(Get(lib.parse(b.snapRaw), "signed"))
    ensures Version(Get(lib.parse(a.tgtRaw), "signed")) <= Version(Get(lib.parse(b.tgtRaw), "signed"))
  {
    hide Version, Get;
    assert EvidenceVersion(lib, a, Director, Timestamp) <= EvidenceVersion(lib, b, Director, Timestamp);
    assert EvidenceVersion(lib, a, Director, Snapshot) <= EvidenceVersion(lib, b, Director, Snapshot);
    assert EvidenceVersion(lib, a, Director, Targets) <= EvidenceVersion(lib, b, Director, Targets);
    assert EvidenceVersion(lib, a, Image, Timestamp) <= EvidenceVersion(lib, b, Image, Timestamp);
    assert EvidenceVersion(lib, a, Image, Snapshot) <= EvidenceVersion(lib, b, Image, Snapshot);
    assert EvidenceVersion(lib, a, Image, Targets) <= EvidenceVersion(lib, b, Image, Targets);
  }

  // A target whose image was put in place, and why.
  datatype Installation = Installation(target: Target, evidence: Evidence)

  ghost predicate Proved(lib: Library, g: Ground, hwid: Text, history: seq<Installation>) {
    forall i :: 0 <= i < |history| ==> Justified(lib, g, hwid, history[i].evidence, history[i].target)
  }

  // No installation goes by metadata older than that of an earlier one, in any role, and the stored
  // versions have reached all of them.
  ghost predicate NoRollback(lib: Library, history: seq<Installation>, versions: Versions) {
    && (forall i :: 0 <= i < |history| ==> Reached(lib, history[i].evidence, versions))
    && (forall i, j :: 0 <= i <= j < |history| ==> NotOlder(lib, history[i].evidence, history[j].evidence))
  }

  lemma ProvedKept(lib: Library, g: Ground, g': Ground, hwid: Text, history: seq<Installation>)
    requires Proved(lib, g, hwid, history) && Extends(g, g')
    ensures Proved(lib, g', hwid, history)
  {
    hide Justified;
    forall i | 0 <= i < |history| ensures Justified(lib, g', hwid, history[i].evidence, history[i].target) {
      JustifiedKept(lib, g, g', hwid, history[i].evidence, history[i].target);
    }
  }

  lemma ReachedRaised(lib: Library, e: Evidence, versions: Versions, versions': Versions)
    requires Reached(lib, e, versions) && VersionsKept(versions, versions')
    ensures Reached(lib, e, versions')
  {
    forall k: Repo, r: Role
      ensures (k, r) in versions' && EvidenceVersion(lib, e, k, r) <= versions'[(k, r)]
    {
      var key := (k, r);
      assert key in versions && EvidenceVersion(lib, e, k, r) <= versions[key];
    }
  }

  // Evidence that matches the stored versions is not older than what they have reached.
  lemma MatchesNotOlder(lib: Library, e: Evidence, e': Evidence, versions: Versions)
    requires Reached(lib, e, versions) && Matches(lib, e', Director, versions) && Matches(lib, e', Image, versions)
    ensures NotOlder(lib, e, e') && Reached(lib, e', versions)
  {
    forall k: Repo, r: Role
      ensures EvidenceVersion(lib, e, k, r) <= EvidenceVersion(lib, e', k, r) == versions[(k, r)]
    {
      assert k == Director || k == Image;
      assert (k, r) in versions && EvidenceVersion(lib, e, k, r) <= versions[(k, r)];
    }
  }

  lemma MatchesReached(lib: Library, e: Evidence, versions: Versions)
    requires Matches(lib, e, Director, versions) && Matches(lib, e, Image, versions)
    ensures Reached(lib, e, versions) && NotOlder(lib, e, e)
  {
    forall k: Repo, r: Role
      ensures (k, r) in versions && EvidenceVersion(lib, e, k, r) == versions[(k, r)]
    {
      assert k == Director || k == Image;
    }
  }

  lemma HistoryRaised(lib: Library, history: seq<Installation>, versions: Versions, versions': Versions)
    requires NoRollback(lib, history, versions) && VersionsKept(versions, versions')
    ensures NoRollback(lib, history, versions')
  {
    hide Reached, VersionsKept, NotOlder;
    forall i | 0 <= i < |history| ensures Reached(lib, history[i].evidence, versions') {
      ReachedRaised(lib, history[i].evidence, versions, versions');
    }
  }

  // What is installed by current evidence is not older than anything before.
  lemma HistoryGrows(lib: Library, history: seq<Installation>, versions: Versions, h: Installation)
    requires NoRollback(lib, history, versions) && Matches(lib, h.evidence, Director, versions)
    requires Matches(lib, h.evidence, Image, versions)
    ensures NoRollback(lib, history + [h], versions)
  {
    hide Reached, Matches, NotOlder;
    MatchesReached(lib, h.evidence, versions);
    forall i | 0 <= i < |history| ensures NotOlder(lib, history[i].evidence, h.evidence) {
      MatchesNotOlder(lib, history[i].evidence, h.evidence, versions);
    }
  }

  // Current evidence is up to date with all that was stored before.
  lemma MatchesUpToDate(lib: Library, e: Evidence, versions: Versions, versions': Versions)
    requires Matches(lib, e, Director, versions') && Matches(lib, e, Image, versions')
    requires VersionsKept(versions, versions')
    ensures UpToDate(lib, e, versions)
  {
    forall k: Repo, r: Role | (k, r) in versions
      ensures versions[(k, r)] <= EvidenceVersion(lib, e, k, r)
    {
      assert k == Director || k == Image;
    }
  }

  // ----- the files of one check -----

  // The files of the image repository as they were received and parsed.
  datatype ImageFiles = ImageFiles(ts: Json, snap: Json, snapRaw: seq<Byte>, snapV: int, tgt: Json, tgtRaw: seq<Byte>, tgtV: int)

  ghost predicate ImageRoles(lib: Library, e: Evidence, f: ImageFiles) {
    && e.ts == f.ts && e.snapRaw == f.snapRaw && e.tgtRaw == f.tgtRaw
    && f.snapV == Version(SignedPart(f.snap)) && f.tgtV == Version(SignedPart(f.tgt))
    && lib.parse(f.snapRaw) == Some(f.snap) && lib.parse(f.tgtRaw) == Some(f.tgt)
    && AcceptedRole(lib, e.imgChain, Timestamp, f.ts, e.imgNow)
    && AcceptedRole(lib, e.imgChain, Snapshot, f.snap, e.imgNow)
    && AcceptedRole(lib, e.imgChain, Targets, f.tgt, e.imgNow)
  }

  ghost predicate SameDirector(e: Evidence, e0: Evidence) {
    e.dirChain == e0.dirChain && e.dirTs == e0.dirTs && e.dirSnap == e0.dirSnap && e.dirTargets == e0.dirTargets && e.dirNow == e0.dirNow
  }

  // The files of the image repository as they are served.
  function ServedFiles(lib: Library, server: Server): ImageFiles {
    var ts, snap := Served(lib, server, Image, RoleFile(Timestamp)), Served(lib, server, Image, RoleFile(Snapshot));
    var tgt := Served(lib, server, Image, RoleFile(Targets));
    ImageFiles(ts, snap, Body(server, Image, RoleFile(Snapshot)), Version(SignedPart(snap)),
               tgt, Body(server, Image, RoleFile(Targets)), Version(SignedPart(tgt)))
  }

  function Body(server: Server, repo: Repo, file: File): seq<Byte> {
    if server(repo, file).Some? then server(repo, file).value else []
  }

  // Timestamp, snapshot and targets hang together.
  ghost predicate Tied(lib: Library, f: ImageFiles) {
    Referred(lib, f.ts, "snapshot.json", f.snapRaw, f.snap) && Referred(lib, f.snap, "targets.json", f.tgtRaw, f.tgt)
  }

  // ----- which checks succeed -----

  // The Director, as served, assigns the target.
  ghost predicate Assigns(lib: Library, roots: map<Repo, seq<Byte>>, versions: Versions, hwid: Text, server: Server,
                          now: int,
                          t: Target) {
    && Walkable(lib, roots, Director, server, now)
    && RolesFetchable(lib, versions, Director, WalkEnd(lib, roots, Director, server), server, now)
    && Assigned(lib, SignedPart(Served(lib, server, Director, RoleFile(Targets))), hwid, t)
  }

  ghost predicate ImageVerifies(lib: Library, roots: map<Repo, seq<Byte>>, versions: Versions, server: Server,
                                now: int) {
    && Walkable(lib, roots, Image, server, now)
    && RolesFetchable(lib, versions, Image, WalkEnd(lib, roots, Image, server), server, now)
    && Tied(lib, ServedFiles(lib, server))
  }

  // The image repository, as served, lists the target.
  ghost predicate ImageAgrees(lib: Library, roots: map<Repo, seq<Byte>>, versions: Versions, server: Server, now: int,
                              t: Target) {
    && ImageVerifies(lib, roots, versions, server, now)
    && Lists(lib, SignedPart(Served(lib, server, Image, RoleFile(Targets))), t)
  }

  // Only the image repository's own root and versions matter.
  lemma ImageFrame(lib: Library, roots: map<Repo, seq<Byte>>, roots': map<Repo, seq<Byte>>, versions: Versions,
                   versions': Versions,
                   server: Server, now: int, t: Target)
    requires (Image in roots <==> Image in roots') && (Image in roots ==> roots[Image] == roots'[Image])
    requires forall k: (Repo, Role) :: k.0 == Image ==> (k in versions <==> k in versions') && (k in versions ==> versions[k] == versions'[k])
    ensures ImageAgrees(lib, roots, versions, server, now, t) == ImageAgrees(lib, roots', versions', server, now, t)
    ensures WalkCost(lib, roots, Image, server) == WalkCost(lib, roots', Image, server)
  {
    WalkFrame(lib, roots, roots', Image, server, now);
    var root := WalkEnd(lib, roots, Image, server);
    FetchFrame(lib, versions, versions', Image, Timestamp, root, server, now);
    FetchFrame(lib, versions, versions', Image, Snapshot, root, server, now);
    FetchFrame(lib, versions, versions', Image, Targets, root, server, now);
    hide Walkable, WalkEnd, WalkCost, Fetchable, Tied, Lists, Served;
  }

  lemma DirectorMatches(lib: Library, e: Evidence, versions: Versions)
    requires (Director, Timestamp) in versions && versions[(Director, Timestamp)] == Version(SignedPart(e.dirTs))
    requires (Director, Snapshot) in versions && versions[(Director, Snapshot)] == Version(SignedPart(e.dirSnap))
    requires (Director, Targets) in versions && versions[(Director, Targets)] == Version(SignedPart(e.dirTargets))
    ensures Matches(lib, e, Director, versions)
  {
    hide Version, SignedPart;
    forall r: Role ensures (Director, r) in versions && versions[(Director, r)] == EvidenceVersion(lib, e, Director, r) {
      match r
      case Timestamp =>
      case Snapshot =>
      case Targets =>
    }
  }

  lemma ImageMatches(lib: Library, e: Evidence, f: ImageFiles, versions: Versions)
    requires ImageRoles(lib, e, f)
    requires (Image, Timestamp) in versions && versions[(Image, Timestamp)] == Version(SignedPart(f.ts))
    requires (Image, Snapshot) in versions && versions[(Image, Snapshot)] == Version(SignedPart(f.snap))
    requires (Image, Targets) in versions && versions[(Image, Targets)] == Version(SignedPart(f.tgt))
    ensures Matches(lib, e, Image, versions)
  {
    hide Version, SignedPart, AcceptedRole;
    forall r: Role ensures (Image, r) in versions && versions[(Image, r)] == EvidenceVersion(lib, e, Image, r) {
      match r
      case Timestamp =>
      case Snapshot =>
      case Targets =>
    }
  }

  // Fetching the roles of the image repository leaves the Director's versions alone.
  lemma DirectorMatchesKept(lib: Library, e0: Evidence, e: Evidence, versions: Versions, versions': Versions)
    requires SameDirector(e, e0) && Matches(lib, e0, Director, versions)
    requires forall k: (Repo, Role) :: k.0 != Image ==> (k in versions' <==> k in versions) && (k in versions' ==> versions'[k] == versions[k])
    ensures Matches(lib, e, Director, versions')
  {
    hide Version, SignedPart;
    forall r: Role ensures (Director, r) in versions' && versions'[(Director, r)] == EvidenceVersion(lib, e, Director, r) {
      assert (Director, r) in versions && versions[(Director, r)] == EvidenceVersion(lib, e0, Director, r);
      var key := (Director, r);
      assert key.0 != Image && key in versions';
      match r
      case Timestamp =>
      case Snapshot =>
      case Targets =>
    }
  }

  lemma UpToDateBefore(lib: Library, e: Evidence, versions: Versions, versions': Versions)
    requires UpToDate(lib, e, versions') && VersionsKept(versions, versions')
    ensures UpToDate(lib, e, versions)
  {
    hide EvidenceVersion;
    forall k: Repo, r: Role | (k, r) in versions ensures versions[(k, r)] <= EvidenceVersion(lib, e, k, r) {
      assert (k, r) in versions' && versions'[(k, r)] <= EvidenceVersion(lib, e, k, r);
    }
  }

  // The stored roots that parse are the ends of chains.
  ghost predicate RootsChained(lib: Library, g: Ground, roots: map<Repo, seq<Byte>>, trusted: map<Repo, seq<Adopted>>) {
    forall r {:trigger roots[r]} :: r in roots && lib.parse(roots[r]).Some? ==>
      r in trusted && Chain(lib, g, r, trusted[r]) && Last(trusted[r]).env == lib.parse(roots[r]).value
  }

  lemma RootsKeptChained(lib: Library, g: Ground, g': Ground, roots: map<Repo, seq<Byte>>,
                         trusted: map<Repo, seq<Adopted>>)
    requires RootsChained(lib, g, roots, trusted) && Extends(g, g')
    ensures RootsChained(lib, g', roots, trusted)
  {
    hide Chain;
    forall r {:trigger roots[r]} | r in roots && lib.parse(roots[r]).Some? ensures Chain(lib, g', r, trusted[r]) {
      ChainKept(lib, g, g', r, trusted[r]);
    }
  }

  // Storing a root together with its chain.
  lemma RootStored(lib: Library, g: Ground, roots: map<Repo, seq<Byte>>, trusted: map<Repo, seq<Adopted>>,
                   repo: Repo, blob: seq<Byte>, chain: seq<Adopted>)
    requires RootsChained(lib, g, roots, trusted)
    requires Chain(lib, g, repo, chain) && lib.parse(blob) == Some(Last(chain).env)
    ensures RootsChained(lib, g, roots[repo := blob], trusted[repo := chain])
  {
    hide Chain;
  }

  // ----- the Director's files are not tied together -----

  // Metadata of the Director whose timestamp pins nothing: one content with all roles and one target.
  function LooseContent(n: nat): Json {
    Obj(Member("keys", Obj(Member("k", Obj(NoMember), NoMember)),
        Member("roles", LooseRoles(),
        Member("targets", Obj(Member("fw", LooseTarget(n), NoMember)), NoMember))))
  }

  function LooseRoles(): Json {
    Obj(Member("timestamp", OneKeyRole(), Member("snapshot", OneKeyRole(), Member("targets", OneKeyRole(), NoMember))))
  }

  function OneKeyRole(): Json {
    PlainRole(Item(Str("k"), NoItem), 1)
  }

  // The image "x" of n bytes for the hardware "h".
  function LooseTarget(n: nat): Json {
    Obj(Member("custom", Obj(Member("hardwareIdentifier", Str("h"), NoMember)),
        Member("hashes", Obj(Member("sha256", Str("x"), NoMember)),
        Member("length", Num(n as real), NoMember))))
  }

  function LooseFile(n: nat): Json {
    Obj(Member("signed", LooseContent(n), Member("signatures", PlainSignatures(), NoMember)))
  }

  // Its one signature is valid.
  predicate LooseSigns(lib: Library, n: nat) {
    lib.verify(Obj(NoMember), CanonicalJson.Canonical(LooseContent(n), lib.general), "s")
  }

  function LooseEvidence(n: nat): Evidence {
    Evidence([Adopted(LooseFile(n), 0, 0)], LooseFile(n), LooseFile(n), LooseFile(n), 0, [], Null, [], [], 0)
  }

  lemma LooseParts(n: nat)
    ensures SignedPart(LooseFile(n)) == Some(LooseContent(n))
    ensures Get(Some(LooseFile(n)), "signatures") == Some(PlainSignatures())
    ensures var c := Some(LooseContent(n));
            && Get(c, "keys") == Some(Obj(Member("k", Obj(NoMember), NoMember))) && Get(c, "roles") == Some(LooseRoles())
            && Get(c, "targets") == Some(Obj(Member("fw", LooseTarget(n), NoMember))) && Get(c, "meta") == None
  {
    var m3 := Member("targets", Obj(Member("fw", LooseTarget(n), NoMember)), NoMember);
    var m2 := Member("roles", LooseRoles(), m3);
    var k := Obj(Member("k", Obj(NoMember), NoMember));
    FindNext("keys", k, m2, "roles");
    FindNext("keys", k, m2, "targets");
    FindNext("keys", k, m2, "meta");
    FindNext("roles", LooseRoles(), m3, "targets");
    FindNext("roles", LooseRoles(), m3, "meta");
    FindNext("targets", m3.value, NoMember, "meta");
    FindNext("signed", LooseContent(n), Member("signatures", PlainSignatures(), NoMember), "signatures");
  }

  lemma LooseRoleFound(role: Role)
    ensures Get(Some(LooseRoles()), RoleName(role)) == Some(OneKeyRole())
  {
    var m3 := Member("targets", OneKeyRole(), NoMember);
    var m2 := Member("snapshot", OneKeyRole(), m3);
    FindNext("timestamp", OneKeyRole(), m2, "snapshot");
    FindNext("timestamp", OneKeyRole(), m2, "targets");
    FindNext("snapshot", OneKeyRole(), m3, "targets");
  }

  lemma OneKeyRoleParts()
    ensures Get(Some(OneKeyRole()), "keyids") == Some(Arr(Item(Str("k"), NoItem)))
    ensures Get(Some(OneKeyRole()), "threshold") == Some(Num(1 as real))
  {
    FindNext("keyids", Arr(Item(Str("k"), NoItem)), Member("threshold", Num(1 as real), NoMember), "threshold");
  }

  lemma LooseSigner(lib: Library, n: nat)
    requires LooseSigns(lib, n)
    ensures IsEnvelope(LooseFile(n)) && Get(Some(LooseContent(n)), "keys").Some?
    ensures SignedBy(lib, Some(LooseContent(n)), LooseFile(n))("k")
  {
    hide CanonicalJson.Canonical;
    LooseParts(n);
    var entry := Obj(Member("keyid", Str("k"), Member("sig", Str("s"), NoMember)));
    FindNext("keyid", Str("k"), Member("sig", Str("s"), NoMember), "sig");
    assert Get(Some(entry), "keyid") == Some(Str("k")) && Get(Some(entry), "sig") == Some(Str("s"));
    assert FindSig(PlainSignatures().items, "k") == Some(entry);
  }

  lemma LooseAccepted(lib: Library, n: nat, role: Role)
    requires LooseSigns(lib, n)
    ensures Accepted(lib, Some(LooseContent(n)), RoleName(role), LooseFile(n), 0, 0)
  {
    hide CanonicalJson.Canonical, SignedBy, LooseContent, LooseRoles, OneKeyRole, LooseFile, RoleName;
    LooseParts(n);
    LooseRoleFound(role);
    OneKeyRoleParts();
    LooseSigner(lib, n);
    var root, name := Some(LooseContent(n)), RoleName(role);
    assert HasRole(root, name);
    assert Keyids(root, name) == ["k"] by {
      assert Strings(Item(Str("k"), NoItem)) == ["k"] + Strings(NoItem);
    }
    CountAll(Keyids(root, name), SignedBy(lib, root, LooseFile(n)));
    LooseVersion(n);
  }

  lemma LooseVersion(n: nat)
    ensures Version(Some(LooseContent(n))) == 0
  {
    var m3 := Member("targets", Obj(Member("fw", LooseTarget(n), NoMember)), NoMember);
    var m2 := Member("roles", LooseRoles(), m3);
    FindNext("keys", Obj(Member("k", Obj(NoMember), NoMember)), m2, "version");
    FindNext("roles", LooseRoles(), m3, "version");
    FindNext("targets", m3.value, NoMember, "version");
  }

  lemma LooseAssigned(lib: Library, n: nat, hash: seq<Byte>)
    requires lib.unhex("x") == Some(hash) && |hash| == 32
    ensures Assigned(lib, Some(LooseContent(n)), "h", Target("fw", hash, n))
  {
    LooseParts(n);
    var m3 := Member("length", Num(n as real), NoMember);
    var hashes := Obj(Member("sha256", Str("x"), NoMember));
    var m2 := Member("hashes", hashes, m3);
    var custom := Obj(Member("hardwareIdentifier", Str("h"), NoMember));
    FindNext("custom", custom, m2, "hashes");
    FindNext("custom", custom, m2, "length");
    FindNext("hashes", hashes, m3, "length");
    var j := Some(LooseTarget(n));
    assert Get(j, "custom") == Some(custom) && Get(j, "hashes") == Some(hashes) && Get(j, "length") == Some(Num(n as real));
    assert HwidMatches(Some(custom), "h");
    assert HashOf(lib, j) == Some((hash, n));
    assert !HasDotDot("fw");
  }

  // A target is assigned although the timestamp pins no snapshot at all.
  lemma UnpinnedSnapshot(lib: Library, n: nat, hash: seq<Byte>)
    requires LooseSigns(lib, n)
    requires lib.unhex("x") == Some(hash) && |hash| == 32
    ensures DirectorAssigned(lib, Ground({Anchor(Director, LooseFile(n))}, {0}), "h", LooseEvidence(n), Target("fw", hash, n))
    ensures forall raw :: !Pins(lib, SignedPart(LooseEvidence(n).dirTs), "snapshot.json", raw)
  {
    hide Accepted, Assigned, LooseContent, LooseFile, LooseSigns, Version, RoleName;
    LooseParts(n);
    LooseVersion(n);
    LooseAccepted(lib, n, Timestamp);
    LooseAccepted(lib, n, Snapshot);
    LooseAccepted(lib, n, Targets);
    LooseAssigned(lib, n, hash);
  }
}
