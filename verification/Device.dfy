/** The update client on the device (aktualino_core.c, aktualino_main.c): root rotation, role versions,
    the agreement of two repositories, and the staged install, with a power failure after any write
    to persistent storage. */
module Device {
  import opened Wrappers
  import opened Bits
  import opened Json
  import opened Uptane
  import opened Trust
  import CanonicalJson

  // esp_err_t, and the end of execution when the power fails.
  datatype Err = Success | Fail | InvalidArg | InvalidState | InvalidSize | InvalidCrc | InvalidVersion | NotFound | Timeout
               | PowerLost

  // map_akt_err
  function MapErr(rc: Rc): Err {
    match rc
    case Ok => Success
    case NoRole => NotFound
    case Threshold => InvalidCrc
    case Expired => Timeout
    case Rollback => InvalidVersion
    case NoTarget => NotFound
    case _ => Fail
  }

  // The codes of esp_err_t, one by one.
  lemma MapErrCodes(rc: Rc)
    ensures MapErr(rc) == Success <==> rc == Ok
    ensures MapErr(rc) == NotFound <==> rc == NoRole || rc == NoTarget
    ensures (MapErr(rc) == InvalidCrc <==> rc == Threshold) && (MapErr(rc) == Timeout <==> rc == Expired)
    ensures MapErr(rc) == InvalidVersion <==> rc == Rollback
    ensures MapErr(rc) == Fail <==> rc == Parse || rc == Internal || rc == CrossRepo
  {}

  // An image download: the chunks that arrive, whether it ends without an error, whether the flash
  // driver accepts the image, and whether it accepts the change of the boot slot.
  datatype Download = Download(chunks: seq<seq<Byte>>, complete: bool, imageOk: bool, bootOk: bool)

  // The server offers no numbered root that could not be read back after it was stored.
  ghost predicate Small(server: Server) {
    forall r, n :: var body := server(r, NumberedRoot(n)); body.Some? ==> 0 < |body.value| <= ROOT_READ_CAP
  }

  // Nor does the firmware carry one.
  ghost predicate SmallEmbedded(embedded: Repo -> Option<seq<Byte>>) {
    forall r :: embedded(r).Some? ==> |embedded(r).value| <= ROOT_READ_CAP
  }

  // An embedded root that trust_anchor_init_repo accepts.
  ghost predicate Provisioned(lib: Library, embedded: Option<seq<Byte>>, now: int, env: Json) {
    embedded.Some? && embedded.value != [] && lib.parse(embedded.value) == Some(env)
    && Accepted(lib, SignedPart(env), "root", env, now, 0)
  }

  // A root accepted at some time is accepted by the check that ignores its expiry.
  lemma AcceptedUndated(lib: Library, env: Json, now: int)
    requires Accepted(lib, SignedPart(env), "root", env, now, 0)
    ensures Accepted(lib, SignedPart(env), "root", env, 0, 0) && Version(SignedPart(env)) >= 0
  {}

  // What it accepts if memory and power last.
  ghost predicate Bootable(lib: Library, embedded: Option<seq<Byte>>, now: int) {
    embedded.Some? && lib.parse(embedded.value).Some?
    && var env := lib.parse(embedded.value).value;
       Provisioned(lib, embedded, now, env)
       && Fits(lib, env)
  }

  // The version it claims.
  function EmbeddedVersion(lib: Library, embedded: Option<seq<Byte>>): int {
    if embedded.Some? && lib.parse(embedded.value).Some? then Version(SignedPart(lib.parse(embedded.value).value)) else 0
  }

  // ----- the flash -----

  datatype SlotState = Undefined | New | PendingVerify | Valid | Aborted

  datatype Slot = Slot(bytes: seq<Byte>, state: SlotState)

  predicate Confirmed(s: Slot) {
    s.state == Undefined || s.state == Valid
  }

  predicate Unconfirmed(s: Slot) {
    s.state == New || s.state == PendingVerify
  }

  predicate IsImage(lib: Library, bytes: seq<Byte>, t: Target) {
    lib.sha256(bytes) == t.sha256 && |bytes| == t.length
  }

  predicate HasImage(lib: Library, s: Slot, t: Target) {
    IsImage(lib, s.bytes, t)
  }

  // An unconfirmed boot image is the pending one, and the image that was confirmed last is there to fall
  // back to; a confirmed boot image is that image.
  ghost predicate Installed(lib: Library, slots: seq<Slot>, boot: int, pending: Option<Target>, lastGood: seq<Byte>) {
    && |slots| == 2 && 0 <= boot < 2
    && (Confirmed(slots[boot]) || Unconfirmed(slots[boot]))
    && (Confirmed(slots[boot]) ==> slots[boot].bytes == lastGood)
    && (Unconfirmed(slots[boot]) ==>
          pending.Some? && HasImage(lib, slots[boot], pending.value)
          && Confirmed(slots[1 - boot]) && slots[1 - boot].bytes == lastGood)
  }

  // The pending target is the one that was put in place last.
  ghost predicate Recorded(pending: Option<Target>, history: seq<Installation>) {
    pending.Some? ==> history != [] && history[|history| - 1].target == pending.value
  }

  // The image of an installation.
  ghost predicate Vouched(lib: Library, history: seq<Installation>, image: seq<Byte>) {
    exists i :: 0 <= i < |history| && IsImage(lib, image, history[i].target)
  }

  lemma VouchedKept(lib: Library, history: seq<Installation>, more: seq<Installation>, image: seq<Byte>)
    requires Vouched(lib, history, image) && history <= more
    ensures Vouched(lib, more, image)
  {
    var i :| 0 <= i < |history| && IsImage(lib, image, history[i].target);
    assert more[i] == history[i];
  }

  // Confirming the boot image makes it the good one: it is so already, or it is the image of an installation.
  lemma ConfirmedIsVouched(lib: Library, slots: seq<Slot>, boot: int, pending: Option<Target>, lastGood: seq<Byte>,
                           history: seq<Installation>)
    requires Installed(lib, slots, boot, pending, lastGood) && Recorded(pending, history)
    ensures slots[boot].bytes == lastGood || Vouched(lib, history, slots[boot].bytes)
    ensures Installed(lib, slots[boot := slots[boot].(state := Valid)], boot, pending, slots[boot].bytes)
  {
    hide IsImage;
  }

  lemma SlotBooted(lib: Library, slots: seq<Slot>, boot: int, pending: Option<Target>, lastGood: seq<Byte>)
    requires Installed(lib, slots, boot, pending, lastGood) && Confirmed(slots[boot])
    requires pending.Some? && HasImage(lib, slots[1 - boot], pending.value)
    ensures Installed(lib, slots[1 - boot := slots[1 - boot].(state := New)], 1 - boot, pending, lastGood)
  {}

  // The boot loader's choice: a new image is tried once; if it was not confirmed, the other slot is taken.
  function Booted(slots: seq<Slot>, boot: int): (seq<Slot>, int)
    requires 0 <= boot < 2 == |slots|
  {
    match slots[boot].state
    case New => (slots[boot := slots[boot].(state := PendingVerify)], boot)
    case PendingVerify => (slots[boot := slots[boot].(state := Aborted)], 1 - boot)
    case _ => (slots, boot)
  }

  lemma BootKeeps(lib: Library, slots: seq<Slot>, boot: int, pending: Option<Target>, lastGood: seq<Byte>)
    requires Installed(lib, slots, boot, pending, lastGood)
    ensures var b := Booted(slots, boot); Installed(lib, b.0, b.1, pending, lastGood) && b.0[b.1].state != New
    ensures slots[boot].state == PendingVerify ==>
              Confirmed(Booted(slots, boot).0[1 - boot]) && Booted(slots, boot).0[1 - boot].bytes == lastGood
  {}

  function Flatten(chunks: seq<seq<Byte>>): seq<Byte> {
    if chunks == [] then [] else Flatten(chunks[..|chunks| - 1]) + chunks[|chunks| - 1]
  }

  // Chunks are joined in the order in which they arrive.
  lemma {:induction false} FlattenAppend(a: seq<seq<Byte>>, b: seq<seq<Byte>>)
    ensures Flatten(a + b) == Flatten(a) + Flatten(b)
    decreases |b|
  {
    if b == [] {
      assert a + b == a;
    } else {
      FlattenAppend(a, b[..|b| - 1]);
      assert (a + b)[..|a + b| - 1] == a + b[..|b| - 1];
    }
  }

  lemma FlattenOne(chunk: seq<Byte>)
    ensures Flatten([chunk]) == chunk
  {
    assert Flatten([chunk]) == Flatten([]) + chunk;
  }

  // The downloaded image is accepted and is the one of the target.
  predicate Delivers(lib: Library, d: Download, t: Target) {
    d.complete && d.imageOk && d.bootOk && IsImage(lib, Flatten(d.chunks), t)
  }

  // What happens from outside in one poll, and between two resets.
  datatype Poll = Poll(server: Server, now: int, download: Download)

  datatype Session = Session(budget: nat, reportOk: bool, embedded: Repo -> Option<seq<Byte>>, start: int, polls: seq<Poll>)

  ghost predicate SmallRoots(polls: seq<Poll>) {
    forall k :: 0 <= k < |polls| ==> Small(polls[k].server)
  }

  // Every root of the session can be read back once it is stored.
  ghost predicate SmallSession(s: Session) {
    SmallEmbedded(s.embedded) && SmallRoots(s.polls)
  }

  // An anchor that the firmware of one of the sessions carries and that passed its own check.
  ghost predicate FromFirmware(lib: Library, sessions: seq<Session>, a: Anchor) {
    exists k :: 0 <= k < |sessions| && Provisioned(lib, sessions[k].embedded(a.repo), sessions[k].start, a.env)
  }

  // A time at which one of the polls takes place.
  ghost predicate PolledAt(polls: seq<Poll>, now: int) {
    exists k :: 0 <= k < |polls| && polls[k].now == now
  }

  ghost predicate PolledIn(sessions: seq<Session>, now: int) {
    exists k :: 0 <= k < |sessions| && PolledAt(sessions[k].polls, now)
  }

  // The installations since n went by metadata of both repositories that was current, unexpired and not
  // rolled back, at the time of one of these polls.
  ghost predicate Current(lib: Library, history: seq<Installation>, n: nat, versions: Versions, polls: seq<Poll>) {
    forall i :: n <= i < |history| ==> var e := history[i].evidence;
      UpToDate(lib, e, versions) && e.imgNow == e.dirNow && PolledAt(polls, e.dirNow)
  }

  ghost predicate CurrentIn(lib: Library, history: seq<Installation>, n: nat, versions: Versions,
                            sessions: seq<Session>) {
    forall i :: n <= i < |history| ==> var e := history[i].evidence;
      UpToDate(lib, e, versions) && e.imgNow == e.dirNow && PolledIn(sessions, e.dirNow)
  }

  // One more session.
  lemma CurrentOn(lib: Library, history: seq<Installation>, more: seq<Installation>, n: nat, v0: Versions, v: Versions,
                  sessions: seq<Session>, k: nat)
    requires CurrentIn(lib, history, n, v0, sessions) && history <= more && n <= |history| && VersionsKept(v0, v)
    requires k < |sessions| && Current(lib, more, |history|, v, sessions[k].polls)
    ensures CurrentIn(lib, more, n, v0, sessions)
  {
    hide UpToDate, PolledAt;
    forall i | n <= i < |more|
      ensures var e := more[i].evidence; UpToDate(lib, e, v0) && e.imgNow == e.dirNow && PolledIn(sessions, e.dirNow)
    {
      if i < |history| {
        assert more[i] == history[i];
      } else {
        UpToDateBefore(lib, more[i].evidence, v0, v);
        assert PolledAt(sessions[k].polls, more[i].evidence.dirNow);
      }
    }
  }

  // aktualino_core_target_is_new
  predicate IsNew(running: Option<Target>, t: Target) {
    running == None || running.value.sha256 != t.sha256
  }

  // The content of a targets file assigns one target at most.
  lemma AssignedOnce(lib: Library, signed: Option<Json>, hwid: Text, t: Target)
    requires Assigned(lib, signed, hwid, t)
    ensures forall x :: Assigned(lib, signed, hwid, x) ==> x == t
  {
    hide Choice;
  }

  // The poll finds this target assigned and listed, and its image arrives.
  ghost predicate Updates(lib: Library, roots: map<Repo, seq<Byte>>, versions: Versions, hwid: Text, p: Poll,
                          t: Target) {
    && Assigns(lib, roots, versions, hwid, p.server, p.now, t)
    && ImageAgrees(lib, roots, versions, p.server, p.now, t) && Delivers(lib, p.download, t)
  }

  // The writes of such a poll.
  function UpdateCost(lib: Library, roots: map<Repo, seq<Byte>>, p: Poll): nat {
    WalkCost(lib, roots, Director, p.server) + WalkCost(lib, roots, Image, p.server) + 9 + |p.download.chunks|
  }

  class Device {
    const lib: Library
    const hwid: Text
    var roots: map<Repo, seq<Byte>>
    var rootIndex: map<Repo, int>
    var versions: Versions
    var running: Option<Target>
    var pending: Option<Target>
    var slots: seq<Slot>
    var boot: int
    var current: int
    // How many writes to persistent storage are left before the power fails.
    var power: nat
    ghost var ground: Ground
    ghost var trusted: map<Repo, seq<Adopted>>
    // What was put in place, and why.
    ghost var history: seq<Installation>
    // The image that was confirmed last.
    ghost var lastGood: seq<Byte>

    ghost predicate Inv()
      reads this
    {
      && Installed(lib, slots, boot, pending, lastGood) && Recorded(pending, history)
      && Proved(lib, ground, hwid, history) && NoRollback(lib, history, versions)
      && RootsChained(lib, ground, roots, trusted)
      && forall k {:trigger versions[k]} :: k in versions ==> versions[k] >= 0
    }

    // The state in which the poll loop runs.
    ghost predicate Running()
      reads this
    {
      Inv() && current == boot && Confirmed(slots[boot])
    }

    // What the invariant says of the flash: a boot image that is not confirmed has the hash and the length of the
    // pending target, and the image confirmed last is in the other slot, confirmed; a confirmed boot image is that one.
    lemma FallBack()
      requires Inv()
      ensures |slots| == 2 && 0 <= boot < 2 && slots[boot].state in {Undefined, Valid, New, PendingVerify}
      ensures slots[boot].state in {Undefined, Valid} ==> slots[boot].bytes == lastGood
      ensures slots[boot].state in {New, PendingVerify} ==>
                && pending.Some? && lib.sha256(slots[boot].bytes) == pending.value.sha256
                && |slots[boot].bytes| == pending.value.length
                && slots[1 - boot].state in {Undefined, Valid} && slots[1 - boot].bytes == lastGood
    {
      hide Proved, NoRollback, RootsChained, Recorded;
    }

    // What it says of the record: every installation is justified, and none is older than one before it.
    lemma OnRecord(i: nat, j: nat)
      requires Inv() && i <= j < |history|
      ensures Justified(lib, ground, hwid, history[j].evidence, history[j].target)
      ensures NotOlder(lib, history[i].evidence, history[j].evidence)
      ensures forall k: Repo, r: Role ::
                (k, r) in versions && EvidenceVersion(lib, history[j].evidence, k, r) <= versions[(k, r)]
    {
      hide Justified, NotOlder, EvidenceVersion, Installed, RootsChained;
      assert Reached(lib, history[j].evidence, versions);
    }

    lemma TwoSlots()
      requires Inv()
      ensures |slots| == 2 && 0 <= boot < 2
    {}

    lemma FloorsPositive(repo: Repo, role: Role)
      requires Inv()
      ensures Floor(versions, repo, role) >= 0
    {}

    // No more writes than these.
    twostate predicate Spent(writes: int)
      reads this`power
    {
      old(power) - writes <= power
    }

    constructor (lib: Library, hwid: Text, roots: map<Repo, seq<Byte>>, image: seq<Byte>, other: seq<Byte>)
      ensures Inv() && this.roots == roots && versions == map[] && this.lib == lib
      ensures running == None && pending == None && slots == [Slot(image, Valid), Slot(other, Undefined)] && boot == 0
      ensures this.hwid == hwid && lastGood == image && history == [] && ground.times == {}
      ensures ground.anchors == set r: Repo | r in roots
                                 && lib.parse(roots[r]).Some? :: Anchor(r, lib.parse(roots[r]).value)
    {
      this.lib, this.hwid, this.roots := lib, hwid, roots;
      rootIndex, versions, running, pending := map[], map[], None, None;
      slots, boot, current, power := [Slot(image, Valid), Slot(other, Undefined)], 0, 0, 0;
      trusted := map r | r in roots && lib.parse(roots[r]).Some? ::
        var env := lib.parse(roots[r]).value; [Adopted(env, Version(SignedPart(env)), 0)];
      history, lastGood := [], image;
      ground := Ground(set r: Repo | r in roots && lib.parse(roots[r]).Some? :: Anchor(r, lib.parse(roots[r]).value), {});
    }

    // More to trust: an anchor, or the time of a poll.
    ghost method Extend(more: Ground)
      requires Inv() && Extends(ground, more)
      modifies this`ground
      ensures Inv() && ground == more
    {
      hide Installed, RootsChained, Proved, NoRollback, Recorded;
      ProvedKept(lib, ground, more, hwid, history);
      RootsKeptChained(lib, ground, more, roots, trusted);
      ground := more;
    }

    // ----- writes to persistent storage -----

    // The blob of a root, together with the chain that ends in it.
    method PutRoot(repo: Repo, blob: seq<Byte>, ghost chain: seq<Adopted>) returns (on: bool)
      requires Inv() && Chain(lib, ground, repo, chain) && lib.parse(blob) == Some(Last(chain).env)
      modifies this`roots, this`trusted, this`power
      ensures Inv()
      ensures on ==> roots == old(roots)[repo := blob] && trusted == old(trusted)[repo := chain]
      ensures !on ==> roots == old(roots) && trusted == old(trusted)
      ensures if old(power) > 0 then on && power == old(power) - 1 else !on && power == 0
    {
      if power == 0 {
        return false;
      }
      hide Chain, Installed, Recorded, Proved, NoRollback, RootsChained;
      power := power - 1;
      RootStored(lib, ground, roots, trusted, repo, blob, chain);
      roots := roots[repo := blob];
      trusted := trusted[repo := chain];
      return true;
    }

    method PutRootIndex(repo: Repo, index: int) returns (on: bool)
      requires Inv()
      modifies this`rootIndex, this`power
      ensures Inv() && rootIndex == if on then old(rootIndex)[repo := index] else old(rootIndex)
      ensures if old(power) > 0 then on && power == old(power) - 1 else !on && power == 0
    {
      hide Installed, RootsChained, Recorded, Proved, NoRollback;
      if power == 0 {
        return false;
      }
      power := power - 1;
      rootIndex := rootIndex[repo := index];
      return true;
    }

    method PutVersion(repo: Repo, role: Role, version: int) returns (on: bool)
      requires Inv() && version >= Floor(versions, repo, role)
      modifies this`versions, this`power
      ensures Inv() && versions == if on then old(versions)[(repo, role) := version] else old(versions)
      ensures VersionsKept(old(versions), versions)
      ensures if old(power) > 0 then on && power == old(power) - 1 else !on && power == 0
    {
      hide Installed, RootsChained, Recorded, Proved, NoRollback;
      if power == 0 {
        return false;
      }
      power := power - 1;
      HistoryRaised(lib, history, versions, versions[(repo, role) := version]);
      versions := versions[(repo, role) := version];
      return true;
    }

    // ----- trust anchor and root rotation -----

    // The stored root parses and meets the threshold of its own root role.
    ghost predicate AnchorChecked(repo: Repo)
      reads this`roots
    {
      repo in roots && lib.parse(roots[repo]).Some?
      && var env := lib.parse(roots[repo]).value; Accepted(lib, SignedPart(env), "root", env, 0, 0)
    }

    // The version the stored root claims.
    ghost function StoredVersion(repo: Repo): int
      reads this`roots
    {
      if repo in roots && lib.parse(roots[repo]).Some? then Version(SignedPart(lib.parse(roots[repo]).value)) else 0
    }

    // Every stored root can be read back.
    ghost predicate RootsReadable()
      reads this`roots
    {
      forall r :: r in roots ==> Readable(roots, r)
    }

    // Neither stored root claims a lower version than before.
    ghost predicate RootsKept(director: int, image: int)
      reads this`roots
    {
      StoredVersion(Director) >= director && StoredVersion(Image) >= image
    }

    // The stored root is checked against its own keys, without its expiry.
    method CheckStored(repo: Repo) returns (err: Err)
      requires Inv() && Readable(roots, repo)
      ensures err == Success ==> AnchorChecked(repo)
    {
      hide Inv, Accepted;
      var env := lib.parse(roots[repo]);
      if env == None || SignedPart(env.value) == None || !SignedPart(env.value).value.Obj? {
        return Fail;
      }
      var rc := VerifyRole(lib, SignedPart(env.value), "root", env.value, 0, 0);
      return MapErr(rc);
    }

    // An accepted embedded root becomes the stored one.
    method Pin(repo: Repo, blob: seq<Byte>, env: Json, now: int) returns (err: Err)
      requires Inv() && lib.parse(blob) == Some(env)
      modifies this`roots, this`trusted, this`rootIndex, this`power, this`ground
      ensures Inv() && ground == Ground(old(ground.anchors) + {Anchor(repo, env)}, old(ground.times))
      ensures roots == old(roots)[repo := blob] || (roots == old(roots) && err != Success)
      ensures err == if old(power) >= 2 then Success else PowerLost
    {
      hide Inv;
      var v := Version(SignedPart(env));
      Extend(ground.(anchors := ground.anchors + {Anchor(repo, env)}));
      var on := PutRoot(repo, blob, [Adopted(env, v, now)]);
      if on {
        on := PutRootIndex(repo, v);
      }
      return if on then Success else PowerLost;
    }

    // trust_anchor_init_repo: a readable stored root stays, whatever comes of checking it; otherwise
    // the embedded one is checked and stored. The stored version goes down exactly when the stored root
    // cannot be read back and the embedded one is older.
    method InitAnchor(repo: Repo, embedded: Option<seq<Byte>>, now: int) returns (err: Err)
      requires Inv()
      modifies this`roots, this`trusted, this`rootIndex, this`power, this`ground
      ensures Inv() && forall r :: r != repo ==> (r in roots <==> r in old(roots)) && (r in roots ==> roots[r] == old(roots)[r])
      ensures Readable(old(roots), repo) ==> roots == old(roots) && trusted == old(trusted)
      ensures roots != old(roots) ==> embedded.Some? && repo in roots && roots[repo] == embedded.value
      ensures old(RootsReadable()) && (embedded.Some? ==> |embedded.value| <= ROOT_READ_CAP) ==>
                RootsReadable() && RootsKept(old(StoredVersion(Director)), old(StoredVersion(Image)))
      ensures ground.times == old(ground.times) && old(ground.anchors) <= ground.anchors
      ensures forall a :: a in ground.anchors - old(ground.anchors) ==> a.repo == repo && Provisioned(lib, embedded, now, a.env)
      ensures err == Success && !Readable(old(roots), repo) ==>
                embedded.Some? && repo in roots && roots[repo] == embedded.value
                && lib.parse(embedded.value).Some? && Provisioned(lib, embedded, now, lib.parse(embedded.value).value)
      ensures err == Success ==> AnchorChecked(repo)
      ensures err == Success ==>
                (StoredVersion(repo) < old(StoredVersion(repo)) <==>
                   !Readable(old(roots), repo) && EmbeddedVersion(lib, embedded) < old(StoredVersion(repo)))
      ensures !Readable(old(roots), repo) && Bootable(lib, embedded, now) && old(power) >= 2 ==> err == Success
    {
      hide Inv, Accepted;
      if Readable(roots, repo) {
        err := CheckStored(repo);
        return;
      }
      if embedded == None || embedded.value == [] {
        return InvalidArg;
      }
      var env := lib.parse(embedded.value);
      if env == None || SignedPart(env.value) == None || !SignedPart(env.value).value.Obj? {
        return InvalidArg;
      }
      var rc := VerifyRole(lib, SignedPart(env.value), "root", env.value, now, 0);
      if rc != Ok {
        return MapErr(rc);
      }
      AcceptedUndated(lib, env.value, now);
      err := Pin(repo, embedded.value, env.value, now);
    }

    // The stored root, its text and its chain.
    ghost predicate Stored(repo: Repo, env: Json)
      reads this`roots, this`trusted, this`ground
    {
      repo in roots && lib.parse(roots[repo]) == Some(env) && repo in trusted && Chain(lib, ground, repo, trusted[repo])
      && Last(trusted[repo]).env == env
    }

    lemma ChainStored(repo: Repo, env: Json)
      requires Stored(repo, env)
      ensures trusted[repo] != []
    {}

    // The stored index is that of the last root adopted.
    ghost predicate IndexStored(repo: Repo, trusted0: map<Repo, seq<Adopted>>, index0: map<Repo, int>)
      reads this`trusted, this`rootIndex
    {
      if trusted == trusted0 then rootIndex == index0
      else repo in trusted && trusted[repo] != [] && rootIndex == index0[repo := Last(trusted[repo]).index]
    }

    // One link of the walk: root number i is fetched, checked against the current root and against
    // itself, and stored.
    method AdoptRoot(repo: Repo, server: Server, now: int, cur: Json, i: int) returns (err: Err, next: Json)
      requires Inv() && Stored(repo, cur) && Last(trusted[repo]).index < i && now in ground.times
      modifies this`roots, this`trusted, this`rootIndex, this`power
      ensures Inv() && repo in roots && roots == old(roots)[repo := roots[repo]]
      ensures repo in trusted && trusted == old(trusted)[repo := trusted[repo]]
      ensures Small(server) && old(RootsReadable()) ==> RootsReadable()
      ensures Step(old(trusted)[repo], trusted[repo], i, now)
      ensures (trusted == old(trusted) ==> roots == old(roots) && err != Success)
      ensures Stored(repo, Last(trusted[repo]).env)
      ensures err == Success ==> next == Last(trusted[repo]).env == Served(lib, server, repo, NumberedRoot(i))
      ensures err == Success ==> rootIndex == old(rootIndex)[repo := i]
      ensures Adoptable(lib, server, repo, now, cur, i) && old(power) >= 2 ==> err == Success
      ensures Spent(2)
    {
      hide Inv, Accepted;
      next := cur;
      var body := server(repo, NumberedRoot(i));
      if body == None {
        return Fail, next;
      }
      var env := lib.parse(body.value);
      if env == None {
        return InvalidArg, next;
      }
      var prev := VerifyRole(lib, SignedPart(cur), "root", env.value, now, i);
      var self := VerifyRole(lib, SignedPart(env.value), "root", env.value, now, i);
      if prev != Ok || self != Ok {
        return InvalidCrc, next;
      }
      ghost var b := Adopted(env.value, i, now);
      ghost var chain := trusted[repo] + [b];
      ChainGrows(lib, ground, repo, trusted[repo], b);
      var on := PutRoot(repo, body.value, chain);
      if !on {
        return PowerLost, next;
      }
      on := PutRootIndex(repo, i);
      return if on then Success else PowerLost, env.value;
    }

    // The loop of the walk, over the numbers above the version n of the current root.
    method WalkLinks(repo: Repo, server: Server, now: int, cur: Json, n: int, l: int) returns (err: Err, env: Json)
      requires Inv() && Stored(repo, cur) && n == RootVersion(Last(trusted[repo])) && n < l && now in ground.times
      modifies this`roots, this`trusted, this`rootIndex, this`power
      ensures Inv() && repo in roots && roots == old(roots)[repo := roots[repo]]
      ensures repo in trusted && trusted == old(trusted)[repo := trusted[repo]]
      ensures Small(server) && old(RootsReadable()) ==> RootsReadable()
      ensures Walked(old(trusted)[repo], trusted[repo], now) && (trusted == old(trusted) ==> roots == old(roots))
      ensures Stored(repo, Last(trusted[repo]).env)
      ensures err == Success ==> env == Last(trusted[repo]).env == RotatedTo(lib, server, repo, cur, n, l)
      ensures err == Success ==> IndexStored(repo, old(trusted), old(rootIndex))
      ensures Rotation(lib, server, repo, now, cur, n + 1, l) && old(power) >= 2 * (l - n) ==> err == Success
      ensures Spent(2 * (l - n))
    {
      hide Inv, Link, Adoptable, Served, Readable;
      env := cur;
      var i := n + 1;
      EndVersion(lib, ground, repo, trusted[repo]);
      hide Chain;
      while i <= l
        invariant n < i <= l + 1 && Inv() && Stored(repo, env)
        invariant repo in roots && roots == old(roots)[repo := roots[repo]]
        invariant Last(trusted[repo]).index < i && env == RotatedTo(lib, server, repo, cur, n, i - 1)
        invariant trusted == old(trusted)[repo := trusted[repo]] && Walked(old(trusted)[repo], trusted[repo], now)
        invariant Small(server) && old(RootsReadable()) ==> RootsReadable()
        invariant IndexStored(repo, old(trusted), old(rootIndex))
        invariant trusted == old(trusted) ==> roots == old(roots)
        invariant Rotation(lib, server, repo, now, cur, n + 1, l) ==> Rotation(lib, server, repo, now, env, i, l)
        invariant Spent(2 * (i - n - 1))
        decreases l - i
      {
        ghost var c := trusted[repo];
        var e, next := AdoptRoot(repo, server, now, env, i);
        WalkedStep(old(trusted)[repo], c, trusted[repo], i, now);
        if e != Success {
          return e, env;
        }
        env, i := next, i + 1;
      }
      return Success, env;
    }

    // The other repository's root stays.
    twostate predicate RootKept(repo: Repo)
      reads this`roots, this`trusted
    {
      && (repo in old(roots) <==> repo in roots) && (repo in roots ==> roots[repo] == old(roots)[repo])
      && (repo in old(trusted) ==> repo in trusted && trusted[repo] == old(trusted)[repo])
    }

    // walk_root_rotation: finished or stopped at any link, the stored root is joined to the one from
    // before by a chain, and its version is not lower.
    method WalkRoot(repo: Repo, server: Server, now: int) returns (err: Err, env: Json)
      requires Inv() && now in ground.times
      modifies this`roots, this`trusted, this`rootIndex, this`power
      ensures Inv() && RootKept(Other(repo))
      ensures Small(server) && old(RootsReadable()) ==> RootsReadable()
      ensures trusted == old(trusted) ==> roots == old(roots)
      ensures trusted != old(trusted) ==>
                repo in old(trusted) && repo in trusted && trusted == old(trusted)[repo := trusted[repo]]
                && Walked(old(trusted)[repo], trusted[repo], now) && Stored(repo, Last(trusted[repo]).env)
      ensures RootsKept(old(StoredVersion(Director)), old(StoredVersion(Image)))
      ensures err == Success ==> Stored(repo, env) && IndexStored(repo, old(trusted), old(rootIndex))
      ensures err == Success ==> env == WalkEnd(lib, old(roots), repo, server)
      ensures Walkable(lib, old(roots), repo, server, now) && old(power) >= WalkCost(lib, old(roots), repo, server) ==> err == Success
      ensures Spent(WalkCost(lib, old(roots), repo, server))
    {
      hide Link, Installed, Recorded, Proved, NoRollback, Rotation;
      env := Null;
      if !Readable(roots, repo) {
        return NotFound, env;
      }
      var stored := lib.parse(roots[repo]);
      if stored == None {
        return InvalidState, env;
      }
      env := stored.value;
      var n := Version(SignedPart(env));
      var latest := server(repo, LatestRoot);
      if latest == None {
        return Success, env;
      }
      var latestEnv := lib.parse(latest.value);
      var l := if latestEnv.Some? then Version(SignedPart(latestEnv.value)) else 0;
      if l <= n {
        return Success, env;
      }
      err, env := WalkLinks(repo, server, now, env, n, l);
      WalkRaises(lib, ground, repo, old(trusted)[repo], trusted[repo], now);
    }

    // ----- roles -----

    // The file of a role was accepted by this root, and the stored version is now the one it claims.
    ghost predicate Taken(repo: Repo, role: Role, root: Json, env: Json, server: Server, now: int)
      reads this`versions
    {
      && IsServed(lib, server, repo, RoleFile(role)) && env == Served(lib, server, repo, RoleFile(role))
      && Accepted(lib, SignedPart(root), RoleName(role), env, now, 0)
      && (repo, role) in versions && versions[(repo, role)] == Version(SignedPart(env))
    }

    // verify_role_fetch: the version of an accepted file is stored, and is not below the stored one.
    method FetchRole(repo: Repo, role: Role, root: Json, server: Server, now: int)
      returns (err: Err, env: Json, raw: seq<Byte>, version: int)
      requires Inv()
      modifies this`versions, this`power
      ensures Inv() && VersionsKept(old(versions), versions)
      ensures forall k :: k != (repo, role) ==> (k in versions <==> k in old(versions)) && (k in versions ==> versions[k] == old(versions)[k])
      ensures err == Success ==> Taken(repo, role, root, env, server, now) && server(repo, RoleFile(role)) == Some(raw)
      ensures err == Success ==> version == Version(SignedPart(env)) >= Floor(old(versions), repo, role)
      ensures err != Success ==> versions == old(versions)
      ensures Fetchable(lib, old(versions), repo, role, root, server, now) && old(power) >= 1 ==> err == Success
      ensures Spent(1)
    {
      hide Accepted, Inv, Version, Get, IsEnvelope, RoleName, CanonicalJson.Canonical, CanonicalJson.Need;
      FloorsPositive(repo, role);
      var min := if (repo, role) in versions then versions[(repo, role)] else 0;
      env, raw, version := Null, [], 0;
      var body := server(repo, RoleFile(role));
      if body == None {
        return Fail, env, raw, version;
      }
      var parsed := lib.parse(body.value);
      if parsed == None {
        return InvalidArg, env, raw, version;
      }
      var rc := VerifyRole(lib, SignedPart(root), RoleName(role), parsed.value, now, min);
      if rc != Ok {
        return MapErr(rc), env, raw, version;
      }
      version := Version(SignedPart(parsed.value));
      AcceptedLower(lib, SignedPart(root), RoleName(role), parsed.value, now, min);
      var on := PutVersion(repo, role, version);
      return if on then Success else PowerLost, parsed.value, body.value, version;
    }

    // The versions of the other repository stay.
    twostate predicate OtherVersionsKept(repo: Repo)
      reads this`versions
    {
      forall k: (Repo, Role) :: k.0 != repo ==> (k in versions <==> k in old(versions)) && (k in versions ==> versions[k] == old(versions)[k])
    }

    method FetchRoles(repo: Repo, root: Json, server: Server, now: int)
      returns (err: Err, ts: Json, snap: Json, snapRaw: seq<Byte>, tgt: Json, tgtRaw: seq<Byte>)
      requires Inv()
      modifies this`versions, this`power
      ensures Inv() && VersionsKept(old(versions), versions) && OtherVersionsKept(repo)
      ensures err == Success ==>
                Taken(repo, Timestamp, root, ts, server, now) && Taken(repo, Snapshot, root, snap, server, now)
      ensures err == Success ==> Taken(repo, Targets, root, tgt, server, now)
      ensures err == Success ==>
                server(repo, RoleFile(Snapshot)) == Some(snapRaw) && server(repo, RoleFile(Targets)) == Some(tgtRaw)
      ensures RolesFetchable(lib, old(versions), repo, root, server, now) && old(power) >= 3 ==> err == Success
      ensures Spent(3)
    {
      hide Inv, Accepted, Fetchable, VersionsKept, Served, IsServed, Version, SignedPart, RoleName;
      ghost var v0 := versions;
      VersionsKeptSame(v0);
      var raw: seq<Byte>, v: int;
      snap, snapRaw, tgt, tgtRaw := Null, [], Null, [];
      err, ts, raw, v := FetchRole(repo, Timestamp, root, server, now);
      if err != Success {
        return;
      }
      FetchFrame(lib, v0, versions, repo, Snapshot, root, server, now);
      ghost var v1 := versions;
      err, snap, snapRaw, v := FetchRole(repo, Snapshot, root, server, now);
      VersionsKeptTwice(v0, v1, versions);
      if err != Success {
        return;
      }
      FetchFrame(lib, v0, versions, repo, Targets, root, server, now);
      ghost var v2 := versions;
      err, tgt, tgtRaw, v := FetchRole(repo, Targets, root, server, now);
      VersionsKeptTwice(v0, v2, versions);
    }

    // The three roles of the Director, by the root at the end of its chain.
    method FetchDirectorRoles(server: Server, now: int, root: Json) returns (err: Err, targets: Json, ghost e: Evidence)
      requires Inv() && Stored(Director, root) && now in ground.times
      modifies this`versions, this`power
      ensures Inv() && VersionsKept(old(versions), versions) && OtherVersionsKept(Director)
      ensures err == Success ==>
                DirectorVerified(lib, ground, e) && e.dirChain == trusted[Director] && e.dirTargets == targets && e.dirNow == now
      ensures err == Success ==>
                Matches(lib, e, Director, versions) && targets == Served(lib, server, Director, RoleFile(Targets))
      ensures RolesFetchable(lib, old(versions), Director, root, server, now) && old(power) >= 3 ==> err == Success
      ensures Spent(3)
    {
      hide Accepted, Inv, Link, Chain, RolesFetchable, VersionsKept;
      ChainStored(Director, root);
      targets, e := Null, Evidence([], Null, Null, Null, 0, [], Null, [], [], 0);
      var ts: Json, snap: Json, snapRaw: seq<Byte>, tgtRaw: seq<Byte>;
      err, ts, snap, snapRaw, targets, tgtRaw := FetchRoles(Director, root, server, now);
      if err == Success {
        e := Evidence(trusted[Director], ts, snap, targets, now, [], Null, [], [], 0);
        hide Served, IsServed;
        DirectorMatches(lib, e, versions);
      }
    }

    // A Director poll leaves the image repository's part alone.
    lemma ImageLeft(roots0: map<Repo, seq<Byte>>, versions0: Versions, server: Server, now: int)
      requires (Image in roots0 <==> Image in roots) && (Image in roots ==> roots[Image] == roots0[Image])
      requires forall k: (Repo, Role) :: k.0 != Director ==>
                 (k in versions <==> k in versions0) && (k in versions ==> versions[k] == versions0[k])
      ensures WalkCost(lib, roots, Image, server) == WalkCost(lib, roots0, Image, server)
      ensures forall x :: ImageAgrees(lib, roots, versions, server, now, x) == ImageAgrees(lib, roots0, versions0, server, now, x)
    {
      hide ImageAgrees, WalkCost;
      ImageFrame(lib, roots0, roots, versions0, versions, server, now, Target([], [], 0));
      forall x: Target
        ensures ImageAgrees(lib, roots, versions, server, now, x) == ImageAgrees(lib, roots0, versions0, server, now, x)
      {
        ImageFrame(lib, roots0, roots, versions0, versions, server, now, x);
      }
    }

    // One Director poll: the files in their order, then the target for our hardware.
    method PollDirector(server: Server, now: int) returns (err: Err, t: Option<Target>, ghost e: Evidence)
      requires Inv() && now in ground.times
      modifies this`roots, this`trusted, this`rootIndex, this`versions, this`power
      ensures Inv() && VersionsKept(old(versions), versions) && OtherVersionsKept(Director) && RootKept(Image)
      ensures RootsKept(old(StoredVersion(Director)), old(StoredVersion(Image)))
      ensures Small(server) && old(RootsReadable()) ==> RootsReadable()
      ensures err == Success ==>
                DirectorVerified(lib, ground, e) && e.dirNow == now && Matches(lib, e, Director, versions)
      ensures err == Success ==>
                Director in trusted && e.dirChain == trusted[Director] && Stored(Director, Last(e.dirChain).env)
      ensures err == Success && t.Some? ==> DirectorAssigned(lib, ground, hwid, e, t.value)
      ensures err == Success && t.Some? ==>
                Assigned(lib, SignedPart(Served(lib, server, Director, RoleFile(Targets))), hwid, t.value)
      ensures err == Success && t == None ==> forall x :: !Assigned(lib, SignedPart(e.dirTargets), hwid, x)
      ensures forall x :: Assigns(lib, old(roots), old(versions), hwid, server, now, x) ==>
                (old(power) >= WalkCost(lib, old(roots), Director, server) + 3 ==> err == Success && t == Some(x))
      ensures Spent(WalkCost(lib, old(roots), Director, server) + 3)
      ensures WalkCost(lib, roots, Image, server) == WalkCost(lib, old(roots), Image, server)
      ensures forall x :: ImageAgrees(lib, roots, versions, server, now, x) == ImageAgrees(lib, old(roots), old(versions), server, now, x)
    {
      hide AcceptedRole, Assigned, Inv, Chain, Link, VersionsKept, Walkable, WalkEnd, WalkCost, RolesFetchable,
           Matches, Served,
           ImageAgrees;
      t, e := None, Evidence([], Null, Null, Null, 0, [], Null, [], [], 0);
      VersionsKeptSame(versions);
      var root: Json, env: Json;
      err, root := WalkRoot(Director, server, now);
      ImageLeft(old(roots), old(versions), server, now);
      if err != Success {
        return;
      }
      err, env, e := FetchDirectorRoles(server, now, root);
      ImageLeft(old(roots), old(versions), server, now);
      if err != Success {
        return;
      }
      var s := SelectTarget(lib, SignedPart(env), hwid);
      match s
      case Selected(target) => t := Some(target);
      case Refused(rc) =>
        if rc != NoTarget {
          err := MapErr(rc);
        }
    }

    // The three roles of the image repository, by the root at the end of a chain.
    method FetchImageRoles(server: Server, now: int, root: Json, ghost e0: Evidence)
      returns (err: Err, f: ImageFiles, ghost e: Evidence)
      requires Inv() && Stored(Image, root)
      modifies this`versions, this`power
      ensures Inv() && VersionsKept(old(versions), versions) && OtherVersionsKept(Image)
      ensures SameDirector(e, e0)
      ensures err == Success ==> ImageRoles(lib, e, f) && e.imgChain == trusted[Image] && e.imgNow == now
      ensures err == Success ==> Matches(lib, e, Image, versions) && f == ServedFiles(lib, server)
      ensures RolesFetchable(lib, old(versions), Image, root, server, now) && old(power) >= 3 ==> err == Success
      ensures Spent(3)
    {
      hide Accepted, Inv, Link, Chain, RolesFetchable, VersionsKept;
      ChainStored(Image, root);
      f, e := ImageFiles(Null, Null, [], 0, Null, [], 0), e0;
      ghost var chain := trusted[Image];
      var ts: Json, snap: Json, snapRaw: seq<Byte>, tgt: Json, tgtRaw: seq<Byte>;
      err, ts, snap, snapRaw, tgt, tgtRaw := FetchRoles(Image, root, server, now);
      if err == Success {
        f := ImageFiles(ts, snap, snapRaw, Version(SignedPart(snap)), tgt, tgtRaw, Version(SignedPart(tgt)));
        e := e0.(imgChain := chain, ts := ts, snapRaw := snapRaw, tgtRaw := tgtRaw, imgNow := now);
        ImageMatches(lib, e, f, versions);
      }
    }

    // Both repositories vouch for the target by the chains of their stored roots, with metadata that is
    // accepted now and has the stored versions.
    ghost predicate AgreedBy(e: Evidence, t: Target, now: int)
      reads this`trusted, this`ground, this`versions
    {
      && Director in trusted && Image in trusted && Justified(lib, ground, hwid, e, t)
      && e.dirChain == trusted[Director] && e.imgChain == trusted[Image] && e.dirNow == now == e.imgNow
      && Matches(lib, e, Director, versions) && Matches(lib, e, Image, versions)
    }

    // The hashes that tie the files together.
    method CheckLinks(f: ImageFiles, ghost e: Evidence) returns (rc: Rc)
      requires ImageRoles(lib, e, f) && Chain(lib, ground, Image, e.imgChain) && e.imgNow in ground.times
      ensures rc == Ok ==> ImageVerified(lib, ground, e)
      ensures rc == Ok <==> Tied(lib, f)
    {
      hide Chain, Pins, AcceptedRole;
      rc := MetaLink(lib, SignedPart(f.ts), "snapshot.json", f.snapRaw, f.snapV);
      MetaLinkPins(lib, SignedPart(f.ts), "snapshot.json", f.snapRaw, f.snapV);
      if rc != Ok {
        return;
      }
      rc := MetaLink(lib, SignedPart(f.snap), "targets.json", f.tgtRaw, f.tgtV);
      MetaLinkPins(lib, SignedPart(f.snap), "targets.json", f.tgtRaw, f.tgtV);
    }

    // aktualino_core_verify_image_repo
    method VerifyImageRepo(server: Server, now: int, ghost e0: Evidence) returns (err: Err,
                           targets: Json, ghost e: Evidence)
      requires Inv() && now in ground.times
      modifies this`roots, this`trusted, this`rootIndex, this`versions, this`power
      ensures Inv() && VersionsKept(old(versions), versions) && OtherVersionsKept(Image)
      ensures RootsKept(old(StoredVersion(Director)), old(StoredVersion(Image)))
      ensures Small(server) && old(RootsReadable()) ==> RootsReadable()
      ensures SameDirector(e, e0) && RootKept(Director)
      ensures err == Success ==> ImageVerified(lib, ground, e) && lib.parse(e.tgtRaw) == Some(targets)
      ensures err == Success ==> e.imgNow == now && Matches(lib, e, Image, versions)
      ensures err == Success ==> Image in trusted && e.imgChain == trusted[Image] && Stored(Image, Last(e.imgChain).env)
      ensures err == Success ==> targets == Served(lib, server, Image, RoleFile(Targets))
      ensures ImageVerifies(lib, old(roots), old(versions), server, now) ==>
                (old(power) >= WalkCost(lib, old(roots), Image, server) + 3 ==> err == Success)
      ensures Spent(WalkCost(lib, old(roots), Image, server) + 3)
    {
      hide Inv, VersionsKept, Link, Chain, AcceptedRole, ImageVerified, Walkable, WalkEnd, WalkCost, RolesFetchable,
           Matches, Tied,
           Served;
      VersionsKeptSame(versions);
      targets, e := Null, e0;
      var root: Json, f: ImageFiles;
      err, root := WalkRoot(Image, server, now);
      if err != Success {
        return;
      }
      err, f, e := FetchImageRoles(server, now, root, e0);
      if err != Success {
        return;
      }
      var rc := CheckLinks(f, e);
      return MapErr(rc), f.tgt, e;
    }

    // The Director's evidence from before the check of the image repository still counts.
    lemma StillAgreed(t: Target, e0: Evidence, e: Evidence, now: int, trusted0: map<Repo, seq<Adopted>>,
                      versions0: Versions)
      requires Director in trusted0 && e0.dirChain == trusted0[Director] && e0.dirNow == now
      requires Matches(lib, e0, Director, versions0)
      requires Director in trusted && trusted[Director] == trusted0[Director] && SameDirector(e, e0)
      requires forall k: (Repo, Role) :: k.0 != Image ==>
                 (k in versions <==> k in versions0) && (k in versions ==> versions[k] == versions0[k])
      requires Justified(lib, ground, hwid, e, t)
      requires Image in trusted && e.imgChain == trusted[Image] && e.imgNow == now && Matches(lib, e, Image, versions)
      ensures AgreedBy(e, t, now)
    {
      DirectorMatchesKept(lib, e0, e, versions0, versions);
      hide Matches, Justified;
    }

    // aktualino_core_crosscheck_target
    method Crosscheck(t: Target, server: Server, now: int, ghost e0: Evidence) returns (err: Err, ghost e: Evidence)
      requires Inv() && now in ground.times && DirectorAssigned(lib, ground, hwid, e0, t)
      requires Director in trusted && e0.dirChain == trusted[Director] && e0.dirNow == now
      requires Matches(lib, e0, Director, versions)
      modifies this`roots, this`trusted, this`rootIndex, this`versions, this`power
      ensures Inv() && VersionsKept(old(versions), versions)
      ensures RootsKept(old(StoredVersion(Director)), old(StoredVersion(Image)))
      ensures Small(server) && old(RootsReadable()) ==> RootsReadable()
      ensures err == Success ==> AgreedBy(e, t, now)
      ensures ImageAgrees(lib, old(roots), old(versions), server, now, t) ==>
                (old(power) >= WalkCost(lib, old(roots), Image, server) + 3 ==> err == Success)
      ensures Spent(WalkCost(lib, old(roots), Image, server) + 3)
    {
      hide Inv, AcceptedRole, Chain, VersionsKept, Assigned, Matches, ImageVerifies, WalkCost, Served, Lists, Pins,
           Referred, AgreedBy,
           Small, StoredVersion, RootsReadable, RootsKept;
      var targets: Json;
      err, targets, e := VerifyImageRepo(server, now, e0);
      if err != Success {
        return;
      }
      var rc := ImageTargetMatches(lib, SignedPart(targets), t);
      AssignedIsOurs(lib, SignedPart(e0.dirTargets), hwid, t);
      MatchesIsListed(lib, SignedPart(targets), t);
      err := MapErr(rc);
      if err == Success {
        StillAgreed(t, e0, e, now, old(trusted), old(versions));
      }
    }

    // ----- flash and install -----

    method WriteSlot(i: int, slot: Slot) returns (on: bool)
      requires Running() && 0 <= i < 2 && i != boot
      modifies this`slots, this`power
      ensures Running() && slots == if on then old(slots)[i := slot] else old(slots)
      ensures if old(power) > 0 then on && power == old(power) - 1 else !on && power == 0
    {
      hide RootsChained, Proved, NoRollback, Recorded;
      if power == 0 {
        return false;
      }
      power := power - 1;
      slots := slots[i := slot];
      return true;
    }

    // aktualino_store_set_pending_update
    method SetPending(t: Target, ghost e: Evidence, ghost now: int) returns (on: bool)
      requires Running() && AgreedBy(e, t, now)
      modifies this`pending, this`history, this`power
      ensures Running() && pending == (if on then Some(t) else old(pending))
      ensures history == if on then old(history) + [Installation(t, e)] else old(history)
      ensures if old(power) > 0 then on && power == old(power) - 1 else !on && power == 0
    {
      hide RootsChained, Justified, Matches;
      if power == 0 {
        return false;
      }
      hide NoRollback;
      HistoryGrows(lib, history, versions, Installation(t, e));
      power := power - 1;
      history := history + [Installation(t, e)];
      pending := Some(t);
      return true;
    }

    // aktualino_store_clear_pending_update
    method ClearPending() returns (on: bool)
      requires Running()
      modifies this`pending, this`power
      ensures Running() && pending == if on then None else old(pending)
      ensures if old(power) > 0 then on && power == old(power) - 1 else !on && power == 0
    {
      hide RootsChained, Proved, NoRollback;
      if power == 0 {
        return false;
      }
      power := power - 1;
      pending := None;
      return true;
    }

    // aktualino_ota_set_boot: the slot becomes the boot slot, its image still to be confirmed.
    method SetBoot(i: int) returns (on: bool)
      requires Running() && i == 1 - boot && pending.Some? && HasImage(lib, slots[i], pending.value)
      modifies this`slots, this`boot, this`power
      ensures Inv() && slots[1 - i] == old(slots)[1 - i] && slots[i].bytes == old(slots)[i].bytes
      ensures (on ==> boot == i && slots[i].state == New) && (!on ==> boot == old(boot) && slots == old(slots))
      ensures if old(power) > 0 then on && power == old(power) - 1 else !on && power == 0
    {
      hide RootsChained, Proved, NoRollback, Recorded;
      if power == 0 {
        return false;
      }
      SlotBooted(lib, slots, boot, pending, lastGood);
      power := power - 1;
      slots := slots[i := slots[i].(state := New)];
      boot := i;
      return true;
    }

    // The image of the target is in the slot that is not booted.
    ghost predicate Downloaded(t: Target)
      reads this`slots, this`boot
    {
      |slots| == 2 && 0 <= boot < 2 && HasImage(lib, slots[1 - boot], t)
    }

    // The image of the target is to be tried at the next reset.
    ghost predicate Staged(t: Target)
      reads this`slots, this`boot, this`current, this`pending
    {
      && |slots| == 2 && 0 <= boot < 2 && boot != current && slots[boot].state == New
      && HasImage(lib, slots[boot], t) && pending == Some(t)
    }

    // A staged image has the hash and the length of its target and is tried at the next reset.
    lemma StagedMeans(t: Target)
      requires Staged(t) && 0 <= current < 2
      ensures |slots| == 2 && boot == 1 - current && slots[boot].state == New && pending == Some(t)
      ensures lib.sha256(slots[boot].bytes) == t.sha256 && |slots[boot].bytes| == t.length
    {}

    // The slot that is running is not written.
    twostate predicate RunningSlotKept()
      reads this`slots, this`current
    {
      |slots| == |old(slots)| == 2 && 0 <= current < 2 && slots[current] == old(slots)[current]
    }

    // The download goes into the slot that is not running, chunk by chunk.
    method Stream(d: Download) returns (on: bool)
      requires Running()
      modifies this`slots, this`power
      ensures Running() && RunningSlotKept() && (on ==> slots[1 - boot].bytes == Flatten(d.chunks))
      ensures (old(power) > |d.chunks| ==> on) && Spent(1 + |d.chunks|)
    {
      hide RootsChained, Proved, NoRollback, Recorded;
      var i := 1 - current;
      on := WriteSlot(i, slots[i].(bytes := []));
      if !on {
        return;
      }
      assert d.chunks[..0] == [];
      for k := 0 to |d.chunks|
        invariant Running() && RunningSlotKept() && slots[1 - boot].bytes == Flatten(d.chunks[..k])
        invariant on && old(power) > 0 && power == old(power) - 1 - k
      {
        on := WriteSlot(i, slots[i].(bytes := slots[i].bytes + d.chunks[k]));
        if !on {
          return;
        }
        assert d.chunks[..k + 1][..k] == d.chunks[..k];
      }
      assert d.chunks[..|d.chunks|] == d.chunks;
    }

    // Flash, boot slot and pending record are as they were, or changed for a target both repositories agree
    // on, and then it is on record with the evidence, unless only the download was written.
    ghost predicate WrittenFor(slots0: seq<Slot>, boot0: int, pending0: Option<Target>, history0: seq<Installation>,
                               t: Target, now: int)
      reads this`slots, this`boot, this`pending, this`history, this`trusted, this`ground, this`versions
    {
      if history == history0 then
        boot == boot0 && pending == pending0 && (slots != slots0 ==> exists e :: AgreedBy(e, t, now))
      else
        |history| == |history0| + 1 && history0 <= history
        && history[|history0|].target == t && AgreedBy(history[|history0|].evidence, t, now)
    }

    lemma NothingWritten(t: Target, now: int)
      ensures WrittenFor(slots, boot, pending, history, t, now)
    {}

    // aktualino_core_download_and_install
    method Install(t: Target, server: Server, now: int, d: Download, ghost e0: Evidence) returns (err: Err)
      requires Running() && now in ground.times && DirectorAssigned(lib, ground, hwid, e0, t)
      requires Director in trusted && e0.dirChain == trusted[Director] && e0.dirNow == now
      requires Matches(lib, e0, Director, versions)
      modifies this`roots, this`trusted, this`rootIndex, this`versions, this`slots, this`boot, this`pending,
               this`history, this`power
      ensures Inv() && VersionsKept(old(versions), versions)
      ensures RootsKept(old(StoredVersion(Director)), old(StoredVersion(Image)))
      ensures Small(server) && old(RootsReadable()) ==> RootsReadable()
      ensures RunningSlotKept() && (err != Success && err != PowerLost ==> Running())
      ensures WrittenFor(old(slots), old(boot), old(pending), old(history), t, now)
      ensures err == Success ==> Staged(t) && history != old(history)
      ensures ImageAgrees(lib, old(roots), old(versions), server, now, t) && Delivers(lib, d, t) ==>
                (old(power) >= WalkCost(lib, old(roots), Image, server) + 6 + |d.chunks| ==> err == Success)
    {
      hide Inv, DirectorAssigned, Justified, VersionsKept, ImageAgrees, WalkCost, Delivers, HasImage, Matches,
           WrittenFor, Staged,
           StoredVersion, RootsReadable, RootsKept, SameDirector, AgreedBy, Small, Confirmed;
      ghost var e: Evidence;
      err, e := Crosscheck(t, server, now, e0);
      TwoSlots();
      NothingWritten(t, now);
      if err != Success {
        return;
      }
      err := InstallChecked(t, d, e, now);
    }

    // What follows once both repositories have agreed.
    method InstallChecked(t: Target, d: Download, ghost e: Evidence, ghost now: int) returns (err: Err)
      requires Running() && AgreedBy(e, t, now)
      modifies this`slots, this`boot, this`pending, this`history, this`power
      ensures Inv() && RunningSlotKept() && (err != Success && err != PowerLost ==> Running())
      ensures WrittenFor(old(slots), old(boot), old(pending), old(history), t, now)
      ensures err == Success ==> Staged(t) && history != old(history)
      ensures Delivers(lib, d, t) && old(power) >= 3 + |d.chunks| ==> err == Success
    {
      hide Installed, RootsChained, Proved, NoRollback, Recorded, Justified, Matches, IsImage;
      err := Fetch(t, d);
      assert AgreedBy(e, t, now);
      if err != Success {
        return;
      }
      err := Activate(t, d.bootOk, e, now);
      assert AgreedBy(e, t, now);
    }

    // The download itself: it counts only with the length and the hash of the target.
    method Fetch(t: Target, d: Download) returns (err: Err)
      requires Running()
      modifies this`slots, this`power
      ensures Running() && RunningSlotKept() && (err == Success ==> Downloaded(t))
      ensures old(power) > |d.chunks| ==>
                (err == Success <==> d.complete && d.imageOk && IsImage(lib, Flatten(d.chunks), t))
      ensures Spent(1 + |d.chunks|)
    {
      hide RootsChained, Proved, NoRollback, Recorded;
      var on := Stream(d);
      if !on {
        return PowerLost;
      }
      var i := 1 - current;
      if !d.complete || !d.imageOk {
        return Fail;
      }
      var digest := lib.sha256(slots[i].bytes);
      if |slots[i].bytes| != t.length {
        return InvalidSize;
      }
      if digest != t.sha256 {
        return InvalidCrc;
      }
      return Success;
    }

    // The pending record is written before the boot slot is changed, and withdrawn if that fails.
    method Activate(t: Target, bootOk: bool, ghost e: Evidence, ghost now: int) returns (err: Err)
      requires Running() && Downloaded(t) && AgreedBy(e, t, now)
      modifies this`slots, this`boot, this`pending, this`history, this`power
      ensures Inv() && RunningSlotKept() && (err != Success && err != PowerLost ==> Running())
      ensures (history == old(history) && boot == old(boot) && pending == old(pending))
              || history == old(history) + [Installation(t, e)]
      ensures err == Success ==> Staged(t) && history != old(history)
      ensures err == Fail ==> pending == None && slots == old(slots) && boot == old(boot)
      ensures old(power) >= 2 ==> err == if bootOk then Success else Fail
    {
      hide RootsChained, Proved, NoRollback, Recorded, Justified, Matches, IsImage;
      var on := SetPending(t, e, now);
      if !on {
        return PowerLost;
      }
      if !bootOk {
        on := ClearPending();
        return if on then Fail else PowerLost;
      }
      on := SetBoot(1 - current);
      return if on then Success else PowerLost;
    }

    // aktualino_ota_mark_valid, on the running image.
    method MarkValid() returns (on: bool)
      requires Inv() && current == boot
      modifies this`slots, this`power, this`lastGood
      ensures Inv() && current == boot && (on ==> Confirmed(slots[boot]))
      ensures slots == if on then old(slots)[boot := old(slots)[boot].(state := Valid)] else old(slots)
      ensures if old(power) > 0 then on && power == old(power) - 1 else !on && power == 0
      ensures lastGood == old(lastGood) || Vouched(lib, history, lastGood)
    {
      hide IsImage, RootsChained, Proved, NoRollback, Recorded, Vouched;
      if power == 0 {
        return false;
      }
      power := power - 1;
      ConfirmedIsVouched(lib, slots, boot, pending, lastGood, history);
      lastGood := slots[current].bytes;
      slots := slots[current := slots[current].(state := Valid)];
      return true;
    }

    method SetRunning(t: Target) returns (on: bool)
      requires Running()
      modifies this`running, this`power
      ensures Running() && running == if on then Some(t) else old(running)
      ensures if old(power) > 0 then on && power == old(power) - 1 else !on && power == 0
    {
      hide RootsChained, Proved, NoRollback, Recorded;
      if power == 0 {
        return false;
      }
      power := power - 1;
      running := Some(t);
      return true;
    }

    // The installed image becomes the recorded one, and nothing is pending any more.
    method Promote(t: Target) returns (on: bool)
      requires Running()
      modifies this`running, this`pending, this`power
      ensures Running() && (on ==> running == Some(t) && pending == None) && (old(power) >= 2 ==> on)
    {
      on := SetRunning(t);
      if on {
        on := ClearPending();
      }
    }

    // handle_post_boot: afterwards the running image is confirmed, if the power has lasted.
    method HandlePostBoot(pendingVerify: bool, reportOk: bool) returns (on: bool)
      requires Inv() && current == boot && slots[boot].state != New
      requires pendingVerify == (slots[boot].state == PendingVerify)
      modifies this`slots, this`running, this`pending, this`power, this`lastGood
      ensures Inv() && current == boot && (on ==> Running()) && (old(power) >= 3 ==> on)
      ensures |slots| == |old(slots)| && forall i :: 0 <= i < |slots| ==> slots[i].bytes == old(slots)[i].bytes
      ensures lastGood == old(lastGood) || Vouched(lib, history, lastGood)
      ensures on && pendingVerify ==> slots == old(slots)[boot := old(slots)[boot].(state := Valid)]
      ensures on && old(pending).Some? && pendingVerify && reportOk ==> running == old(pending) && pending == None
      ensures on && old(pending).Some? && !pendingVerify && slots[1 - current].state == Aborted ==>
                running == old(running) && pending == None
      ensures on && old(pending).Some? && !pendingVerify && slots[1 - current].state != Aborted && reportOk ==>
                running == old(pending) && pending == None
      ensures on && old(pending).Some? && !reportOk && (pendingVerify || slots[1 - current].state != Aborted) ==>
                running == old(running) && pending == old(pending)
    {
      hide RootsChained, Proved, NoRollback, Recorded, HasImage;
      if pending == None {
        // An image that waits for its confirmation always has its record, so there is nothing to confirm here.
        if pendingVerify {
          assert false;
        }
        return true;
      }
      var t := pending.value;
      if pendingVerify {
        on := MarkValid();
        if on && reportOk {
          on := Promote(t);
        }
        return;
      }
      if slots[1 - current].state == Aborted {
        on := ClearPending();
      } else {
        on := true;
        if reportOk {
          on := Promote(t);
        }
      }
    }

    // The boot loader: a new image is tried once; if it is not confirmed before the next reset, the
    // other slot is booted again.
    method Reset(budget: nat)
      requires Inv()
      modifies this`slots, this`boot, this`current, this`power
      ensures Inv() && current == boot && power == budget && slots[boot].state != New
      ensures match old(slots)[old(boot)].state
              case New => boot == old(boot) && slots == old(slots)[boot := old(slots)[boot].(state := PendingVerify)]
              case PendingVerify =>
                boot == 1 - old(boot) && slots == old(slots)[old(boot) := old(slots)[old(boot)].(state := Aborted)]
                && Confirmed(slots[boot]) && slots[boot].bytes == lastGood
              case _ => boot == old(boot) && slots == old(slots)
    {
      hide RootsChained, Proved, NoRollback, Recorded, HasImage;
      BootKeeps(lib, slots, boot, pending, lastGood);
      power := budget;
      var b := Booted(slots, boot);
      slots, boot := b.0, b.1;
      current := boot;
    }

    // One turn of the poll loop; it ends in a reboot after an install.
    method PollOnce(p: Poll) returns (err: Err, reboot: bool)
      requires Running()
      modifies this`roots, this`trusted, this`rootIndex, this`versions, this`slots, this`boot, this`pending,
               this`history, this`power,
               this`ground
      ensures Inv() && VersionsKept(old(versions), versions)
      ensures RootsKept(old(StoredVersion(Director)), old(StoredVersion(Image)))
      ensures Small(p.server) && old(RootsReadable()) ==> RootsReadable()
      ensures !reboot && err != PowerLost ==> Running()
      ensures (slots == old(slots) && boot == old(boot) && pending == old(pending) && history == old(history))
              || exists t :: WrittenFor(old(slots), old(boot), old(pending), old(history), t, p.now)
      ensures reboot ==> pending.Some? && Staged(pending.value) && history != old(history)
      ensures reboot ==> running == None || running.value.sha256 != pending.value.sha256
      ensures ground == Ground(old(ground.anchors), old(ground.times) + {p.now})
      ensures forall t :: Updates(lib, old(roots), old(versions), hwid, p, t)
                          && (old(running) == None || old(running).value.sha256 != t.sha256) ==>
                (old(power) >= UpdateCost(lib, old(roots), p) ==> reboot && pending == Some(t))
      ensures forall t :: Assigned(lib, SignedPart(Served(lib, p.server, Director, RoleFile(Targets))), hwid, t)
                          && old(running).Some? && old(running).value.sha256 == t.sha256 ==>
                !reboot && slots == old(slots) && boot == old(boot) && pending == old(pending) && history == old(history)
    {
      hide Inv, DirectorAssigned, DirectorVerified, Assigned, Justified, HasImage, VersionsKept, Matches,
           ImageAgrees, Delivers, WalkCost,
           WrittenFor, Assigns, Small, Confirmed, StoredVersion, RootsReadable, AgreedBy, OtherVersionsKept, RootKept;
      var t: Option<Target>;
      ghost var e: Evidence;
      reboot := false;
      Extend(ground.(times := ground.times + {p.now}));
      err, t, e := PollDirector(p.server, p.now);
      if err != Success || t == None {
        return;
      }
      ghost var mid := versions;
      AssignedOnce(lib, SignedPart(Served(lib, p.server, Director, RoleFile(Targets))), hwid, t.value);
      if IsNew(running, t.value) {
        err := Install(t.value, p.server, p.now, p.download, e);
        VersionsKeptTwice(old(versions), mid, versions);
        reboot := err == Success;
      }
    }

    // What a run of the poll loop may add to the ground of trust.
    twostate predicate GroundFrom(embedded: Repo -> Option<seq<Byte>>, start: int, polls: seq<Poll>)
      reads this`ground
    {
      && Extends(old(ground), ground)
      && (forall a :: a in ground.anchors - old(ground.anchors) ==> Provisioned(lib, embedded(a.repo), start, a.env))
      && (forall x :: x in ground.times - old(ground.times) ==> PolledAt(polls, x))
    }

    // What it may have put in place.
    twostate predicate HistoryFrom(polls: seq<Poll>)
      reads this`history
    {
      old(history) <= history && Current(lib, history, |old(history)|, old(versions), polls)
    }

    // run_director_poll_loop: both trust anchors, then the polls.
    method PollLoop(embedded: Repo -> Option<seq<Byte>>, start: int, polls: seq<Poll>)
      requires Running()
      modifies this
      ensures Inv() && VersionsKept(old(versions), versions) && lastGood == old(lastGood)
      ensures GroundFrom(embedded, start, polls) && HistoryFrom(polls)
      ensures old(RootsReadable()) && SmallEmbedded(embedded) && SmallRoots(polls) ==>
                RootsReadable() && RootsKept(old(StoredVersion(Director)), old(StoredVersion(Image)))
    {
      hide Inv, VersionsKept, AnchorChecked, Bootable, UpToDate;
      VersionsKeptSame(versions);
      var err := InitAnchors(embedded, start);
      if err != Success {
        return;
      }
      for k := 0 to |polls|
        invariant Running() && VersionsKept(old(versions), versions) && lastGood == old(lastGood)
        invariant GroundFrom(embedded, start, polls) && HistoryFrom(polls)
        invariant old(RootsReadable()) && SmallEmbedded(embedded) && SmallRoots(polls) ==>
                    RootsReadable() && RootsKept(old(StoredVersion(Director)), old(StoredVersion(Image)))
      {
        var reboot := Turn(old(versions), old(|history|), polls, k);
        if reboot {
          return;
        }
      }
    }

    // Both trust anchors.
    method InitAnchors(embedded: Repo -> Option<seq<Byte>>, start: int) returns (err: Err)
      requires Running()
      modifies this`roots, this`trusted, this`rootIndex, this`power, this`ground
      ensures Running() && GroundFrom(embedded, start, [])
      ensures old(RootsReadable()) && SmallEmbedded(embedded) ==>
                RootsReadable() && RootsKept(old(StoredVersion(Director)), old(StoredVersion(Image)))
      ensures err == Success ==> AnchorChecked(Director) && AnchorChecked(Image)
    {
      hide Inv, Provisioned, Bootable, Accepted;
      err := InitAnchor(Director, embedded(Director), start);
      if err != Success {
        return;
      }
      err := InitAnchor(Image, embedded(Image), start);
    }

    // Poll k of the loop, and whether the loop ends.
    method Turn(ghost v0: Versions, ghost n: nat, polls: seq<Poll>, k: nat) returns (done: bool)
      requires Running() && k < |polls| && VersionsKept(v0, versions) && n <= |history|
      requires Current(lib, history, n, v0, polls)
      modifies this
      ensures Inv() && VersionsKept(v0, versions) && lastGood == old(lastGood) && (!done ==> Running())
      ensures ground == Ground(old(ground.anchors), old(ground.times) + {polls[k].now})
      ensures old(history) <= history && Current(lib, history, n, v0, polls)
      ensures RootsKept(old(StoredVersion(Director)), old(StoredVersion(Image)))
      ensures Small(polls[k].server) && old(RootsReadable()) ==> RootsReadable()
    {
      hide Inv, VersionsKept, UpToDate, Matches, Justified, Staged, Updates, UpdateCost;
      ghost var h := history;
      var err, reboot := PollOnce(polls[k]);
      VersionsKeptTwice(v0, old(versions), versions);
      if history != h {
        ghost var e := history[|h|].evidence;
        MatchesUpToDate(lib, e, v0, versions);
        assert PolledAt(polls, e.dirNow);
        forall i | n <= i < |history|
          ensures var x := history[i].evidence; UpToDate(lib, x, v0) && x.imgNow == x.dirNow && PolledAt(polls, x.dirNow)
        {
          if i < |h| {
            assert history[i] == h[i];
          }
        }
      }
      done := reboot || err == PowerLost;
    }

    // From one reset to the next: the bootloader, the check after booting, and the poll loop, with
    // the power failing after any write.
    method Boot(s: Session)
      requires Inv()
      modifies this
      ensures Inv() && VersionsKept(old(versions), versions)
      ensures GroundFrom(s.embedded, s.start, s.polls) && HistoryFrom(s.polls)
      ensures lastGood == old(lastGood) || Vouched(lib, history, lastGood)
      ensures old(RootsReadable()) && SmallSession(s) ==>
                RootsReadable() && RootsKept(old(StoredVersion(Director)), old(StoredVersion(Image)))
    {
      hide RootsChained, Proved, NoRollback, Vouched, Provisioned, UpToDate;
      Reset(s.budget);
      var on := HandlePostBoot(slots[current].state == PendingVerify, s.reportOk);
      if on {
        PollLoop(s.embedded, s.start, s.polls);
        if Vouched(lib, old(history), lastGood) {
          VouchedKept(lib, old(history), history, lastGood);
        }
      }
    }

    // Any number of sessions. The boot image is the one that was confirmed last, or it is the pending one
    // with that image to fall back to (Inv); the image confirmed last is the one from the beginning, or one
    // on record. Everything on record is justified: both repositories vouch for it by chains from their own
    // anchors, with metadata accepted at the time of a poll, and no record goes by metadata older than that
    // of an earlier one or older than the versions stored at the beginning. Anchors come only from the
    // firmware. Stored role versions never go down; nor do the versions of the two roots, from the first
    // boot on, if every root that is stored can be read back.
    method Life(sessions: seq<Session>)
      requires Inv()
      modifies this
      ensures Inv() && VersionsKept(old(versions), versions)
      ensures forall k :: k in old(versions) ==> k in versions && old(versions)[k] <= versions[k]
      ensures lastGood == old(lastGood) || Vouched(lib, history, lastGood)
      ensures old(history) <= history && CurrentIn(lib, history, |old(history)|, old(versions), sessions)
      ensures Extends(old(ground), ground)
      ensures forall a :: a in ground.anchors - old(ground.anchors) ==> FromFirmware(lib, sessions, a)
      ensures forall x :: x in ground.times - old(ground.times) ==> PolledIn(sessions, x)
      ensures old(RootsReadable()) && (forall k :: 0 <= k < |sessions| ==> SmallSession(sessions[k])) ==>
                RootsReadable() && RootsKept(old(StoredVersion(Director)), old(StoredVersion(Image)))
    {
      hide Inv, Vouched, Provisioned, SmallSession, UpToDate, PolledAt, VersionsKept;
      VersionsKeptSame(versions);
      for k := 0 to |sessions|
        invariant Inv() && VersionsKept(old(versions), versions)
        invariant lastGood == old(lastGood) || Vouched(lib, history, lastGood)
        invariant old(history) <= history && CurrentIn(lib, history, |old(history)|, old(versions), sessions)
        invariant Extends(old(ground), ground)
        invariant forall a :: a in ground.anchors - old(ground.anchors) ==> FromFirmware(lib, sessions, a)
        invariant forall x :: x in ground.times - old(ground.times) ==> PolledIn(sessions, x)
        invariant old(RootsReadable()) && (forall j :: 0 <= j < |sessions| ==> SmallSession(sessions[j])) ==>
                    RootsReadable() && RootsKept(old(StoredVersion(Director)), old(StoredVersion(Image)))
      {
        ghost var g, good, mid, h := ground, lastGood, versions, history;
        Boot(sessions[k]);
        VersionsKeptTwice(old(versions), mid, versions);
        CurrentOn(lib, h, history, |old(history)|, old(versions), mid, sessions, k);
        if lastGood == good && Vouched(lib, h, good) {
          VouchedKept(lib, h, history, good);
        }
        forall a | a in ground.anchors - old(ground.anchors) ensures FromFirmware(lib, sessions, a) {
          if a !in g.anchors {
            assert Provisioned(lib, sessions[k].embedded(a.repo), sessions[k].start, a.env);
          }
        }
        forall x | x in ground.times - old(ground.times) ensures PolledIn(sessions, x) {
          if x !in g.times {
            assert PolledAt(sessions[k].polls, x);
          }
        }
      }
      VersionsKeptIs(old(versions), versions);
    }
  }

  // ----- a stored root that is lost -----

  // A library that reads version 5 from a text over 8192 bytes and version 1 from a shorter one.
  function LossLibrary(): Library {
    var general := (r: real) => "";
    Library(general, (b: seq<Byte>) => Some(OneKeyRoot(if |b| > ROOT_READ_CAP then 5 else 1)), t => None,
            (key, text, sig) => true, b => b, t => None, CanonicalJson.Need(|CanonicalJson.Canonical(OneKeySigned(), general)|))
  }

  function OneKeySigned(): Json {
    PlainSigned(1, Item(Str("k"), NoItem), 1)
  }

  lemma OneKeyAccepted(lib: Library)
    requires PlainSigns(lib, 1, Item(Str("k"), NoItem), 1)
    ensures SignedPart(OneKeyRoot(1)) == Some(OneKeySigned()) && IsEnvelope(OneKeyRoot(1))
    ensures Accepted(lib, SignedPart(OneKeyRoot(1)), "root", OneKeyRoot(1), 0, 0)
  {
    hide PlainEnvelope, PlainSigns, Accepted, IsEnvelope, HasRole, Get, CanonicalJson.Canonical;
    var ids := Item(Str("k"), NoItem);
    PlainParts(1, ids, 1);
    PlainAccepted(lib, 1, 1, ids, 1, 0);
  }

  lemma LossParts(big: seq<Byte>, small: seq<Byte>)
    requires |big| > ROOT_READ_CAP >= |small| > 0
    ensures var lib := LossLibrary();
            && lib.parse(big).Some? && Version(SignedPart(lib.parse(big).value)) == 5
            && Bootable(lib, Some(small), 0) && EmbeddedVersion(lib, Some(small)) == 1
  {
    hide PlainEnvelope, PlainSigned, Version, Accepted, IsEnvelope, HasRole, Get, CanonicalJson.Canonical,
         CanonicalJson.Need;
    PlainParts(5, Item(Str("k"), NoItem), 1);
    PlainParts(1, Item(Str("k"), NoItem), 1);
    OneKeyAccepted(LossLibrary());
  }

  // A stored root of more than 8192 bytes with version 5, and a firmware that carries version 1.
  method LargeRootLost() returns (ghost before: int, d: Device)
    ensures before == 5 && d.StoredVersion(Director) == 1
  {
    hide LossLibrary, Bootable, Version, SignedPart, OneKeyRoot, PlainEnvelope;
    var big := seq(ROOT_READ_CAP + 1, i => 0);
    LossParts(big, [1]);
    d := new Device(LossLibrary(), "", map[Director := big], [], []);
    before := d.StoredVersion(Director);
    d.Reset(2);
    var err := d.InitAnchor(Director, Some([1]), 0);
  }
}
