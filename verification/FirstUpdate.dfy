/** One device from its first poll to its first confirmed update, with concrete files: the roots rotate,
    both repositories agree, the image is staged, booted and confirmed, and then left alone. */
module FirstUpdate {
  import opened Wrappers
  import opened Bits
  import opened Json
  import opened Uptane
  import opened Trust
  import opened Device
  import CanonicalJson
  import Dates

  // ----- the files: one text of version v serves as every file -----

  function Key(): Json {
    Obj(NoMember)
  }

  // One key, "k", with threshold one.
  function RoleOf(v: nat): Json {
    Obj(Member("keyids", Arr(Item(Str("k"), NoItem)), Member("threshold", Num(1.0), NoMember)))
  }

  function RolesOf(v: nat): Json {
    Obj(Member("root", RoleOf(v),
        Member("timestamp", RoleOf(v),
        Member("snapshot", RoleOf(v),
        Member("targets", RoleOf(v), NoMember)))))
  }

  // What is stated of a file: one byte, with this hash.
  function Stated(hash: Text, first: Members): Members {
    Member("hashes", Obj(Member("sha256", Str(hash), NoMember)), Member("length", Num(1.0), first))
  }

  function PinOf(v: nat): Json {
    Obj(Stated("meta", Member("version", Num(v as real), NoMember)))
  }

  function ImageOf(v: nat): Json {
    Obj(Stated("image", Member("custom", Obj(Member("hardwareIdentifier", Str("h"), NoMember)), NoMember)))
  }

  function MetaOf(v: nat): Json {
    Obj(Member("snapshot.json", PinOf(v), Member("targets.json", PinOf(v), NoMember)))
  }

  function Content(v: nat): Json {
    Obj(Member("version", Num(v as real),
        Member("keys", Obj(Member("k", Key(), NoMember)),
        Member("roles", RolesOf(v),
        Member("meta", MetaOf(v),
        Member("targets", Obj(Member("fw", ImageOf(v), NoMember)),
        Member("expires", Str("e"), NoMember)))))))
  }

  // The content with a signature by "k".
  function FileOf(v: nat): Json {
    Obj(Member("signed", Content(v),
        Member("signatures", Arr(Item(Obj(Member("keyid", Str("k"), Member("sig", Str("s"), NoMember))), NoItem)), NoMember)))
  }

  function Hash(b: Byte): seq<Byte> {
    seq(32, i => b)
  }

  // The byte v parses to the file of version v; the hash of one byte repeats it; everything expires two
  // seconds after the epoch.
  function Lib(memory: nat): Library {
    Library((r: real) => "",
            (b: seq<Byte>) => if |b| == 1 then Some(FileOf(b[0])) else None,
            (t: Text) => Some(Dates.Stamp(Dates.Date(1970, 1, 1), 0, 0, 2)),
            (key, text, sig) => key == Key() && sig == "s",
            (b: seq<Byte>) => if |b| == 1 then Hash(b[0]) else Hash(0),
            (t: Text) => if t == "meta" then Some(Hash(2)) else if t == "image" then Some(Hash(5)) else None,
            memory)
  }

  lemma ContentParts(v: nat)
    ensures var c := Some(Content(v));
            && Get(c, "version") == Some(Num(v as real)) && Get(c, "keys") == Some(Obj(Member("k", Key(), NoMember)))
            && Get(c, "roles") == Some(RolesOf(v)) && Get(c, "meta") == Some(MetaOf(v))
            && Get(c, "targets") == Some(Obj(Member("fw", ImageOf(v), NoMember))) && Get(c, "expires") == Some(Str("e"))
  {
    hide RolesOf, MetaOf, ImageOf, Key;
    var m6 := Member("expires", Str("e"), NoMember);
    var m5 := Member("targets", Obj(Member("fw", ImageOf(v), NoMember)), m6);
    var m4 := Member("meta", MetaOf(v), m5);
    var m3 := Member("roles", RolesOf(v), m4);
    var m2 := Member("keys", Obj(Member("k", Key(), NoMember)), m3);
    FindTwo("version", Num(v as real), m2);
    FindTwo("keys", m2.value, m3);
    FindTwo("roles", m3.value, m4);
    FindTwo("meta", m4.value, m5);
    FindTwo("targets", m5.value, m6);
    assert Content(v) == Obj(Member("version", Num(v as real), m2));
  }

  // A member is found at once, and passed over in the search for another.
  lemma FindTwo(name: Text, value: Json, rest: Members)
    ensures Find(Member(name, value, rest), name) == Some(value)
    ensures forall key :: key != name ==> Find(Member(name, value, rest), key) == Find(rest, key)
  {}

  lemma RoleFound(v: nat, name: Text)
    requires name == "root" || name == "timestamp" || name == "snapshot" || name == "targets"
    ensures Get(Some(RolesOf(v)), name) == Some(RoleOf(v))
    ensures Get(Some(RoleOf(v)), "keyids") == Some(Arr(Item(Str("k"), NoItem)))
    ensures Get(Some(RoleOf(v)), "threshold") == Some(Num(1.0))
  {
    var m4 := Member("targets", RoleOf(v), NoMember);
    var m3 := Member("snapshot", RoleOf(v), m4);
    var m2 := Member("timestamp", RoleOf(v), m3);
    FindTwo("root", RoleOf(v), m2);
    FindTwo("timestamp", RoleOf(v), m3);
    FindTwo("snapshot", RoleOf(v), m4);
    FindTwo("targets", RoleOf(v), NoMember);
    FindTwo("keyids", Arr(Item(Str("k"), NoItem)), Member("threshold", Num(1.0), NoMember));
    hide RoleOf;
  }

  lemma FileParts(v: nat)
    ensures SignedPart(FileOf(v)) == Some(Content(v)) && IsEnvelope(FileOf(v))
    ensures Get(Some(FileOf(v)), "signatures")
            == Some(Arr(Item(Obj(Member("keyid", Str("k"), Member("sig", Str("s"), NoMember))), NoItem)))
  {
    var signatures := Arr(Item(Obj(Member("keyid", Str("k"), Member("sig", Str("s"), NoMember))), NoItem));
    FindTwo("signed", Content(v), Member("signatures", signatures, NoMember));
  }

  // The one signature of a file is valid by the keys of any of them.
  lemma FileSigned(lib: Library, u: nat, w: nat)
    requires lib.verify(Key(), CanonicalJson.Canonical(Content(w), lib.general), "s")
    ensures IsEnvelope(FileOf(w)) && Get(Some(Content(u)), "keys").Some?
    ensures SignedBy(lib, Some(Content(u)), FileOf(w))("k")
  {
    hide CanonicalJson.Canonical, Content, FileOf;
    ContentParts(u);
    FileParts(w);
    var entry := Obj(Member("keyid", Str("k"), Member("sig", Str("s"), NoMember)));
    FindTwo("keyid", Str("k"), Member("sig", Str("s"), NoMember));
    assert Get(Some(entry), "keyid") == Some(Str("k")) && Get(Some(entry), "sig") == Some(Str("s"));
    assert FindSig(Item(entry, NoItem), "k") == Some(entry);
  }

  lemma TwoSeconds()
    ensures Dates.Seconds(Dates.Stamp(Dates.Date(1970, 1, 1), 0, 0, 2)) == Some(2)
  {}

  lemma Expiry(m: nat, v: nat)
    ensures Version(Some(Content(v))) == v && Expires(Lib(m), Some(Content(v))) == Some(2)
  {
    hide Content, Dates.Seconds;
    ContentParts(v);
    TwoSeconds();
  }

  lemma Verifies(m: nat, canon: string)
    ensures Lib(m).verify(Key(), canon, "s")
  {}

  // Every role of a file is accepted by the roles of any of them.
  lemma FileAccepted(m: nat, u: nat, w: nat, name: Text, minVersion: int)
    requires name == "root" || name == "timestamp" || name == "snapshot" || name == "targets"
    requires w >= minVersion
    ensures Accepted(Lib(m), SignedPart(FileOf(u)), name, FileOf(w), 1, minVersion)
  {
    hide Content, FileOf, RolesOf, RoleOf, CanonicalJson.Canonical, CanonicalJson.Need, SignedBy, Expires, Version, Lib;
    var lib, root := Lib(m), Some(Content(u));
    FileParts(u);
    FileParts(w);
    ContentParts(u);
    RoleFound(u, name);
    Verifies(m, CanonicalJson.Canonical(Content(w), lib.general));
    FileSigned(lib, u, w);
    assert Keyids(root, name) == ["k"] by {
      assert Strings(Item(Str("k"), NoItem)) == ["k"] + Strings(NoItem);
    }
    CountAll(Keyids(root, name), SignedBy(lib, root, FileOf(w)));
    Expiry(m, w);
  }

  // ----- what the files state of one another and of the image -----

  lemma Links(m: nat, v: nat)
    ensures var entry := Get(Some(MetaOf(v)), "snapshot.json");
            HashOf(Lib(m), entry) == Some((Hash(2), 1)) && PinnedVersion(entry) == v
    ensures Get(Some(MetaOf(v)), "targets.json") == Get(Some(MetaOf(v)), "snapshot.json")
  {
    hide CanonicalJson.Canonical, CanonicalJson.Need, Content;
    FindTwo("snapshot.json", PinOf(v), Member("targets.json", PinOf(v), NoMember));
    FindTwo("targets.json", PinOf(v), NoMember);
    var last := Member("version", Num(v as real), NoMember);
    FindStated("meta", last);
    FindTwo("version", Num(v as real), NoMember);
  }

  lemma FindStated(hash: Text, rest: Members)
    ensures var t := Some(Obj(Stated(hash, rest)));
            && Get(Get(t, "hashes"), "sha256") == Some(Str(hash)) && Get(t, "hashes").Some? && Get(t, "hashes").value.Obj?
            && Get(t, "length") == Some(Num(1.0))
            && Get(t, "version") == Find(rest, "version") && Get(t, "custom") == Find(rest, "custom")
  {
    var hashes := Obj(Member("sha256", Str(hash), NoMember));
    FindTwo("sha256", Str(hash), NoMember);
    FindTwo("hashes", hashes, Member("length", Num(1.0), rest));
    FindTwo("length", Num(1.0), rest);
  }

  function Update(): Target {
    Target("fw", Hash(5), 1)
  }

  lemma UpdateStated(m: nat, v: nat)
    ensures HashOf(Lib(m), Some(ImageOf(v))) == Some((Hash(5), 1)) && HwidMatches(Get(Some(ImageOf(v)), "custom"), "h")
  {
    hide CanonicalJson.Canonical, CanonicalJson.Need, Content;
    var custom := Obj(Member("hardwareIdentifier", Str("h"), NoMember));
    var rest := Member("custom", custom, NoMember);
    FindStated("image", rest);
    FindTwo("custom", custom, NoMember);
    FindTwo("hardwareIdentifier", Str("h"), NoMember);
  }

  lemma UpdateAssigned(m: nat, v: nat)
    ensures Assigned(Lib(m), SignedPart(FileOf(v)), "h", Update()) && Lists(Lib(m), SignedPart(FileOf(v)), Update())
  {
    hide Content, FileOf, HashOf, HwidMatches, ImageOf, Hash, Lib;
    FileParts(v);
    ContentParts(v);
    UpdateStated(m, v);
    FindTwo("fw", ImageOf(v), NoMember);
    assert !HasDotDot("fw");
  }

  // ----- the device -----

  // The server answers every request with the file of version 2; the device has the roots of version 1.
  function Answer(): Server {
    (repo: Repo, file: File) => Some([2])
  }

  function FirstPoll(): Poll {
    Poll(Answer(), 1, Download([[5]], true, true, true))
  }

  function FirstRoots(): map<Repo, seq<Byte>> {
    map[Director := [1], Image := [1]]
  }

  // Memory for the text that is signed.
  ghost predicate Enough(m: nat, v: nat) {
    v == 2 && CanonicalJson.Need(|CanonicalJson.Canonical(Content(v), Lib(m).general)|) <= m
  }

  lemma AnswerIs(m: nat, v: nat, repo: Repo, file: File)
    requires Enough(m, v)
    ensures Answer()(repo, file).Some? && IsServed(Lib(m), Answer(), repo, file)
    ensures Served(Lib(m), Answer(), repo, file) == FileOf(v) && Fits(Lib(m), FileOf(v))
  {
    FileParts(v);
    hide Content, FileOf, CanonicalJson.Canonical, CanonicalJson.Need;
  }

  lemma FirstRoot(m: nat, repo: Repo)
    ensures var roots := FirstRoots(); repo in roots && Readable(roots, repo) && Lib(m).parse(roots[repo]) == Some(FileOf(1))
  {
    hide FileOf;
  }

  lemma OneLink(lib: Library, server: Server, repo: Repo, now: int, cur: Json, i: int)
    requires Adoptable(lib, server, repo, now, cur, i)
    ensures Rotation(lib, server, repo, now, cur, i, i)
  {
    hide Adoptable;
  }

  lemma Rotates(m: nat, v: nat, repo: Repo)
    requires Enough(m, v)
    ensures Walkable(Lib(m), FirstRoots(), repo, Answer(), 1)
    ensures WalkEnd(Lib(m), FirstRoots(), repo, Answer()) == FileOf(v)
    ensures WalkCost(Lib(m), FirstRoots(), repo, Answer()) == 2
  {
    hide Accepted, Content, FileOf, Version, Served, IsServed, Fits, Enough, FirstRoots, Rotation, Lib, Answer, Readable;
    FirstRoot(m, repo);
    AnswerIs(m, v, repo, LatestRoot);
    AnswerIs(m, v, repo, NumberedRoot(v));
    Expiry(m, 1);
    Expiry(m, v);
    FileParts(1);
    FileParts(v);
    FileAccepted(m, 1, v, "root", v);
    FileAccepted(m, v, v, "root", v);
    OneLink(Lib(m), Answer(), repo, 1, FileOf(1), v);
    IsTwo(m, v);
  }

  lemma IsTwo(m: nat, v: nat)
    requires Enough(m, v)
    ensures v == 2
  {}

  lemma RolesArrive(m: nat, v: nat, repo: Repo)
    requires Enough(m, v)
    ensures RolesFetchable(Lib(m), map[], repo, FileOf(v), Answer(), 1)
  {
    hide Accepted, Content, FileOf, Version, Served, IsServed, Fits, Enough, Lib;
    AnswerIs(m, v, repo, RoleFile(Timestamp));
    AnswerIs(m, v, repo, RoleFile(Snapshot));
    AnswerIs(m, v, repo, RoleFile(Targets));
    FileAccepted(m, v, v, "timestamp", 0);
    FileAccepted(m, v, v, "snapshot", 0);
    FileAccepted(m, v, v, "targets", 0);
  }

  lemma FilesTied(m: nat, v: nat)
    requires Enough(m, v)
    ensures Tied(Lib(m), ServedFiles(Lib(m), Answer()))
  {
    AnswerIs(m, v, Image, RoleFile(Timestamp));
    AnswerIs(m, v, Image, RoleFile(Snapshot));
    AnswerIs(m, v, Image, RoleFile(Targets));
    FileParts(v);
    ContentParts(v);
    Expiry(m, v);
    Links(m, v);
    hide Content, FileOf, MetaOf, Version, HashOf, PinnedVersion, Enough, Served;
  }

  lemma Arrives(m: nat)
    ensures Delivers(Lib(m), FirstPoll().download, Update()) && |FirstPoll().download.chunks| == 1
  {
    hide Content, FileOf;
    assert Flatten([[5]]) == Flatten([]) + [5];
  }

  // Everything the first poll needs is there.
  lemma FirstUpdates(m: nat, v: nat)
    requires Enough(m, v)
    ensures Updates(Lib(m), FirstRoots(), map[], "h", FirstPoll(), Update())
    ensures UpdateCost(Lib(m), FirstRoots(), FirstPoll()) == 14
  {
    hide Content, FileOf, Walkable, WalkEnd, WalkCost, RolesFetchable, Tied, Assigned, Lists, Delivers, Served,
         FirstRoots, Lib, Answer, Enough, ServedFiles, Update;
    Rotates(m, v, Director);
    Rotates(m, v, Image);
    RolesArrive(m, v, Director);
    RolesArrive(m, v, Image);
    FilesTied(m, v);
    AnswerIs(m, v, Director, RoleFile(Targets));
    AnswerIs(m, v, Image, RoleFile(Targets));
    UpdateAssigned(m, v);
    Arrives(m);
  }

  // The image of the update is the one byte that was downloaded.
  lemma ImageBytes(m: nat, s: Slot)
    requires HasImage(Lib(m), s, Update())
    ensures s.bytes == [5]
  {
    hide FileOf;
    assert Hash(5)[0] == 5 && |s.bytes| == 1;
    assert Hash(s.bytes[0])[0] == s.bytes[0];
  }

  // A new device that has been started.
  method Started(m: nat) returns (d: Device)
    ensures fresh(d) && d.Running() && d.lib == Lib(m) && d.hwid == "h" && d.roots == FirstRoots()
    ensures d.versions == map[]
    ensures d.running == None && d.boot == 0 && d.power == 14
  {
    hide Lib, FirstRoots, RootsChained, Proved, NoRollback, Recorded;
    d := new Device(Lib(m), "h", FirstRoots(), [0], []);
    d.Reset(14);
  }

  method Installs(m: nat, ghost v: nat) returns (d: Device, installed: bool)
    requires Enough(m, v)
    ensures fresh(d) && d.Inv() && d.lib == Lib(m) && d.hwid == "h" && installed && d.running == None
    ensures |d.slots| == 2 && d.boot == 1 && d.slots[1].state == New && d.slots[1].bytes == [5]
    ensures d.pending == Some(Update())
  {
    hide Lib, FirstRoots, Enough, FirstPoll, Updates, UpdateCost, Assigned, Device.Inv, VersionsKept, Update, HasImage,
         Device.WrittenFor, Served, Device.RootsKept, Device.StoredVersion, Device.RootsReadable;
    d := Started(m);
    FirstUpdates(m, v);
    var err;
    err, installed := d.PollOnce(FirstPoll());
    ImageBytes(m, d.slots[d.boot]);
  }

  // The next boot tries the image and confirms it.
  method Confirms(d: Device)
    requires d.Inv() && |d.slots| == 2 && d.boot == 1 && d.slots[1].state == New && d.pending.Some?
    modifies d
    ensures d.Running() && d.running == old(d.pending) && d.pending == None && d.boot == 1
    ensures |d.slots| == 2 && d.slots[1].bytes == old(d.slots)[1].bytes
  {
    hide Installed, RootsChained, Proved, NoRollback, Recorded;
    d.Reset(3);
    var on := d.HandlePostBoot(true, true);
  }

  lemma StillAssigned(m: nat, v: nat)
    requires Enough(m, v)
    ensures Assigned(Lib(m), SignedPart(Served(Lib(m), FirstPoll().server, Director, RoleFile(Targets))), "h", Update())
  {
    hide Assigned, Lib, FileOf, Served;
    AnswerIs(m, v, Director, RoleFile(Targets));
    UpdateAssigned(m, v);
  }

  // The next poll finds the same image and leaves it alone.
  method Repeats(d: Device, ghost m: nat, ghost v: nat) returns (again: bool)
    requires Enough(m, v) && d.Running() && d.lib == Lib(m) && d.hwid == "h" && d.running == Some(Update())
    modifies d
    ensures !again && d.slots == old(d.slots) && d.boot == old(d.boot) && d.pending == old(d.pending)
    ensures d.running == old(d.running)
  {
    hide Lib, Enough, FirstPoll, Updates, UpdateCost, Assigned, Device.Inv, VersionsKept, Update, Served,
         Device.WrittenFor, Device.RootsKept, Device.StoredVersion, Device.RootsReadable, Device.Staged, Confirmed;
    StillAssigned(m, v);
    var err;
    err, again := d.PollOnce(FirstPoll());
  }

  // The first poll installs the update, the next boot confirms it, and the next poll leaves it alone.
  method FirstUpdate() returns (d: Device, installed: bool, again: bool)
    ensures installed && d.running == Some(Target("fw", Hash(5), 1)) && d.pending == None && d.boot == 1
    ensures |d.slots| == 2 && d.slots[1].bytes == [5] && !again
  {
    hide Content, Lib, Device.Inv, Device.Running, CanonicalJson.Canonical, CanonicalJson.Need;
    ghost var v := 2;
    var m := CanonicalJson.Need(|CanonicalJson.Canonical(Content(2), (r: real) => "")|);
    Memory(m, v);
    d, installed := Installs(m, v);
    Confirms(d);
    again := Repeats(d, m, v);
  }

  lemma Memory(m: nat, v: nat)
    requires v == 2 && m == CanonicalJson.Need(|CanonicalJson.Canonical(Content(v), (r: real) => "")|)
    ensures Enough(m, v)
  {
    hide Content, CanonicalJson.Canonical, CanonicalJson.Need;
  }
}
