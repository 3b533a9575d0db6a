/** Content-addressed payload files: writing them so that a crash at any step leaves no damaged name. */
module PayloadFiles {
  import opened Bytes

  /** `<sha256>`, or the hidden temporary file a write of it goes through. */
  datatype Name = Digest(sha256: string) | Temporary(sha256: string, unique: string)

  datatype Payload = Payload(sha256: string, data: bytes)

  /** A file or another node. The bytes of a file are sure to survive a crash only once synced. */
  datatype Inode = Inode(file: bool, data: bytes, synced: bool)

  /** A directory with the nodes it names, and each state it had since it was last synced: after a
      crash, any name may be found as it was in any of them. */
  datatype Disk = Disk(inodes: seq<Inode>, entries: map<Name, nat>, versions: seq<map<Name, nat>>) {
    predicate Valid() {
      && versions != [] && versions[|versions| - 1] == entries
      && forall v, name :: v in versions && name in v ==> v[name] < |inodes|
    }
  }

  datatype View = Missing | NotFile | Holds(data: bytes)

  function ViewOf(inodes: seq<Inode>, id: nat): View
    requires id < |inodes|
  {
    if inodes[id].file then Holds(inodes[id].data) else NotFile
  }

  /** What a reader finds under a name now. */
  function Live(d: Disk, name: Name): View
    requires d.Valid()
  {
    if name in d.entries then assert d.entries in d.versions; ViewOf(d.inodes, d.entries[name]) else Missing
  }

  /** What a version of the directory can show under a name after a crash: bytes never synced may
      be any bytes. */
  predicate Survives(d: Disk, version: map<Name, nat>, name: Name, seen: View)
    requires d.Valid() && version in d.versions
  {
    if name !in version then seen.Missing?
    else
      var inode := d.inodes[version[name]];
      if !inode.file then seen.NotFile? else seen.Holds? && (inode.synced ==> seen.data == inode.data)
  }

  /** What may be found under a name after a crash. */
  ghost predicate AfterCrash(d: Disk, name: Name, seen: View)
    requires d.Valid()
  {
    exists version :: version in d.versions && Survives(d, version, name, seen)
  }

  // The steps of a write, on the disk.

  function Listed(d: Disk, entries: map<Name, nat>): Disk {
    d.(entries := entries, versions := d.versions + [entries])
  }

  function Created(d: Disk, name: Name): Disk {
    Listed(d.(inodes := d.inodes + [Inode(true, [], false)]), d.entries[name := |d.inodes|])
  }

  function Written(d: Disk, id: nat, data: bytes): Disk
    requires id < |d.inodes|
  {
    d.(inodes := d.inodes[id := Inode(true, data, false)])
  }

  function Synced(d: Disk, id: nat): Disk
    requires id < |d.inodes|
  {
    d.(inodes := d.inodes[id := d.inodes[id].(synced := true)])
  }

  function Renamed(d: Disk, old0: Name, name: Name): Disk
    requires old0 in d.entries
  {
    Listed(d, (d.entries - {old0})[name := d.entries[old0]])
  }

  function Removed(d: Disk, name: Name): Disk {
    Listed(d, d.entries - {name})
  }

  function DirectorySynced(d: Disk): Disk {
    d.(versions := [d.entries])
  }

  // What every step keeps.

  /** A whole payload stands under the name, safe from a crash. */
  predicate Whole(d: Disk, id: nat, sha256: string, payloads: set<Payload>) {
    && id < |d.inodes| && d.inodes[id].file && d.inodes[id].synced
    && Payload(sha256, d.inodes[id].data) in payloads
  }

  function Entry(version: map<Name, nat>, name: Name): (id: int) {
    if name in version then version[name] else -1
  }

  /** A digest name in a version of the directory is as in some version at the start, or whole. */
  ghost predicate Traced(start: Disk, d: Disk, version: map<Name, nat>, sha256: string, payloads: set<Payload>) {
    || (exists v :: v in start.versions && Entry(version, Digest(sha256)) == Entry(v, Digest(sha256)))
    || (Digest(sha256) in version && Whole(d, version[Digest(sha256)], sha256, payloads))
  }

  ghost predicate TracedLive(start: Disk, d: Disk, sha256: string, payloads: set<Payload>) {
    || Entry(d.entries, Digest(sha256)) == Entry(start.entries, Digest(sha256))
    || (Digest(sha256) in d.entries && Whole(d, d.entries[Digest(sha256)], sha256, payloads))
  }

  ghost predicate Kept(start: Disk, d: Disk, payloads: set<Payload>) {
    && start.Valid() && d.Valid()
    && |start.inodes| <= |d.inodes| && d.inodes[..|start.inodes|] == start.inodes
    && (forall v, sha256 :: v in d.versions ==> Traced(start, d, v, sha256, payloads))
    && (forall sha256 :: TracedLive(start, d, sha256, payloads))
  }

  /** The node is new, and no digest name was ever given to it. */
  ghost predicate Private(start: Disk, d: Disk, id: nat) {
    && |start.inodes| <= id < |d.inodes|
    && forall v, sha256 :: v in d.versions ==> Entry(v, Digest(sha256)) != id
  }

  lemma StartIsKept(d: Disk, payloads: set<Payload>)
    requires d.Valid()
    ensures Kept(d, d, payloads)
  {
  }

  /** A change of the nodes that leaves those at the start and every named whole payload alone. */
  lemma NodesKept(start: Disk, d: Disk, e: Disk, id: nat, payloads: set<Payload>)
    requires Kept(start, d, payloads) && Private(start, d, id)
    requires e.entries == d.entries && e.versions == d.versions && |e.inodes| == |d.inodes|
    requires forall i :: 0 <= i < |d.inodes| && i != id ==> e.inodes[i] == d.inodes[i]
    ensures Kept(start, e, payloads) && Private(start, e, id)
  {
    assert e.inodes[..|start.inodes|] == start.inodes;
    forall v, sha256 | v in e.versions ensures Traced(start, e, v, sha256, payloads) {
      assert Traced(start, d, v, sha256, payloads);
    }
    forall sha256 ensures TracedLive(start, e, sha256, payloads) {
      assert TracedLive(start, d, sha256, payloads);
      assert d.entries in d.versions;
    }
  }

  /** One more version of the directory. */
  lemma VersionKept(start: Disk, d: Disk, entries: map<Name, nat>, payloads: set<Payload>)
    requires Kept(start, d, payloads)
    requires forall name :: name in entries ==> entries[name] < |d.inodes|
    requires forall sha256 :: Entry(entries, Digest(sha256)) == Entry(d.entries, Digest(sha256))
               || (Digest(sha256) in entries && Whole(d, entries[Digest(sha256)], sha256, payloads))
    ensures Kept(start, Listed(d, entries), payloads)
  {
    var e := Listed(d, entries);
    forall v, sha256 | v in e.versions ensures Traced(start, e, v, sha256, payloads) {
      assert d.entries in d.versions;
      assert Traced(start, d, d.entries, sha256, payloads);
      if v in d.versions {
        assert Traced(start, d, v, sha256, payloads);
      }
    }
    forall sha256 ensures TracedLive(start, e, sha256, payloads) {
      assert TracedLive(start, d, sha256, payloads);
    }
    assert e.Valid() by {
      assert forall v, name :: v in e.versions && name in v ==> v in d.versions || v == entries;
    }
  }

  lemma CreateKept(start: Disk, d: Disk, name: Name, payloads: set<Payload>)
    requires Kept(start, d, payloads) && name.Temporary? && name !in d.entries
    ensures Kept(start, Created(d, name), payloads) && Private(start, Created(d, name), |d.inodes|)
  {
    var grown := d.(inodes := d.inodes + [Inode(true, [], false)]);
    assert Kept(start, grown, payloads) by {
      assert grown.inodes[..|start.inodes|] == start.inodes;
      forall v, sha256 | v in grown.versions ensures Traced(start, grown, v, sha256, payloads) {
        assert Traced(start, d, v, sha256, payloads);
      }
      forall sha256 ensures TracedLive(start, grown, sha256, payloads) {
        assert TracedLive(start, d, sha256, payloads);
      }
    }
    assert d.entries in d.versions;
    VersionKept(start, grown, d.entries[name := |d.inodes|], payloads);
  }

  lemma RenameKept(start: Disk, d: Disk, temporary: Name, payload: Payload, payloads: set<Payload>)
    requires Kept(start, d, payloads) && temporary.Temporary? && temporary in d.entries && payload in payloads
    requires d.entries[temporary] < |d.inodes| && d.inodes[d.entries[temporary]] == Inode(true, payload.data, true)
    ensures Kept(start, Renamed(d, temporary, Digest(payload.sha256)), payloads)
  {
    assert d.entries in d.versions;
    VersionKept(start, d, (d.entries - {temporary})[Digest(payload.sha256) := d.entries[temporary]], payloads);
  }

  lemma RemoveKept(start: Disk, d: Disk, temporary: Name, payloads: set<Payload>)
    requires Kept(start, d, payloads) && temporary.Temporary?
    ensures Kept(start, Removed(d, temporary), payloads)
  {
    assert d.entries in d.versions;
    VersionKept(start, d, d.entries - {temporary}, payloads);
  }

  lemma DirectorySyncKept(start: Disk, d: Disk, payloads: set<Payload>)
    requires Kept(start, d, payloads)
    ensures Kept(start, DirectorySynced(d), payloads)
  {
    var e := DirectorySynced(d);
    assert d.entries in d.versions && start.entries in start.versions;
    forall sha256 ensures TracedLive(start, e, sha256, payloads) && Traced(start, e, e.entries, sha256, payloads) {
      assert TracedLive(start, d, sha256, payloads);
    }
  }

  /** Cut here, each digest name is found as it could have been found before, or holding its whole
      payload. */
  lemma CutIsSafe(start: Disk, d: Disk, payloads: set<Payload>, sha256: string, seen: View)
    requires Kept(start, d, payloads) && AfterCrash(d, Digest(sha256), seen)
    ensures AfterCrash(start, Digest(sha256), seen) || (seen.Holds? && Payload(sha256, seen.data) in payloads)
  {
    var v :| v in d.versions && Survives(d, v, Digest(sha256), seen);
    assert Traced(start, d, v, sha256, payloads);
    if w :| w in start.versions && Entry(v, Digest(sha256)) == Entry(w, Digest(sha256)) {
      assert Digest(sha256) in w ==> start.inodes[w[Digest(sha256)]] == d.inodes[..|start.inodes|][w[Digest(sha256)]];
      assert Survives(start, w, Digest(sha256), seen);
    }
  }

  /** The same of what a reader finds without a crash. */
  lemma LiveIsSafe(start: Disk, d: Disk, payloads: set<Payload>, sha256: string)
    requires Kept(start, d, payloads)
    ensures Live(d, Digest(sha256)) == Live(start, Digest(sha256))
      || (Live(d, Digest(sha256)).Holds? && Payload(sha256, Live(d, Digest(sha256)).data) in payloads)
  {
    assert TracedLive(start, d, sha256, payloads);
    assert start.entries in start.versions;
    if Digest(sha256) in start.entries {
      var id := start.entries[Digest(sha256)];
      assert d.inodes[..|start.inodes|][id] == start.inodes[id];
    }
  }

  /** A digest names one text of bytes among the payloads: SHA-256 taken as injective. */
  predicate OneDataPerDigest(payloads: set<Payload>) {
    forall p, q :: p in payloads && q in payloads && p.sha256 == q.sha256 ==> p.data == q.data
  }

  /** A name that a crash could not take from its payload keeps it through every step. */
  lemma HeldStaysHeld(start: Disk, d: Disk, payloads: set<Payload>, p: Payload)
    requires Kept(start, d, payloads) && OneDataPerDigest(payloads) && p in payloads && Durable(start, p)
    ensures Durable(d, p)
  {
    forall seen | AfterCrash(d, Digest(p.sha256), seen) ensures seen == Holds(p.data) {
      CutIsSafe(start, d, payloads, p.sha256, seen);
    }
  }

  /** A crash cannot take the name from its payload. */
  ghost predicate Durable(d: Disk, p: Payload)
    requires d.Valid()
  {
    forall seen :: AfterCrash(d, Digest(p.sha256), seen) ==> seen == Holds(p.data)
  }

  /** A name is safe with its payload exactly when, in each state the directory had since its last sync, it
      leads to a synced file of that payload. */
  lemma DurableExactly(d: Disk, p: Payload)
    requires d.Valid()
    ensures Durable(d, p) <==>
      forall v :: v in d.versions ==>
        Digest(p.sha256) in v && d.inodes[v[Digest(p.sha256)]] == Inode(true, p.data, true)
  {
    var name := Digest(p.sha256);
    if Durable(d, p) {
      forall v | v in d.versions ensures name in v && d.inodes[v[name]] == Inode(true, p.data, true) {
        assert name in v by { assert name !in v ==> Survives(d, v, name, Missing) && AfterCrash(d, name, Missing); }
        var inode := d.inodes[v[name]];
        assert inode.file by { assert !inode.file ==> Survives(d, v, name, NotFile) && AfterCrash(d, name, NotFile); }
        var other := p.data + [0];
        assert inode.synced by {
          assert !inode.synced ==> Survives(d, v, name, Holds(other)) && AfterCrash(d, name, Holds(other));
        }
        assert Survives(d, v, name, Holds(inode.data)) && AfterCrash(d, name, Holds(inode.data));
      }
    }
  }

  /** The steps of a first write, up to a failing sync of the directory. */
  function CutBeforeSync(d: Disk, p: Payload, unique: string): Disk
    requires d.Valid()
  {
    var temporary, id := Temporary(p.sha256, unique), |d.inodes|;
    Renamed(Synced(Written(Created(d, temporary), id, p.data), id), temporary, Digest(p.sha256))
  }

  /** A payload can be shown and still be lost: after a call that failed at the directory sync the name shows
      it, so the next call finds it held, writes nothing and syncs nothing, yet a crash may take the name. */
  lemma HeldButNotSafe(p: Payload, unique: string)
    ensures var d := CutBeforeSync(Disk([], map[], [map[]]), p, unique);
      d.Valid() && AllHeld(d, [p]) && NodeSynced(d, p) && !Durable(d, p) && AfterCrash(d, Digest(p.sha256), Missing)
  {
    var start := Disk([], map[], [map[]]);
    var temporary := Temporary(p.sha256, unique);
    var d := CutBeforeSync(start, p, unique);
    assert d.entries == map[Digest(p.sha256) := 0];
    assert d.versions == [map[], map[temporary := 0], map[Digest(p.sha256) := 0]];
    assert d.inodes == [Inode(true, p.data, true)];
    assert d.versions[0] in d.versions;
    assert Survives(d, d.versions[0], Digest(p.sha256), Missing);
    assert AfterCrash(d, Digest(p.sha256), Missing) && Missing != Holds(p.data);
  }

  /** The steps of a first write without the sync of the file. */
  function UnsyncedWrite(d: Disk, p: Payload, unique: string): Disk
    requires d.Valid()
  {
    var temporary := Temporary(p.sha256, unique);
    Renamed(Written(Created(d, temporary), |d.inodes|, p.data), temporary, Digest(p.sha256))
  }

  /** Syncing the file before the rename is needed: without it a crash can leave any bytes under the name. */
  lemma UnsyncedMayBeDamaged(p: Payload, unique: string, found: bytes)
    ensures var d := UnsyncedWrite(Disk([], map[], [map[]]), p, unique);
      d.Valid() && AllHeld(d, [p]) && AfterCrash(d, Digest(p.sha256), Holds(found))
  {
    var temporary := Temporary(p.sha256, unique);
    var d := UnsyncedWrite(Disk([], map[], [map[]]), p, unique);
    assert d.entries == map[Digest(p.sha256) := 0];
    assert d.versions == [map[], map[temporary := 0], map[Digest(p.sha256) := 0]];
    assert d.inodes == [Inode(true, p.data, false)];
    assert d.versions[2] in d.versions;
    assert Survives(d, d.versions[2], Digest(p.sha256), Holds(found));
  }

  /** No file has the name of a temporary file to be made. */
  predicate Fresh(d: Disk, payloads: seq<Payload>, uniques: seq<string>)
    requires |payloads| == |uniques|
  {
    forall i :: 0 <= i < |payloads| ==> Temporary(payloads[i].sha256, uniques[i]) !in d.entries
  }

  predicate AllHeld(d: Disk, payloads: seq<Payload>)
    requires d.Valid()
  {
    forall p :: p in payloads ==> Live(d, Digest(p.sha256)) == Holds(p.data)
  }

  /** The node that the name leads to is synced. */
  predicate NodeSynced(d: Disk, p: Payload)
    requires d.Valid()
  {
    Digest(p.sha256) in d.entries && (assert d.entries in d.versions; d.inodes[d.entries[Digest(p.sha256)]].synced)
  }

  predicate Stored(d: Disk, p: Payload) {
    Digest(p.sha256) in d.entries && Whole(d, d.entries[Digest(p.sha256)], p.sha256, {p})
  }

  /** Where the operating system refuses a step. */
  datatype Fault = NoFault | OpenFault | WriteFault(part: nat) | SyncFault | RenameFault

  class PayloadDirectory {
    var disk: Disk
    /** The disk after each step so far. */
    ghost var trace: seq<Disk>

    constructor (disk: Disk)
      ensures this.disk == disk && trace == []
    {
      this.disk := disk;
      trace := [];
    }

    /** One step of the file system. */
    method Apply(next: Disk)
      modifies this
      ensures disk == next && trace == old(trace) + [next]
    {
      disk := next;
      trace := trace + [next];
    }

    /** A node that cannot be examined or read is taken as not held. */
    method HoldsPayload(payload: Payload, unreadable: bool) returns (held: bool)
      requires disk.Valid()
      ensures held <==> !unreadable && Live(disk, Digest(payload.sha256)) == Holds(payload.data)
    {
      var path := Digest(payload.sha256);
      if unreadable || path !in disk.entries {
        return false;
      }
      assert disk.entries in disk.versions;
      var node := disk.inodes[disk.entries[path]];
      held := node.file && |node.data| == |payload.data| && node.data == payload.data;
    }

    /** Write one payload through a temporary file and a rename. */
    method WritePayload(ghost start: Disk, payload: Payload, ghost payloads: set<Payload>, unique: string, fault: Fault)
      returns (ok: bool)
      requires Kept(start, disk, payloads) && payload in payloads
      requires forall d :: d in trace ==> Kept(start, d, payloads)
      modifies this
      ensures Kept(start, disk, payloads)
      ensures forall d :: d in trace ==> Kept(start, d, payloads)
      ensures ok <==> fault.NoFault? && Temporary(payload.sha256, unique) !in old(disk).entries
      ensures ok ==> Stored(disk, payload) && |old(disk).inodes| < |disk.inodes|
      ensures forall t: Name :: t.Temporary? && t in disk.entries ==> t in old(disk).entries
      ensures Temporary(payload.sha256, unique) !in disk.entries
      ensures ok ==> forall sha256 :: sha256 != payload.sha256 ==>
        Entry(disk.entries, Digest(sha256)) == Entry(old(disk).entries, Digest(sha256))
      ensures |old(disk).inodes| <= |disk.inodes| && disk.inodes[..|old(disk).inodes|] == old(disk).inodes
    {
      hide Kept, Private;
      var temporary := Temporary(payload.sha256, unique);
      if fault.OpenFault? || temporary in disk.entries {
        RemoveKept(start, disk, temporary, payloads);
        Apply(Removed(disk, temporary));
        return false;
      }
      CreateKept(start, disk, temporary, payloads);
      var id := |disk.inodes|;
      Apply(Created(disk, temporary));
      var part := if fault.WriteFault? && fault.part <= |payload.data| then fault.part else |payload.data|;
      NodesKept(start, disk, Written(disk, id, payload.data[..part]), id, payloads);
      Apply(Written(disk, id, payload.data[..part]));
      if !fault.WriteFault? && !fault.SyncFault? {
        assert payload.data[..part] == payload.data;
        NodesKept(start, disk, Synced(disk, id), id, payloads);
        Apply(Synced(disk, id));
        if !fault.RenameFault? {
          RenameKept(start, disk, temporary, payload, payloads);
          Apply(Renamed(disk, temporary, Digest(payload.sha256)));
          return true;
        }
      }
      RemoveKept(start, disk, temporary, payloads);
      Apply(Removed(disk, temporary));
      return false;
    }

    /** Every step of the whole call keeps what was there, and on return every payload is held. A call that
        wrote anything has synced the directory, so a payload is then safe from a crash exactly when its node
        is synced, as that of every payload written is; a call that wrote nothing leaves the disk as it was. */
    method WritePayloadFiles(payloads: seq<Payload>, uniques: seq<string>, unreadable: seq<bool>, faults: seq<Fault>,
                             windows: bool, directoryFault: bool) returns (ok: bool)
      requires disk.Valid() && trace == [] && |uniques| == |unreadable| == |payloads| == |faults|
      requires OneDataPerDigest(set p | p in payloads)
      modifies this
      ensures Kept(old(disk), disk, set p | p in payloads)
      ensures forall d :: d in trace ==> Kept(old(disk), d, set p | p in payloads)
      ensures (forall f :: f in faults ==> f.NoFault?) && !directoryFault && Fresh(old(disk), payloads, uniques) ==> ok
      ensures AllHeld(old(disk), payloads) && true !in unreadable ==> ok && disk == old(disk)
      ensures ok ==> AllHeld(disk, payloads)
      ensures forall t: Name :: t.Temporary? && t in disk.entries ==> t in old(disk).entries
      ensures ok && !windows && disk != old(disk) ==> forall p :: p in payloads ==> (Durable(disk, p) <==> NodeSynced(disk, p))
      ensures ok && !windows ==> forall p :: p in payloads && Live(old(disk), Digest(p.sha256)) != Holds(p.data) ==>
                Durable(disk, p)
    {
      hide Kept;
      ghost var start, all := disk, (set p | p in payloads);
      StartIsKept(disk, all);
      var renamed := false;
      for i := 0 to |payloads|
        invariant Kept(start, disk, all)
        invariant forall d :: d in trace ==> Kept(start, d, all)
        invariant disk.Valid() && AllHeld(disk, payloads[..i])
        invariant if renamed then |start.inodes| < |disk.inodes| else disk == start
        invariant renamed ==> true in unreadable || !AllHeld(start, payloads)
        invariant forall t: Name :: t.Temporary? && t in disk.entries ==> t in start.entries
      {
        var held := HoldsPayload(payloads[i], unreadable[i]);
        if !held {
          ghost var before := disk;
          var written := WritePayload(start, payloads[i], all, uniques[i], faults[i]);
          if !written {
            return false;
          }
          assert !renamed ==> payloads[i] in payloads && (unreadable[i] ==> true in unreadable);
          renamed := true;
          KeptIsValid(start, disk, all);
        }
        assert payloads[..i + 1] == payloads[..i] + [payloads[i]];
      }
      assert payloads[..|payloads|] == payloads;
      if renamed && !windows {
        if directoryFault {
          return false;
        }
        DirectorySyncKept(start, disk, all);
        ghost var unsynced := disk;
        Apply(DirectorySynced(disk));
        SyncedIsDurable(start, unsynced, payloads);
      }
      return true;
    }
  }

  lemma KeptIsValid(start: Disk, d: Disk, payloads: set<Payload>)
    requires Kept(start, d, payloads)
    ensures d.Valid() && start.Valid()
  {
  }

  /** Once the directory is synced, what was written is what a crash leaves. */
  lemma SyncedIsDurable(start: Disk, d: Disk, payloads: seq<Payload>)
    requires Kept(start, d, set p | p in payloads)
    requires AllHeld(d, payloads)
    ensures var e := DirectorySynced(d);
      && e.Valid() && AllHeld(e, payloads)
      && (forall p :: p in payloads ==> (Durable(e, p) <==> NodeSynced(e, p)))
      && (forall p :: p in payloads && Live(start, Digest(p.sha256)) != Holds(p.data) ==> Durable(e, p))
  {
    var all, e := (set p | p in payloads), DirectorySynced(d);
    assert d.entries in d.versions;
    assert AllHeld(e, payloads) by {
      assert forall p :: p in payloads ==> Live(e, Digest(p.sha256)) == Live(d, Digest(p.sha256));
    }
    forall p | p in payloads ensures Durable(e, p) <==> NodeSynced(e, p) {
      DurableExactly(e, p);
      assert Live(e, Digest(p.sha256)) == Holds(p.data);
    }
    forall p, seen | p in payloads && Live(start, Digest(p.sha256)) != Holds(p.data) && AfterCrash(e, Digest(p.sha256), seen)
      ensures seen == Holds(p.data)
    {
      assert TracedLive(start, d, p.sha256, all);
    }
  }
}
