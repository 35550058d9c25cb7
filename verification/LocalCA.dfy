/**
 The local certificate authority (internal/providers/ssl/localca/localca.go) as files that
 are written one at a time. Every operation runs under one mutex, but a crash or a failing
 write can stop it between any two writes; an operation is judged at every stopping point.
 */
module LocalCA {
  import opened Wrappers

  type Id(==, !new, 0)
  type Hostname = string

  /** A key pair; a certificate names the key it certifies and the key that signed it. */
  type Key(==, !new, 0)

  datatype Leaf = Leaf(hostname: Hostname, subject: Key, signer: Key)

  datatype Status = Valid | Revoked

  datatype Meta = Meta(hostname: Hostname, status: Status, created: int)

  datatype Disk = Disk(
    caKey: Option<Key>,
    caCert: Option<Key>,        // the self-signed root, by its key
    leafKeys: map<Id, Key>,
    leafCerts: map<Id, Leaf>,
    metas: map<Id, Meta>)

  datatype Write =
    | CaKey(key: Key)
    | CaCert(key: Key)
    | LeafKey(id: Id, key: Key)
    | LeafCert(id: Id, leaf: Leaf)
    | WriteMeta(id: Id, meta: Meta)
    | RemoveLeafKey(id: Id)

  function Apply(d: Disk, w: Write): Disk {
    match w
    case CaKey(key) => d.(caKey := Some(key))
    case CaCert(key) => d.(caCert := Some(key))
    case LeafKey(id, key) => d.(leafKeys := d.leafKeys[id := key])
    case LeafCert(id, leaf) => d.(leafCerts := d.leafCerts[id := leaf])
    case WriteMeta(id, meta) => d.(metas := d.metas[id := meta])
    case RemoveLeafKey(id) => d.(leafKeys := d.leafKeys - {id})
  }

  function Perform(d: Disk, writes: seq<Write>): Disk
    decreases |writes|
  {
    if writes == [] then d else Perform(Apply(d, writes[0]), writes[1..])
  }

  function Upto(writes: seq<Write>, stop: nat): seq<Write> {
    if stop < |writes| then writes[..stop] else writes
  }

  /** loadCA succeeds: single writes are atomic, so a file that is there parses. */
  predicate Loads(d: Disk) {
    d.caCert.Some? && d.caKey.Some?
  }

  predicate IsRevoked(d: Disk, id: Id) {
    id in d.metas && d.metas[id].status == Revoked
  }

  // --------------------------------------------------------------------- the operations

  /** The arguments an operation draws at random or from the clock are part of it. */
  datatype Op =
    | EnsureCA(newCa: Key)
    | Issue(hostname: Hostname, id: Id, newCa: Key, newLeaf: Key, now: int)
    | Renew(id: Id, newLeaf: Key, now: int)
    | Revoke(id: Id)

  function EnsurePlan(d: Disk, newCa: Key): seq<Write> {
    if Loads(d) then [] else [CaKey(newCa), CaCert(newCa)]
  }

  function LeafPlan(id: Id, hostname: Hostname, newLeaf: Key, ca: Key, now: int): seq<Write> {
    [LeafKey(id, newLeaf), LeafCert(id, Leaf(hostname, newLeaf, ca)), WriteMeta(id, Meta(hostname, Valid, now))]
  }

  /** The writes an operation makes when nothing stops it. */
  function Plan(d: Disk, op: Op): seq<Write> {
    match op
    case EnsureCA(newCa) => EnsurePlan(d, newCa)
    case Issue(hostname, id, newCa, newLeaf, now) =>
      if hostname == "" then []
      else EnsurePlan(d, newCa) + LeafPlan(id, hostname, newLeaf, if Loads(d) then d.caKey.value else newCa, now)
    case Renew(id, newLeaf, now) =>
      if id !in d.metas || IsRevoked(d, id) || !Loads(d) then []
      else LeafPlan(id, d.metas[id].hostname, newLeaf, d.caKey.value, now)
    case Revoke(id) =>
      if id !in d.metas || IsRevoked(d, id) then []
      else [RemoveLeafKey(id), WriteMeta(id, d.metas[id].(status := Revoked))]
  }

  /** The disk when the operation was stopped before its write number `stop`, if it has that many. */
  function After(d: Disk, op: Op, stop: nat): Disk {
    Perform(d, Upto(Plan(d, op), stop))
  }

  /** Identifiers of new certificates are fresh UUIDs. */
  predicate Enabled(d: Disk, op: Op) {
    op.Issue? ==> op.id !in d.leafKeys && op.id !in d.leafCerts && op.id !in d.metas
  }

  datatype Outcome = Done | NotFound | Refused | Stopped

  lemma {:induction false} PerformSnoc(d: Disk, writes: seq<Write>, w: Write)
    ensures Perform(d, writes + [w]) == Apply(Perform(d, writes), w)
    decreases |writes|
  {
    var all := writes + [w];
    if writes == [] {
      assert all[1..] == [];
    } else {
      PerformSnoc(Apply(d, writes[0]), writes[1..], w);
      assert all[1..] == writes[1..] + [w];
    }
  }

  class Provider {
    var disk: Disk
    var fuse: nat                // the writes still to come before the crash or the failing write
    ghost var made: seq<Write>   // the writes of the operation in progress

    /** The operation so far turned the disk `before` into the present one. */
    ghost predicate Progress(before: Disk, stop: nat)
      reads this
    {
      |made| + fuse == stop && disk == Perform(before, made)
    }

    constructor ()
      ensures disk == Disk(None, None, map[], map[], map[])
    {
      disk, fuse, made := Disk(None, None, map[], map[], map[]), 0, [];
    }

    method Begin(stop: nat)
      modifies this
      ensures disk == old(disk) && made == [] && Progress(disk, stop)
    {
      fuse, made := stop, [];
    }

    method WriteFile(w: Write, ghost before: Disk, ghost stop: nat) returns (ok: bool)
      requires Progress(before, stop)
      modifies this
      ensures Progress(before, stop)
      ensures ok == (old(fuse) > 0)
      ensures ok ==> disk == Apply(old(disk), w) && made == old(made) + [w]
      ensures !ok ==> disk == old(disk) && made == old(made) && fuse == 0
    {
      ok := fuse > 0;
      if ok {
        PerformSnoc(before, made, w);
        disk, fuse, made := Apply(disk, w), fuse - 1, made + [w];
      }
    }

    method EnsureLocked(newCa: Key, ghost before: Disk, ghost stop: nat) returns (ok: bool)
      requires disk == before && made == [] && Progress(before, stop)
      modifies this
      ensures Progress(before, stop)
      ensures made == Upto(EnsurePlan(before, newCa), stop)
      ensures ok <==> |EnsurePlan(before, newCa)| <= stop
      ensures ok ==> Loads(disk) && disk.caKey == Some(if Loads(before) then before.caKey.value else newCa)
    {
      if Loads(disk) {
        return true;
      }
      ok := WriteFile(CaKey(newCa), before, stop);
      if ok {
        ok := WriteFile(CaCert(newCa), before, stop);
      }
    }

    method EnsureAuthority(newCa: Key, stop: nat) returns (ok: bool)
      modifies this
      ensures disk == After(old(disk), EnsureCA(newCa), stop)
      ensures ok <==> |Plan(old(disk), EnsureCA(newCa))| <= stop
    {
      Begin(stop);
      ok := EnsureLocked(newCa, disk, stop);
    }

    method SignLeaf(id: Id, hostname: Hostname, newLeaf: Key, ca: Key, ghost before: Disk, ghost stop: nat)
      returns (ok: bool)
      requires Progress(before, stop)
      modifies this
      ensures Progress(before, stop)
      ensures ok <==> |old(made)| + 2 <= stop
      ensures ok ==> made == old(made) + [LeafKey(id, newLeaf), LeafCert(id, Leaf(hostname, newLeaf, ca))]
      ensures !ok ==> made == old(made) + [LeafKey(id, newLeaf)][..stop - |old(made)|]
    {
      ok := WriteFile(LeafKey(id, newLeaf), before, stop);
      if ok {
        ok := WriteFile(LeafCert(id, Leaf(hostname, newLeaf, ca)), before, stop);
      }
    }

    method IssueCertificate(hostname: Hostname, id: Id, newCa: Key, newLeaf: Key, now: int, stop: nat)
      returns (outcome: Outcome)
      modifies this
      ensures disk == After(old(disk), Issue(hostname, id, newCa, newLeaf, now), stop)
      ensures outcome ==
        if hostname == "" then Refused
        else if |Plan(old(disk), Issue(hostname, id, newCa, newLeaf, now))| <= stop then Done else Stopped
    {
      ghost var before := disk;
      if hostname == "" {
        return Refused;
      }
      Begin(stop);
      ghost var plan := Plan(before, Issue(hostname, id, newCa, newLeaf, now));
      var ok := EnsureLocked(newCa, before, stop);
      if !ok {
        assert made == Upto(plan, stop);
        return Stopped;
      }
      ok := SignLeaf(id, hostname, newLeaf, disk.caKey.value, before, stop);
      if !ok {
        assert made == Upto(plan, stop);
        return Stopped;
      }
      ok := WriteFile(WriteMeta(id, Meta(hostname, Valid, now)), before, stop);
      assert made == Upto(plan, stop);
      return if ok then Done else Stopped;
    }

    method RenewCertificate(id: Id, newLeaf: Key, now: int, stop: nat) returns (outcome: Outcome)
      modifies this
      ensures disk == After(old(disk), Renew(id, newLeaf, now), stop)
      ensures outcome ==
        if id !in old(disk).metas then NotFound
        else if IsRevoked(old(disk), id) || !Loads(old(disk)) then Refused
        else if 3 <= stop then Done else Stopped
    {
      ghost var before := disk;
      if id !in disk.metas {
        return NotFound;
      }
      var meta := disk.metas[id];
      if meta.status == Revoked || !Loads(disk) {
        return Refused;
      }
      Begin(stop);
      ghost var plan := Plan(before, Renew(id, newLeaf, now));
      var ok := SignLeaf(id, meta.hostname, newLeaf, disk.caKey.value, before, stop);
      if !ok {
        assert made == Upto(plan, stop);
        return Stopped;
      }
      ok := WriteFile(WriteMeta(id, meta.(created := now, status := Valid)), before, stop);
      assert made == Upto(plan, stop);
      return if ok then Done else Stopped;
    }

    method RevokeCertificate(id: Id, stop: nat) returns (outcome: Outcome)
      modifies this
      ensures disk == After(old(disk), Revoke(id), stop)
      ensures outcome ==
        if id !in old(disk).metas then NotFound
        else if IsRevoked(old(disk), id) || 2 <= stop then Done else Stopped
    {
      ghost var before := disk;
      if id !in disk.metas {
        return NotFound;
      }
      var meta := disk.metas[id];
      if meta.status == Revoked {
        return Done;
      }
      Begin(stop);
      ghost var plan := Plan(before, Revoke(id));
      var ok := WriteFile(RemoveLeafKey(id), before, stop);
      if ok {
        ok := WriteFile(WriteMeta(id, meta.(status := Revoked)), before, stop);
      }
      assert made == Upto(plan, stop);
      return if ok then Done else Stopped;
    }
  }

  // ----------------------------------------------------------- what no stopping point breaks

  /** What a disk looks like after any history of finished and stopped operations. */
  ghost predicate Sound(d: Disk) {
    && (d.caCert.Some? ==> d.caKey == d.caCert)
    && (forall id :: id in d.leafCerts ==> Some(d.leafCerts[id].signer) == d.caCert)
    && (forall id :: id in d.metas ==> id in d.leafCerts && d.leafCerts[id].hostname == d.metas[id].hostname)
    && (forall id :: id in d.metas && d.metas[id].status == Revoked ==> id !in d.leafKeys)
  }

  /** What never changes again once it is on the disk. */
  ghost predicate Keeps(d: Disk, e: Disk) {
    && (Loads(d) ==> e.caKey == d.caKey && e.caCert == d.caCert)
    && (forall id :: id in d.leafCerts ==> id in e.leafCerts)
    && (forall id :: id in d.metas ==> id in e.metas && e.metas[id].hostname == d.metas[id].hostname)
    && (forall id :: id in d.metas && d.metas[id].status == Revoked ==> e.metas[id] == d.metas[id])
  }

  /** When a single write is safe: the order of writes in every plan makes it so. */
  ghost predicate Allowed(d: Disk, w: Write) {
    match w
    case CaKey(_) => d.caCert.None?
    case CaCert(key) => d.caCert.None? && d.caKey == Some(key)
    case LeafKey(id, _) => !IsRevoked(d, id)
    case LeafCert(id, leaf) => Some(leaf.signer) == d.caCert
      && (id in d.metas ==> d.metas[id].hostname == leaf.hostname)
    case WriteMeta(id, meta) =>
      && !IsRevoked(d, id)
      && id in d.leafCerts && d.leafCerts[id].hostname == meta.hostname
      && (meta.status == Revoked ==> id !in d.leafKeys)
    case RemoveLeafKey(_) => true
  }

  lemma AllowedKeepsSound(d: Disk, w: Write)
    requires Sound(d) && Allowed(d, w)
    ensures Sound(Apply(d, w)) && Keeps(d, Apply(d, w))
  {
  }

  ghost predicate Safe(d: Disk, writes: seq<Write>)
    decreases |writes|
  {
    writes == [] || (Allowed(d, writes[0]) && Safe(Apply(d, writes[0]), writes[1..]))
  }

  lemma {:induction false} SafeUpto(d: Disk, writes: seq<Write>, stop: nat)
    requires Sound(d) && Safe(d, writes)
    ensures Sound(Perform(d, Upto(writes, stop))) && Keeps(d, Perform(d, Upto(writes, stop)))
    decreases |writes|
  {
    if writes != [] && stop > 0 {
      AllowedKeepsSound(d, writes[0]);
      SafeUpto(Apply(d, writes[0]), writes[1..], stop - 1);
      assert Upto(writes, stop)[1..] == Upto(writes[1..], stop - 1);
    } else {
      assert Upto(writes, stop) == [];
    }
  }

  lemma SafePair(d: Disk, v: Write, w: Write)
    requires Allowed(d, v) && Allowed(Apply(d, v), w)
    ensures Safe(d, [v, w])
  {
  }

  lemma SafeLeafPlan(d: Disk, id: Id, hostname: Hostname, newLeaf: Key, ca: Key, now: int)
    requires d.caCert == Some(ca) && !IsRevoked(d, id) && (id in d.metas ==> d.metas[id].hostname == hostname)
    ensures Safe(d, LeafPlan(id, hostname, newLeaf, ca, now))
  {
    var plan := LeafPlan(id, hostname, newLeaf, ca, now);
    assert plan[1..] == [plan[1], plan[2]];
    SafePair(Apply(d, plan[0]), plan[1], plan[2]);
  }

  /** Every plan writes in a safe order. */
  lemma PlanIsSafe(d: Disk, op: Op)
    requires Sound(d) && Enabled(d, op)
    ensures Safe(d, Plan(d, op))
  {
    var plan := Plan(d, op);
    match op
    case EnsureCA(newCa) =>
      if !Loads(d) {
        SafePair(d, CaKey(newCa), CaCert(newCa));
      }
    case Issue(hostname, id, newCa, newLeaf, now) =>
      if hostname != "" {
        if Loads(d) {
          SafeLeafPlan(d, id, hostname, newLeaf, d.caKey.value, now);
          assert plan == LeafPlan(id, hostname, newLeaf, d.caKey.value, now);
        } else {
          var e := Apply(Apply(d, CaKey(newCa)), CaCert(newCa));
          SafeLeafPlan(e, id, hostname, newLeaf, newCa, now);
          assert plan[1..][1..] == LeafPlan(id, hostname, newLeaf, newCa, now);
        }
      }
    case Renew(id, newLeaf, now) =>
      if id in d.metas && !IsRevoked(d, id) && Loads(d) {
        SafeLeafPlan(d, id, d.metas[id].hostname, newLeaf, d.caKey.value, now);
      }
    case Revoke(id) =>
      if id in d.metas && !IsRevoked(d, id) {
        SafePair(d, plan[0], plan[1]);
      }
  }

  // ------------------------------------------------------------------------- over whole runs

  /** One operation, and the number of its writes that reached the disk. */
  datatype Attempt = Attempt(op: Op, stop: nat)

  ghost predicate Possible(d: Disk, attempts: seq<Attempt>)
    decreases |attempts|
  {
    attempts == [] ||
    (Enabled(d, attempts[0].op) && Possible(After(d, attempts[0].op, attempts[0].stop), attempts[1..]))
  }

  function Ran(d: Disk, attempts: seq<Attempt>): Disk
    decreases |attempts|
  {
    if attempts == [] then d else Ran(After(d, attempts[0].op, attempts[0].stop), attempts[1..])
  }

  function Empty(): Disk {
    Disk(None, None, map[], map[], map[])
  }

  lemma {:induction false} RunKeepsSound(d: Disk, attempts: seq<Attempt>)
    requires Sound(d) && Possible(d, attempts)
    ensures Sound(Ran(d, attempts)) && Keeps(d, Ran(d, attempts))
    decreases |attempts|
  {
    if attempts == [] {
    } else {
      var (op, stop) := (attempts[0].op, attempts[0].stop);
      PlanIsSafe(d, op);
      SafeUpto(d, Plan(d, op), stop);
      RunKeepsSound(After(d, op, stop), attempts[1..]);
    }
  }

  /** After any history, a revoked certificate has no key file, and no later history changes that. */
  lemma RevokedForever(before: seq<Attempt>, after: seq<Attempt>, id: Id)
    requires Possible(Empty(), before) && IsRevoked(Ran(Empty(), before), id)
    requires Possible(Ran(Empty(), before), after)
    ensures var d := Ran(Ran(Empty(), before), after);
      IsRevoked(d, id) && id !in d.leafKeys
  {
    RunKeepsSound(Empty(), before);
    RunKeepsSound(Ran(Empty(), before), after);
  }

  /** Once a CA loads it is never replaced, and every leaf certificate on the disk was signed by it. */
  lemma OneCaForever(before: seq<Attempt>, after: seq<Attempt>)
    requires Possible(Empty(), before) && Loads(Ran(Empty(), before))
    requires Possible(Ran(Empty(), before), after)
    ensures var (d, e) := (Ran(Empty(), before), Ran(Ran(Empty(), before), after));
      && e.caKey == d.caKey && e.caCert == d.caCert && d.caKey == d.caCert
      && forall id :: id in e.leafCerts ==> Some(e.leafCerts[id].signer) == d.caCert
  {
    RunKeepsSound(Empty(), before);
    RunKeepsSound(Ran(Empty(), before), after);
  }

  /** A certificate that is known and not revoked can always be renewed: the CA it needs still loads. */
  lemma RenewableUnlessRevoked(history: seq<Attempt>, id: Id, newLeaf: Key, now: int)
    requires Possible(Empty(), history)
    ensures var d := Ran(Empty(), history);
      id in d.metas && !IsRevoked(d, id) <==> Plan(d, Renew(id, newLeaf, now)) != []
  {
    RunKeepsSound(Empty(), history);
    var d := Ran(Empty(), history);
    if id in d.metas {
      assert Some(d.leafCerts[id].signer) == d.caCert;
    }
  }

  // --------------------------------------------------------------------- one stopped operation

  /** An issued certificate is known exactly when nothing stopped its operation. */
  lemma IssuedIffFinished(d: Disk, op: Op, stop: nat)
    requires op.Issue? && op.hostname != "" && Enabled(d, op)
    ensures op.id in After(d, op, stop).metas <==> |Plan(d, op)| <= stop
  {
    var plan := Plan(d, op);
    var last := |plan| - 1;
    NoMetaBefore(d, plan[..if stop < last then stop else last], op.id);
    if stop < |plan| {
      assert stop <= last;
    } else {
      assert plan == plan[..last] + [plan[last]];
      PerformSnoc(d, plan[..last], plan[last]);
    }
  }

  lemma {:induction false} NoMetaBefore(d: Disk, writes: seq<Write>, id: Id)
    requires forall w :: w in writes ==> !w.WriteMeta?
    ensures Perform(d, writes).metas == d.metas
    decreases |writes|
  {
    if writes == [] {
    } else {
      assert writes[0] in writes;
      NoMetaBefore(Apply(d, writes[0]), writes[1..], id);
    }
  }

  /** However often a revocation was cut short, revoking once more ends where one uninterrupted call ends. */
  lemma RevokeCanBeRepeated(d: Disk, id: Id, stop: nat)
    ensures var cut := After(d, Revoke(id), stop);
      Perform(cut, Plan(cut, Revoke(id))) == Perform(d, Plan(d, Revoke(id)))
  {
    var plan := Plan(d, Revoke(id));
    if plan != [] {
      TwoWrites(d, plan[0], plan[1]);
      var cut := After(d, Revoke(id), stop);
      if stop == 0 {
        assert cut == d;
      } else if stop == 1 {
        assert Upto(plan, 1) == [plan[0]];
        OneWrite(d, plan[0]);
        var rest := Plan(cut, Revoke(id));
        TwoWrites(cut, rest[0], rest[1]);
        assert Apply(Apply(d, plan[0]), plan[0]) == Apply(d, plan[0]);
      } else {
        assert Plan(cut, Revoke(id)) == [];
      }
    }
  }

  lemma OneWrite(d: Disk, w: Write)
    ensures Perform(d, [w]) == Apply(d, w)
  {
  }

  lemma TwoWrites(d: Disk, v: Write, w: Write)
    ensures Perform(d, [v, w]) == Apply(Apply(d, v), w)
  {
    assert [v, w][1..] == [w];
    assert Perform(Apply(d, v), [w]) == Apply(Apply(d, v), w);
  }

  /** The key file and the certificate of `id` belong together. */
  predicate Paired(d: Disk, id: Id) {
    id in d.leafKeys && id in d.leafCerts && d.leafCerts[id].subject == d.leafKeys[id]
  }

  /** A renewal leaves key and certificate together exactly when it was not stopped between writing the two. */
  lemma RenewStaysPairedIff(d: Disk, id: Id, newLeaf: Key, now: int, stop: nat)
    requires Paired(d, id) && newLeaf != d.leafKeys[id] && Plan(d, Renew(id, newLeaf, now)) != []
    ensures Paired(After(d, Renew(id, newLeaf, now), stop), id) <==> stop != 1
  {
    RenewPoints(d, id, newLeaf, now, stop);
  }

  /** A renewal stopped right after its first write: the new key stands beside the old certificate. */
  lemma StoppedRenewalExample(id: Id, ca: Key, leaf: Key, newLeaf: Key)
    requires leaf != newLeaf
    ensures var d := Disk(Some(ca), Some(ca), map[id := leaf], map[id := Leaf("a.test", leaf, ca)],
        map[id := Meta("a.test", Valid, 0)]);
      && Sound(d) && Paired(d, id)
      && After(d, Renew(id, newLeaf, 1), 1) == d.(leafKeys := map[id := newLeaf])
      && !Paired(After(d, Renew(id, newLeaf, 1), 1), id)
  {
    var d := Disk(Some(ca), Some(ca), map[id := leaf], map[id := Leaf("a.test", leaf, ca)],
      map[id := Meta("a.test", Valid, 0)]);
    RenewPoints(d, id, newLeaf, 1, 1);
    assert d.leafKeys[id := newLeaf] == map[id := newLeaf];
  }

  /** A finished renewal brings key and certificate together again, whatever was there before. */
  lemma FinishedRenewRepairs(d: Disk, id: Id, newLeaf: Key, now: int, stop: nat)
    requires Plan(d, Renew(id, newLeaf, now)) != [] && stop >= 3
    ensures Paired(After(d, Renew(id, newLeaf, now), stop), id)
  {
    RenewPoints(d, id, newLeaf, now, stop);
  }

  lemma RenewPoints(d: Disk, id: Id, newLeaf: Key, now: int, stop: nat)
    requires Plan(d, Renew(id, newLeaf, now)) != []
    ensures var plan := Plan(d, Renew(id, newLeaf, now));
      var e := Apply(d, plan[0]);
      After(d, Renew(id, newLeaf, now), stop) ==
        if stop == 0 then d
        else if stop == 1 then e
        else if stop == 2 then Apply(e, plan[1])
        else Apply(Apply(e, plan[1]), plan[2])
  {
    var plan := Plan(d, Renew(id, newLeaf, now));
    var e := Apply(d, plan[0]);
    if stop == 0 {
    } else if stop == 1 {
      assert Upto(plan, 1) == [plan[0]];
      OneWrite(d, plan[0]);
    } else if stop == 2 {
      assert Upto(plan, 2) == [plan[0], plan[1]];
      TwoWrites(d, plan[0], plan[1]);
    } else {
      assert Upto(plan, stop) == [plan[0], plan[1], plan[2]];
      assert [plan[0], plan[1], plan[2]][1..] == [plan[1], plan[2]];
      TwoWrites(e, plan[1], plan[2]);
    }
  }
}
