/** What a finished operation of the local certificate authority leaves behind (localca.go). */
module LocalCAOutcomes {
  import opened Wrappers
  import opened LocalCA

  lemma {:induction false} PerformAppend(d: Disk, a: seq<Write>, b: seq<Write>)
    ensures Perform(d, a + b) == Perform(Perform(d, a), b)
    decreases |a|
  {
    if a == [] {
      assert a + b == b;
    } else {
      assert (a + b)[1..] == a[1..] + b;
      PerformAppend(Apply(d, a[0]), a[1..], b);
    }
  }

  /** Both files of the CA are there, and belong together. */
  predicate HasCA(d: Disk, key: Key) {
    d.caKey == Some(key) && d.caCert == Some(key)
  }

  /** A key with a certificate for it, made out to the host name and signed by the CA, and a valid record. */
  predicate HasCertificate(d: Disk, id: Id, hostname: Hostname, key: Key, ca: Key, now: int) {
    && id in d.leafKeys && d.leafKeys[id] == key
    && id in d.leafCerts && d.leafCerts[id] == Leaf(hostname, key, ca)
    && id in d.metas && d.metas[id] == Meta(hostname, Valid, now)
  }

  /** Nothing about any other certificate changed. */
  ghost predicate OthersKept(d: Disk, e: Disk, id: Id) {
    forall other :: other != id ==>
      && (other in e.leafKeys <==> other in d.leafKeys)
      && (other in e.leafCerts <==> other in d.leafCerts)
      && (other in e.metas <==> other in d.metas)
      && (other in d.leafKeys ==> e.leafKeys[other] == d.leafKeys[other])
      && (other in d.leafCerts ==> e.leafCerts[other] == d.leafCerts[other])
      && (other in d.metas ==> e.metas[other] == d.metas[other])
  }

  predicate SameLeaves(d: Disk, e: Disk) {
    e.leafKeys == d.leafKeys && e.leafCerts == d.leafCerts && e.metas == d.metas
  }

  lemma CaIsEnsured(d: Disk, newCa: Key)
    requires Sound(d)
    ensures var e := Perform(d, EnsurePlan(d, newCa));
      && HasCA(e, if Loads(d) then d.caKey.value else newCa)
      && SameLeaves(d, e)
  {
    if !Loads(d) {
      TwoWrites(d, CaKey(newCa), CaCert(newCa));
    }
  }

  /** A finished EnsureCA keeps a CA that loads, and otherwise makes one. */
  lemma FinishedEnsureCA(d: Disk, newCa: Key, stop: nat)
    requires Sound(d) && stop >= 2
    ensures var e := After(d, EnsureCA(newCa), stop);
      HasCA(e, if Loads(d) then d.caKey.value else newCa) && SameLeaves(d, e)
  {
    CaIsEnsured(d, newCa);
  }

  lemma LeafIsWritten(d: Disk, id: Id, hostname: Hostname, newLeaf: Key, ca: Key, now: int)
    ensures var e := Perform(d, LeafPlan(id, hostname, newLeaf, ca, now));
      && HasCertificate(e, id, hostname, newLeaf, ca, now)
      && OthersKept(d, e, id) && e.caKey == d.caKey && e.caCert == d.caCert
  {
    var plan := LeafPlan(id, hostname, newLeaf, ca, now);
    assert plan[1..] == [plan[1], plan[2]];
    TwoWrites(Apply(d, plan[0]), plan[1], plan[2]);
  }

  /** A finished Issue leaves a valid certificate signed by the CA that was there, or by the new one. */
  lemma FinishedIssue(d: Disk, hostname: Hostname, id: Id, newCa: Key, newLeaf: Key, now: int, stop: nat)
    requires Sound(d) && hostname != "" && stop >= 5
    ensures var ca := if Loads(d) then d.caKey.value else newCa;
      var e := After(d, Issue(hostname, id, newCa, newLeaf, now), stop);
      HasCA(e, ca) && HasCertificate(e, id, hostname, newLeaf, ca, now) && OthersKept(d, e, id)
  {
    var ca := if Loads(d) then d.caKey.value else newCa;
    var first := Perform(d, EnsurePlan(d, newCa));
    CaIsEnsured(d, newCa);
    LeafIsWritten(first, id, hostname, newLeaf, ca, now);
    PerformAppend(d, EnsurePlan(d, newCa), LeafPlan(id, hostname, newLeaf, ca, now));
  }

  /** A finished Renew leaves a valid certificate for the recorded host name, signed by the same CA. */
  lemma FinishedRenew(d: Disk, id: Id, newLeaf: Key, now: int, stop: nat)
    requires Sound(d) && id in d.metas && d.metas[id].status == Valid && d.caCert.Some? && stop >= 3
    ensures var e := After(d, Renew(id, newLeaf, now), stop);
      && HasCA(e, d.caKey.value) && HasCertificate(e, id, d.metas[id].hostname, newLeaf, d.caKey.value, now)
      && OthersKept(d, e, id)
  {
    LeafIsWritten(d, id, d.metas[id].hostname, newLeaf, d.caKey.value, now);
  }

  /** A finished Revoke leaves the record revoked and no key; the certificate and the CA stay. */
  lemma FinishedRevoke(d: Disk, id: Id, stop: nat)
    requires Sound(d) && id in d.metas && stop >= 2
    ensures var e := After(d, Revoke(id), stop);
      && id !in e.leafKeys && id in e.metas && e.metas[id] == d.metas[id].(status := Revoked)
      && OthersKept(d, e, id) && e.leafCerts == d.leafCerts && e.caKey == d.caKey && e.caCert == d.caCert
  {
    var plan := Plan(d, Revoke(id));
    if d.metas[id].status == Valid {
      TwoWrites(d, plan[0], plan[1]);
    }
  }

  /** What is refused writes nothing, wherever it is stopped. */
  lemma RefusedWritesNothing(d: Disk, id: Id, newCa: Key, newLeaf: Key, now: int, stop: nat)
    ensures After(d, Issue("", id, newCa, newLeaf, now), stop) == d
    ensures id !in d.metas || d.metas[id].status == Revoked ==> After(d, Renew(id, newLeaf, now), stop) == d
    ensures id !in d.metas || d.metas[id].status == Revoked ==> After(d, Revoke(id), stop) == d
  {
  }
}
