/** The on-disk key store: one directory per key id, an ACTIVE marker, and a legacy pair adopted on
    first start. Every method is a list of file operations; a crash keeps the effect of a prefix. A
    key id stands for its pair: it is a digest of the public key. One process works here, so that
    replacing ACTIVE through a temporary file is one operation; KeyRotation takes it apart. */
module KeyStore {
  import opened Json

  type Kid = string

  /** `Torn`: created with O_EXCL but not written yet. */
  datatype Pem = Torn | Whole(key: Kid)
  datatype Marker = NoMarker | Blank | Names(kid: Kid)

  datatype Disk = Disk(marker: Marker, priv: map<Kid, Pem>, pub: map<Kid, Pem>,
                       legacyPriv: Option<Kid>, legacyPub: Option<Kid>)

  datatype FileOp =
    | CreatePriv(kid: Kid) | WritePriv(kid: Kid, key: Kid)
    | CreatePub(kid: Kid) | WritePub(kid: Kid, key: Kid)
    | UnlinkPriv(kid: Kid) | UnlinkPub(kid: Kid)
    | UnlinkLegacyPriv | UnlinkLegacyPub
    | ReplaceActive(kid: Kid)

  function Exec(d: Disk, op: FileOp): Disk {
    match op
    case CreatePriv(k) => d.(priv := d.priv[k := Torn])
    case WritePriv(k, key) => d.(priv := d.priv[k := Whole(key)])
    case CreatePub(k) => d.(pub := d.pub[k := Torn])
    case WritePub(k, key) => d.(pub := d.pub[k := Whole(key)])
    case UnlinkPriv(k) => d.(priv := d.priv - {k})
    case UnlinkPub(k) => d.(pub := d.pub - {k})
    case UnlinkLegacyPriv => d.(legacyPriv := None)
    case UnlinkLegacyPub => d.(legacyPub := None)
    case ReplaceActive(k) => d.(marker := Names(k))
  }

  function ExecAll(d: Disk, ops: seq<FileOp>): Disk {
    if ops == [] then d else Exec(ExecAll(d, ops[..|ops| - 1]), ops[|ops| - 1])
  }

  function PrivOps(d: Disk, kid: Kid, key: Kid): seq<FileOp> {
    if kid in d.priv then [] else [CreatePriv(kid), WritePriv(kid, key)]
  }

  function PubOps(d: Disk, kid: Kid, key: Kid): seq<FileOp> {
    if kid in d.pub then [] else [CreatePub(kid), WritePub(kid, key)]
  }

  function MigrateOps(d: Disk): seq<FileOp>
    requires d.legacyPriv.Some? && d.legacyPub.Some?
  {
    var kid := d.legacyPub.value;
    PrivOps(d, kid, d.legacyPriv.value) + PubOps(d, kid, kid)
    + [UnlinkLegacyPriv, UnlinkLegacyPub, ReplaceActive(kid)]
  }

  function RotateOps(d: Disk, minted: Kid): seq<FileOp> {
    PrivOps(d, minted, minted) + PubOps(d, minted, minted) + [ReplaceActive(minted)]
  }

  predicate Migrates(d: Disk) {
    d.legacyPriv.Some? && d.legacyPub.Some? && d.marker.NoMarker?
  }

  /** `ensure_keypair`, run at every start of the service and of the key commands. */
  function EnsureOps(d: Disk, minted: Kid): seq<FileOp> {
    if Migrates(d) then MigrateOps(d)
    else if d.marker.Names? && d.marker.kid in d.priv then []
    else RotateOps(d, minted)
  }

  function RevokeOps(kid: Kid): seq<FileOp> {
    [UnlinkPriv(kid), UnlinkPub(kid)]
  }

  predicate Complete(d: Disk, k: Kid) {
    k in d.priv && d.priv[k] == Whole(k) && k in d.pub && d.pub[k] == Whole(k)
  }

  /** `list_kids`: both files exist; their content is not looked at. */
  function Kids(d: Disk): set<Kid> {
    d.priv.Keys * d.pub.Keys
  }

  lemma {:induction false} ExecAppend(d: Disk, xs: seq<FileOp>, ys: seq<FileOp>)
    ensures ExecAll(d, xs + ys) == ExecAll(ExecAll(d, xs), ys)
  {
    if ys == [] {
      assert xs + ys == xs;
    } else {
      ExecAppend(d, xs, ys[..|ys| - 1]);
      assert (xs + ys)[..|xs + ys| - 1] == xs + ys[..|ys| - 1];
    }
  }

  lemma LastOp(d: Disk, ops: seq<FileOp>, n: nat)
    requires 0 < n <= |ops|
    ensures ExecAll(d, ops[..n]) == Exec(ExecAll(d, ops[..n - 1]), ops[n - 1])
  {
    assert ops[..n][..n - 1] == ops[..n - 1];
  }

  lemma ExecTwo(d: Disk, a: FileOp, b: FileOp)
    ensures ExecAll(d, [a]) == Exec(d, a) && ExecAll(d, [a, b]) == Exec(Exec(d, a), b)
  {
    assert [a][..0] == [] && [a, b][..1] == [a];
  }

  /** The directory with both files of kid, existing ones kept. */
  ghost function WithPair(d: Disk, kid: Kid, privKey: Kid, pubKey: Kid): Disk {
    d.(priv := if kid in d.priv then d.priv else d.priv[kid := Whole(privKey)],
       pub := if kid in d.pub then d.pub else d.pub[kid := Whole(pubKey)])
  }

  class Store {
    var disk: Disk

    constructor (disk: Disk)
      ensures this.disk == disk
    {
      this.disk := disk;
    }

    method WriteKeypair(kid: Kid, privKey: Kid, pubKey: Kid)
      modifies this
      ensures disk == ExecAll(old(disk), PrivOps(old(disk), kid, privKey) + PubOps(old(disk), kid, pubKey))
      ensures disk == WithPair(old(disk), kid, privKey, pubKey)
    {
      if kid !in disk.priv {
        disk := Exec(disk, CreatePriv(kid));
        disk := Exec(disk, WritePriv(kid, privKey));
        ExecTwo(old(disk), CreatePriv(kid), WritePriv(kid, privKey));
      }
      ghost var mid := disk;
      assert mid == ExecAll(old(disk), PrivOps(old(disk), kid, privKey));
      if kid !in disk.pub {
        disk := Exec(disk, CreatePub(kid));
        disk := Exec(disk, WritePub(kid, pubKey));
        ExecTwo(mid, CreatePub(kid), WritePub(kid, pubKey));
      }
      ExecAppend(old(disk), PrivOps(old(disk), kid, privKey), PubOps(old(disk), kid, pubKey));
    }

    method WriteActive(kid: Kid)
      modifies this
      ensures disk == Exec(old(disk), ReplaceActive(kid)) == old(disk).(marker := Names(kid))
    {
      disk := Exec(disk, ReplaceActive(kid));
    }

    method MigrateLegacy()
      requires disk.legacyPriv.Some? && disk.legacyPub.Some?
      modifies this
      ensures disk == ExecAll(old(disk), MigrateOps(old(disk)))
      ensures var kid := old(disk).legacyPub.value;
        disk == WithPair(old(disk), kid, old(disk).legacyPriv.value, kid)
                .(legacyPriv := None, legacyPub := None, marker := Names(kid))
    {
      var kid := disk.legacyPub.value;
      ghost var head := PrivOps(disk, kid, disk.legacyPriv.value) + PubOps(disk, kid, kid);
      WriteKeypair(kid, disk.legacyPriv.value, kid);
      ghost var mid := disk;
      disk := Exec(disk, UnlinkLegacyPriv);
      disk := Exec(disk, UnlinkLegacyPub);
      WriteActive(kid);
      ExecTwo(mid, UnlinkLegacyPriv, UnlinkLegacyPub);
      assert [UnlinkLegacyPriv, UnlinkLegacyPub, ReplaceActive(kid)][..2] == [UnlinkLegacyPriv, UnlinkLegacyPub];
      ExecAppend(old(disk), head, [UnlinkLegacyPriv, UnlinkLegacyPub, ReplaceActive(kid)]);
    }

    /** `minted` is the id of the pair generated when one is needed. */
    method EnsureKeypair(minted: Kid)
      modifies this
      ensures disk == ExecAll(old(disk), EnsureOps(old(disk), minted))
      ensures var d := old(disk);
        if d.legacyPriv.Some? && d.legacyPub.Some? && d.marker.NoMarker? then
          disk == WithPair(d, d.legacyPub.value, d.legacyPriv.value, d.legacyPub.value)
                  .(legacyPriv := None, legacyPub := None, marker := Names(d.legacyPub.value))
        else if d.marker.Names? && d.marker.kid in d.priv then disk == d
        else disk == WithPair(d, minted, minted, minted).(marker := Names(minted))
    {
      if disk.legacyPriv.Some? && disk.legacyPub.Some? && disk.marker.NoMarker? {
        MigrateLegacy();
        return;
      }
      if !disk.marker.NoMarker? {
        if disk.marker.Names? && disk.marker.kid in disk.priv {
          return;
        }
      }
      var kid := Rotate(minted);
    }

    method Rotate(minted: Kid) returns (kid: Kid)
      modifies this
      ensures kid == minted && disk == ExecAll(old(disk), RotateOps(old(disk), minted))
      ensures disk == WithPair(old(disk), minted, minted, minted).(marker := Names(minted))
    {
      ghost var head := PrivOps(disk, minted, minted) + PubOps(disk, minted, minted);
      WriteKeypair(minted, minted, minted);
      ExecTwo(disk, ReplaceActive(minted), ReplaceActive(minted));
      WriteActive(minted);
      ExecAppend(old(disk), head, [ReplaceActive(minted)]);
      kid := minted;
    }

    /** False for the ValueError on the active key and the RuntimeError without one. */
    method Revoke(kid: Kid) returns (ok: bool)
      modifies this
      ensures ok <==> old(disk).marker.Names? && old(disk).marker.kid != kid
      ensures disk == if ok then ExecAll(old(disk), RevokeOps(kid)) else old(disk)
      ensures ok ==> disk == old(disk).(priv := old(disk).priv - {kid}, pub := old(disk).pub - {kid})
    {
      if !disk.marker.Names? || disk.marker.kid == kid {
        return false;
      }
      disk := Exec(disk, UnlinkPriv(kid));
      disk := Exec(disk, UnlinkPub(kid));
      ExecTwo(old(disk), UnlinkPriv(kid), UnlinkPub(kid));
      return true;
    }
  }

  // ---- legacy adoption under crashes ---------------------------------------------

  /** The legacy pair is readable, in its old place or in its new directory. */
  ghost predicate PairKept(d: Disk, k: Kid) {
    (d.legacyPriv == Some(k) && d.legacyPub == Some(k)) || Complete(d, k)
  }

  /** A store before adoption: the legacy pair k, no marker, nothing under k yet. */
  ghost predicate Legacy(d: Disk, k: Kid) {
    d.legacyPriv == Some(k) && d.legacyPub == Some(k) && d.marker.NoMarker? && k !in d.priv && k !in d.pub
  }

  /** One start of the service: the id it would generate, and how many operations ran before a crash. */
  datatype Boot = Boot(minted: Kid, ran: nat)

  function CrashedBoot(d: Disk, b: Boot): Disk {
    var ops := EnsureOps(d, b.minted);
    ExecAll(d, if b.ran <= |ops| then ops[..b.ran] else ops)
  }

  function Boots(d: Disk, bs: seq<Boot>): Disk {
    if bs == [] then d else CrashedBoot(Boots(d, bs[..|bs| - 1]), bs[|bs| - 1])
  }

  /** The boot died right after creating one of k's files, before writing it. */
  predicate TearsKey(d: Disk, b: Boot, k: Kid) {
    var ops := EnsureOps(d, b.minted);
    0 < b.ran <= |ops| && (ops[b.ran - 1] == CreatePriv(k) || ops[b.ran - 1] == CreatePub(k))
  }

  ghost predicate SomeBootTears(d: Disk, bs: seq<Boot>, k: Kid) {
    exists i :: 0 <= i < |bs| && TearsKey(Boots(d, bs[..i]), bs[i], k)
  }

  ghost predicate Avoids(bs: seq<Boot>, k: Kid) {
    forall i :: 0 <= i < |bs| ==> bs[i].minted != k
  }

  ghost predicate AbsentOrWhole(m: map<Kid, Pem>, k: Kid) {
    k in m ==> m[k] == Whole(k)
  }

  ghost predicate LegacyIs(d: Disk, k: Kid) {
    d.legacyPriv == Some(k) && d.legacyPub == Some(k)
  }

  /** Nothing torn: adoption of k is pending, or its directory is complete. */
  ghost predicate Safe(d: Disk, k: Kid) {
    && (LegacyIs(d, k) || d.legacyPriv.None?)
    && (Complete(d, k) || (LegacyIs(d, k) && d.marker.NoMarker? && AbsentOrWhole(d.priv, k) && AbsentOrWhole(d.pub, k)))
  }

  /** A torn file of k exists, and no operation will ever rewrite it. */
  ghost predicate Doomed(d: Disk, k: Kid) {
    && ((k in d.priv && d.priv[k] == Torn) || (k in d.pub && d.pub[k] == Torn))
    && ((LegacyIs(d, k) && d.marker.NoMarker?) || d.legacyPriv.None?)
  }

  ghost predicate SameFiles(d: Disk, d': Disk, k: Kid) {
    && (k in d'.priv <==> k in d.priv) && (k in d.priv ==> d'.priv[k] == d.priv[k])
    && (k in d'.pub <==> k in d.pub) && (k in d.pub ==> d'.pub[k] == d.pub[k])
    && d'.legacyPriv == d.legacyPriv && d'.legacyPub == d.legacyPub
  }

  lemma MintOpLocal(d: Disk, m: Kid, op: FileOp, e: Disk, k: Kid)
    requires op in RotateOps(d, m) && m != k
    ensures SameFiles(e, Exec(e, op), k)
  {
    assert op.kid == m && !op.UnlinkLegacyPriv? && !op.UnlinkLegacyPub?;
  }

  /** Minting another key touches nothing of k. */
  lemma {:induction false} MintKeepsOthers(d: Disk, minted: Kid, n: nat, k: Kid)
    requires minted != k && n <= |RotateOps(d, minted)|
    ensures SameFiles(d, ExecAll(d, RotateOps(d, minted)[..n]), k)
  {
    if n > 0 {
      hide RotateOps, ExecAll, Exec;
      var ops := RotateOps(d, minted);
      MintKeepsOthers(d, minted, n - 1, k);
      LastOp(d, ops, n);
      MintOpLocal(d, minted, ops[n - 1], ExecAll(d, ops[..n - 1]), k);
    } else {
      assert RotateOps(d, minted)[..0] == [];
    }
  }

  /** The stage of a file that operations lo+1 and lo+2 create and write. */
  ghost predicate FileAt(m: map<Kid, Pem>, m': map<Kid, Pem>, k: Kid, lo: nat, n: nat) {
    if k in m || n <= lo then (k in m' <==> k in m) && (k in m ==> m'[k] == m[k])
    else k in m' && m'[k] == if n == lo + 1 then Torn else Whole(k)
  }

  /** The disk after n operations of the adoption of k. */
  ghost predicate AdoptedTo(d: Disk, d': Disk, k: Kid, n: nat) {
    var a := |PrivOps(d, k, k)|;
    var b := a + |PubOps(d, k, k)|;
    && FileAt(d.priv, d'.priv, k, 0, n) && FileAt(d.pub, d'.pub, k, a, n)
    && d'.legacyPriv == (if n <= b then Some(k) else None)
    && d'.legacyPub == (if n <= b + 1 then Some(k) else None)
    && d'.marker == (if n <= b + 2 then NoMarker else Names(k))
  }

  lemma {:induction false} AdoptionStage(d: Disk, k: Kid, n: nat)
    requires Migrates(d) && LegacyIs(d, k) && n <= |MigrateOps(d)|
    ensures AdoptedTo(d, ExecAll(d, MigrateOps(d)[..n]), k, n)
  {
    if n == 0 {
      hide Exec, MigrateOps;
      assert MigrateOps(d)[..0] == [];
    } else {
      hide AdoptedTo, Exec, ExecAll, MigrateOps;
      AdoptionStage(d, k, n - 1);
      LastOp(d, MigrateOps(d), n);
      AdoptionStep(d, ExecAll(d, MigrateOps(d)[..n - 1]), k, n - 1);
    }
  }

  lemma AdoptionStep(d: Disk, e: Disk, k: Kid, n: nat)
    requires Migrates(d) && LegacyIs(d, k) && n < |MigrateOps(d)| && AdoptedTo(d, e, k, n)
    ensures AdoptedTo(d, Exec(e, MigrateOps(d)[n]), k, n + 1)
  {
    hide MigrateOps;
    AdoptionOp(d, k, n);
  }

  lemma AdoptionOp(d: Disk, k: Kid, i: nat)
    requires Migrates(d) && LegacyIs(d, k) && i < |MigrateOps(d)|
    ensures var a := |PrivOps(d, k, k)|;
      var b := a + |PubOps(d, k, k)|;
      && |MigrateOps(d)| == b + 3
      && MigrateOps(d)[i] == if i < a then [CreatePriv(k), WritePriv(k, k)][i]
                             else if i < b then [CreatePub(k), WritePub(k, k)][i - a]
                             else [UnlinkLegacyPriv, UnlinkLegacyPub, ReplaceActive(k)][i - b]
  {
  }

  lemma BootPrefix(d: Disk, b: Boot) returns (n: nat)
    ensures n <= |EnsureOps(d, b.minted)| && CrashedBoot(d, b) == ExecAll(d, EnsureOps(d, b.minted)[..n])
    ensures n == if b.ran <= |EnsureOps(d, b.minted)| then b.ran else |EnsureOps(d, b.minted)|
  {
    var ops := EnsureOps(d, b.minted);
    n := if b.ran <= |ops| then b.ran else |ops|;
    assert ops[..|ops|] == ops;
  }

  lemma BootFromSafe(d: Disk, b: Boot, k: Kid)
    requires Safe(d, k) && b.minted != k
    ensures if TearsKey(d, b, k) then Doomed(CrashedBoot(d, b), k) else Safe(CrashedBoot(d, b), k)
  {
    var n := BootPrefix(d, b);
    if Migrates(d) {
      AdoptFromSafe(d, k, n);
    } else {
      hide ExecAll, RotateOps;
      if EnsureOps(d, b.minted) != [] {
        MintKeepsOthers(d, b.minted, n, k);
        MintOps(d, b.minted, k);
      } else {
        NoOps(d);
      }
    }
  }

  lemma NoOps(d: Disk)
    ensures ExecAll(d, []) == d
  {
  }

  lemma AdoptFromSafe(d: Disk, k: Kid, n: nat)
    requires Safe(d, k) && Migrates(d) && n <= |MigrateOps(d)|
    ensures var ops := MigrateOps(d);
      if 0 < n && (ops[n - 1] == CreatePriv(k) || ops[n - 1] == CreatePub(k))
      then Doomed(ExecAll(d, ops[..n]), k) else Safe(ExecAll(d, ops[..n]), k)
  {
    hide ExecAll, MigrateOps;
    AdoptionStage(d, k, n);
    if n > 0 {
      AdoptionOp(d, k, n - 1);
    }
  }

  lemma MintOps(d: Disk, minted: Kid, k: Kid)
    requires minted != k
    ensures CreatePriv(k) !in RotateOps(d, minted) && CreatePub(k) !in RotateOps(d, minted)
  {
  }

  lemma BootFromDoomed(d: Disk, b: Boot, k: Kid)
    requires Doomed(d, k) && b.minted != k
    ensures Doomed(CrashedBoot(d, b), k)
    ensures b.ran >= |EnsureOps(d, b.minted)| ==> !PairKept(CrashedBoot(d, b), k)
  {
    var n := BootPrefix(d, b);
    if Migrates(d) {
      AdoptionStage(d, k, n);
      if 0 < n {
        AdoptionOp(d, k, n - 1);
      }
    } else if EnsureOps(d, b.minted) != [] {
      MintKeepsOthers(d, b.minted, n, k);
    }
  }

  lemma TearsSnoc(d: Disk, bs: seq<Boot>, k: Kid)
    requires bs != []
    ensures var n := |bs| - 1;
      SomeBootTears(d, bs, k) <==> SomeBootTears(d, bs[..n], k) || TearsKey(Boots(d, bs[..n]), bs[n], k)
  {
    hide TearsKey, Boots;
    var n := |bs| - 1;
    assert forall i :: 0 <= i < n ==> bs[..n][..i] == bs[..i] && bs[..n][i] == bs[i];
  }

  lemma {:induction false} BootsOutcome(d: Disk, bs: seq<Boot>, k: Kid)
    requires Legacy(d, k) && Avoids(bs, k)
    ensures if SomeBootTears(d, bs, k) then Doomed(Boots(d, bs), k) else Safe(Boots(d, bs), k)
  {
    if bs == [] {
    } else {
      var n := |bs| - 1;
      var init := bs[..n];
      hide Safe, Doomed, CrashedBoot, TearsKey, SomeBootTears;
      BootsOutcome(d, init, k) by {
        assert Avoids(init, k);
      }
      TearsSnoc(d, bs, k);
      if SomeBootTears(d, init, k) {
        BootFromDoomed(Boots(d, init), bs[n], k);
      } else {
        BootFromSafe(Boots(d, init), bs[n], k);
      }
    }
  }

  /** After any history of crashed starts and one that completes, the legacy pair is still readable
      if and only if no start died between creating and writing one of its files. */
  lemma LegacyKeptIffNoTornWrite(d: Disk, bs: seq<Boot>, k: Kid, last: Boot)
    requires Legacy(d, k) && Avoids(bs, k) && last.minted != k
    requires last.ran >= |EnsureOps(Boots(d, bs), last.minted)|
    ensures PairKept(CrashedBoot(Boots(d, bs), last), k) <==> !SomeBootTears(d, bs, k)
  {
    BootsOutcome(d, bs, k);
    var e := Boots(d, bs);
    if SomeBootTears(d, bs, k) {
      BootFromDoomed(e, last, k);
    } else {
      BootFromSafe(e, last, k);
      var n := BootPrefix(e, last);
      if Migrates(e) {
        AdoptionOp(e, k, n - 1);
      } else if EnsureOps(e, last.minted) != [] {
        MintOps(e, last.minted, k);
      }
    }
  }

  /** The witness: die after one operation, start again, and ACTIVE names a key whose private
      file is empty while the legacy files are gone. */
  lemma TornAdoption(d: Disk, k: Kid, b: Boot, last: Boot)
    requires Legacy(d, k) && b.ran == 1 && last.ran >= 5
    ensures var e := CrashedBoot(CrashedBoot(d, b), last);
      e.marker == Names(k) && k in e.priv && e.priv[k] == Torn && e.legacyPriv.None? && e.legacyPub.None?
  {
    var n := BootPrefix(d, b);
    AdoptionStage(d, k, n);
    AdoptionOp(d, k, 0);
    var d1 := CrashedBoot(d, b);
    var m := BootPrefix(d1, last);
    AdoptionOp(d1, k, 0);
    AdoptionStage(d1, k, m);
  }

  // ---- does the legacy key become the active one? -------------------------------------

  /** The start died after removing the legacy private file and before replacing ACTIVE. */
  predicate PassesOver(d: Disk, b: Boot) {
    Migrates(d) && |MigrateOps(d)| - 3 < b.ran < |MigrateOps(d)|
  }

  ghost predicate SomeBootPassesOver(d: Disk, bs: seq<Boot>) {
    exists i :: 0 <= i < |bs| && PassesOver(Boots(d, bs[..i]), bs[i])
  }

  ghost predicate Waiting(d: Disk, k: Kid) {
    LegacyIs(d, k) && d.marker.NoMarker?
  }

  ghost predicate Adopted(d: Disk, k: Kid) {
    d.marker == Names(k) && k in d.priv
  }

  ghost predicate PassedOver(d: Disk, k: Kid) {
    d.legacyPriv.None? && d.marker != Names(k)
  }

  lemma {:induction false} MintMarker(d: Disk, minted: Kid, n: nat)
    requires n <= |RotateOps(d, minted)|
    ensures var e := ExecAll(d, RotateOps(d, minted)[..n]);
      e.marker == (if n == |RotateOps(d, minted)| then Names(minted) else d.marker)
  {
    MintListEnd(d, minted);
    var ops := RotateOps(d, minted);
    hide RotateOps, ExecAll;
    if n == 0 {
      assert ops[..0] == [];
      NoOps(d);
    } else {
      MintMarker(d, minted, n - 1);
      LastOp(d, ops, n);
    }
  }

  lemma MintListEnd(d: Disk, minted: Kid)
    ensures var ops := RotateOps(d, minted);
      |ops| > 0 && ops[|ops| - 1] == ReplaceActive(minted) && forall i :: 0 <= i < |ops| - 1 ==> !ops[i].ReplaceActive?
  {
  }

  lemma WaitingBoot(d: Disk, b: Boot, k: Kid)
    requires Waiting(d, k)
    ensures if PassesOver(d, b) then PassedOver(CrashedBoot(d, b), k)
            else if b.ran >= |MigrateOps(d)| then Adopted(CrashedBoot(d, b), k)
            else Waiting(CrashedBoot(d, b), k)
  {
    var n := BootPrefix(d, b);
    AdoptionStage(d, k, n);
    AdoptionOp(d, k, 0);
  }

  lemma SettledBoot(d: Disk, b: Boot, k: Kid)
    requires b.minted != k
    ensures Adopted(d, k) ==> CrashedBoot(d, b) == d
    ensures PassedOver(d, k) ==> PassedOver(CrashedBoot(d, b), k)
    ensures PassedOver(d, k) && b.ran >= |EnsureOps(d, b.minted)| ==> CrashedBoot(d, b).marker.Names?
  {
    var n := BootPrefix(d, b);
    if Adopted(d, k) {
      assert EnsureOps(d, b.minted) == [];
    } else if PassedOver(d, k) && EnsureOps(d, b.minted) != [] {
      hide ExecAll, RotateOps;
      MintKeepsOthers(d, b.minted, n, k);
      MintMarker(d, b.minted, n);
    }
  }

  lemma PassesSnoc(d: Disk, bs: seq<Boot>)
    requires bs != []
    ensures var n := |bs| - 1;
      SomeBootPassesOver(d, bs) <==> SomeBootPassesOver(d, bs[..n]) || PassesOver(Boots(d, bs[..n]), bs[n])
  {
    hide PassesOver, Boots;
    var n := |bs| - 1;
    assert forall i :: 0 <= i < n ==> bs[..n][..i] == bs[..i] && bs[..n][i] == bs[i];
  }

  lemma {:induction false} BootsSettle(d: Disk, bs: seq<Boot>, k: Kid)
    requires Legacy(d, k) && Avoids(bs, k)
    ensures if SomeBootPassesOver(d, bs) then PassedOver(Boots(d, bs), k)
            else Waiting(Boots(d, bs), k) || Adopted(Boots(d, bs), k)
  {
    if bs == [] {
    } else {
      var n := |bs| - 1;
      var init := bs[..n];
      assert Avoids(init, k);
      hide CrashedBoot, SomeBootPassesOver, EnsureOps, MigrateOps;
      BootsSettle(d, init, k);
      var e := Boots(d, init);
      PassesSnoc(d, bs);
      SettledBoot(e, bs[n], k);
      if Waiting(e, k) {
        WaitingBoot(e, bs[n], k);
      }
    }
  }

  /** After any history of crashed starts and one that completes, ACTIVE names the legacy key if and
      only if no start died between removing the legacy private file and replacing ACTIVE. */
  lemma LegacyActiveIff(d: Disk, bs: seq<Boot>, k: Kid, last: Boot)
    requires Legacy(d, k) && Avoids(bs, k) && last.minted != k
    requires last.ran >= |EnsureOps(Boots(d, bs), last.minted)|
    ensures var e := CrashedBoot(Boots(d, bs), last);
      e.marker.Names? && (e.marker.kid == k <==> !SomeBootPassesOver(d, bs))
  {
    hide CrashedBoot, Boots, SomeBootPassesOver;
    BootsSettle(d, bs, k);
    var e := Boots(d, bs);
    SettledBoot(e, last, k);
    if Waiting(e, k) {
      WaitingBoot(e, last, k);
    }
  }

  /** The witness: die right after the legacy private file is gone; the next start mints another key. */
  lemma LegacyPassedOver(d: Disk, k: Kid, b: Boot, last: Boot)
    requires Legacy(d, k) && b.ran == 5 && last.minted != k && last.ran >= 5
    ensures CrashedBoot(CrashedBoot(d, b), last).marker == Names(last.minted)
    ensures Complete(CrashedBoot(d, b), k)
  {
    WaitingBoot(d, b, k);
    var n := BootPrefix(d, b);
    AdoptionStage(d, k, n);
    AdoptionOp(d, k, 0);
    var e := CrashedBoot(d, b);
    assert e.marker.NoMarker?;
    var m := BootPrefix(e, last);
    MintMarker(e, last.minted, m);
  }

  // ---- ACTIVE names a complete pair ------------------------------------------------

  ghost predicate ActiveComplete(d: Disk) {
    d.marker.Names? ==> Complete(d, d.marker.kid)
  }

  /** The disk after n operations that mint the unused key f. */
  ghost predicate MintedTo(d: Disk, e: Disk, f: Kid, n: nat) {
    && FileAt(d.priv, e.priv, f, 0, n) && FileAt(d.pub, e.pub, f, 2, n)
    && e.marker == (if n == 5 then Names(f) else d.marker)
  }

  lemma MintList(d: Disk, f: Kid)
    requires f !in d.priv && f !in d.pub
    ensures RotateOps(d, f) == [CreatePriv(f), WritePriv(f, f), CreatePub(f), WritePub(f, f), ReplaceActive(f)]
  {
  }

  lemma MintStep(d: Disk, e: Disk, f: Kid, n: nat)
    requires f !in d.priv && f !in d.pub && n < 5 && MintedTo(d, e, f, n)
    ensures var ops := [CreatePriv(f), WritePriv(f, f), CreatePub(f), WritePub(f, f), ReplaceActive(f)];
      MintedTo(d, Exec(e, ops[n]), f, n + 1)
  {
  }

  lemma {:induction false} MintStage(d: Disk, f: Kid, n: nat)
    requires f !in d.priv && f !in d.pub && n <= 5
    ensures |RotateOps(d, f)| == 5 && MintedTo(d, ExecAll(d, RotateOps(d, f)[..n]), f, n)
  {
    MintList(d, f);
    var ops := RotateOps(d, f);
    hide Exec, RotateOps;
    if n == 0 {
      assert ops[..0] == [];
    } else {
      hide MintedTo, ExecAll;
      MintStage(d, f, n - 1);
      LastOp(d, ops, n);
      MintStep(d, ExecAll(d, ops[..n - 1]), f, n - 1);
    }
  }

  /** At every crash point of rotation, revocation and start-up, ACTIVE names a complete pair,
      given that it did and that any pending adoption has nothing torn. */
  lemma ActiveStaysComplete(d: Disk, f: Kid, kid: Kid, n: nat)
    requires ActiveComplete(d) && f !in d.priv && f !in d.pub
    requires Migrates(d) ==> Safe(d, d.legacyPub.value)
    ensures n <= |RotateOps(d, f)| ==> ActiveComplete(ExecAll(d, RotateOps(d, f)[..n]))
    ensures n <= 2 && d.marker != Names(kid) ==> ActiveComplete(ExecAll(d, RevokeOps(kid)[..n]))
    ensures n <= |EnsureOps(d, f)| ==> ActiveComplete(ExecAll(d, EnsureOps(d, f)[..n]))
  {
    MintStage(d, f, 0);
    if n <= |RotateOps(d, f)| {
      MintStage(d, f, n);
      if d.marker.Names? {
        MintKeepsOthers(d, f, n, d.marker.kid);
      }
    }
    if n <= 2 {
      RevokeStage(d, kid, n);
    }
    if Migrates(d) && n <= |MigrateOps(d)| {
      AdoptionStage(d, d.legacyPub.value, n);
      AdoptionOp(d, d.legacyPub.value, 0);
    }
  }

  lemma RevokeStage(d: Disk, kid: Kid, n: nat)
    requires n <= 2
    ensures var d' := ExecAll(d, RevokeOps(kid)[..n]);
      && d'.marker == d.marker && forall k :: k != kid ==> SameFiles(d, d', k)
  {
    ExecTwo(d, UnlinkPriv(kid), UnlinkPub(kid));
    assert RevokeOps(kid)[..0] == [] && RevokeOps(kid)[..1] == [UnlinkPriv(kid)];
    assert RevokeOps(kid)[..2] == RevokeOps(kid);
  }
}
